/** `Adapter.Start`: parse the source address, fix SpecSource, dial, attach a
    receiver, then receive, post and settle one message at a time. Every failure
    goes through `fatalIf`, which logs and exits; here it ends the run in a
    `Halted` status. The networking calls are given as an `Environment` of outcomes,
    and the endless `for` loop runs over a finite sequence of `Receive` results:
    when they run out, the bridge is `Blocked` in `Receive`. */
module Bridge {
  import opened Basics
  import opened Amqp
  import opened Translate
  import opened Connection

  /** One `r.Receive()`: a message, or an error of the link or session. */
  datatype ReceiveResult = Received(message: Message) | ReceiveError

  /** The settlement of a received message: `rm.Accept()` or `rm.Reject()`. */
  datatype Settlement = Accepted(message: Message) | Rejected(message: Message, error: PostError)

  /** Why `fatalIf` stopped the process. */
  datatype Fatal =
    | BadSourceUri            // amqp.ParseURL failed
    | BadRootCAEncoding       // dial: the RootCA text is not PEM
    | DialFailed              // net.Dial or tls.Dial failed
    | ConnectionFailed        // container.Connection failed
    | ReceiverFailed          // amqpconn.Receiver failed
    | ReceiveFailed           // r.Receive() failed
    | DispatchFailed(error: PostError)  // postMessage failed (after the Reject)

  /** `Blocked`: waiting in `Receive` for a message that has not come. */
  datatype Status = Halted(reason: Fatal) | Blocked

  /** The settlements the loop made, in order, and how it stopped. */
  datatype LoopOutcome = LoopOutcome(settled: seq<Settlement>, status: Status)

  /** The `for` loop of `Start` over the receive results `receives`. */
  function Loop(specSource: string, sink: Sink, receives: seq<ReceiveResult>): (r: LoopOutcome)
    ensures |r.settled| <= |receives|
    // the loop stops only on a receive or a dispatch failure
    ensures r.status == Blocked || r.status == Halted(ReceiveFailed) || r.status.reason.DispatchFailed?
    decreases |receives|
  {
    if receives == [] then LoopOutcome([], Blocked)
    else match receives[0]
      case ReceiveError => LoopOutcome([], Halted(ReceiveFailed))
      case Received(m) =>
        match Post(specSource, sink, m)
        case None =>
          var rest := Loop(specSource, sink, receives[1..]);
          LoopOutcome([Accepted(m)] + rest.settled, rest.status)
        case Some(e) => LoopOutcome([Rejected(m, e)], Halted(DispatchFailed(e)))
  }

  /** How many `Receive` calls the loop made: one per settlement, plus the failed one. */
  function ReceiveCalls(r: LoopOutcome): nat {
    |r.settled| + if r.status == Halted(ReceiveFailed) then 1 else 0
  }

  /** Each received message is settled exactly once, in the order received, before
      the next `Receive`: settlement `i` is for the `i`-th receive result, which was a
      message, and it is an Accept exactly when posting that message succeeded, a
      Reject carrying the post's error otherwise. */
  lemma {:induction false} LoopSettlesEachMessageOnce(specSource: string, sink: Sink, receives: seq<ReceiveResult>)
    ensures var r := Loop(specSource, sink, receives);
            && ReceiveCalls(r) <= |receives|
            && forall i :: 0 <= i < |r.settled| ==>
                 && receives[i].Received?
                 && r.settled[i].message == receives[i].message
                 && (r.settled[i].Accepted? <==> Post(specSource, sink, receives[i].message) == None)
                 && (r.settled[i].Rejected? ==> Post(specSource, sink, receives[i].message) == Some(r.settled[i].error))
    decreases |receives|
  {
    if receives != [] && receives[0].Received? {
      var m := receives[0].message;
      if Post(specSource, sink, m) == None {
        var rest := Loop(specSource, sink, receives[1..]);
        LoopSettlesEachMessageOnce(specSource, sink, receives[1..]);
        var r := Loop(specSource, sink, receives);
        assert r.settled == [Accepted(m)] + rest.settled;
        forall i | 1 <= i < |r.settled|
          ensures receives[i] == receives[1..][i - 1] && r.settled[i] == rest.settled[i - 1]
        {
        }
      }
    }
  }

  /** Only the last settlement can be a Reject: every earlier one is an Accept. */
  lemma {:induction false} LoopRejectIsLast(specSource: string, sink: Sink, receives: seq<ReceiveResult>)
    ensures var r := Loop(specSource, sink, receives);
            forall i :: 0 <= i < |r.settled| - 1 ==> r.settled[i].Accepted?
    decreases |receives|
  {
    if receives != [] && receives[0].Received? && Post(specSource, sink, receives[0].message) == None {
      var rest := Loop(specSource, sink, receives[1..]);
      LoopAcceptStep(specSource, sink, receives);
      LoopRejectIsLast(specSource, sink, receives[1..]);
      AcceptedBeforeLastCons(receives[0].message, rest.settled);
    }
  }

  /** A failed post leads to a Reject and then a halt: the loop halts with a
      dispatch failure exactly when its last settlement is a Reject, and the failure
      carries that Reject's error. */
  lemma {:induction false} LoopRejectHalts(specSource: string, sink: Sink, receives: seq<ReceiveResult>)
    ensures var r := Loop(specSource, sink, receives);
            && (r.status.Halted? && r.status.reason.DispatchFailed? <==>
                |r.settled| > 0 && r.settled[|r.settled| - 1].Rejected?)
            && (r.status.Halted? && r.status.reason.DispatchFailed? ==>
                r.status.reason.error == r.settled[|r.settled| - 1].error)
    decreases |receives|
  {
    if receives != [] && receives[0].Received? && Post(specSource, sink, receives[0].message) == None {
      var rest := Loop(specSource, sink, receives[1..]);
      LoopAcceptStep(specSource, sink, receives);
      LoopRejectHalts(specSource, sink, receives[1..]);
      var r := Loop(specSource, sink, receives);
      if rest.settled != [] {
        assert r.settled[|r.settled| - 1] == rest.settled[|rest.settled| - 1];
      }
    }
  }

  /** A prefix of Accepts in front of settlements whose only possible Reject is the
      last one keeps that shape. */
  lemma AcceptedBeforeLastCons(m: Message, settled: seq<Settlement>)
    requires forall i :: 0 <= i < |settled| - 1 ==> settled[i].Accepted?
    ensures var s := [Accepted(m)] + settled;
            forall i :: 0 <= i < |s| - 1 ==> s[i].Accepted?
  {
    var s := [Accepted(m)] + settled;
    forall i | 0 <= i < |s| - 1
      ensures s[i].Accepted?
    {
      if i > 0 {
        assert s[i] == settled[i - 1];
      }
    }
  }

  predicate AllAccepted(settled: seq<Settlement>) {
    forall i :: 0 <= i < |settled| ==> settled[i].Accepted?
  }

  lemma AllAcceptedCons(m: Message, settled: seq<Settlement>)
    ensures AllAccepted([Accepted(m)] + settled) <==> AllAccepted(settled)
  {
    var s := [Accepted(m)] + settled;
    assert forall i :: 0 <= i < |settled| ==> settled[i] == s[i + 1];
    assert s[0].Accepted?;
  }

  /** The first result of `receives` is a message whose post succeeds: the loop
      accepts it and goes on with the rest. */
  lemma LoopAcceptStep(specSource: string, sink: Sink, receives: seq<ReceiveResult>)
    requires receives != [] && receives[0].Received?
    requires Post(specSource, sink, receives[0].message) == None
    ensures var r := Loop(specSource, sink, receives);
            var rest := Loop(specSource, sink, receives[1..]);
            && r.settled == [Accepted(receives[0].message)] + rest.settled
            && r.status == rest.status
            && (AllAccepted(r.settled) <==> AllAccepted(rest.settled))
  {
    AllAcceptedCons(receives[0].message, Loop(specSource, sink, receives[1..]).settled);
  }

  /** The loop halts on a receive error, with no settlement for it, exactly when the
      receive result after the settled ones is an error and every settlement so far
      is an Accept. */
  lemma {:induction false} LoopHaltsOnReceiveError(specSource: string, sink: Sink, receives: seq<ReceiveResult>)
    ensures var r := Loop(specSource, sink, receives);
            r.status == Halted(ReceiveFailed) <==>
              |r.settled| < |receives| && receives[|r.settled|].ReceiveError? && AllAccepted(r.settled)
    decreases |receives|
  {
    if receives != [] && receives[0].Received? && Post(specSource, sink, receives[0].message) == None {
      LoopAcceptStep(specSource, sink, receives);
      LoopHaltsOnReceiveError(specSource, sink, receives[1..]);
      var n := |Loop(specSource, sink, receives[1..]).settled|;
      if n < |receives| - 1 {
        assert receives[1..][n] == receives[n + 1];
      }
    } else if receives != [] && receives[0].Received? {
      assert Loop(specSource, sink, receives).settled[0].Rejected?;
    }
  }

  /** The loop is still waiting in `Receive` exactly when every receive result was a
      message and each of them was posted and accepted. */
  lemma {:induction false} LoopBlockedWhenAllAccepted(specSource: string, sink: Sink, receives: seq<ReceiveResult>)
    ensures var r := Loop(specSource, sink, receives);
            r.status == Blocked <==> |r.settled| == |receives| && AllAccepted(r.settled)
    decreases |receives|
  {
    if receives != [] && receives[0].Received? {
      if Post(specSource, sink, receives[0].message) == None {
        LoopAcceptStep(specSource, sink, receives);
        LoopBlockedWhenAllAccepted(specSource, sink, receives[1..]);
      } else {
        assert Loop(specSource, sink, receives).settled[0].Rejected?;
      }
    }
  }

  /** The bridge's configuration, the exported fields of `Adapter`. */
  datatype Config = Config(sourceUri: string, sinkUri: string, credit: uint64,
                           insecureTlsConnection: bool, rootCA: string)

  /** The outcomes of the calls `Start` makes into libraries and the network. */
  datatype Environment = Environment(
    parseUrl: string -> Option<ParsedUrl>,
    pemValid: string -> bool,
    dialSucceeds: Transport -> bool,
    connectionSucceeds: Transport -> bool,
    receiverSucceeds: LinkOptions -> bool,
    receives: seq<ReceiveResult>,
    requestBuilds: Request -> bool,
    roundTrip: Request -> RoundTrip)

  /** What a run of `Start` did: the SpecSource it set, the transport it dialed, the
      receiver link it asked for, the settlements it made and how it stopped. */
  datatype StartOutcome = StartOutcome(
    specSource: Option<string>,
    dialed: Option<Transport>,
    link: Option<LinkOptions>,
    settled: seq<Settlement>,
    status: Status)

  function SinkOf(cfg: Config, env: Environment): Sink {
    Sink(cfg.sinkUri, env.requestBuilds, env.roundTrip)
  }

  /** `Start`, step by step. Each step happens only once the one before it has
      succeeded: parse, SpecSource, dial, connection, receiver, loop. */
  function Run(cfg: Config, env: Environment): (r: StartOutcome)
    ensures r.specSource.Some? <==> env.parseUrl(cfg.sourceUri).Some?
    ensures r.dialed.Some? ==> r.specSource.Some?
    ensures r.link.Some? ==>
      r.dialed.Some? && env.dialSucceeds(r.dialed.value) && env.connectionSucceeds(r.dialed.value)
    ensures r.settled != [] || r.status == Blocked || r.status == Halted(ReceiveFailed) ==>
      r.link.Some? && env.receiverSucceeds(r.link.value)
    // a stop before the loop comes from the step that failed
    ensures r.link.None? ==>
      r.settled == [] && r.status.Halted? &&
      r.status.reason in {BadSourceUri, BadRootCAEncoding, DialFailed, ConnectionFailed}
    // the transport is the one `dial` chose, the link the one asked for, and once the
    // receiver is attached the run is the loop over the SpecSource just set
    ensures env.parseUrl(cfg.sourceUri).Some? ==>
      var u := env.parseUrl(cfg.sourceUri).value;
      var plan := Dial(u, cfg.rootCA, cfg.insecureTlsConnection, env.pemValid);
      && (plan.DialTransport? ==> r.dialed == Some(plan.transport))
      && (plan.BadRootCA? ==> r.dialed.None?)
      && (r.link.Some? ==> r.link.value == ReceiverOptions(u, cfg.credit))
      && (r.link.Some? && env.receiverSucceeds(r.link.value) ==>
            LoopOutcome(r.settled, r.status) == Loop(SpecSource(u), SinkOf(cfg, env), env.receives))
    // each failure before the loop names its own step
    ensures r.status == Halted(DialFailed) <==> r.dialed.Some? && !env.dialSucceeds(r.dialed.value)
    ensures r.status == Halted(ConnectionFailed) <==>
      r.dialed.Some? && env.dialSucceeds(r.dialed.value) && !env.connectionSucceeds(r.dialed.value)
    ensures r.dialed.Some? && env.dialSucceeds(r.dialed.value) && env.connectionSucceeds(r.dialed.value) ==>
      r.link.Some?
    ensures r.status == Halted(ReceiverFailed) <==> r.link.Some? && !env.receiverSucceeds(r.link.value)
  {
    match env.parseUrl(cfg.sourceUri)
    case None => StartOutcome(None, None, None, [], Halted(BadSourceUri))
    case Some(u) =>
      var src := SpecSource(u);
      match Dial(u, cfg.rootCA, cfg.insecureTlsConnection, env.pemValid)
      case BadRootCA => StartOutcome(Some(src), None, None, [], Halted(BadRootCAEncoding))
      case DialTransport(t) =>
        if !env.dialSucceeds(t) then StartOutcome(Some(src), Some(t), None, [], Halted(DialFailed))
        else if !env.connectionSucceeds(t) then StartOutcome(Some(src), Some(t), None, [], Halted(ConnectionFailed))
        else
          var opts := ReceiverOptions(u, cfg.credit);
          if !env.receiverSucceeds(opts) then StartOutcome(Some(src), Some(t), Some(opts), [], Halted(ReceiverFailed))
          else
            var l := Loop(src, SinkOf(cfg, env), env.receives);
            StartOutcome(Some(src), Some(t), Some(opts), l.settled, l.status)
  }

  /** SpecSource is set once, right after the address parses and before any dial,
      whether or not the dial then succeeds; a bad address sets nothing and dials
      nothing. */
  lemma SpecSourceSetBeforeDial(cfg: Config, env: Environment)
    ensures var r := Run(cfg, env);
            && (env.parseUrl(cfg.sourceUri).None? <==> r.status == Halted(BadSourceUri))
            && (env.parseUrl(cfg.sourceUri).None? ==> r.specSource.None? && r.dialed.None?)
            && (env.parseUrl(cfg.sourceUri).Some? ==>
                  r.specSource == Some(SpecSource(env.parseUrl(cfg.sourceUri).value)))
  {
  }

  /** Unusable root-CA material under a TLS scheme stops the bridge before any
      dial; under scheme amqp it is never looked at. */
  lemma BadRootCAStopsBeforeDial(cfg: Config, env: Environment)
    ensures var r := Run(cfg, env);
            r.status == Halted(BadRootCAEncoding) <==>
              && env.parseUrl(cfg.sourceUri).Some?
              && env.parseUrl(cfg.sourceUri).value.scheme != "amqp"
              && cfg.rootCA != ""
              && !env.pemValid(cfg.rootCA)
    ensures Run(cfg, env).status == Halted(BadRootCAEncoding) ==> Run(cfg, env).dialed.None?
  {
  }

  /** The receiver is attached to the path without its leading `/` and with the
      configured credit, and messages are only settled once it is attached. */
  lemma SettlementsFollowAttach(cfg: Config, env: Environment)
    ensures var r := Run(cfg, env);
            r.link.Some? ==>
              && env.parseUrl(cfg.sourceUri).Some?
              && r.link == Some(ReceiverOptions(env.parseUrl(cfg.sourceUri).value, cfg.credit))
              && r.dialed.Some?
    ensures var r := Run(cfg, env);
            r.settled != [] ==> r.link.Some? && env.receiverSucceeds(r.link.value)
  {
  }

  /** The `Adapter` object: its configuration fields, and `SpecSource`, which `Start`
      assigns. */
  class Adapter {
    const sourceUri: string
    const sinkUri: string
    const credit: uint64
    const insecureTlsConnection: bool
    const rootCA: string
    var specSource: string

    constructor (sourceUri: string, sinkUri: string, credit: uint64, insecureTlsConnection: bool, rootCA: string)
      ensures Configuration() == Config(sourceUri, sinkUri, credit, insecureTlsConnection, rootCA)
      ensures specSource == ""
    {
      this.sourceUri := sourceUri;
      this.sinkUri := sinkUri;
      this.credit := credit;
      this.insecureTlsConnection := insecureTlsConnection;
      this.rootCA := rootCA;
      this.specSource := "";
    }

    function Configuration(): Config {
      Config(sourceUri, sinkUri, credit, insecureTlsConnection, rootCA)
    }

    /** The `for` loop: receive, post, then Accept on success or Reject and halt on
        failure; a receive error halts with no settlement. */
    method ReceiveLoop(sink: Sink, receives: seq<ReceiveResult>) returns (settled: seq<Settlement>, status: Status)
      ensures LoopOutcome(settled, status) == Loop(specSource, sink, receives)
    {
      settled := [];
      var i := 0;
      while i < |receives|
        invariant 0 <= i <= |receives|
        invariant Loop(specSource, sink, receives) ==
                  LoopOutcome(settled + Loop(specSource, sink, receives[i..]).settled,
                              Loop(specSource, sink, receives[i..]).status)
      {
        ghost var here := Loop(specSource, sink, receives[i..]);
        ghost var next := Loop(specSource, sink, receives[i + 1..]);
        assert receives[i..][0] == receives[i] && receives[i..][1..] == receives[i + 1..];
        if receives[i].ReceiveError? {
          assert here == LoopOutcome([], Halted(ReceiveFailed));
          assert settled + [] == settled;
          status := Halted(ReceiveFailed);
          return;
        }
        var m := receives[i].message;
        var err := Post(specSource, sink, m);
        if err.Some? {
          assert here == LoopOutcome([Rejected(m, err.value)], Halted(DispatchFailed(err.value)));
          settled := settled + [Rejected(m, err.value)];
          status := Halted(DispatchFailed(err.value));
          return;
        }
        assert here == LoopOutcome([Accepted(m)] + next.settled, next.status);
        assert settled + ([Accepted(m)] + next.settled) == (settled + [Accepted(m)]) + next.settled;
        settled := settled + [Accepted(m)];
        i := i + 1;
      }
      assert receives[i..] == [];
      assert settled + [] == settled;
      status := Blocked;
    }

    /** `Start()`: the SpecSource it assigns and everything it does, as `Run` says. */
    method Start(env: Environment) returns (r: StartOutcome)
      modifies this
      ensures r == Run(Configuration(), env)
      ensures specSource == if r.specSource.Some? then r.specSource.value else old(specSource)
    {
      var parsed := env.parseUrl(sourceUri);
      if parsed.None? {
        return StartOutcome(None, None, None, [], Halted(BadSourceUri));
      }
      var u := parsed.value;
      specSource := SpecSource(u);
      var plan := Dial(u, rootCA, insecureTlsConnection, env.pemValid);
      if plan.BadRootCA? {
        return StartOutcome(Some(specSource), None, None, [], Halted(BadRootCAEncoding));
      }
      var t := plan.transport;
      if !env.dialSucceeds(t) {
        return StartOutcome(Some(specSource), Some(t), None, [], Halted(DialFailed));
      }
      if !env.connectionSucceeds(t) {
        return StartOutcome(Some(specSource), Some(t), None, [], Halted(ConnectionFailed));
      }
      var opts := ReceiverOptions(u, credit);
      if !env.receiverSucceeds(opts) {
        return StartOutcome(Some(specSource), Some(t), Some(opts), [], Halted(ReceiverFailed));
      }
      var settled, status := ReceiveLoop(SinkOf(Configuration(), env), env.receives);
      r := StartOutcome(Some(specSource), Some(t), Some(opts), settled, status);
    }
  }
}
