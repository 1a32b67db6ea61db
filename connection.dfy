/** What `Start` derives from the parsed source address before it receives anything:
    the SpecSource string, the receiver link's address and options, and the choice
    `dial` makes between a plain TCP and a TLS transport. */
module Connection {
  import opened Basics

  /** The parts of the `*url.URL` that `amqp.ParseURL` returns which the bridge uses:
      `Scheme`, `Hostname()`, `Port()` and `Path`. */
  datatype ParsedUrl = ParsedUrl(scheme: string, hostname: string, port: string, path: string)
  {
    /** `u.Host`, the address handed to the dialer. */
    function Host(): (r: string)
      ensures |r| == |hostname| + 1 + |port|
      ensures r[..|hostname|] == hostname && r[|hostname|] == ':' && r[|hostname| + 1..] == port
    {
      hostname + ":" + port
    }
  }

  /** `fmt.Sprintf("%s://%s:%s/%s", u.Scheme, u.Hostname(), u.Port(), u.Path)`. */
  function SpecSource(u: ParsedUrl): (r: string)
    ensures |r| == |u.scheme| + |u.hostname| + |u.port| + |u.path| + 5
    // it opens with the scheme and `://`, and ends with `/` and the whole path
    ensures r[..|u.scheme| + 3] == u.scheme + "://"
    ensures r[|r| - |u.path| - 1..] == "/" + u.path
    // in between, the dial address `host:port`
    ensures r[|u.scheme| + 3..|r| - |u.path| - 1] == u.Host()
  {
    var r := u.scheme + "://" + u.hostname + ":" + u.port + "/" + u.path;
    assert r == (u.scheme + "://") + u.Host() + ("/" + u.path);
    r
  }

  /** `strings.TrimPrefix(u.Path, "/")`: the receiver link's source address. */
  function ReceiverAddress(path: string): (r: string)
    ensures |path| > 0 && path[0] == '/' ==> "/" + r == path
    ensures !(|path| > 0 && path[0] == '/') ==> r == path
  {
    if |path| > 0 && path[0] == '/' then path[1..] else path
  }

  /** The path of a parsed URL starts with `/`, which the format string in `Start`
      keeps while adding one of its own: SpecSource has `//` between the port and the
      receiver address. */
  lemma SpecSourceHasDoubleSlash(u: ParsedUrl)
    requires |u.path| > 0 && u.path[0] == '/'
    ensures SpecSource(u) == u.scheme + "://" + u.hostname + ":" + u.port + "//" + ReceiverAddress(u.path)
  {
    var a := ReceiverAddress(u.path);
    assert u.path == "/" + a;
    assert SpecSource(u) == (u.scheme + "://" + u.hostname + ":" + u.port + "/") + ("/" + a);
  }

  /** The source address `amqp://broker:5672/queue1` parses to path `/queue1`; the
      bridge then names itself `amqp://broker:5672//queue1` and attaches to `queue1`. */
  lemma SpecSourceExample()
    ensures SpecSource(ParsedUrl("amqp", "broker", "5672", "/queue1")) == "amqp://broker:5672//queue1"
    ensures SpecSource(ParsedUrl("amqp", "broker", "5672", "/queue1")) != "amqp://broker:5672/queue1"
    ensures ReceiverAddress("/queue1") == "queue1"
  {
    var u := ParsedUrl("amqp", "broker", "5672", "/queue1");
    assert SpecSource(u) == "amqp://broker:5672//queue1";
    assert |"amqp://broker:5672/queue1"| == 25;
    assert "/queue1"[1..] == "queue1";
  }

  /** The options of the receiver link: `electron.Source(addr)`,
      `electron.Capacity(int(a.Credit))` and `electron.Prefetch(true)`. */
  datatype LinkOptions = LinkOptions(source: string, capacity: int, prefetch: bool)

  function ReceiverOptions(u: ParsedUrl, credit: uint64): (r: LinkOptions)
    ensures r.source == ReceiverAddress(u.path)
    ensures r.prefetch
    ensures r.capacity == GoInt(credit)
    ensures credit < 0x8000_0000_0000_0000 ==> r.capacity == credit as int
    ensures credit >= 0x8000_0000_0000_0000 ==> r.capacity < 0
  {
    LinkOptions(ReceiverAddress(u.path), GoInt(credit), true)
  }

  /** The trust pool `x509.NewCertPool()` filled from the PEM text `pem`. */
  datatype CertPool = PoolFromPem(pem: string)

  /** The two fields of `tls.Config` that `dial` sets. `RootCAs == None` is a nil
      pool: the system's default roots. */
  datatype TlsConfig = TlsConfig(rootCAs: Option<CertPool>, insecureSkipVerify: bool)

  datatype Transport = Tcp(address: string) | Tls(address: string, config: TlsConfig)

  /** What `dial` does before any network I/O: open a transport, or fail with
      `bad Root CA encoding`. */
  datatype DialPlan = DialTransport(transport: Transport) | BadRootCA

  /** `dial(u)`. `pemValid(p)` says whether `AppendCertsFromPEM` accepts `p`. */
  function Dial(u: ParsedUrl, rootCA: string, insecure: bool, pemValid: string -> bool): (r: DialPlan)
    // only a TLS scheme with a non-empty RootCA that does not parse fails
    ensures r.BadRootCA? <==> u.scheme != "amqp" && rootCA != "" && !pemValid(rootCA)
    // scheme amqp dials plain TCP, whatever the TLS options hold
    ensures u.scheme == "amqp" <==> r == DialTransport(Tcp(u.Host()))
    // any other scheme that passes the RootCA check dials TLS
    ensures u.scheme != "amqp" && !r.BadRootCA? ==> r.DialTransport? && r.transport.Tls?
    ensures r.DialTransport? && r.transport.Tls? ==>
      && r.transport.address == u.Host()
      && r.transport.config.insecureSkipVerify == insecure
      && (rootCA == "" <==> r.transport.config.rootCAs == None)
      && (rootCA != "" ==> r.transport.config.rootCAs == Some(PoolFromPem(rootCA)) && pemValid(rootCA))
  {
    if u.scheme == "amqp" then DialTransport(Tcp(u.Host()))
    else if rootCA != "" && !pemValid(rootCA) then BadRootCA
    else
      var roots := if rootCA != "" then Some(PoolFromPem(rootCA)) else None;
      DialTransport(Tls(u.Host(), TlsConfig(roots, insecure)))
  }

  /** With scheme amqp the RootCA text is never parsed: even unusable trust material
      and the skip-verify flag leave the plain TCP dial unchanged. */
  lemma PlainDialIgnoresTls(u: ParsedUrl, ca1: string, ca2: string, i1: bool, i2: bool,
                            v1: string -> bool, v2: string -> bool)
    requires u.scheme == "amqp"
    ensures Dial(u, ca1, i1, v1) == Dial(u, ca2, i2, v2)
  {
  }
}
