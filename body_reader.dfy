/** `amqpBodyReader`: the `io.Reader` over a message body that the bridge hands to
    the HTTP request. It keeps the body and an offset; each `Read` copies the next
    bytes into the caller's buffer and reports `io.EOF` once the offset has reached
    the end of the body, possibly together with the final bytes. */
module BodyReaders {
  import opened Basics

  /** What one `Read` returns: the bytes copied into the buffer, and whether `io.EOF`
      came with them. */
  datatype ReadResult = ReadResult(data: seq<byte>, eof: bool)

  /** One `Read` with a buffer of `capacity` bytes from position `offset` of `body`:
      the next bytes of the body, as many as fit and as remain, with `io.EOF`
      exactly when the end has been reached after the call. */
  function ReadAt(body: seq<byte>, offset: nat, capacity: nat): (r: ReadResult)
    requires offset <= |body|
    ensures |r.data| <= capacity
    ensures offset + |r.data| <= |body| && r.data == body[offset..offset + |r.data|]
    ensures |r.data| == capacity || offset + |r.data| == |body|
    ensures r.eof <==> offset + |r.data| == |body|
  {
    var n := if offset < |body| then (if capacity < |body| - offset then capacity else |body| - offset) else 0;
    ReadResult(body[offset..offset + n], offset + n >= |body|)
  }

  /** All bytes of a series of reads, in order. */
  function Concat(rs: seq<ReadResult>): (bytes: seq<byte>)
  {
    if rs == [] then [] else rs[0].data + Concat(rs[1..])
  }

  /** A series of `Read` calls with buffers of the given sizes, starting at `offset`. */
  function Reads(body: seq<byte>, offset: nat, capacities: seq<nat>): (rs: seq<ReadResult>)
    requires offset <= |body|
    ensures |rs| == |capacities|
    decreases |capacities|
  {
    if capacities == [] then []
    else
      var r := ReadAt(body, offset, capacities[0]);
      [r] + Reads(body, offset + |r.data|, capacities[1..])
  }

  /** Conservation: the bytes of any series of reads are exactly the next part of the
      body, in order, and never run past its end. */
  lemma {:induction false} ReadsConserveBytes(body: seq<byte>, offset: nat, capacities: seq<nat>)
    requires offset <= |body|
    ensures offset + |Concat(Reads(body, offset, capacities))| <= |body|
    ensures Concat(Reads(body, offset, capacities)) ==
            body[offset..offset + |Concat(Reads(body, offset, capacities))|]
    decreases |capacities|
  {
    if capacities != [] {
      var rs := Reads(body, offset, capacities);
      var r := ReadAt(body, offset, capacities[0]);
      assert rs[0] == r && rs[1..] == Reads(body, offset + |r.data|, capacities[1..]);
      ReadsConserveBytes(body, offset + |r.data|, capacities[1..]);
      var rest := Concat(rs[1..]);
      assert Concat(rs) == r.data + rest;
      assert body[offset..offset + |r.data| + |rest|] ==
             body[offset..offset + |r.data|] + body[offset + |r.data|..offset + |r.data| + |rest|];
    }
  }

  /** EOF timing: read `i` reports `io.EOF` exactly when the bytes returned up to and
      including it reach the end of the body, and every read after an `io.EOF`
      returns no bytes and `io.EOF` again. */
  lemma {:induction false} ReadsEofTiming(body: seq<byte>, offset: nat, capacities: seq<nat>, i: nat)
    requires offset <= |body| && i < |capacities|
    ensures Reads(body, offset, capacities)[i].eof <==>
            offset + |Concat(Reads(body, offset, capacities)[..i + 1])| == |body|
    ensures forall j :: 0 <= j < i && Reads(body, offset, capacities)[j].eof ==>
            Reads(body, offset, capacities)[i] == ReadResult([], true)
    decreases |capacities|
  {
    var rs := Reads(body, offset, capacities);
    var r := ReadAt(body, offset, capacities[0]);
    assert rs[0] == r;
    if i == 0 {
      assert rs[..1] == [r];
      assert Concat(rs[..1]) == r.data + Concat([]);
    } else {
      var next := offset + |r.data|;
      var tail := Reads(body, next, capacities[1..]);
      assert rs[1..] == tail;
      ReadsEofTiming(body, next, capacities[1..], i - 1);
      assert rs[..i + 1] == [r] + tail[..i];
      assert rs[..i + 1][1..] == tail[..i];
      assert Concat(rs[..i + 1]) == r.data + Concat(tail[..i]);
      if r.eof {
        AtEndStaysAtEnd(body, next, capacities[1..]);
      }
      forall j | 0 <= j < i && rs[j].eof
        ensures rs[i] == ReadResult([], true)
      {
        if j == 0 {
          AtEndStaysAtEnd(body, next, capacities[1..]);
        } else {
          assert tail[j - 1].eof;
        }
      }
    }
  }

  /** At the end of the body every read returns no bytes and `io.EOF`. */
  lemma {:induction false} AtEndStaysAtEnd(body: seq<byte>, offset: nat, capacities: seq<nat>)
    requires offset == |body|
    ensures forall k :: 0 <= k < |capacities| ==> Reads(body, offset, capacities)[k] == ReadResult([], true)
    ensures Concat(Reads(body, offset, capacities)) == []
    decreases |capacities|
  {
    if capacities != [] {
      var rs := Reads(body, offset, capacities);
      assert rs[0] == ReadResult([], true);
      AtEndStaysAtEnd(body, offset, capacities[1..]);
      assert rs[1..] == Reads(body, offset, capacities[1..]);
      assert Concat(rs) == [] + Concat(rs[1..]);
    }
  }

  /** Draining: with non-empty buffers, as many reads as there are bytes left return
      the rest of the body exactly, and the last of them reports `io.EOF`. */
  lemma {:induction false} ReadsDrain(body: seq<byte>, offset: nat, capacities: seq<nat>)
    requires offset <= |body|
    requires forall k :: 0 <= k < |capacities| ==> capacities[k] > 0
    requires |capacities| >= |body| - offset
    ensures Concat(Reads(body, offset, capacities)) == body[offset..]
    ensures |capacities| > 0 ==> Reads(body, offset, capacities)[|capacities| - 1].eof
    decreases |capacities|
  {
    if offset == |body| {
      AtEndStaysAtEnd(body, offset, capacities);
    } else {
      var rs := Reads(body, offset, capacities);
      var r := ReadAt(body, offset, capacities[0]);
      var next := offset + |r.data|;
      assert rs[0] == r && rs[1..] == Reads(body, next, capacities[1..]);
      assert |r.data| >= 1;
      ReadsDrain(body, next, capacities[1..]);
      assert Concat(rs) == r.data + Concat(rs[1..]);
      assert body[offset..] == body[offset..next] + body[next..];
      if |capacities| == 1 {
        assert next == |body|;
      } else {
        assert rs[|capacities| - 1] == rs[1..][|capacities| - 2];
      }
    }
  }

  /** An empty body answers its first read with no bytes and `io.EOF`. */
  lemma EmptyBodyFirstRead(capacity: nat)
    ensures Reads([], 0, [capacity]) == [ReadResult([], true)]
  {
  }

  /** The reader object of `newAmqpBodyReader`. `delivered` records, for the proof,
      every byte any `Read` has handed out so far. */
  class BodyReader {
    const body: seq<byte>
    var offset: nat
    ghost var delivered: seq<byte>

    /** The offset stays within the body and the bytes handed out are its prefix. */
    ghost predicate Valid()
      reads this
    {
      offset <= |body| && delivered == body[..offset]
    }

    /** `newAmqpBodyReader(b)`. */
    constructor (b: seq<byte>)
      ensures Valid()
      ensures body == b && offset == 0 && delivered == []
    {
      body := b;
      offset := 0;
      delivered := [];
    }

    /** `Read(out)`: `copy` the next bytes into `out`, advance the offset by the count,
        and return `io.EOF` (`eof`) when the offset has reached the end of the body. */
    method Read(out: array<byte>) returns (n: nat, eof: bool)
      requires Valid()
      modifies this, out
      ensures Valid()
      ensures n <= out.Length
      ensures ReadResult(out[..n], eof) == ReadAt(body, old(offset), out.Length)
      ensures offset == old(offset) + n
      ensures out[n..] == old(out[n..])
      ensures delivered == old(delivered) + out[..n]
      ensures eof ==> delivered == body
    {
      n := 0;
      if offset < |body| {
        var remaining := |body| - offset;
        n := if out.Length < remaining then out.Length else remaining;
        forall i | 0 <= i < n {
          out[i] := body[offset + i];
        }
        assert out[..n] == body[offset..offset + n];
        offset := offset + n;
        delivered := delivered + out[..n];
        assert delivered == body[..offset];
      }
      eof := offset >= |body|;
    }
  }
}
