/** How a UUID message-id becomes text: the Qpid Proton Go binding's
    `amqp.UUID.String()`, which wraps the dashed hex form in `UUID(...)`, the
    unwrapping `s[5:len(s)-1]` the bridge applies to it, and the canonical textual
    form of RFC 4122, section 3, as an independent reference. */
module UuidText {
  import opened Basics
  import opened Amqp

  predicate IsHexDigit(c: char) {
    '0' <= c <= '9' || 'a' <= c <= 'f'
  }

  /** The lower-case hex digit for a 4-bit value, as Go's `%x` writes it. */
  function HexDigit(v: int): (c: char)
    requires 0 <= v < 16
    ensures IsHexDigit(c)
  {
    if v < 10 then ('0' as int + v) as char else ('a' as int + (v - 10)) as char
  }

  /** The 4-bit value of a lower-case hex digit. */
  function HexValue(c: char): (v: int)
    requires IsHexDigit(c)
    ensures 0 <= v < 16
  {
    if c <= '9' then c as int - '0' as int else c as int - 'a' as int + 10
  }

  lemma HexRoundTrip(v: int)
    requires 0 <= v < 16
    ensures HexValue(HexDigit(v)) == v
  {
  }

  /** Nibble `j` of a byte string, the high half of each byte first. */
  function Nibble(bs: seq<byte>, j: nat): (v: int)
    requires j < 2 * |bs|
    ensures 0 <= v < 16
  {
    if j % 2 == 0 then bs[j / 2] as int / 16 else bs[j / 2] as int % 16
  }

  /** Go's `fmt.Sprintf("%x", bs)` on a byte slice: two lower-case hex digits per byte. */
  function Hex(bs: seq<byte>): (r: string)
    ensures |r| == 2 * |bs|
    ensures forall j :: 0 <= j < |r| ==> r[j] == HexDigit(Nibble(bs, j))
  {
    if bs == [] then ""
    else
      var head := [HexDigit(bs[0] as int / 16), HexDigit(bs[0] as int % 16)];
      var tail := Hex(bs[1..]);
      assert forall j :: 2 <= j < 2 * |bs| ==> Nibble(bs[1..], j - 2) == Nibble(bs, j);
      head + tail
  }

  /** The dashed body `%x-%x-%x-%x-%x` over bytes 0-3, 4-5, 6-7, 8-9 and 10-15. */
  function Dashed(u: Uuid): (r: string)
  {
    Hex(u[..4]) + "-" + Hex(u[4..6]) + "-" + Hex(u[6..8]) + "-" + Hex(u[8..10]) + "-" + Hex(u[10..])
  }

  /** `amqp.UUID.String()`: `UUID(` + the dashed body + `)`. */
  function ProtonString(u: Uuid): (r: string)
    ensures |r| == 42
  {
    "UUID(" + Dashed(u) + ")"
  }

  /** The bridge's `s[5:len(s)-1]`. Go would panic on a string shorter than six
      bytes; `ProtonString` always yields 42. */
  function Unwrap(s: string): (r: string)
    requires |s| >= 6
    ensures |r| == |s| - 6
    ensures "UUID(" + r + ")" == s <==> s[..5] == "UUID(" && s[|s| - 1] == ')'
  {
    var r := s[5..|s| - 1];
    assert s == s[..5] + r + [s[|s| - 1]];
    r
  }

  /** Whether position `i` of the 36-character form holds a dash. */
  predicate IsDashPosition(i: int) {
    i == 8 || i == 13 || i == 18 || i == 23
  }

  /** Which nibble of the 16 bytes position `i` of the 36-character form shows. */
  function NibbleIndex(i: int): (j: nat)
    requires 0 <= i < 36 && !IsDashPosition(i)
    ensures j < 32
  {
    if i < 8 then i else if i < 13 then i - 1 else if i < 18 then i - 2 else if i < 23 then i - 3 else i - 4
  }

  /** RFC 4122, section 3: 36 characters, the 32 hex digits of the 16 bytes in order,
      high nibble first, with dashes after the 8th, 12th, 16th and 20th digit
      (lower case on output). */
  function Canonical(u: Uuid): (r: string)
    ensures |r| == 36
  {
    seq(36, i requires 0 <= i < 36 =>
      if IsDashPosition(i) then '-' else HexDigit(Nibble(u, NibbleIndex(i))))
  }

  /** The shape of the canonical form: dashes at 8, 13, 18 and 23, lower-case hex
      digits everywhere else. */
  predicate IsCanonicalText(s: string) {
    |s| == 36 &&
    forall i :: 0 <= i < 36 ==> if IsDashPosition(i) then s[i] == '-' else IsHexDigit(s[i])
  }

  /** The bytes a canonical text stands for. */
  function ParseCanonical(s: string): (u: Uuid)
    requires IsCanonicalText(s)
  {
    seq(16, k requires 0 <= k < 16 =>
      var p := HighPosition(k);
      (16 * HexValue(s[p]) + HexValue(s[p + 1])) as byte)
  }

  lemma DashedPieces(u: Uuid)
    ensures |Dashed(u)| == 36
    ensures Dashed(u)[..8] == Hex(u[..4])
    ensures Dashed(u)[9..13] == Hex(u[4..6])
    ensures Dashed(u)[14..18] == Hex(u[6..8])
    ensures Dashed(u)[19..23] == Hex(u[8..10])
    ensures Dashed(u)[24..] == Hex(u[10..])
    ensures forall i :: 0 <= i < 36 && IsDashPosition(i) ==> Dashed(u)[i] == '-'
  {
  }

  lemma HalfShift(lo: nat, j: nat)
    ensures (2 * lo + j) / 2 == lo + j / 2 && (2 * lo + j) % 2 == j % 2
  {
  }

  /** Nibble `j` of a slice is nibble `2 * lo + j` of the whole. */
  lemma NibbleOfSlice(u: Uuid, lo: nat, hi: nat, j: nat)
    requires lo <= hi <= 16 && j < 2 * (hi - lo)
    ensures Nibble(u[lo..hi], j) == Nibble(u, 2 * lo + j)
  {
    HalfShift(lo, j);
    assert u[lo..hi][j / 2] == u[lo + j / 2];
  }

  /** Position `i` of a hex rendering of `u[lo..hi]` that sits at offset `at` of `s`. */
  lemma HexSegmentAt(u: Uuid, lo: nat, hi: nat, s: string, at: nat, i: nat)
    requires lo <= hi <= 16 && at + 2 * (hi - lo) <= |s|
    requires s[at..at + 2 * (hi - lo)] == Hex(u[lo..hi])
    requires at <= i < at + 2 * (hi - lo)
    ensures s[i] == HexDigit(Nibble(u, 2 * lo + (i - at)))
  {
    var h := Hex(u[lo..hi]);
    assert s[i] == h[i - at];
    assert h[i - at] == HexDigit(Nibble(u[lo..hi], i - at));
    NibbleOfSlice(u, lo, hi, i - at);
  }

  lemma CanonicalAt(u: Uuid, i: int)
    requires 0 <= i < 36 && !IsDashPosition(i)
    ensures Canonical(u)[i] == HexDigit(Nibble(u, NibbleIndex(i)))
  {
  }

  /** Position `i` of the dashed body, inside the hex rendering of `u[lo..hi]` that
      starts at offset `at`, matches the canonical form. */
  lemma DashedSegmentAt(u: Uuid, lo: nat, hi: nat, at: nat, i: int)
    requires lo <= hi <= 16 && at + 2 * (hi - lo) <= 36
    requires |Dashed(u)| == 36 && Dashed(u)[at..at + 2 * (hi - lo)] == Hex(u[lo..hi])
    requires at <= i < at + 2 * (hi - lo) && !IsDashPosition(i)
    requires NibbleIndex(i) == 2 * lo + (i - at)
    ensures Dashed(u)[i] == Canonical(u)[i]
  {
    CanonicalAt(u, i);
    HexSegmentAt(u, lo, hi, Dashed(u), at, i);
  }

  lemma DashedAt(u: Uuid, i: int)
    requires 0 <= i < 36
    ensures |Dashed(u)| == 36
    ensures Dashed(u)[i] == Canonical(u)[i]
  {
    DashedPieces(u);
    if IsDashPosition(i) {
    } else if i < 8 {
      DashedSegmentAt(u, 0, 4, 0, i);
    } else if i < 13 {
      DashedSegmentAt(u, 4, 6, 9, i);
    } else if i < 18 {
      DashedSegmentAt(u, 6, 8, 14, i);
    } else if i < 23 {
      DashedSegmentAt(u, 8, 10, 19, i);
    } else {
      assert Dashed(u)[24..36] == Dashed(u)[24..];
      DashedSegmentAt(u, 10, 16, 24, i);
    }
  }

  /** Unwrapping Proton's rendering gives exactly the RFC 4122 form. */
  lemma UnwrapIsCanonical(u: Uuid)
    ensures Unwrap(ProtonString(u)) == Canonical(u)
  {
    var s := ProtonString(u);
    assert Unwrap(s) == Dashed(u) by {
      assert s == "UUID(" + Dashed(u) + ")";
      assert s[5..|s| - 1] == Dashed(u);
    }
    forall i | 0 <= i < 36
      ensures Dashed(u)[i] == Canonical(u)[i]
    {
      DashedAt(u, i);
    }
  }

  lemma CanonicalShape(u: Uuid)
    ensures IsCanonicalText(Canonical(u))
  {
  }

  /** The position in the 36-character form of the high nibble of byte `k`. */
  function HighPosition(k: int): (p: int)
    requires 0 <= k < 16
    ensures 0 <= p < 35 && !IsDashPosition(p) && !IsDashPosition(p + 1)
    ensures NibbleIndex(p) == 2 * k && NibbleIndex(p + 1) == 2 * k + 1
  {
    if k < 4 then 2 * k else if k < 6 then 2 * k + 1 else if k < 8 then 2 * k + 2
    else if k < 10 then 2 * k + 3 else 2 * k + 4
  }

  lemma ByteFromCanonical(u: Uuid, k: int)
    requires 0 <= k < 16
    ensures IsCanonicalText(Canonical(u))
    ensures var s := Canonical(u);
            var p := HighPosition(k);
            16 * HexValue(s[p]) + HexValue(s[p + 1]) == u[k] as int
  {
    CanonicalShape(u);
    var s := Canonical(u);
    var p := HighPosition(k);
    HalfShift(k, 0);
    HalfShift(k, 1);
    assert s[p] == HexDigit(u[k] as int / 16) by { CanonicalAt(u, p); }
    assert s[p + 1] == HexDigit(u[k] as int % 16) by { CanonicalAt(u, p + 1); }
    HexRoundTrip(u[k] as int / 16);
    HexRoundTrip(u[k] as int % 16);
  }

  /** The canonical form loses nothing: the 16 bytes can be read back from it. */
  lemma CanonicalRoundTrip(u: Uuid)
    ensures IsCanonicalText(Canonical(u))
    ensures ParseCanonical(Canonical(u)) == u
  {
    CanonicalShape(u);
    forall k | 0 <= k < 16
      ensures ParseCanonical(Canonical(u))[k] == u[k]
    {
      ByteFromCanonical(u, k);
    }
  }
}
