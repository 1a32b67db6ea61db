/** Go's `base64.StdEncoding.EncodeToString`: the base64 encoding of RFC 4648,
    section 4 (standard alphabet, `=` padding), and a decoder that undoes it. */
module Base64 {
  import opened Basics

  /** The alphabet of RFC 4648, section 4, Table 1: the character for each 6-bit value. */
  function Sextet(v: int): (c: char)
    requires 0 <= v < 64
  {
    if v < 26 then ('A' as int + v) as char
    else if v < 52 then ('a' as int + (v - 26)) as char
    else if v < 62 then ('0' as int + (v - 52)) as char
    else if v == 62 then '+'
    else '/'
  }

  /** The 6-bit value of an alphabet character, or -1 for any other character (`=` included). */
  function SextetValue(c: char): (v: int)
    ensures -1 <= v < 64
  {
    if 'A' <= c <= 'Z' then c as int - 'A' as int
    else if 'a' <= c <= 'z' then c as int - 'a' as int + 26
    else if '0' <= c <= '9' then c as int - '0' as int + 52
    else if c == '+' then 62
    else if c == '/' then 63
    else -1
  }

  lemma SextetRoundTrip(v: int)
    requires 0 <= v < 64
    ensures SextetValue(Sextet(v)) == v
    ensures Sextet(v) != '='
  {
  }

  /** Three bytes become four characters. */
  function EncodeGroup(b0: byte, b1: byte, b2: byte): (r: string)
    ensures |r| == 4
  {
    var x, y, z := b0 as int, b1 as int, b2 as int;
    [Sextet(x / 4), Sextet((x % 4) * 16 + y / 16), Sextet((y % 16) * 4 + z / 64), Sextet(z % 64)]
  }

  /** A final group of two bytes: three characters and one `=`. */
  function EncodeTwo(b0: byte, b1: byte): (r: string)
    ensures |r| == 4
  {
    var x, y := b0 as int, b1 as int;
    [Sextet(x / 4), Sextet((x % 4) * 16 + y / 16), Sextet((y % 16) * 4), '=']
  }

  /** A final group of one byte: two characters and `==`. */
  function EncodeOne(b0: byte): (r: string)
    ensures |r| == 4
  {
    var x := b0 as int;
    [Sextet(x / 4), Sextet((x % 4) * 16), '=', '=']
  }

  /** `base64.StdEncoding.EncodeToString`. */
  function Encode(bs: seq<byte>): (r: string)
    ensures |r| == 4 * ((|bs| + 2) / 3)
    decreases |bs|
  {
    if |bs| == 0 then ""
    else if |bs| == 1 then EncodeOne(bs[0])
    else if |bs| == 2 then EncodeTwo(bs[0], bs[1])
    else EncodeGroup(bs[0], bs[1], bs[2]) + Encode(bs[3..])
  }

  /** Four characters of the alphabet become three bytes. */
  function DecodeGroup(s: string): (r: Option<seq<byte>>)
    requires |s| == 4
  {
    var a, b, c, d := SextetValue(s[0]), SextetValue(s[1]), SextetValue(s[2]), SextetValue(s[3]);
    if a < 0 || b < 0 then None
    else if c >= 0 && d >= 0 then
      Some([(a * 4 + b / 16) as byte, ((b % 16) * 16 + c / 4) as byte, ((c % 4) * 64 + d) as byte])
    else None
  }

  /** The last four characters, where `=` padding may stand for missing bytes. The
      bits of the last character that no byte uses must be zero (RFC 4648, section
      3.5), so each byte string has one encoding only. */
  function DecodeLast(s: string): (r: Option<seq<byte>>)
    requires |s| == 4
  {
    var a, b, c := SextetValue(s[0]), SextetValue(s[1]), SextetValue(s[2]);
    if a < 0 || b < 0 then None
    else if s[2] == '=' && s[3] == '=' then
      if b % 16 == 0 then Some([(a * 4 + b / 16) as byte]) else None
    else if c >= 0 && s[3] == '=' then
      if c % 4 == 0 then Some([(a * 4 + b / 16) as byte, ((b % 16) * 16 + c / 4) as byte]) else None
    else DecodeGroup(s)
  }

  /** Decodes padded base64 text; `None` for text that is not a multiple of four
      characters, holds a character outside the alphabet where one is needed, or
      has pad bits that are not zero. */
  function Decode(s: string): (r: Option<seq<byte>>)
    decreases |s|
  {
    if |s| == 0 then Some([])
    else if |s| < 4 then None
    else if |s| == 4 then DecodeLast(s)
    else match DecodeGroup(s[..4])
      case None => None
      case Some(head) =>
        match Decode(s[4..])
        case None => None
        case Some(tail) => Some(head + tail)
  }

  /** The bits of `x` and `y` that the first two characters carry give back `x`. */
  lemma FirstByte(x: int, y: int)
    requires 0 <= x < 256 && 0 <= y < 256
    ensures 0 <= (x % 4) * 16 + y / 16 < 64
    ensures (x / 4) * 4 + ((x % 4) * 16 + y / 16) / 16 == x
    ensures ((x % 4) * 16 + y / 16) % 16 == y / 16
  {
    var q := y / 16;
    assert 0 <= q < 16;
    assert ((x % 4) * 16 + q) / 16 == x % 4;
  }

  /** The bits of `y` and `z` that the second and third characters carry give back `y`. */
  lemma SecondByte(y: int, z: int)
    requires 0 <= y < 256 && 0 <= z < 256
    ensures 0 <= (y % 16) * 4 + z / 64 < 64
    ensures (y / 16) * 16 + ((y % 16) * 4 + z / 64) / 4 == y
    ensures ((y % 16) * 4 + z / 64) % 4 == z / 64
  {
    var q := z / 64;
    assert 0 <= q < 4;
    assert ((y % 16) * 4 + q) / 4 == y % 16;
  }

  lemma GroupRoundTrip(b0: byte, b1: byte, b2: byte)
    ensures DecodeGroup(EncodeGroup(b0, b1, b2)) == Some([b0, b1, b2])
  {
    var x, y, z := b0 as int, b1 as int, b2 as int;
    FirstByte(x, y);
    SecondByte(y, z);
    SextetRoundTrip(x / 4);
    SextetRoundTrip((x % 4) * 16 + y / 16);
    SextetRoundTrip((y % 16) * 4 + z / 64);
    SextetRoundTrip(z % 64);
  }

  lemma OneRoundTrip(b0: byte)
    ensures DecodeLast(EncodeOne(b0)) == Some([b0])
  {
    var x := b0 as int;
    FirstByte(x, 0);
    SextetRoundTrip(x / 4);
    SextetRoundTrip((x % 4) * 16);
  }

  lemma TwoRoundTrip(b0: byte, b1: byte)
    ensures DecodeLast(EncodeTwo(b0, b1)) == Some([b0, b1])
  {
    var x, y := b0 as int, b1 as int;
    FirstByte(x, y);
    SecondByte(y, 0);
    SextetRoundTrip(x / 4);
    SextetRoundTrip((x % 4) * 16 + y / 16);
    SextetRoundTrip((y % 16) * 4);
  }

  lemma ThreeRoundTrip(b0: byte, b1: byte, b2: byte)
    ensures DecodeLast(EncodeGroup(b0, b1, b2)) == Some([b0, b1, b2])
  {
    GroupRoundTrip(b0, b1, b2);
    var y, z := b1 as int, b2 as int;
    SecondByte(y, z);
    SextetRoundTrip((y % 16) * 4 + z / 64);
  }

  lemma LastRoundTrip(bs: seq<byte>)
    requires 1 <= |bs| <= 3
    ensures DecodeLast(Encode(bs)) == Some(bs)
  {
    if |bs| == 1 {
      LastOfOne(bs);
    } else if |bs| == 2 {
      LastOfTwo(bs);
    } else {
      LastOfThree(bs);
    }
  }

  lemma LastOfOne(bs: seq<byte>)
    requires |bs| == 1
    ensures DecodeLast(Encode(bs)) == Some(bs)
  {
    assert Encode(bs) == EncodeOne(bs[0]);
    OneRoundTrip(bs[0]);
    assert [bs[0]] == bs;
  }

  lemma LastOfTwo(bs: seq<byte>)
    requires |bs| == 2
    ensures DecodeLast(Encode(bs)) == Some(bs)
  {
    assert Encode(bs) == EncodeTwo(bs[0], bs[1]);
    TwoRoundTrip(bs[0], bs[1]);
    assert [bs[0], bs[1]] == bs;
  }

  lemma LastOfThree(bs: seq<byte>)
    requires |bs| == 3
    ensures DecodeLast(Encode(bs)) == Some(bs)
  {
    assert Encode(bs[3..]) == "";
    assert Encode(bs) == EncodeGroup(bs[0], bs[1], bs[2]);
    ThreeRoundTrip(bs[0], bs[1], bs[2]);
    assert [bs[0], bs[1], bs[2]] == bs;
  }

  lemma DecodeAppend(g: string, rest: string)
    requires |g| == 4 && |rest| > 0
    requires DecodeGroup(g).Some? && Decode(rest).Some?
    ensures Decode(g + rest) == Some(DecodeGroup(g).value + Decode(rest).value)
  {
    var s := g + rest;
    assert s[..4] == g && s[4..] == rest;
  }

  lemma ShortRoundTrip(bs: seq<byte>)
    requires 1 <= |bs| <= 3
    ensures Decode(Encode(bs)) == Some(bs)
  {
    assert |Encode(bs)| == 4;
    LastRoundTrip(bs);
  }

  lemma RoundTripStep(bs: seq<byte>)
    requires |bs| > 3
    requires Decode(Encode(bs[3..])) == Some(bs[3..])
    ensures Decode(Encode(bs)) == Some(bs)
  {
    var g := EncodeGroup(bs[0], bs[1], bs[2]);
    var rest := Encode(bs[3..]);
    assert Encode(bs) == g + rest;
    GroupRoundTrip(bs[0], bs[1], bs[2]);
    DecodeAppend(g, rest);
    SplitThree(bs);
  }

  lemma SplitThree(bs: seq<byte>)
    requires |bs| >= 3
    ensures [bs[0], bs[1], bs[2]] + bs[3..] == bs
  {
    assert bs == bs[..3] + bs[3..];
  }

  /** Decoding undoes `Encode`: no two byte strings share an encoding, and nothing is lost. */
  lemma {:induction false} RoundTrip(bs: seq<byte>)
    ensures Decode(Encode(bs)) == Some(bs)
    decreases |bs|
  {
    if |bs| == 0 {
    } else if |bs| <= 3 {
      ShortRoundTrip(bs);
    } else {
      RoundTrip(bs[3..]);
      RoundTripStep(bs);
    }
  }

  /** Every character of the alphabet is the character of its own value. */
  lemma SextetOfValue(c: char)
    requires SextetValue(c) >= 0
    ensures Sextet(SextetValue(c)) == c
  {
  }

  /** Splitting `hi * k + lo` by `k` gives back `hi` and `lo`, for the widths the
      encoding uses. */
  lemma Unpack(hi: int, lo: int, k: int)
    requires k == 4 || k == 16 || k == 64
    requires 0 <= lo < k && 0 <= hi
    ensures (hi * k + lo) / k == hi && (hi * k + lo) % k == lo
  {
  }

  /** Four characters that decode as a full group are the encoding of its bytes. */
  lemma GroupDeterminesText(s: string)
    requires |s| == 4 && DecodeGroup(s).Some?
    ensures |DecodeGroup(s).value| == 3
    ensures s == EncodeGroup(DecodeGroup(s).value[0], DecodeGroup(s).value[1], DecodeGroup(s).value[2])
  {
    var a, b, c, d := SextetValue(s[0]), SextetValue(s[1]), SextetValue(s[2]), SextetValue(s[3]);
    var x, y, z := a * 4 + b / 16, (b % 16) * 16 + c / 4, (c % 4) * 64 + d;
    Unpack(a, b / 16, 4);
    Unpack(b % 16, c / 4, 16);
    Unpack(c % 4, d, 64);
    assert (b / 16) * 16 + b % 16 == b;
    assert (c / 4) * 4 + c % 4 == c;
    SextetOfValue(s[0]);
    SextetOfValue(s[1]);
    SextetOfValue(s[2]);
    SextetOfValue(s[3]);
  }

  /** Four characters ending in `==` that decode are the encoding of their one byte. */
  lemma OneDeterminesText(s: string)
    requires |s| == 4 && s[2] == '=' && s[3] == '=' && DecodeLast(s).Some?
    ensures |DecodeLast(s).value| == 1 && s == EncodeOne(DecodeLast(s).value[0])
  {
    var a, b := SextetValue(s[0]), SextetValue(s[1]);
    Unpack(a, b / 16, 4);
    assert (b / 16) * 16 == b;
    SextetOfValue(s[0]);
    SextetOfValue(s[1]);
  }

  /** Four characters ending in one `=` that decode are the encoding of their two bytes. */
  lemma TwoDeterminesText(s: string)
    requires |s| == 4 && s[2] != '=' && s[3] == '=' && DecodeLast(s).Some?
    ensures |DecodeLast(s).value| == 2 &&
            s == EncodeTwo(DecodeLast(s).value[0], DecodeLast(s).value[1])
  {
    var a, b, c := SextetValue(s[0]), SextetValue(s[1]), SextetValue(s[2]);
    Unpack(a, b / 16, 4);
    Unpack(b % 16, c / 4, 16);
    assert (b / 16) * 16 + b % 16 == b;
    assert (c / 4) * 4 == c;
    SextetOfValue(s[0]);
    SextetOfValue(s[1]);
    SextetOfValue(s[2]);
  }

  /** The last four characters that decode are the encoding of what they decode to. */
  lemma LastDeterminesText(s: string)
    requires |s| == 4 && DecodeLast(s).Some?
    ensures s == Encode(DecodeLast(s).value)
  {
    var bs := DecodeLast(s).value;
    if s[2] == '=' && s[3] == '=' {
      OneDeterminesText(s);
    } else if s[3] == '=' && SextetValue(s[2]) >= 0 {
      TwoDeterminesText(s);
    } else {
      GroupDeterminesText(s);
      assert bs[3..] == [];
      assert Encode(bs) == EncodeGroup(bs[0], bs[1], bs[2]) + Encode([]);
    }
  }

  /** The canonical text: a text that decodes to `bs` is the encoding of `bs`. With
      `RoundTrip`, `Encode(bs)` is the one text that decodes to `bs`. */
  lemma {:induction false} DecodeDeterminesText(s: string)
    requires Decode(s).Some?
    ensures s == Encode(Decode(s).value)
    decreases |s|
  {
    if |s| == 4 {
      LastDeterminesText(s);
    } else if |s| > 4 {
      var head := DecodeGroup(s[..4]).value;
      var tail := Decode(s[4..]).value;
      GroupDeterminesText(s[..4]);
      DecodeDeterminesText(s[4..]);
      var bs := head + tail;
      assert |Encode(tail)| > 0;
      assert bs[..3] == head && bs[3..] == tail;
      assert Encode(bs) == EncodeGroup(bs[0], bs[1], bs[2]) + Encode(tail);
      assert s == s[..4] + s[4..];
    }
  }

  /** `Encode(bs)` is the only text that decodes to `bs`. */
  lemma OnlyEncodingDecodes(bs: seq<byte>)
    ensures Decode(Encode(bs)) == Some(bs)
    ensures forall s :: Decode(s) == Some(bs) ==> s == Encode(bs)
  {
    RoundTrip(bs);
    forall s | Decode(s) == Some(bs)
      ensures s == Encode(bs)
    {
      DecodeDeterminesText(s);
    }
  }

  /** The test vectors of RFC 4648, section 10. */
  lemma TestVectors()
    ensures Encode([]) == ""
    ensures Encode([0x66]) == "Zg=="
    ensures Encode([0x66, 0x6F]) == "Zm8="
    ensures Encode([0x66, 0x6F, 0x6F]) == "Zm9v"
    ensures Encode([0x66, 0x6F, 0x6F, 0x62]) == "Zm9vYg=="
    ensures Encode([0x66, 0x6F, 0x6F, 0x62, 0x61]) == "Zm9vYmE="
    ensures Encode([0x66, 0x6F, 0x6F, 0x62, 0x61, 0x72]) == "Zm9vYmFy"
  {
  }
}
