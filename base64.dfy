/**
 * The base 64 encoding of section 4 of RFC 4648 (standard alphabet, `=`
 * padding), as PHP's `base64_encode` produces it, and a strict decoder that
 * accepts exactly the canonical encodings (section 3.5 of RFC 4648: pad bits
 * are zero).
 */
module Base64 {
  import opened Wrappers

  newtype byte = x: int | 0 <= x < 256

  const Pad: char := '='

  /**
   * The character that encodes the 6-bit value `v`, following Table 1 of
   * RFC 4648: A-Z for 0-25, a-z for 26-51, 0-9 for 52-61, then + and /.
   */
  function CharOf(v: nat): (c: char)
    requires v < 64
    ensures c != Pad
  {
    if v < 26 then ('A' as int + v) as char
    else if v < 52 then ('a' as int + (v - 26)) as char
    else if v < 62 then ('0' as int + (v - 52)) as char
    else if v == 62 then '+'
    else '/'
  }

  /** The 6-bit value a character encodes, or None outside the alphabet. */
  function ValueOf(c: char): (r: Option<nat>)
    ensures r.Some? ==> r.value < 64
  {
    if 'A' <= c <= 'Z' then Some(c as int - 'A' as int)
    else if 'a' <= c <= 'z' then Some(c as int - 'a' as int + 26)
    else if '0' <= c <= '9' then Some(c as int - '0' as int + 52)
    else if c == '+' then Some(62)
    else if c == '/' then Some(63)
    else None
  }

  lemma ValueOfCharOf(v: nat)
    requires v < 64
    ensures ValueOf(CharOf(v)) == Some(v)
  {
  }

  lemma CharOfValueOf(c: char)
    requires ValueOf(c).Some?
    ensures CharOf(ValueOf(c).value) == c
  {
  }

  /** Three bytes become four characters (section 4, "full quantum"). */
  function Quantum(b0: byte, b1: byte, b2: byte): string
  {
    [ CharOf(b0 as int / 4),
      CharOf(b0 as int % 4 * 16 + b1 as int / 16),
      CharOf(b1 as int % 16 * 4 + b2 as int / 64),
      CharOf(b2 as int % 64) ]
  }

  /** A final quantum of two bytes: three characters and one pad. */
  function Quantum2(b0: byte, b1: byte): string
  {
    [ CharOf(b0 as int / 4),
      CharOf(b0 as int % 4 * 16 + b1 as int / 16),
      CharOf(b1 as int % 16 * 4),
      Pad ]
  }

  /** A final quantum of one byte: two characters and two pads. */
  function Quantum1(b0: byte): string
  {
    [ CharOf(b0 as int / 4),
      CharOf(b0 as int % 4 * 16),
      Pad, Pad ]
  }

  /** `base64_encode`: every three input bytes give four output characters. */
  function Encode(b: seq<byte>): (s: string)
    ensures |s| % 4 == 0
    ensures |b| > 0 <==> |s| > 0
    decreases |b|
  {
    if |b| == 0 then ""
    else if |b| == 1 then Quantum1(b[0])
    else if |b| == 2 then Quantum2(b[0], b[1])
    else Quantum(b[0], b[1], b[2]) + Encode(b[3..])
  }

  /** True when every character of `q` is in the alphabet. */
  predicate AllInAlphabet(q: string)
  {
    forall i :: 0 <= i < |q| ==> ValueOf(q[i]).Some?
  }

  /** Four alphabet characters back to three bytes. */
  function DecodeQuantum(q: string): (r: Option<seq<byte>>)
    requires |q| == 4
    ensures r.Some? ==> |r.value| == 3
  {
    if AllInAlphabet(q) then
      var s0, s1, s2, s3 := ValueOf(q[0]).value, ValueOf(q[1]).value, ValueOf(q[2]).value, ValueOf(q[3]).value;
      Some([(s0 * 4 + s1 / 16) as byte, (s1 % 16 * 16 + s2 / 4) as byte, (s2 % 4 * 64 + s3) as byte])
    else None
  }

  /** The last quantum: full, or padded to one or two bytes with zero pad bits. */
  function DecodeFinal(q: string): (r: Option<seq<byte>>)
    requires |q| == 4
    ensures r.Some? ==> 1 <= |r.value| <= 3
  {
    if q[2] == Pad && q[3] == Pad then
      if AllInAlphabet(q[..2]) && ValueOf(q[1]).value % 16 == 0 then
        var s0, s1 := ValueOf(q[0]).value, ValueOf(q[1]).value;
        Some([(s0 * 4 + s1 / 16) as byte])
      else None
    else if q[3] == Pad then
      if AllInAlphabet(q[..3]) && ValueOf(q[2]).value % 4 == 0 then
        var s0, s1, s2 := ValueOf(q[0]).value, ValueOf(q[1]).value, ValueOf(q[2]).value;
        Some([(s0 * 4 + s1 / 16) as byte, (s1 % 16 * 16 + s2 / 4) as byte])
      else None
    else DecodeQuantum(q)
  }

  /** Strict decoding: None for any string that is not a canonical encoding. */
  function Decode(s: string): (r: Option<seq<byte>>)
    decreases |s|
  {
    if |s| == 0 then Some([])
    else if |s| < 4 then None
    else if |s| == 4 then DecodeFinal(s)
    else
      match DecodeQuantum(s[..4])
      case None => None
      case Some(head) =>
        match Decode(s[4..])
        case None => None
        case Some(tail) => Some(head + tail)
  }

  /** The bit arithmetic behind `QuantumRoundTrip`: splitting bytes into 6-bit values and back. */
  lemma SplitBytes(x: int, y: int, z: int)
    requires 0 <= x < 256 && 0 <= y < 256 && 0 <= z < 256
    ensures var s0, s1, s2, s3 := x / 4, x % 4 * 16 + y / 16, y % 16 * 4 + z / 64, z % 64;
      && 0 <= s0 < 64 && 0 <= s1 < 64 && 0 <= s2 < 64 && 0 <= s3 < 64
      && s0 * 4 + s1 / 16 == x && s1 % 16 * 16 + s2 / 4 == y && s2 % 4 * 64 + s3 == z
  {
  }

  /** Every three input bytes, and a last group of one or two, give four output characters. */
  lemma {:induction false} EncodedLength(b: seq<byte>)
    ensures |Encode(b)| == 4 * ((|b| + 2) / 3)
    decreases |b|
  {
    if |b| >= 3 {
      EncodedLength(b[3..]);
      assert (|b| + 2) / 3 == (|b[3..]| + 2) / 3 + 1;
    }
  }

  /** The four characters of a full quantum carry the 6-bit groups of its bytes. */
  lemma QuantumValues(b0: byte, b1: byte, b2: byte)
    ensures var q, x, y, z := Quantum(b0, b1, b2), b0 as int, b1 as int, b2 as int;
      && ValueOf(q[0]) == Some(x / 4) && ValueOf(q[1]) == Some(x % 4 * 16 + y / 16)
      && ValueOf(q[2]) == Some(y % 16 * 4 + z / 64) && ValueOf(q[3]) == Some(z % 64)
  {
    var x, y, z := b0 as int, b1 as int, b2 as int;
    SplitBytes(x, y, z);
    ValueOfCharOf(x / 4); ValueOfCharOf(x % 4 * 16 + y / 16);
    ValueOfCharOf(y % 16 * 4 + z / 64); ValueOfCharOf(z % 64);
  }

  /** A full quantum decodes back to its three bytes. */
  lemma QuantumRoundTrip(b0: byte, b1: byte, b2: byte)
    ensures DecodeQuantum(Quantum(b0, b1, b2)) == Some([b0, b1, b2])
    ensures DecodeFinal(Quantum(b0, b1, b2)) == Some([b0, b1, b2])
  {
    var q, x, y, z := Quantum(b0, b1, b2), b0 as int, b1 as int, b2 as int;
    QuantumValues(b0, b1, b2);
    SplitBytes(x, y, z);
    assert AllInAlphabet(q);
    assert DecodeQuantum(q) == Some([x as byte, y as byte, z as byte]);
    assert q[3] != Pad;
  }

  /** A final quantum of one byte decodes back to it. */
  lemma Quantum1RoundTrip(b0: byte)
    ensures DecodeFinal(Quantum1(b0)) == Some([b0])
  {
  }

  /** A final quantum of two bytes decodes back to them. */
  lemma Quantum2RoundTrip(b0: byte, b1: byte)
    ensures DecodeFinal(Quantum2(b0, b1)) == Some([b0, b1])
  {
    var x, y := b0 as int, b1 as int;
    ValueOfCharOf(x / 4);
    ValueOfCharOf(x % 4 * 16 + y / 16);
    ValueOfCharOf(y % 16 * 4);
    assert (y % 16 * 4) % 4 == 0 && (y % 16 * 4) / 4 == y % 16;
  }

  /** Decoding a string of several quanta decodes its first quantum, then the rest. */
  lemma DecodeSplit(q: string, rest: string)
    requires |q| == 4 && |rest| > 0
    ensures Decode(q + rest) ==
      match DecodeQuantum(q)
      case None => None
      case Some(head) =>
        match Decode(rest)
        case None => None
        case Some(tail) => Some(head + tail)
  {
  }

  /** A string of one quantum decodes as a last quantum. */
  lemma DecodeOne(q: string)
    requires |q| == 4
    ensures Decode(q) == DecodeFinal(q)
  {
  }

  /** From three bytes on, the encoding is the first quantum followed by the encoding of the rest. */
  lemma EncodeSplit(b: seq<byte>)
    requires |b| >= 3
    ensures Encode(b) == Quantum(b[0], b[1], b[2]) + Encode(b[3..])
  {
  }

  lemma DecodeEncodeOne(b: seq<byte>)
    requires |b| == 1
    ensures Decode(Encode(b)) == Some(b)
  {
    var q := Quantum1(b[0]);
    assert Encode(b) == q;
    DecodeOne(q);
    Quantum1RoundTrip(b[0]);
    assert b == [b[0]];
  }

  lemma DecodeEncodeTwo(b: seq<byte>)
    requires |b| == 2
    ensures Decode(Encode(b)) == Some(b)
  {
    var q := Quantum2(b[0], b[1]);
    assert Encode(b) == q;
    DecodeOne(q);
    Quantum2RoundTrip(b[0], b[1]);
    assert b == [b[0], b[1]];
  }

  lemma DecodeEncodeThree(b: seq<byte>)
    requires |b| == 3
    ensures Decode(Encode(b)) == Some(b)
  {
    var q := Quantum(b[0], b[1], b[2]);
    EncodeSplit(b);
    assert Encode(b[3..]) == "";
    assert Encode(b) == q;
    DecodeOne(q);
    QuantumRoundTrip(b[0], b[1], b[2]);
    assert b == [b[0], b[1], b[2]];
  }

  /** Decoding undoes `base64_encode`: the signature bytes are recovered exactly. */
  lemma {:induction false} DecodeEncode(b: seq<byte>)
    ensures Decode(Encode(b)) == Some(b)
    decreases |b|
  {
    if |b| == 0 {
    } else if |b| == 1 {
      DecodeEncodeOne(b);
    } else if |b| == 2 {
      DecodeEncodeTwo(b);
    } else if |b| == 3 {
      DecodeEncodeThree(b);
    } else {
      DecodeEncode(b[3..]);
      DecodeEncodeStep(b);
    }
  }

  /** The inductive step of `DecodeEncode`: a first full quantum in front of a round-tripping rest. */
  lemma DecodeEncodeStep(b: seq<byte>)
    requires |b| > 3 && Decode(Encode(b[3..])) == Some(b[3..])
    ensures Decode(Encode(b)) == Some(b)
  {
    HeadAndTail(b);
    EncodeSplit(b);
    QuantumRoundTrip(b[0], b[1], b[2]);
    DecodeCons(Quantum(b[0], b[1], b[2]), Encode(b[3..]), [b[0], b[1], b[2]], b[3..]);
  }

  /** A byte string of at least three bytes is its first three bytes followed by the rest. */
  lemma HeadAndTail(b: seq<byte>)
    requires |b| >= 3
    ensures b == [b[0], b[1], b[2]] + b[3..]
  {
  }

  /** A decodable quantum in front of a decodable rest decodes to the two results joined. */
  lemma DecodeCons(q: string, rest: string, head: seq<byte>, tail: seq<byte>)
    requires |q| == 4 && |rest| > 0
    requires DecodeQuantum(q) == Some(head) && Decode(rest) == Some(tail)
    ensures Decode(q + rest) == Some(head + tail)
  {
    DecodeSplit(q, rest);
  }

  /** The bit arithmetic behind `QuantumCanonical`: regrouping 6-bit values into bytes and back. */
  lemma RegroupSextets(s0: nat, s1: nat, s2: nat, s3: nat)
    requires s0 < 64 && s1 < 64 && s2 < 64 && s3 < 64
    ensures var x, y, z := s0 * 4 + s1 / 16, s1 % 16 * 16 + s2 / 4, s2 % 4 * 64 + s3;
      && x < 256 && y < 256 && z < 256
      && x / 4 == s0 && x % 4 * 16 + y / 16 == s1
      && y % 16 * 4 + z / 64 == s2 && z % 64 == s3
  {
  }

  /** A decodable quantum is the encoding of the bytes it decodes to. */
  lemma QuantumCanonical(q: string)
    requires |q| == 4 && DecodeQuantum(q).Some?
    ensures var bs := DecodeQuantum(q).value; Quantum(bs[0], bs[1], bs[2]) == q
  {
    var s0, s1, s2, s3 := ValueOf(q[0]).value, ValueOf(q[1]).value, ValueOf(q[2]).value, ValueOf(q[3]).value;
    RegroupSextets(s0, s1, s2, s3);
    var x, y, z := s0 * 4 + s1 / 16, s1 % 16 * 16 + s2 / 4, s2 % 4 * 64 + s3;
    var b0, b1, b2 := x as byte, y as byte, z as byte;
    assert DecodeQuantum(q).value == [b0, b1, b2];
    assert b0 as int / 4 == s0 && b0 as int % 4 * 16 + b1 as int / 16 == s1;
    assert b1 as int % 16 * 4 + b2 as int / 64 == s2 && b2 as int % 64 == s3;
    CharOfValueOf(q[0]); CharOfValueOf(q[1]); CharOfValueOf(q[2]); CharOfValueOf(q[3]);
    assert Quantum(b0, b1, b2) == [q[0], q[1], q[2], q[3]];
  }

  /** A decodable last quantum with two pads is the encoding of its one byte. */
  lemma TwoPadsCanonical(q: string)
    requires |q| == 4 && q[2] == Pad && q[3] == Pad && DecodeFinal(q).Some?
    ensures Encode(DecodeFinal(q).value) == q
  {
    var s0, s1 := ValueOf(q[0]).value, ValueOf(q[1]).value;
    var x := s0 * 4 + s1 / 16;
    assert DecodeFinal(q) == Some([x as byte]) && s1 % 16 == 0;
    assert x / 4 == s0 && x % 4 * 16 == s1;
    CharOfValueOf(q[0]); CharOfValueOf(q[1]);
    assert Encode([x as byte]) == Quantum1(x as byte);
  }

  /** A decodable last quantum with one pad is the encoding of its two bytes. */
  lemma OnePadCanonical(q: string)
    requires |q| == 4 && q[2] != Pad && q[3] == Pad && DecodeFinal(q).Some?
    ensures Encode(DecodeFinal(q).value) == q
  {
    var s0, s1, s2 := ValueOf(q[0]).value, ValueOf(q[1]).value, ValueOf(q[2]).value;
    var x, y := s0 * 4 + s1 / 16, s1 % 16 * 16 + s2 / 4;
    assert DecodeFinal(q) == Some([x as byte, y as byte]) && s2 % 4 == 0;
    assert x / 4 == s0 && x % 4 == s1 / 16;
    assert y / 16 == s1 % 16 && y % 16 * 4 == s2;
    CharOfValueOf(q[0]); CharOfValueOf(q[1]); CharOfValueOf(q[2]);
    assert Encode([x as byte, y as byte]) == Quantum2(x as byte, y as byte);
  }

  /** A decodable last quantum is the encoding of the bytes it decodes to. */
  lemma FinalCanonical(q: string)
    requires |q| == 4 && DecodeFinal(q).Some?
    ensures Encode(DecodeFinal(q).value) == q
  {
    if q[2] == Pad && q[3] == Pad {
      TwoPadsCanonical(q);
    } else if q[3] == Pad {
      OnePadCanonical(q);
    } else {
      var bs := DecodeQuantum(q).value;
      assert DecodeFinal(q) == Some(bs);
      QuantumCanonical(q);
      EncodeSplit(bs);
      assert bs[3..] == [];
    }
  }

  /** Every string `Decode` accepts is the encoding of what it decodes to. */
  lemma {:induction false} EncodeDecode(s: string)
    requires Decode(s).Some?
    ensures Encode(Decode(s).value) == s
    decreases |s|
  {
    if |s| == 0 {
    } else if |s| == 4 {
      FinalCanonical(s);
    } else {
      var q, rest := s[..4], s[4..];
      assert s == q + rest;
      DecodeSplit(q, rest);
      var head, tail := DecodeQuantum(q).value, Decode(rest).value;
      EncodeDecode(rest);
      QuantumCanonical(q);
      assert |tail| > 0;
      var b := head + tail;
      assert b[..3] == head && b[3..] == tail;
      assert Encode(b) == Quantum(b[0], b[1], b[2]) + Encode(b[3..]);
    }
  }
}
