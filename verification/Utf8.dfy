/** Go's view of a string as bytes: how a range loop decodes it and how WriteRune encodes. */
module Utf8 {

  newtype Byte = x: int | 0 <= x < 256

  type Bytes = seq<Byte>

  const RUNE_ERROR := 0xFFFD

  /** One step of a range loop: the code point, the bytes consumed, and whether they were well formed. */
  datatype Decoded = Decoded(rune: int, size: nat, ok: bool)

  predicate Continuation(b: Byte) {
    0x80 <= b <= 0xBF
  }

  /** The range the second byte must lie in, after first byte b (tables of unicode/utf8). */
  predicate SecondByte(b: Byte, b1: Byte) {
    match b
    case 0xE0 => 0xA0 <= b1 <= 0xBF
    case 0xED => 0x80 <= b1 <= 0x9F
    case 0xF0 => 0x90 <= b1 <= 0xBF
    case 0xF4 => 0x80 <= b1 <= 0x8F
    case _ => Continuation(b1)
  }

  function Decode(s: Bytes): Decoded
    requires s != []
  {
    var b := s[0];
    var bad := Decoded(RUNE_ERROR, 1, false);
    if b < 0x80 then Decoded(b as int, 1, true)
    else if 0xC2 <= b <= 0xDF then
      if |s| >= 2 && Continuation(s[1])
      then Decoded((b as int - 0xC0) * 64 + (s[1] as int - 0x80), 2, true) else bad
    else if 0xE0 <= b <= 0xEF then
      if |s| >= 3 && SecondByte(b, s[1]) && Continuation(s[2])
      then Decoded((b as int - 0xE0) * 4096 + (s[1] as int - 0x80) * 64 + (s[2] as int - 0x80), 3, true) else bad
    else if 0xF0 <= b <= 0xF4 then
      if |s| >= 4 && SecondByte(b, s[1]) && Continuation(s[2]) && Continuation(s[3])
      then Decoded((b as int - 0xF0) * 262144 + (s[1] as int - 0x80) * 4096 + (s[2] as int - 0x80) * 64 +
        (s[3] as int - 0x80), 4, true)
      else bad
    else bad
  }

  /** strings.Builder.WriteRune, for code points a range loop can produce. */
  function Encode(r: int): Bytes
    requires 0 <= r <= 0x10FFFF
  {
    if r < 0x80 then [r as Byte]
    else if r < 0x800 then [(0xC0 + r / 64) as Byte, (0x80 + r % 64) as Byte]
    else if r < 0x10000 then
      [(0xE0 + r / 4096) as Byte, (0x80 + r / 64 % 64) as Byte, (0x80 + r % 64) as Byte]
    else
      [(0xF0 + r / 262144) as Byte, (0x80 + r / 4096 % 64) as Byte, (0x80 + r / 64 % 64) as Byte,
        (0x80 + r % 64) as Byte]
  }

  lemma DecodeRange(s: Bytes)
    requires s != []
    ensures var d := Decode(s); 0 <= d.rune <= 0x10FFFF && 1 <= d.size <= |s|
  {
  }

  /** Encoding what a well-formed step decoded gives back the very bytes. */
  lemma EncodeDecode(s: Bytes)
    requires s != [] && Decode(s).ok
    ensures 0 <= Decode(s).rune <= 0x10FFFF && Decode(s).size <= |s|
    ensures Encode(Decode(s).rune) == s[..Decode(s).size]
  {
    DecodeRange(s);
    var d := Decode(s);
    if d.size == 2 {
      Digits2(s[0] as int - 0xC0, s[1] as int - 0x80);
    } else if d.size == 3 {
      Digits3(s[0] as int - 0xE0, s[1] as int - 0x80, s[2] as int - 0x80);
    } else if d.size == 4 {
      Digits4(s[0] as int - 0xF0, s[1] as int - 0x80, s[2] as int - 0x80, s[3] as int - 0x80);
    }
  }

  lemma Digits2(a: int, b: int)
    requires 0 <= b < 64
    ensures (a * 64 + b) / 64 == a && (a * 64 + b) % 64 == b
  {
  }

  lemma Digits3(a: int, b: int, c: int)
    requires 0 <= b < 64 && 0 <= c < 64
    ensures var r := a * 4096 + b * 64 + c;
            r / 4096 == a && r / 64 % 64 == b && r % 64 == c
  {
    var r := a * 4096 + b * 64 + c;
    assert r / 64 == a * 64 + b;
  }

  lemma Digits4(a: int, b: int, c: int, d: int)
    requires 0 <= b < 64 && 0 <= c < 64 && 0 <= d < 64
    ensures var r := a * 262144 + b * 4096 + c * 64 + d;
            r / 262144 == a && r / 4096 % 64 == b && r / 64 % 64 == c && r % 64 == d
  {
    var r := a * 262144 + b * 4096 + c * 64 + d;
    assert r / 64 == a * 4096 + b * 64 + c;
    assert r / 4096 == a * 64 + b;
  }

  lemma EncodedBytes(r: int)
    requires 0 <= r <= 0x10FFFF
    ensures |Encode(r)| >= 1
    ensures r >= 0x80 ==> forall i :: 0 <= i < |Encode(r)| ==> Encode(r)[i] >= 0x80
  {
  }

  /** The string a rune-by-rune copy of s produces: malformed bytes become U+FFFD. */
  function Recode(s: Bytes): Bytes
    decreases |s|
  {
    if s == [] then []
    else
      DecodeRange(s);
      var d := Decode(s);
      Encode(d.rune) + Recode(s[d.size..])
  }

  /** utf8.Valid. */
  predicate Valid(s: Bytes)
    decreases |s|
  {
    s == [] || (DecodeRange(s); Decode(s).ok && Valid(s[Decode(s).size..]))
  }

  lemma {:induction false} RecodeGrows(s: Bytes)
    ensures |Recode(s)| >= |s|
    ensures |Recode(s)| == |s| ==> Valid(s)
    decreases |s|
  {
    if s != [] {
      DecodeRange(s);
      var d := Decode(s);
      RecodeGrows(s[d.size..]);
      if d.ok {
        EncodeDecode(s);
      } else {
        assert |Encode(RUNE_ERROR)| == 3;
      }
    }
  }

  lemma {:induction false} RecodeKeepsValid(s: Bytes)
    requires Valid(s)
    ensures Recode(s) == s
    decreases |s|
  {
    if s != [] {
      DecodeRange(s);
      var n := Decode(s).size;
      RecodeKeepsValid(s[n..]);
      calc {
        Recode(s);
        Encode(Decode(s).rune) + Recode(s[n..]);
        { EncodeDecode(s); }
        s[..n] + s[n..];
        s;
      }
    }
  }

  /** A rune-by-rune copy is faithful exactly on well-formed strings. */
  lemma RecodeIsIdentityIff(s: Bytes)
    ensures Recode(s) == s <==> Valid(s)
  {
    RecodeGrows(s);
    if Valid(s) {
      RecodeKeepsValid(s);
    }
  }
}
