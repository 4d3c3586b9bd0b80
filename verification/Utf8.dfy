/** UTF-8 as section 4 of RFC 3629 defines it, decoded one rune at a time. */
module Utf8 {

  newtype Byte = b: int | 0 <= b < 256

  const REPLACEMENT: int := 0xFFFD

  /** A Unicode scalar value: no surrogate, nothing past the last plane. */
  predicate Scalar(r: int) {
    0 <= r < 0xD800 || 0xE000 <= r <= 0x10FFFF
  }

  predicate Scalars(runes: seq<int>) {
    forall r <- runes :: Scalar(r)
  }

  predicate Continuation(b: Byte) {
    0x80 <= b < 0xC0
  }

  function Encode(r: int): (bytes: seq<Byte>)
    requires Scalar(r)
    ensures 1 <= |bytes| <= 4
  {
    if r < 0x80 then [r as Byte]
    else if r < 0x800 then [(0xC0 + r / 64) as Byte, (0x80 + r % 64) as Byte]
    else if r < 0x10000 then
      [(0xE0 + r / 4096) as Byte, (0x80 + r / 64 % 64) as Byte, (0x80 + r % 64) as Byte]
    else
      [(0xF0 + r / 262144) as Byte, (0x80 + r / 4096 % 64) as Byte, (0x80 + r / 64 % 64) as Byte, (0x80 + r % 64) as Byte]
  }

  function EncodeAll(runes: seq<int>): seq<Byte>
    requires Scalars(runes)
  {
    if runes == [] then [] else Encode(runes[0]) + EncodeAll(runes[1..])
  }

  /** One decoding step; an ill-formed sequence costs one byte and yields no rune. */
  datatype Decoded = Rune(value: int, size: nat) | Illformed

  function Tail(b: Byte): int {
    (b as int) - 0x80
  }

  function DecodeTwo(raw: seq<Byte>): Decoded
    requires |raw| > 0
  {
    if |raw| < 2 || !Continuation(raw[1]) then Illformed
    else Rune((raw[0] as int - 0xC0) * 64 + Tail(raw[1]), 2)
  }

  function DecodeThree(raw: seq<Byte>): Decoded
    requires |raw| > 0
  {
    if |raw| < 3 || !Continuation(raw[1]) || !Continuation(raw[2]) then Illformed
    else if raw[0] == 0xE0 && raw[1] < 0xA0 then Illformed
    else if raw[0] == 0xED && raw[1] >= 0xA0 then Illformed
    else Rune((raw[0] as int - 0xE0) * 4096 + Tail(raw[1]) * 64 + Tail(raw[2]), 3)
  }

  function DecodeFour(raw: seq<Byte>): Decoded
    requires |raw| > 0
  {
    if |raw| < 4 || !Continuation(raw[1]) || !Continuation(raw[2]) || !Continuation(raw[3]) then Illformed
    else if raw[0] == 0xF0 && raw[1] < 0x90 then Illformed
    else if raw[0] == 0xF4 && raw[1] >= 0x90 then Illformed
    else Rune((raw[0] as int - 0xF0) * 262144 + Tail(raw[1]) * 4096 + Tail(raw[2]) * 64 + Tail(raw[3]), 4)
  }

  function Decode(raw: seq<Byte>): Decoded
    requires |raw| > 0
  {
    var b := raw[0];
    if b < 0x80 then Rune(b as int, 1)
    else if 0xC2 <= b < 0xE0 then DecodeTwo(raw)
    else if 0xE0 <= b < 0xF0 then DecodeThree(raw)
    else if 0xF0 <= b < 0xF5 then DecodeFour(raw)
    else Illformed
  }

  // ------------------------------------------------------------ encode and decode agree

  lemma TwoRoundTrip(r: int, rest: seq<Byte>)
    requires 0x80 <= r < 0x800
    ensures Decode(Encode(r) + rest) == Rune(r, 2)
  {
    var raw := Encode(r) + rest;
    assert raw[0] == (0xC0 + r / 64) as Byte && raw[1] == (0x80 + r % 64) as Byte;
  }

  lemma ThreeRoundTrip(r: int, rest: seq<Byte>)
    requires 0x800 <= r < 0x10000 && Scalar(r)
    ensures Decode(Encode(r) + rest) == Rune(r, 3)
  {
    var raw := Encode(r) + rest;
    assert raw[0] == (0xE0 + r / 4096) as Byte && raw[1] == (0x80 + r / 64 % 64) as Byte && raw[2] == (0x80 + r % 64) as Byte;
    assert r / 64 == r / 4096 * 64 + r / 64 % 64;
  }

  lemma FourRoundTrip(r: int, rest: seq<Byte>)
    requires 0x10000 <= r <= 0x10FFFF
    ensures Decode(Encode(r) + rest) == Rune(r, 4)
  {
    var raw := Encode(r) + rest;
    assert raw[0] == (0xF0 + r / 262144) as Byte && raw[1] == (0x80 + r / 4096 % 64) as Byte;
    assert raw[2] == (0x80 + r / 64 % 64) as Byte && raw[3] == (0x80 + r % 64) as Byte;
    assert r / 64 == r / 4096 * 64 + r / 64 % 64;
    assert r / 4096 == r / 262144 * 64 + r / 4096 % 64;
  }

  /** Whatever follows an encoded rune, decoding gives it back and consumes exactly its bytes. */
  lemma RoundTrip(r: int, rest: seq<Byte>)
    requires Scalar(r)
    ensures Decode(Encode(r) + rest) == Rune(r, |Encode(r)|)
  {
    if r < 0x80 {
    } else if r < 0x800 {
      TwoRoundTrip(r, rest);
    } else if r < 0x10000 {
      ThreeRoundTrip(r, rest);
    } else {
      FourRoundTrip(r, rest);
    }
  }

  lemma ThreeIsEncoded(raw: seq<Byte>)
    requires |raw| > 0 && 0xE0 <= raw[0] < 0xF0 && DecodeThree(raw).Rune?
    ensures Scalar(DecodeThree(raw).value) && raw[..3] == Encode(DecodeThree(raw).value)
  {
    var a, b, c := raw[0] as int - 0xE0, Tail(raw[1]), Tail(raw[2]);
    var r := DecodeThree(raw).value;
    assert r == a * 4096 + b * 64 + c;
    assert r / 4096 == a && r / 64 == a * 64 + b && r % 64 == c;
    assert r / 64 % 64 == b;
  }

  lemma FourIsEncoded(raw: seq<Byte>)
    requires |raw| > 0 && 0xF0 <= raw[0] < 0xF5 && DecodeFour(raw).Rune?
    ensures Scalar(DecodeFour(raw).value) && raw[..4] == Encode(DecodeFour(raw).value)
  {
    var a, b, c, d := raw[0] as int - 0xF0, Tail(raw[1]), Tail(raw[2]), Tail(raw[3]);
    var r := DecodeFour(raw).value;
    assert r == a * 262144 + b * 4096 + c * 64 + d;
    assert r / 262144 == a && r / 4096 == a * 64 + b && r / 64 == a * 4096 + b * 64 + c && r % 64 == d;
    assert r / 4096 % 64 == b && r / 64 % 64 == c;
  }

  /** Only well-formed sequences decode: the bytes consumed are the one encoding of the scalar value obtained. */
  lemma DecodesOnlyEncodings(raw: seq<Byte>)
    requires |raw| > 0 && Decode(raw).Rune?
    ensures var d := Decode(raw); 1 <= d.size <= |raw| && Scalar(d.value) && raw[..d.size] == Encode(d.value)
  {
    var b := raw[0];
    if 0xE0 <= b < 0xF0 {
      ThreeIsEncoded(raw);
    } else if 0xF0 <= b {
      FourIsEncoded(raw);
    }
  }

  // --------------------------------------------------------------------- boundaries

  /** The first byte of an encoded rune starts it, and every other continues it. */
  lemma EncodeShape(r: int)
    requires Scalar(r)
    ensures !Continuation(Encode(r)[0])
    ensures forall i | 0 < i < |Encode(r)| :: Continuation(Encode(r)[i])
  {
  }

  lemma {:induction false} EncodeAllConcat(a: seq<int>, b: seq<int>)
    requires Scalars(a) && Scalars(b)
    ensures EncodeAll(a + b) == EncodeAll(a) + EncodeAll(b)
  {
    if a == [] {
      assert a + b == b;
    } else {
      assert (a + b)[1..] == a[1..] + b;
      EncodeAllConcat(a[1..], b);
    }
  }

  /** Cutting encoded text where no rune continues cuts between runes. */
  lemma {:induction false} CutsBetweenRunes(runes: seq<int>, n: nat) returns (k: nat)
    requires Scalars(runes)
    requires n < |EncodeAll(runes)| && !Continuation(EncodeAll(runes)[n])
    ensures k < |runes| && EncodeAll(runes)[..n] == EncodeAll(runes[..k])
  {
    var first, rest := Encode(runes[0]), EncodeAll(runes[1..]);
    EncodeShape(runes[0]);
    if n < |first| {
      k := 0;
    } else {
      var j := CutsBetweenRunes(runes[1..], n - |first|);
      k := j + 1;
      assert runes[..k][0] == runes[0] && runes[..k][1..] == runes[1..][..j];
      assert (first + rest)[..n] == first + rest[..n - |first|];
    }
  }
}
