/** Well-formed UTF-8 (table 3-7 of the Unicode Standard), which a request line must be. */
module Utf8 {

  type Byte = b: int | 0 <= b < 256

  predicate Continuation(x: Byte) { 0x80 <= x <= 0xBF }

  /** How many continuation bytes follow the lead byte `x`; none is a lead byte on its own. */
  function Trailing(x: Byte): (n: int)
    ensures -1 <= n <= 3
  {
    if x <= 0x7F then 0
    else if 0xC2 <= x <= 0xDF then 1
    else if 0xE0 <= x <= 0xEF then 2
    else if 0xF0 <= x <= 0xF4 then 3
    else -1
  }

  /** The second byte is narrower after some lead bytes: no overlong forms, no surrogates, no excess. */
  predicate SecondFits(x: Byte, y: Byte) {
    && (x == 0xE0 ==> y >= 0xA0)
    && (x == 0xED ==> y <= 0x9F)
    && (x == 0xF0 ==> y >= 0x90)
    && (x == 0xF4 ==> y <= 0x8F)
  }

  /** `b` begins with a well-formed character. */
  predicate Begins(b: seq<Byte>) {
    && b != [] && 0 <= Trailing(b[0]) < |b|
    && (forall i :: 1 <= i <= Trailing(b[0]) ==> Continuation(b[i]))
    && (Trailing(b[0]) >= 1 ==> SecondFits(b[0], b[1]))
  }

  predicate Valid(b: seq<Byte>)
    decreases |b|
  {
    b == [] || (Begins(b) && Valid(b[1 + Trailing(b[0])..]))
  }

  /**
   Where valid text may be cut: the part before the cut is valid exactly if the cut does not fall in
   front of a continuation byte, and then the part after it is valid too.
   */
  lemma {:induction false} ValidCut(b: seq<Byte>, n: nat)
    requires Valid(b) && n <= |b|
    ensures Valid(b[..n]) <==> n == |b| || !Continuation(b[n])
    ensures Valid(b[..n]) ==> Valid(b[n..])
    decreases |b|
  {
    hide *;
    if n == 0 {
      ValidStarts(b);
      assert b[..n] == [] && b[n..] == b;
    } else {
      var m := 1 + Trailing(b[0]);
      ValidStep(b);
      BeginsPrefix(b, n);
      ValidStep(b[..n]);
      if m <= n {
        ValidCut(b[m..], n - m);
        assert b[..n][m..] == b[m..][..n - m];
        assert b[m..][n - m..] == b[n..];
      }
    }
  }

  lemma ValidStarts(b: seq<Byte>)
    requires Valid(b)
    ensures Valid([]) && (b != [] ==> !Continuation(b[0]))
  {
    assert b != [] ==> Begins(b);
  }

  lemma ValidStep(b: seq<Byte>)
    requires b != []
    ensures Valid(b) <==> Begins(b) && Valid(b[1 + Trailing(b[0])..])
  {}

  /** A prefix begins with the same character, unless it ends inside it, before a continuation byte. */
  lemma BeginsPrefix(b: seq<Byte>, n: nat)
    requires Begins(b) && 0 < n <= |b|
    ensures b[..n][0] == b[0] && 0 <= Trailing(b[0]) < |b|
    ensures Begins(b[..n]) <==> 1 + Trailing(b[0]) <= n
    ensures n < 1 + Trailing(b[0]) ==> Continuation(b[n])
  {
    assert forall i :: 0 <= i < n ==> b[..n][i] == b[i];
  }

  // ---------------------------------------------------------------- what well-formed text is made of

  /** A Unicode scalar value: a code point that is not a surrogate. */
  type Scalar = c: int | 0 <= c < 0xD800 || 0xDFFF < c <= 0x10FFFF

  /** The UTF-8 form of a scalar value (table 3-6 of the Unicode Standard). */
  function Encode(c: Scalar): seq<Byte> {
    if c < 0x80 then [c]
    else if c < 0x800 then [0xC0 + c / 64, 0x80 + c % 64]
    else if c < 0x10000 then [0xE0 + c / 4096, 0x80 + c / 64 % 64, 0x80 + c % 64]
    else [0xF0 + c / 262144, 0x80 + c / 4096 % 64, 0x80 + c / 64 % 64, 0x80 + c % 64]
  }

  function EncodeAll(cs: seq<Scalar>): seq<Byte> { if cs == [] then [] else Encode(cs[0]) + EncodeAll(cs[1..]) }

  lemma EncodedBegins(c: Scalar, rest: seq<Byte>)
    ensures Begins(Encode(c) + rest) && 1 + Trailing((Encode(c) + rest)[0]) == |Encode(c)|
  {}

  lemma Digits(a: int, b: int)
    requires 0 <= b < 64
    ensures (a * 64 + b) / 64 == a && (a * 64 + b) % 64 == b
  {}

  lemma Decoded2(x: int, y: int) returns (c: Scalar)
    requires 0xC2 <= x <= 0xDF && 0x80 <= y <= 0xBF
    ensures Encode(c) == [x, y]
  {
    Digits(x - 0xC0, y - 0x80);
    c := (x - 0xC0) * 64 + (y - 0x80);
  }

  lemma Decoded3(x: int, y: int, z: int) returns (c: Scalar)
    requires 0xE0 <= x <= 0xEF && 0x80 <= y <= 0xBF && 0x80 <= z <= 0xBF && SecondFits(x, y)
    ensures Encode(c) == [x, y, z]
  {
    var a := (x - 0xE0) * 64 + (y - 0x80);
    Digits(x - 0xE0, y - 0x80);
    Digits(a, z - 0x80);
    c := a * 64 + (z - 0x80);
    assert c / 4096 == c / 64 / 64;
  }

  lemma Decoded4(x: int, y: int, z: int, u: int) returns (c: Scalar)
    requires 0xF0 <= x <= 0xF4 && 0x80 <= y <= 0xBF && SecondFits(x, y)
    requires 0x80 <= z <= 0xBF && 0x80 <= u <= 0xBF
    ensures Encode(c) == [x, y, z, u]
  {
    var a := (x - 0xF0) * 64 + (y - 0x80);
    var b := a * 64 + (z - 0x80);
    Digits(x - 0xF0, y - 0x80);
    Digits(a, z - 0x80);
    Digits(b, u - 0x80);
    c := b * 64 + (u - 0x80);
    assert c / 4096 == c / 64 / 64 && c / 262144 == c / 4096 / 64;
  }

  /** The scalar value of the character with which `b` begins. */
  lemma Decoded(b: seq<Byte>) returns (c: Scalar)
    requires Begins(b)
    ensures Encode(c) == b[..1 + Trailing(b[0])]
  {
    var n := Trailing(b[0]);
    assert forall i :: 1 <= i <= n ==> Continuation(b[i]);
    if n == 0 {
      c := b[0];
    } else if n == 1 {
      hide Encode;
      c := Decoded2(b[0], b[1]);
      assert b[..2] == [b[0], b[1]];
    } else if n == 2 {
      hide Encode;
      c := Decoded3(b[0], b[1], b[2]);
      assert b[..3] == [b[0], b[1], b[2]];
    } else {
      hide Encode;
      c := Decoded4(b[0], b[1], b[2], b[3]);
      assert b[..4] == [b[0], b[1], b[2], b[3]];
    }
  }

  lemma {:induction false} EncodedIsValid(cs: seq<Scalar>)
    ensures Valid(EncodeAll(cs))
  {
    if cs != [] {
      hide Encode, Begins, Trailing;
      var rest := EncodeAll(cs[1..]);
      EncodedIsValid(cs[1..]);
      EncodedBegins(cs[0], rest);
      ValidStep(Encode(cs[0]) + rest);
      assert (Encode(cs[0]) + rest)[|Encode(cs[0])|..] == rest;
    }
  }

  lemma {:induction false} ValidIsEncoded(b: seq<Byte>) returns (cs: seq<Scalar>)
    requires Valid(b)
    ensures EncodeAll(cs) == b
    decreases |b|
  {
    cs := [];
    if b != [] {
      var n := 1 + Trailing(b[0]);
      var c := Decoded(b);
      var rest := ValidIsEncoded(b[n..]);
      cs := [c] + rest;
      assert cs[1..] == rest && b == b[..n] + b[n..];
    }
  }

  /** Text is valid exactly if it is the encoding of a sequence of scalar values. */
  lemma ValidExactlyIfEncoded(b: seq<Byte>)
    ensures Valid(b) <==> exists cs :: EncodeAll(cs) == b
  {
    if Valid(b) {
      var cs := ValidIsEncoded(b);
    }
    if cs :| EncodeAll(cs) == b {
      EncodedIsValid(cs);
    }
  }
}
