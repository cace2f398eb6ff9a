/**
 Text as Unicode scalar values: UTF-8 encoding, and lossy decoding as `String::from_utf8_lossy`
 does it, one replacement character for each maximal ill-formed part.
 */
module Scalars {
  import opened ByteStrings
  import opened Utf8

  type scalar = c: int | 0 <= c < 0x11_0000 && !(0xD800 <= c < 0xE000) witness 0

  type text = seq<scalar>

  const REPLACEMENT: scalar := 0xFFFD

  /** `char::len_utf8` */
  function Width(c: scalar): (n: nat)
    ensures 1 <= n <= 4
  {
    if c < 0x80 then 1 else if c < 0x800 then 2 else if c < 0x1_0000 then 3 else 4
  }

  function Encode(c: scalar): (s: bytes)
    ensures |s| == Width(c)
  {
    if c < 0x80 then [c]
    else if c < 0x800 then [0xC0 + c / 64, 0x80 + c % 64]
    else if c < 0x1_0000 then [0xE0 + c / 4096, 0x80 + c / 64 % 64, 0x80 + c % 64]
    else [0xF0 + c / 262144, 0x80 + c / 4096 % 64, 0x80 + c / 64 % 64, 0x80 + c % 64]
  }

  function Utf8Of(t: text): bytes {
    if t == [] then [] else Encode(t[0]) + Utf8Of(t[1..])
  }

  /** The six payload bits of a continuation byte. */
  function Low(b: byte): int { b - 0x80 }

  function DecodeFirst(s: bytes): int
    requires ScalarLength(s) > 0
  {
    var first: int := s[0];
    if ScalarLength(s) == 1 then first
    else if ScalarLength(s) == 2 then (first - 0xC0) * 64 + Low(s[1])
    else if ScalarLength(s) == 3 then (first - 0xE0) * 4096 + Low(s[1]) * 64 + Low(s[2])
    else (first - 0xF0) * 262144 + Low(s[1]) * 4096 + Low(s[2]) * 64 + Low(s[3])
  }

  lemma {:induction false} DecodedIsScalar(s: bytes)
    requires ScalarLength(s) > 0
    ensures 0 <= DecodeFirst(s) < 0x11_0000 && !(0xD800 <= DecodeFirst(s) < 0xE000)
  {
  }

  /** The ill-formed part at the start of s that one replacement character stands for. */
  function IllFormedLength(s: bytes): (n: nat)
    requires s != []
    ensures 1 <= n <= |s|
  {
    if 0xE0 <= s[0] <= 0xEF && |s| >= 2 && SecondOfThree(s[0], s[1]) then 2
    else if 0xF0 <= s[0] <= 0xF4 && |s| >= 2 && SecondOfFour(s[0], s[1]) then
      if |s| >= 3 && IsContinuation(s[2]) then 3 else 2
    else 1
  }

  /** `String::from_utf8_lossy` */
  function Lossy(s: bytes): text {
    if s == [] then []
    else if ScalarLength(s) > 0 then
      DecodedIsScalar(s);
      [DecodeFirst(s)] + Lossy(s[ScalarLength(s)..])
    else [REPLACEMENT] + Lossy(s[IllFormedLength(s)..])
  }

  /** The base-64 digits of a scalar. */
  lemma {:induction false} Digits(c: int)
    requires 0 <= c < 0x11_0000
    ensures c / 64 % 64 == c / 64 - 64 * (c / 4096) && c / 4096 % 64 == c / 4096 - 64 * (c / 262144)
    ensures c % 64 == c - 64 * (c / 64)
  {
    assert c / 64 / 64 == c / 4096;
    assert c / 4096 / 64 == c / 262144;
  }

  lemma {:induction false} EncodedIsScalar(c: scalar, rest: bytes)
    ensures ScalarLength(Encode(c) + rest) == Width(c)
  {
    Digits(c);
    var s := Encode(c) + rest;
    assert forall i :: 0 <= i < Width(c) ==> s[i] == Encode(c)[i];
    if c < 0x80 {
    } else if c < 0x800 {
      assert IsContinuation(s[1]);
    } else if c < 0x1_0000 {
      assert IsContinuation(s[1]) && IsContinuation(s[2]) && SecondOfThree(s[0], s[1]);
    } else {
      assert IsContinuation(s[1]) && IsContinuation(s[2]) && IsContinuation(s[3]) && SecondOfFour(s[0], s[1]);
    }
  }

  lemma {:induction false} DecodeInvertsEncode(c: scalar, rest: bytes)
    ensures ScalarLength(Encode(c) + rest) == Width(c) && DecodeFirst(Encode(c) + rest) == c
  {
    EncodedIsScalar(c, rest);
    Digits(c);
    var s := Encode(c) + rest;
    assert forall i :: 0 <= i < Width(c) ==> s[i] == Encode(c)[i];
    hide ScalarLength;
  }

  /** Encoded text is well-formed. */
  lemma {:induction false} Utf8IsValid(t: text)
    ensures ValidUtf8(Utf8Of(t))
    decreases |t|
  {
    hide Encode, ScalarLength;
    if t != [] {
      Utf8IsValid(t[1..]);
      EncodedIsScalar(t[0], Utf8Of(t[1..]));
      assert Utf8Of(t)[Width(t[0])..] == Utf8Of(t[1..]);
    }
  }

  lemma {:induction false} Payload(a: nat, b: nat, c: nat)
    requires b < 64 && c < 64
    ensures var n := a * 4096 + b * 64 + c;
            n / 4096 == a && n / 64 == a * 64 + b && n / 64 % 64 == b && n % 64 == c
  {
    var n := a * 4096 + b * 64 + c;
    assert n == (a * 64 + b) * 64 + c;
    assert n / 64 == a * 64 + b;
    assert (a * 64 + b) / 64 == a && (a * 64 + b) % 64 == b;
  }

  lemma {:induction false} EncodeTwo(a: nat, b: nat)
    requires 2 <= a < 32 && b < 64
    ensures Encode(a * 64 + b) == [0xC0 + a, 0x80 + b]
  {
    assert (a * 64 + b) / 64 == a && (a * 64 + b) % 64 == b;
  }

  lemma {:induction false} EncodeThree(a: nat, b: nat, c: nat)
    requires a < 16 && b < 64 && c < 64 && (a == 0 ==> b >= 32) && (a == 13 ==> b < 32)
    ensures var n := a * 4096 + b * 64 + c;
            0x800 <= n < 0x1_0000 && !(0xD800 <= n < 0xE000) && Encode(n) == [0xE0 + a, 0x80 + b, 0x80 + c]
  {
    Payload(a, b, c);
  }

  lemma {:induction false} EncodeFour(a: nat, b: nat, c: nat, d: nat)
    requires a <= 4 && b < 64 && c < 64 && d < 64 && (a == 0 ==> b >= 16) && (a == 4 ==> b < 16)
    ensures var n := a * 262144 + b * 4096 + c * 64 + d;
            0x1_0000 <= n < 0x11_0000 && Encode(n) == [0xF0 + a, 0x80 + b, 0x80 + c, 0x80 + d]
  {
    var n := a * 262144 + b * 4096 + c * 64 + d;
    Payload(a * 64 + b, c, d);
    Payload(a, b, c);
    Digits(n);
    assert n / 4096 == a * 64 + b;
    assert n / 262144 == a && n / 4096 % 64 == b;
  }

  /** A scalar that is read is the one whose encoding stands there. */
  lemma {:induction false} EncodeInvertsDecode(s: bytes)
    requires ScalarLength(s) > 0
    ensures 0 <= DecodeFirst(s) < 0x11_0000 && !(0xD800 <= DecodeFirst(s) < 0xE000)
    ensures Encode(DecodeFirst(s)) == s[..ScalarLength(s)]
  {
    DecodedIsScalar(s);
    hide Encode;
    if ScalarLength(s) == 1 {
      EncodeOne(s[0]);
    } else if ScalarLength(s) == 2 {
      EncodeTwo(s[0] - 0xC0, s[1] - 0x80);
    } else if ScalarLength(s) == 3 {
      EncodeThree(s[0] - 0xE0, s[1] - 0x80, s[2] - 0x80);
    } else {
      EncodeFour(s[0] - 0xF0, s[1] - 0x80, s[2] - 0x80, s[3] - 0x80);
    }
  }

  lemma {:induction false} EncodeOne(b: byte)
    requires b < 0x80
    ensures Encode(b) == [b]
  {
  }

  /** Well-formed byte strings are exactly the encodings of scalars. */
  lemma {:induction false} WellFormedIsEncoded(s: bytes)
    ensures ValidUtf8(s) <==> exists t: text :: Utf8Of(t) == s
  {
    if ValidUtf8(s) { var t := ReadBack(s); }
    forall t: text | Utf8Of(t) == s ensures ValidUtf8(s) { Utf8IsValid(t); }
  }

  lemma {:induction false} ReadBack(s: bytes) returns (t: text)
    requires ValidUtf8(s)
    ensures Utf8Of(t) == s
    decreases |s|
  {
    hide *;
    if s == [] {
      NoScalars();
      return [];
    }
    ValidStep(s);
    EncodeInvertsDecode(s);
    var n := ScalarLength(s);
    var rest := ReadBack(s[n..]);
    t := Prepended(DecodeFirst(s), rest);
    assert s == s[..n] + s[n..];
  }

  lemma {:induction false} NoScalars()
    ensures Utf8Of([]) == []
  {
  }

  lemma {:induction false} Prepended(c: scalar, rest: text) returns (t: text)
    ensures Utf8Of(t) == Encode(c) + Utf8Of(rest)
  {
    hide Encode;
    t := [c] + rest;
    assert t[1..] == rest;
  }

  lemma {:induction false} ValidStep(s: bytes)
    requires ValidUtf8(s) && s != []
    ensures ScalarLength(s) > 0 && ValidUtf8(s[ScalarLength(s)..])
  {
  }

  lemma {:induction false} Utf8Append(a: text, b: text)
    ensures Utf8Of(a + b) == Utf8Of(a) + Utf8Of(b)
    decreases |a|
  {
    hide Encode;
    if a == [] {
      assert a + b == b;
    } else {
      Utf8Append(a[1..], b);
      assert (a + b)[1..] == a[1..] + b;
    }
  }

  lemma {:induction false} LossyOfScalar(c: scalar, rest: bytes)
    ensures Lossy(Encode(c) + rest) == [c] + Lossy(rest)
  {
    hide Encode, DecodeFirst, ScalarLength;
    DecodeInvertsEncode(c, rest);
    assert (Encode(c) + rest)[Width(c)..] == rest;
  }

  /** Well-formed text is read back. */
  lemma {:induction false} LossyInvertsUtf8(t: text)
    ensures Lossy(Utf8Of(t)) == t
    decreases |t|
  {
    hide Encode, Lossy;
    if t == [] {
      assert Lossy([]) == [] by { LossyOfNothing(); }
    } else {
      LossyInvertsUtf8(t[1..]);
      LossyOfScalar(t[0], Utf8Of(t[1..]));
    }
  }

  lemma {:induction false} LossyOfNothing()
    ensures Lossy([]) == []
  {
  }

  /** A cut through well-formed text loses at most one scalar; what is left of it turns into something else. */
  lemma {:induction false} LossyOfCut(t: text, cut: nat) returns (n: nat, tail: text)
    requires cut <= |Utf8Of(t)|
    ensures n <= |t| && Lossy(Utf8Of(t)[..cut]) == t[..n] + tail
    ensures |Utf8Of(t[..n])| <= cut <= |Utf8Of(t[..n])| + 3
    decreases |t|
  {
    hide Encode, Lossy;
    if t == [] || cut < Width(t[0]) {
      return 0, Lossy(Utf8Of(t)[..cut]);
    }
    var w, rest := Width(t[0]), Utf8Of(t[1..]);
    n, tail := LossyOfCut(t[1..], cut - w);
    assert Utf8Of(t)[..cut] == Encode(t[0]) + rest[..cut - w];
    LossyOfScalar(t[0], rest[..cut - w]);
    assert t[..n + 1] == [t[0]] + t[1..][..n];
    assert t[..n + 1][1..] == t[1..][..n];
    n := n + 1;
  }
}
