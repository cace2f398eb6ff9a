/**
 UTF-8 text as byte strings: well-formedness as `std::str::from_utf8` decides it (the byte
 ranges of Unicode table 3-7), character boundaries, and how far apart they can be.
 */
module Utf8 {
  import opened ByteStrings

  predicate IsContinuation(b: byte) { 0x80 <= b < 0xC0 }

  /** The length of the well-formed scalar s starts with, or 0 if it starts with none. */
  function ScalarLength(s: bytes): (n: nat)
    ensures n <= 4 && n <= |s|
    ensures n > 0 ==> !IsContinuation(s[0]) && forall i :: 0 < i < n ==> IsContinuation(s[i])
  {
    if s == [] then 0
    else if s[0] < 0x80 then 1
    else if 0xC2 <= s[0] <= 0xDF && |s| >= 2 && IsContinuation(s[1]) then 2
    else if 0xE0 <= s[0] <= 0xEF && |s| >= 3 && SecondOfThree(s[0], s[1]) && IsContinuation(s[2]) then 3
    else if 0xF0 <= s[0] <= 0xF4 && |s| >= 4 && SecondOfFour(s[0], s[1])
            && IsContinuation(s[2]) && IsContinuation(s[3]) then 4
    else 0
  }

  /** Three-byte scalars exclude overlong forms and surrogates. */
  predicate SecondOfThree(first: byte, second: byte) {
    IsContinuation(second) && (first == 0xE0 ==> second >= 0xA0) && (first == 0xED ==> second < 0xA0)
  }

  /** Four-byte scalars exclude overlong forms and values above 10FFFF. */
  predicate SecondOfFour(first: byte, second: byte) {
    IsContinuation(second) && (first == 0xF0 ==> second >= 0x90) && (first == 0xF4 ==> second < 0x90)
  }

  predicate ValidUtf8(s: bytes) {
    s == [] || (ScalarLength(s) > 0 && ValidUtf8(s[ScalarLength(s)..]))
  }

  /** `str::is_char_boundary` */
  predicate IsBoundary(s: bytes, i: nat) {
    i == 0 || i == |s| || (i < |s| && !IsContinuation(s[i]))
  }

  /** The last boundary at or before i. */
  function BoundaryAtOrBefore(s: bytes, i: nat): (b: nat)
    requires i <= |s|
    ensures b <= i && IsBoundary(s, b) && forall k :: b < k <= i ==> !IsBoundary(s, k)
  {
    if IsBoundary(s, i) then i else BoundaryAtOrBefore(s, i - 1)
  }

  /** Inside a scalar there is no boundary. */
  lemma {:induction false} BoundaryPastScalar(s: bytes, b: nat)
    requires ValidUtf8(s) && s != [] && 0 < b && IsBoundary(s, b)
    ensures ScalarLength(s) <= b && IsBoundary(s[ScalarLength(s)..], b - ScalarLength(s))
  {
  }

  /** From a boundary on, valid text is valid text. */
  lemma {:induction false} ValidFromBoundary(s: bytes, b: nat)
    requires ValidUtf8(s) && b <= |s| && IsBoundary(s, b)
    ensures ValidUtf8(s[b..])
    decreases |s|
  {
    if b == 0 {
      assert s[0..] == s;
    } else {
      var n := ScalarLength(s);
      BoundaryPastScalar(s, b);
      ValidFromBoundary(s[n..], b - n);
      assert s[n..][b - n..] == s[b..];
    }
  }

  /** Every position of valid text has a boundary at most three bytes before and after it. */
  lemma {:induction false} BoundariesNear(s: bytes, i: nat) returns (lo: nat, hi: nat)
    requires ValidUtf8(s) && i <= |s|
    ensures lo <= i <= lo + 3 && IsBoundary(s, lo)
    ensures i <= hi <= i + 3 && hi <= |s| && IsBoundary(s, hi)
    decreases |s|
  {
    if i == 0 || i == |s| { return i, i; }
    var n := ScalarLength(s);
    if i < n {
      return 0, n;
    }
    lo, hi := BoundariesNear(s[n..], i - n);
    return lo + n, hi + n;
  }

  /** The scalar at a boundary ends at the next boundary. */
  lemma {:induction false} NextBoundary(s: bytes, b: nat)
    requires ValidUtf8(s) && b < |s| && IsBoundary(s, b)
    ensures var n := ScalarLength(s[b..]);
            0 < n && b + n <= |s| && IsBoundary(s, b + n) && forall k :: b < k < b + n ==> !IsBoundary(s, k)
  {
    ValidFromBoundary(s, b);
    var t := s[b..];
    var n := ScalarLength(t);
    if b + n < |s| {
      assert ScalarLength(t[n..]) > 0;
      assert t[n..][0] == s[b + n];
    }
    forall k | b < k < b + n
      ensures !IsBoundary(s, k)
    {
      assert s[k] == t[k - b];
    }
  }
}
