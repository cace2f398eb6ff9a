/**
 What is shown of external text, said scalar by scalar: which characters never reach the display, that all
 others do unchanged, and how much of a long text is kept.
 */
module DisplayLaws {
  import opened ByteStrings
  import opened Scalars
  import opened Utf8
  import opened Display

  // ---------------------------------------------------------------- what never reaches the display

  /** C0 controls with tab and newline, delete, and C1 controls. */
  predicate IsControlCode(c: scalar) { c <= 0x1F || (c >= 0x7F && c <= 0x9F) }

  /** Marks, embeddings, overrides and isolates that change the writing direction. */
  predicate TurnsDirection(c: scalar) {
    c == 0x061C || c == 0x200E || c == 0x200F || (c >= 0x202A && c <= 0x202E) || (c >= 0x2066 && c <= 0x2069)
  }

  /** Line and paragraph separators. */
  predicate BreaksLines(c: scalar) { c == 0x2028 || c == 0x2029 }

  /** Zero-width spaces and joiners, the byte order mark, invisible operators, fillers and the soft hyphen. */
  predicate HasNoGlyph(c: scalar) {
    || (c >= 0x200B && c <= 0x200D) || c == 0xFEFF || (c >= 0x2060 && c <= 0x2065) || c == 0x00AD
    || c == 0x034F || c == 0x115F || c == 0x1160 || c == 0x17B4 || c == 0x17B5 || c == 0x180E
    || c == 0x3164 || c == 0xFFA0
  }

  /** Deprecated format characters, annotations, shorthand and musical format controls, and language tags. */
  predicate IsFormatCode(c: scalar) {
    || (c >= 0x206A && c <= 0x206F) || (c >= 0xFFF9 && c <= 0xFFFB) || (c >= 0x1BCA0 && c <= 0x1BCA3)
    || (c >= 0x1D173 && c <= 0x1D17A) || c == 0xE0001 || (c >= 0xE0020 && c <= 0xE007F)
  }

  predicate SelectsVariant(c: scalar) { (c >= 0xFE00 && c <= 0xFE0F) || (c >= 0xE0100 && c <= 0xE01EF) }

  predicate IsHidden(c: scalar) {
    IsControlCode(c) || TurnsDirection(c) || BreaksLines(c) || HasNoGlyph(c) || IsFormatCode(c) || SelectsVariant(c)
  }

  /** The text that may be seen in place of another: U+FFFD for each hidden scalar, and every other one as it is. */
  ghost predicate IsSafeFor(seen: text, t: text) {
    |seen| == |t|
    && forall i :: 0 <= i < |t| ==> if IsHidden(t[i]) then seen[i] == 0xFFFD else seen[i] == t[i]
  }

  lemma {:induction false} ControlMeans(c: scalar)
    ensures IsPresentationControl(c) <==> IsHidden(c)
  {
  }

  /** Sanitising keeps lines apart and replaces what is hidden; on one line newlines are replaced too. */
  lemma {:induction false} SanitizedIsSafe(t: text)
    ensures IsSafeFor(SanitizeSingleLine(t), t)
    ensures |SanitizeText(t)| == |t|
    ensures forall i :: 0 <= i < |t| ==>
              SanitizeText(t)[i] == if t[i] == 0x0A then 0x0A else if IsHidden(t[i]) then 0xFFFD else t[i]
    decreases |t|
  {
    SanitizedScalars(t);
    forall i | 0 <= i < |t| ensures IsPresentationControl(t[i]) <==> IsHidden(t[i]) {
      ControlMeans(t[i]);
    }
    hide IsPresentationControl, IsHidden, SanitizeSingleLine;
    if t != [] {
      SanitizedIsSafe(t[1..]);
      assert forall i :: 0 < i < |t| ==> t[i] == t[1..][i - 1];
      assert forall i :: 0 < i < |t| ==> SanitizeText(t)[i] == SanitizeText(t[1..])[i - 1];
    }
  }

  // ---------------------------------------------------------------- how much is kept

  /** The bytes up to a boundary are those of some first scalars. */
  lemma {:induction false} BoundaryIsBetweenScalars(t: text, n: nat) returns (k: nat)
    requires n <= |Utf8Of(t)| && IsBoundary(Utf8Of(t), n)
    ensures k <= |t| && Utf8Of(t[..k]) == Utf8Of(t)[..n]
    decreases |t|
  {
    if n == 0 { return 0; }
    FirstScalar(t, n);
    hide IsBoundary, Encode;
    var w, rest := Width(t[0]), Utf8Of(t[1..]);
    k := BoundaryIsBetweenScalars(t[1..], n - w);
    assert t[..k + 1][1..] == t[1..][..k];
    assert Utf8Of(t)[..n] == Encode(t[0]) + rest[..n - w];
    k := k + 1;
  }

  /** A boundary behind the start is behind the first scalar, and one of what follows it. */
  lemma {:induction false} FirstScalar(t: text, n: nat)
    requires 0 < n <= |Utf8Of(t)| && IsBoundary(Utf8Of(t), n)
    ensures t != [] && Width(t[0]) <= n && IsBoundary(Utf8Of(t[1..]), n - Width(t[0]))
  {
    hide Encode;
    Utf8IsValid(t);
    EncodedIsScalar(t[0], Utf8Of(t[1..]));
    assert Utf8Of(t)[Width(t[0])..] == Utf8Of(t[1..]);
    hide IsBoundary, ValidUtf8, ScalarLength;
    BoundaryPastScalar(Utf8Of(t), n);
  }

  /** And behind any first scalars there is a boundary. */
  lemma {:induction false} ScalarsEndAtBoundary(t: text, k: nat)
    requires k <= |t|
    ensures |Utf8Of(t[..k])| <= |Utf8Of(t)| && IsBoundary(Utf8Of(t), |Utf8Of(t[..k])|)
  {
    var front, back := t[..k], t[k..];
    assert t == front + back;
    Utf8Append(front, back);
    if back != [] {
      EncodedIsScalar(back[0], Utf8Of(back[1..]));
      assert Utf8Of(t)[|Utf8Of(front)|] == Utf8Of(back)[0];
    }
  }

  /** All of a safe text that fits 16384 bytes; of a longer one as many scalars as leave room for the suffix. */
  ghost predicate IsShownOf(shown: bytes, seen: text) {
    if |Utf8Of(seen)| <= 16384 then shown == Utf8Of(seen)
    else exists k :: IsCutAfter(shown, seen, k)
  }

  ghost predicate IsCutAfter(shown: bytes, seen: text, k: nat) {
    && k < |seen| && shown == Utf8Of(seen[..k]) + TruncationMark()
    && |shown| <= 16384 < |Utf8Of(seen[..k + 1]) + TruncationMark()|
  }

  function TruncationMark(): bytes {
    ['<' as int, 't' as int, 'r' as int, 'u' as int, 'n' as int, 'c' as int, 'a' as int, 't' as int, 'e' as int,
     'd' as int, '>' as int]
  }

  /** What is shown of a text, and that nothing hidden is in it. */
  lemma {:induction false} ShownMeans(t: text) returns (seen: text)
    ensures IsSafeFor(seen, t) && IsShownOf(Shown(t), seen)
    ensures forall i :: 0 <= i < |seen| ==> !IsHidden(seen[i])
  {
    seen := SanitizeSingleLine(t);
    SanitizedIsSafe(t);
    ReplacementIsSeen();
    hide IsHidden;
    var s := Utf8Of(seen);
    if |s| > 16384 {
      ShownIsBounded(t);
      var n :| MAX_DISPLAY_BYTES - |SUFFIX| - 3 <= n <= MAX_DISPLAY_BYTES - |SUFFIX| && IsBoundary(s, n)
               && (forall k :: n < k <= MAX_DISPLAY_BYTES - |SUFFIX| ==> !IsBoundary(s, k))
               && Shown(t) == s[..n] + SUFFIX;
      hide Shown, SanitizeSingleLine;
      CutIsAfterScalars(seen, n, Shown(t));
    } else {
      hide SanitizeSingleLine, Utf8Of;
    }
  }

  lemma {:induction false} ReplacementIsSeen()
    ensures !IsHidden(0xFFFD)
  {
  }

  lemma {:induction false} CutIsAfterScalars(seen: text, n: nat, shown: bytes)
    requires |Utf8Of(seen)| > 16384 && n <= 16373 && IsBoundary(Utf8Of(seen), n) && shown == Utf8Of(seen)[..n] + SUFFIX
    requires forall k :: n < k <= 16373 ==> !IsBoundary(Utf8Of(seen), k)
    ensures IsShownOf(shown, seen)
  {
    var k := BoundaryIsBetweenScalars(seen, n);
    assert k < |seen| by { assert seen[..|seen|] == seen; }
    ScalarsEndAtBoundary(seen, k + 1);
    assert seen[..k + 1] == seen[..k] + [seen[k]];
    Utf8Append(seen[..k], [seen[k]]);
    assert |Utf8Of([seen[k]])| > 0;
    hide IsBoundary, Utf8Of;
    assert TruncationMark() == SUFFIX;
    assert IsCutAfter(shown, seen, k);
  }

  /** Printable ASCII that fits is shown as it is. */
  lemma {:induction false} PrintableIsShown(t: text)
    requires |t| <= 16384 && forall i :: 0 <= i < |t| ==> 0x20 <= t[i] <= 0x7E
    ensures |Shown(t)| == |t| && forall i :: 0 <= i < |t| ==> Shown(t)[i] == t[i]
  {
    var seen := ShownMeans(t);
    assert forall i :: 0 <= i < |t| ==> !IsHidden(t[i]);
    assert seen == t;
    hide IsHidden, Shown;
    AsciiBytes(t);
  }

  lemma {:induction false} AsciiBytes(t: text)
    requires forall i :: 0 <= i < |t| ==> t[i] < 0x80
    ensures |Utf8Of(t)| == |t| && forall i :: 0 <= i < |t| ==> Utf8Of(t)[i] == t[i]
    decreases |t|
  {
    if t != [] {
      AsciiBytes(t[1..]);
      assert forall i :: 0 < i < |t| ==> t[i] == t[1..][i - 1];
      assert Utf8Of(t) == [t[0]] + Utf8Of(t[1..]);
    }
  }
}
