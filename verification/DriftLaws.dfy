/**
 What the drift metric decides, said of positions in a text: which characters are read as what, where a
 pattern stands and when it is part of a longer number, and when a relation is satisfied.
 */
module DriftLaws {
  import opened ByteStrings
  import opened Chars
  import opened DriftMetric

  // ---------------------------------------------------------------- reading

  /** Emphasis, code marks, line breaks, table pipes and white space are not read. */
  predicate IsRead(c: char) { c != '*' && c != '`' && c != '\n' && c != '|' && !IsWhitespace(c) }

  /** The line breaks and pipes of a text. */
  function BreaksIn(t: string): nat {
    if t == "" then 0
    else BreaksIn(t[..|t| - 1]) + if t[|t| - 1] == '\n' || t[|t| - 1] == '|' then 1 else 0
  }

  /** White space, a line break or a pipe somewhere in a text. */
  predicate Separates(t: string) {
    exists i :: 0 <= i < |t| && (IsWhitespace(t[i]) || t[i] == '\n' || t[i] == '|')
  }

  /** Behind the character read before the i-th, or at the start of the text. */
  function GapStart(at: seq<nat>, i: nat): nat
    requires i <= |at|
  {
    if i == 0 then 0 else at[i - 1] + 1
  }

  /** The i-th lexeme, with the breaks before it, and separated if something between it and the one before separates. */
  ghost predicate IsReadAt(l: Lexemes, t: string, at: seq<nat>, i: nat)
    requires i < |at| == |l.chars| == |l.segments| == |l.separated|
  {
    && GapStart(at, i) <= at[i] < |t| && l.chars[i] == t[at[i]] && IsRead(t[at[i]])
    && l.segments[i] == BreaksIn(t[..at[i]]) && (l.separated[i] <==> Separates(t[GapStart(at, i)..at[i]]))
  }

  /** The places in a text that its lexemes are read from, in order: all characters that are read. */
  ghost predicate AreReadAt(l: Lexemes, t: string, at: seq<nat>) {
    && |at| == |l.chars| == |l.segments| == |l.separated|
    && (forall i :: 0 <= i < |at| ==> IsReadAt(l, t, at, i))
    && (forall p :: 0 <= p < |t| && IsRead(t[p]) ==> p in at)
  }

  /** A state of the reader behind a text. */
  ghost predicate IsStateBehind(s: State, t: string, at: seq<nat>) {
    AreReadAt(s.lexemes, t, at) && s.segment == BreaksIn(t)
    && GapStart(at, |at|) <= |t| && (s.pending <==> Separates(t[GapStart(at, |at|)..]))
  }

  lemma {:induction false} SeparatesMore(t: string, c: char)
    ensures Separates(t + [c]) <==> Separates(t) || IsWhitespace(c) || c == '\n' || c == '|'
  {
    hide IsWhitespace;
    var u := t + [c];
    assert u[|t|] == c;
    assert forall i :: 0 <= i < |t| ==> u[i] == t[i];
  }

  lemma {:induction false} BreaksMore(t: string, c: char)
    ensures BreaksIn(t + [c]) == BreaksIn(t) + if c == '\n' || c == '|' then 1 else 0
  {
    assert (t + [c])[..|t|] == t;
  }

  /** What was read of a text is read at the same places of a longer one. */
  lemma {:induction false} StillReadAt(l: Lexemes, t: string, at: seq<nat>, m: Lexemes, u: string, places: seq<nat>,
                                       i: nat)
    requires |at| == |l.chars| == |l.segments| == |l.separated|
    requires |places| == |m.chars| == |m.segments| == |m.separated|
    requires t <= u && at <= places && l.chars <= m.chars && l.segments <= m.segments && l.separated <= m.separated
    requires i < |at| && IsReadAt(l, t, at, i)
    ensures IsReadAt(m, u, places, i)
  {
    hide IsRead, Separates, BreaksIn;
    var gap, p := GapStart(at, i), at[i];
    assert GapStart(places, i) == gap && places[i] == p && u[p] == t[p];
    assert u[..p] == t[..p] && u[gap..p] == t[gap..p];
  }

  lemma {:induction false} ReadInLonger(l: Lexemes, t: string, at: seq<nat>, c: char)
    requires AreReadAt(l, t, at) && !IsRead(c)
    ensures AreReadAt(l, t + [c], at)
  {
    hide IsRead, IsReadAt;
    var u := t + [c];
    assert forall i :: 0 <= i < |t| ==> u[i] == t[i];
    forall i | 0 <= i < |at| ensures IsReadAt(l, u, at, i) { StillReadAt(l, t, at, l, u, at, i); }
  }

  lemma {:induction false} ReadOneMoreAt(l: Lexemes, t: string, at: seq<nat>, c: char, segment: nat, separated: bool)
    requires AreReadAt(l, t, at) && IsRead(c) && GapStart(at, |at|) <= |t|
    requires segment == BreaksIn(t) && (separated <==> Separates(t[GapStart(at, |at|)..]))
    ensures AreReadAt(Lexemes(l.chars + [c], l.segments + [segment], l.separated + [separated]), t + [c], at + [|t|])
  {
    var u, places := t + [c], at + [|t|];
    var m := Lexemes(l.chars + [c], l.segments + [segment], l.separated + [separated]);
    LastIsReadAt(l, t, at, c, segment, separated);
    hide IsRead, IsReadAt;
    assert forall i :: 0 <= i < |t| ==> u[i] == t[i];
    forall i | 0 <= i < |places| ensures IsReadAt(m, u, places, i) {
      if i < |at| { StillReadAt(l, t, at, m, u, places, i); }
    }
    forall p | 0 <= p < |u| && IsRead(u[p]) ensures p in places {
      if p < |t| { assert p in at; } else { assert places[|at|] == p; }
    }
  }

  lemma {:induction false} LastIsReadAt(l: Lexemes, t: string, at: seq<nat>, c: char, segment: nat, separated: bool)
    requires |at| == |l.chars| == |l.segments| == |l.separated| && IsRead(c) && GapStart(at, |at|) <= |t|
    requires segment == BreaksIn(t) && (separated <==> Separates(t[GapStart(at, |at|)..]))
    ensures IsReadAt(Lexemes(l.chars + [c], l.segments + [segment], l.separated + [separated]), t + [c], at + [|t|],
                     |at|)
  {
    hide IsRead, Separates, BreaksIn;
    var u, gap := t + [c], GapStart(at, |at|);
    assert GapStart(at + [|t|], |at|) == gap;
    assert u[..|t|] == t && u[gap..|t|] == t[gap..];
  }

  /** One character moves the reader as it should. */
  lemma {:induction false} StepMeans(s: State, t: string, at: seq<nat>, c: char) returns (after: seq<nat>)
    requires IsStateBehind(s, t, at)
    ensures IsStateBehind(ReadChar(c, s), t + [c], after)
  {
    assert IsRead(c) <==> !IsMarker(c) && !IsBreak(c) && !IsWhitespace(c);
    BreaksMore(t, c);
    if IsRead(c) {
      after := at + [|t|];
      hide IsRead, Separates, BreaksIn, IsWhitespace, AreReadAt;
      assert (t + [c])[GapStart(after, |after|)..] == "";
      ReadOneMoreAt(s.lexemes, t, at, c, s.segment, s.pending);
      NothingSeparates();
    } else {
      after := at;
      MarkersAreNoSpace(c);
      hide IsRead, Separates, BreaksIn, IsWhitespace, AreReadAt;
      ReadInLonger(s.lexemes, t, at, c);
      GapGrows(t, GapStart(at, |at|), c);
    }
  }

  lemma {:induction false} GapGrows(t: string, gap: nat, c: char)
    requires gap <= |t|
    ensures Separates((t + [c])[gap..]) <==> Separates(t[gap..]) || IsWhitespace(c) || c == '\n' || c == '|'
  {
    SeparatesMore(t[gap..], c);
    assert (t + [c])[gap..] == t[gap..] + [c];
  }

  lemma {:induction false} NothingSeparates()
    ensures !Separates("")
  {
  }

  lemma {:induction false} MarkersAreNoSpace(c: char)
    ensures c == '*' || c == '`' ==> !IsWhitespace(c) && c != '\n' && c != '|'
  {
  }

  /** Reading means: the characters that are read, where they stand. */
  lemma {:induction false} ReadMeans(t: string) returns (at: seq<nat>)
    ensures IsStateBehind(Read(t, START), t, at)
    decreases |t|
  {
    hide ReadChar, IsStateBehind;
    if t == "" {
      at := [];
      ReadNothing(START);
      StartMeans();
    } else {
      var n := |t| - 1;
      var before := ReadMeans(t[..n]);
      assert t == t[..n] + [t[n]];
      ReadOneMore(t[..n], t[n], START);
      at := StepMeans(Read(t[..n], START), t[..n], before, t[n]);
    }
  }

  lemma {:induction false} StartMeans()
    ensures IsStateBehind(START, "", [])
  {
  }

  /** A text is read in lower case, each character by the table. */
  lemma {:induction false} LexemesMean(t: string, table: CharTable) returns (lower: string, at: seq<nat>)
    ensures AreReadAt(Normalize(t, table), lower, at)
    ensures exists parts: seq<string> :: IsJoined(lower, parts) && |parts| == |t|
                                         && forall i :: 0 <= i < |t| ==> parts[i] == table.lowercase(t[i])
  {
    lower := Lower(t, table);
    at := ReadMeans(lower);
    var parts := LowerMeans(t, table);
  }

  predicate IsJoined(whole: string, parts: seq<string>) {
    if parts == [] then whole == ""
    else |parts[0]| <= |whole| && whole[..|parts[0]|] == parts[0] && IsJoined(whole[|parts[0]|..], parts[1..])
  }

  lemma {:induction false} LowerMeans(t: string, table: CharTable) returns (parts: seq<string>)
    ensures IsJoined(Lower(t, table), parts) && |parts| == |t|
    ensures forall i :: 0 <= i < |t| ==> parts[i] == table.lowercase(t[i])
    decreases |t|
  {
    parts := [];
    if t != "" {
      var rest := LowerMeans(t[1..], table);
      parts := [table.lowercase(t[0])] + rest;
      assert parts[1..] == rest;
      var first := table.lowercase(t[0]);
      DropConcat(first, Lower(t[1..], table));
    }
  }

  // ---------------------------------------------------------------- where a pattern stands

  predicate IsAsciiWord(c: char) { '0' <= c <= '9' || 'a' <= c <= 'z' || 'A' <= c <= 'Z' || c == '_' }

  /** A number goes on across the gap between two characters that nothing separates. */
  predicate NumberEndsIn(l: Lexemes, s: nat) {
    && 1 <= s < |l.chars| == |l.separated| && !l.separated[s]
    && (|| IsAsciiWord(l.chars[s - 1]) || l.chars[s - 1] == '+' || l.chars[s - 1] == '-'
        || ((l.chars[s - 1] == '.' || l.chars[s - 1] == ',') && s >= 2 && '0' <= l.chars[s - 2] <= '9'))
  }

  predicate NumberGoesOn(l: Lexemes, e: nat) {
    && e < |l.chars| == |l.separated| && !l.separated[e]
    && (|| IsAsciiWord(l.chars[e]) || l.chars[e] == '+' || l.chars[e] == '-'
        || ((l.chars[e] == '.' || l.chars[e] == ',') && e + 1 < |l.chars| && '0' <= l.chars[e + 1] <= '9'))
  }

  /** Plus, minus, and their full-width, small, raised, lowered and combined forms. */
  predicate IsAnySign(c: char) {
    || c == '+' || c == '-' || c == '\U{2212}' || c == '\U{FF0B}' || c == '\U{FF0D}' || c == '\U{FE62}'
    || c == '\U{FE63}' || c == '\U{207A}' || c == '\U{207B}' || c == '\U{208A}' || c == '\U{208B}' || c == '\U{B1}'
    || c == '\U{2213}'
  }

  /** Full stop, comma, and their full-width, Arabic and small forms. */
  predicate IsAnyPoint(c: char) {
    || c == '.' || c == ',' || c == '\U{FF0E}' || c == '\U{FF0C}' || c == '\U{66B}' || c == '\U{66C}'
    || c == '\U{FE50}' || c == '\U{FE52}'
  }

  predicate IsAnyWord(c: char, table: CharTable) {
    'a' <= c <= 'z' || 'A' <= c <= 'Z' || c == '_' || table.isNumeric(c)
  }

  /** With signs before a number taken for part of it even across a separator. */
  predicate AnyNumberEndsIn(l: Lexemes, s: nat, table: CharTable) {
    && 1 <= s < |l.chars| == |l.separated|
    && (|| IsAnySign(l.chars[s - 1])
        || (!l.separated[s]
            && (|| IsAnyWord(l.chars[s - 1], table)
                || (IsAnyPoint(l.chars[s - 1]) && s >= 2 && table.isNumeric(l.chars[s - 2])))))
  }

  predicate AnyNumberGoesOn(l: Lexemes, e: nat, table: CharTable) {
    && e < |l.chars| == |l.separated| && !l.separated[e]
    && (|| IsAnySign(l.chars[e]) || IsAnyWord(l.chars[e], table)
        || (IsAnyPoint(l.chars[e]) && e + 1 < |l.chars| && table.isNumeric(l.chars[e + 1])))
  }

  /** Part of a longer number, or word, on one side or the other. */
  predicate IsPartOfNumber(l: Lexemes, s: nat, e: nat, boundary: Boundary, table: CharTable) {
    match boundary
    case Substring => false
    case NumericToken => NumberEndsIn(l, s) || NumberGoesOn(l, e)
    case UnicodeNumericToken => AnyNumberEndsIn(l, s, table) || AnyNumberGoesOn(l, e, table)
  }

  predicate Stands(l: Lexemes, pattern: string, boundary: Boundary, table: CharTable, s: nat, e: nat) {
    && pattern != "" && e == s + |pattern| <= |l.chars|
    && (forall k :: 0 <= k < |pattern| ==> l.chars[s + k] == pattern[k])
    && !IsPartOfNumber(l, s, e, boundary, table)
  }

  lemma {:induction false} NumericMeans(l: Lexemes, s: nat, e: nat)
    requires l.Valid() && s < e <= |l.chars|
    ensures HasNumericBoundaries(l, s, e) <==> !NumberEndsIn(l, s) && !NumberGoesOn(l, e)
  {
  }

  lemma {:induction false} SignsMean(c: char)
    ensures IsNumericSign(c) <==> IsAnySign(c)
  {
  }

  lemma {:induction false} PointsMean(c: char)
    ensures IsNumericSeparator(c) <==> IsAnyPoint(c)
  {
  }

  lemma {:induction false} SignsAreNoPoints(c: char)
    ensures IsAnySign(c) ==> !IsAnyPoint(c)
  {
  }

  /** Digits, letters and signs are no points; the table may still call a point numeric. */
  lemma {:induction false} UnicodeMeans(l: Lexemes, s: nat, e: nat, table: CharTable)
    requires l.Valid() && s < e <= |l.chars|
    ensures HasUnicodeNumericBoundaries(l, s, e, table) <==>
              !AnyNumberEndsIn(l, s, table) && !AnyNumberGoesOn(l, e, table)
  {
    if s > 0 {
      SignsMean(l.chars[s - 1]);
      PointsMean(l.chars[s - 1]);
    }
    if e < |l.chars| {
      SignsMean(l.chars[e]);
      PointsMean(l.chars[e]);
    }
    hide IsNumericSign, IsNumericSeparator, IsAnySign, IsAnyPoint;
  }

  /** A pattern is found exactly where it stands and is not part of a longer number. */
  lemma {:induction false} StandsMeans(l: Lexemes, pattern: string, boundary: Boundary, table: CharTable, s: nat)
    requires l.Valid()
    ensures OccursAt(l, pattern, s, boundary, table) <==> Stands(l, pattern, boundary, table, s, s + |pattern|)
  {
    var e := s + |pattern|;
    if pattern != "" && e <= |l.chars| {
      NumericMeans(l, s, e);
      UnicodeMeans(l, s, e, table);
      hide HasNumericBoundaries, HasUnicodeNumericBoundaries, NumberEndsIn, NumberGoesOn, AnyNumberEndsIn,
           AnyNumberGoesOn;
      assert l.chars[s..e] == pattern <==> forall k :: 0 <= k < |pattern| ==> l.chars[s..e][k] == pattern[k];
      assert forall k :: 0 <= k < |pattern| ==> l.chars[s..e][k] == l.chars[s + k];
    }
  }

  /** One of several patterns stands here. */
  ghost predicate StandsOneOf(l: Lexemes, patterns: seq<string>, boundary: Boundary, table: CharTable, s: nat, e: nat) {
    exists k :: 0 <= k < |patterns| && Stands(l, Normalize(patterns[k], table).chars, boundary, table, s, e)
  }

  lemma {:induction false} FoundMeans(l: Lexemes, patterns: seq<string>, boundary: Boundary, table: CharTable,
                                      o: Occurrence)
    requires l.Valid()
    ensures o in AllOccurrences(l, patterns, boundary, table) <==>
            StandsOneOf(l, patterns, boundary, table, o.start, o.end) && StandsIn(o, l)
    decreases |patterns|
  {
    hide Occurrences, Normalize, OccursAt, Stands;
    if patterns != [] {
      var first := Normalize(patterns[0], table).chars;
      OccurrencesComplete(l, first, 0, boundary, table, o);
      StandsMeans(l, first, boundary, table, o.start);
      StandsWithin(l, first, boundary, table, o.start, o.end);
      FoundMeans(l, patterns[1..], boundary, table, o);
      ConsPatterns(l, patterns, boundary, table, o.start, o.end);
      hide StandsOneOf;
    }
  }

  lemma {:induction false} StandsWithin(l: Lexemes, pattern: string, boundary: Boundary, table: CharTable, s: nat,
                                        e: nat)
    ensures Stands(l, pattern, boundary, table, s, e) ==> e == s + |pattern| && s < e <= |l.chars|
  {
    hide IsPartOfNumber;
  }

  lemma {:induction false} ConsPatterns(l: Lexemes, patterns: seq<string>, boundary: Boundary, table: CharTable, s: nat,
                                        e: nat)
    requires patterns != []
    ensures StandsOneOf(l, patterns, boundary, table, s, e) <==>
              Stands(l, Normalize(patterns[0], table).chars, boundary, table, s, e)
              || StandsOneOf(l, patterns[1..], boundary, table, s, e)
  {
    hide Stands, Normalize;
    if k :| 0 <= k < |patterns| - 1 && Stands(l, Normalize(patterns[1..][k], table).chars, boundary, table, s, e) {
      assert patterns[1..][k] == patterns[k + 1];
    }
    if k :| 0 < k < |patterns| && Stands(l, Normalize(patterns[k], table).chars, boundary, table, s, e) {
      assert patterns[1..][k - 1] == patterns[k];
    }
  }

  // ---------------------------------------------------------------- verdicts

  /** An anchor and a value, by the positions where they start and end. */
  datatype Pair = Pair(anchor: Range, value: Range)

  /** At most so many characters lie between two pieces of a text, in either order. */
  predicate AreNear(a: Range, b: Range, distance: nat) {
    b.start <= a.end + distance && a.start <= b.end + distance
  }

  /** In one segment from end to end. */
  predicate IsInSegment(l: Lexemes, a: Range, segment: nat) {
    0 <= a.start < a.end <= |l.segments| && l.segments[a.start] == segment && l.segments[a.end - 1] == segment
  }

  ghost predicate IsRelated(l: Lexemes, r: Relation, table: CharTable, p: Pair) {
    && StandsOneOf(l, r.anchors, Substring, table, p.anchor.start, p.anchor.end)
    && StandsOneOf(l, r.values, r.boundary, table, p.value.start, p.value.end)
    && (r.ordered ==> p.anchor.end <= p.value.start)
    && AreNear(p.anchor, p.value, r.maxDistance)
    && (r.scope == Segment ==>
          exists segment: nat :: IsInSegment(l, p.anchor, segment) && IsInSegment(l, p.value, segment))
  }

  /** Two pieces of a text reach over a common stretch of segments. */
  predicate ShareSegments(l: Lexemes, a: Range, b: Range) {
    && a.start < a.end <= |l.segments| && b.start < b.end <= |l.segments|
    && l.segments[a.start] <= l.segments[b.end - 1] && l.segments[b.start] <= l.segments[a.end - 1]
  }

  /** Near the stretch from the first to the last character of a pair. */
  predicate IsNearPair(c: Range, p: Pair, distance: nat) {
    && (c.start <= p.anchor.end + distance || c.start <= p.value.end + distance)
    && (p.anchor.start <= c.end + distance || p.value.start <= c.end + distance)
  }

  /** A character of c stands between the first and the last of a pair. */
  ghost predicate ReachesInto(c: Range, p: Pair) {
    exists i: nat :: IsInBoth(c, p, i)
  }

  predicate IsInBoth(c: Range, p: Pair, i: nat) {
    c.start <= i < c.end && (p.anchor.start <= i || p.value.start <= i) && (i < p.anchor.end || i < p.value.end)
  }

  /** A forbidden piece spoils a pair. */
  ghost predicate Spoils(l: Lexemes, r: Relation, c: Range, p: Pair) {
    match r.scope
    case Between => ReachesInto(c, p)
    case Segment => IsNearPair(c, p, r.forbiddenDistance)
                    && exists segment: nat :: IsInSegment(l, p.anchor, segment) && IsInSegment(l, c, segment)
    case RelatedSegments =>
      IsNearPair(c, p, r.forbiddenDistance) && (ShareSegments(l, c, p.anchor) || ShareSegments(l, c, p.value))
    case RelationWindow => IsNearPair(c, p, r.forbiddenDistance)
  }

  ghost predicate IsClean(l: Lexemes, r: Relation, table: CharTable, p: Pair) {
    forall c: Range :: StandsOneOf(l, r.forbidden, Substring, table, c.start, c.end) ==> !Spoils(l, r, c, p)
  }

  /** There is a related pair that nothing forbidden spoils; in a relation window, and no pair that something does. */
  ghost predicate IsFulfilled(l: Lexemes, r: Relation, table: CharTable) {
    && (exists p :: IsRelated(l, r, table, p) && IsClean(l, r, table, p))
    && (r.scope == RelationWindow ==> forall p :: IsRelated(l, r, table, p) ==> IsClean(l, r, table, p))
  }

  function OccurrenceAt(l: Lexemes, a: Range): Occurrence
    requires l.Valid() && a.start < a.end <= |l.chars|
  {
    Occurrence(a.start, a.end, l.segments[a.start], l.segments[a.end - 1])
  }

  lemma {:induction false} PairMeans(l: Lexemes, r: Relation, table: CharTable, a: Occurrence, v: Occurrence)
    requires l.Valid() && StandsIn(a, l) && StandsIn(v, l)
    requires StandsOneOf(l, r.anchors, Substring, table, a.start, a.end)
    requires StandsOneOf(l, r.values, r.boundary, table, v.start, v.end)
    ensures IsPair(r, a, v) <==> IsRelated(l, r, table, Pair(RangeOf(a), RangeOf(v)))
  {
    hide StandsOneOf;
    var p := Pair(RangeOf(a), RangeOf(v));
    assert IsWithin(a, a.startSegment) && IsWithin(v, a.startSegment) ==>
        IsInSegment(l, p.anchor, a.startSegment) && IsInSegment(l, p.value, a.startSegment);
  }

  lemma {:induction false} SpoilMeans(l: Lexemes, r: Relation, c: Occurrence, a: Occurrence, v: Occurrence)
    requires l.Valid() && StandsIn(c, l) && StandsIn(a, l) && StandsIn(v, l)
    requires r.scope == Segment ==> IsWithin(a, a.startSegment)
    ensures Forbids(r, c, a, v) <==> Spoils(l, r, RangeOf(c), Pair(RangeOf(a), RangeOf(v)))
  {
    var p, q := Pair(RangeOf(a), RangeOf(v)), RangeOf(c);
    match r.scope {
      case Between =>
        if Overlap(Span(a, v), q) {
          var i := if c.start >= Span(a, v).start then c.start else Span(a, v).start;
          assert IsInBoth(q, p, i);
        }
      case Segment =>
        assert IsWithin(c, a.startSegment) ==>
            IsInSegment(l, p.anchor, a.startSegment) && IsInSegment(l, q, a.startSegment);
      case RelatedSegments =>
      case RelationWindow =>
    }
  }

  /** Where one of several patterns stands, its occurrence is in the list; and each in the list stands there. */
  lemma {:induction false} StandsIsFound(l: Lexemes, patterns: seq<string>, boundary: Boundary, table: CharTable,
                                         a: Range) returns (i: nat)
    requires l.Valid() && StandsOneOf(l, patterns, boundary, table, a.start, a.end)
    ensures a.start < a.end <= |l.chars| && i < |AllOccurrences(l, patterns, boundary, table)|
    ensures AllOccurrences(l, patterns, boundary, table)[i] == OccurrenceAt(l, a)
  {
    hide AllOccurrences, Stands, Normalize;
    var k :| 0 <= k < |patterns| && Stands(l, Normalize(patterns[k], table).chars, boundary, table, a.start, a.end);
    StandsWithin(l, Normalize(patterns[k], table).chars, boundary, table, a.start, a.end);
    FoundMeans(l, patterns, boundary, table, OccurrenceAt(l, a));
    i :| 0 <= i < |AllOccurrences(l, patterns, boundary, table)|
         && AllOccurrences(l, patterns, boundary, table)[i] == OccurrenceAt(l, a);
  }

  lemma {:induction false} CleanMeans(l: Lexemes, r: Relation, table: CharTable, a: Occurrence, v: Occurrence)
    requires l.Valid() && StandsIn(a, l) && StandsIn(v, l) && (r.scope == Segment ==> IsWithin(a, a.startSegment))
    ensures IsClean(l, r, table, Pair(RangeOf(a), RangeOf(v))) <==>
              !IsForbidden(r, AllOccurrences(l, r.forbidden, Substring, table), a, v)
  {
    hide AllOccurrences, StandsOneOf, Spoils, Forbids, IsWithin;
    var forbidden, p := AllOccurrences(l, r.forbidden, Substring, table), Pair(RangeOf(a), RangeOf(v));
    if k :| 0 <= k < |forbidden| && Forbids(r, forbidden[k], a, v) {
      FoundMeans(l, r.forbidden, Substring, table, forbidden[k]);
      SpoilMeans(l, r, forbidden[k], a, v);
      var c := RangeOf(forbidden[k]);
      assert StandsOneOf(l, r.forbidden, Substring, table, c.start, c.end);
    }
    forall c: Range | StandsOneOf(l, r.forbidden, Substring, table, c.start, c.end) && Spoils(l, r, c, p)
      ensures IsForbidden(r, forbidden, a, v)
    {
      var k := StandsIsFound(l, r.forbidden, Substring, table, c);
      assert RangeOf(forbidden[k]) == c;
      SpoilMeans(l, r, forbidden[k], a, v);
    }
  }

  /** A pair of occurrences is a related pair of places. */
  lemma {:induction false} PairAtMeans(l: Lexemes, r: Relation, table: CharTable, i: nat, j: nat) returns (p: Pair)
    requires l.Valid()
    requires var anchors := AllOccurrences(l, r.anchors, Substring, table);
             var values := AllOccurrences(l, r.values, r.boundary, table);
             IsPairAt(r, anchors, values, i, j)
    ensures IsRelated(l, r, table, p)
    ensures IsClean(l, r, table, p) <==>
              !IsForbidden(r, AllOccurrences(l, r.forbidden, Substring, table),
                           AllOccurrences(l, r.anchors, Substring, table)[i],
                           AllOccurrences(l, r.values, r.boundary, table)[j])
  {
    hide AllOccurrences, StandsOneOf, IsClean, IsForbidden, IsRelated;
    var a, v := AllOccurrences(l, r.anchors, Substring, table)[i], AllOccurrences(l, r.values, r.boundary, table)[j];
    FoundMeans(l, r.anchors, Substring, table, a);
    FoundMeans(l, r.values, r.boundary, table, v);
    p := Pair(RangeOf(a), RangeOf(v));
    PairMeans(l, r, table, a, v);
    CleanMeans(l, r, table, a, v);
  }

  /** And a related pair of places is one of occurrences. */
  lemma {:induction false} RelatedMeans(l: Lexemes, r: Relation, table: CharTable, p: Pair) returns (i: nat, j: nat)
    requires l.Valid() && IsRelated(l, r, table, p)
    ensures var anchors := AllOccurrences(l, r.anchors, Substring, table);
            var values := AllOccurrences(l, r.values, r.boundary, table);
            && IsPairAt(r, anchors, values, i, j)
            && (IsClean(l, r, table, p) <==>
                  !IsForbidden(r, AllOccurrences(l, r.forbidden, Substring, table), anchors[i], values[j]))
  {
    hide AllOccurrences, StandsOneOf, IsClean, IsForbidden, IsInSegment, AreNear;
    i := StandsIsFound(l, r.anchors, Substring, table, p.anchor);
    j := StandsIsFound(l, r.values, r.boundary, table, p.value);
    var a, v := OccurrenceAt(l, p.anchor), OccurrenceAt(l, p.value);
    assert RangeOf(a) == p.anchor && RangeOf(v) == p.value;
    PairMeans(l, r, table, a, v);
    hide IsRelated;
    CleanMeans(l, r, table, a, v);
  }

  /** The verdict, by the places of the lexemes alone. */
  lemma {:induction false} LexemesDecide(l: Lexemes, r: Relation, table: CharTable)
    requires l.Valid()
    ensures Satisfies(l, r, table) <==> IsFulfilled(l, r, table)
  {
    hide AllOccurrences, IsRelated, IsClean, IsForbidden, IsPair;
    var anchors := AllOccurrences(l, r.anchors, Substring, table);
    var values := AllOccurrences(l, r.values, r.boundary, table);
    var forbidden := AllOccurrences(l, r.forbidden, Substring, table);
    if Satisfies(l, r, table) {
      var i: nat, j: nat :| IsPairAt(r, anchors, values, i, j)
        && (r.scope.RelationWindow? || !IsForbidden(r, forbidden, anchors[i], values[j]));
      var p := PairAtMeans(l, r, table, i, j);
      forall q | r.scope == RelationWindow && IsRelated(l, r, table, q) ensures IsClean(l, r, table, q) {
        var x, y := RelatedMeans(l, r, table, q);
      }
    }
    if IsFulfilled(l, r, table) {
      var p :| IsRelated(l, r, table, p) && IsClean(l, r, table, p);
      var i, j := RelatedMeans(l, r, table, p);
      forall x: nat, y: nat | r.scope == RelationWindow && IsPairAt(r, anchors, values, x, y)
        ensures !IsForbidden(r, forbidden, anchors[x], values[y])
      {
        var q := PairAtMeans(l, r, table, x, y);
      }
    }
  }

  /** A relation is satisfied exactly if a related pair of places in the summary is not spoiled. */
  lemma {:induction false} VerdictMeans(summary: string, r: Relation, table: CharTable)
    ensures IsSatisfied(summary, r, table) <==> IsFulfilled(Normalize(summary, table), r, table)
  {
    NormalizeIsValid(summary, table);
    LexemesDecide(Normalize(summary, table), r, table);
    hide Normalize, Satisfies, IsFulfilled;
  }

  /** It is not in a summary where each value is too far from each anchor. */
  lemma {:induction false} FarIsNotSatisfied(summary: string, r: Relation, table: CharTable)
    requires var l := Normalize(summary, table);
             forall a: Range, v: Range ::
               (&& StandsOneOf(l, r.anchors, Substring, table, a.start, a.end)
                && StandsOneOf(l, r.values, r.boundary, table, v.start, v.end)) ==>
               a.end + r.maxDistance < v.start || v.end + r.maxDistance < a.start
    ensures !IsSatisfied(summary, r, table)
  {
    var l := Normalize(summary, table);
    NormalizeIsValid(summary, table);
    LexemesDecide(l, r, table);
    hide StandsOneOf, Normalize, Satisfies, IsClean;
  }

  /** Nor where all places of the values are part of longer numbers. */
  lemma {:induction false} LongerNumberIsNotSatisfied(summary: string, r: Relation, table: CharTable)
    requires var l := Normalize(summary, table);
             forall v: Range :: StandsOneOf(l, r.values, Substring, table, v.start, v.end) ==>
               IsPartOfNumber(l, v.start, v.end, r.boundary, table)
    ensures !IsSatisfied(summary, r, table)
  {
    var l := Normalize(summary, table);
    NormalizeIsValid(summary, table);
    LexemesDecide(l, r, table);
    hide IsPartOfNumber, Normalize, Satisfies, IsClean;
    forall p ensures !IsRelated(l, r, table, p) {
      if IsRelated(l, r, table, p) {
        StandsWhole(l, r.values, r.boundary, table, p.value.start, p.value.end);
      }
    }
  }

  lemma {:induction false} StandsWhole(l: Lexemes, patterns: seq<string>, boundary: Boundary, table: CharTable, s: nat,
                                       e: nat)
    requires StandsOneOf(l, patterns, boundary, table, s, e)
    ensures StandsOneOf(l, patterns, Substring, table, s, e) && !IsPartOfNumber(l, s, e, boundary, table)
  {
    var k :| 0 <= k < |patterns| && Stands(l, Normalize(patterns[k], table).chars, boundary, table, s, e);
    NothingIsPart(l, s, e, table);
    hide IsPartOfNumber, Normalize;
    assert Stands(l, Normalize(patterns[k], table).chars, Substring, table, s, e);
  }

  lemma {:induction false} NothingIsPart(l: Lexemes, s: nat, e: nat, table: CharTable)
    ensures !IsPartOfNumber(l, s, e, Substring, table)
  {
  }
}
