/**
 The drift metric, version 9: a summary is read as lexemes without its emphasis, white space,
 line breaks and table pipes, and a relation between an anchor and a value is looked for in them.
 Wrapping the summary differently changes no verdict of the scopes that do not ask for segments,
 and none at all where lines break as before.
 */
module DriftMetric {
  import opened ByteStrings
  import opened Chars

  /** The Unicode tables behind `char::to_lowercase` and `char::is_numeric`. */
  datatype CharTable = CharTable(lowercase: char -> string, isNumeric: char -> bool)

  predicate IsMarker(c: char) { c == '*' || c == '`' }

  predicate IsBreak(c: char) { c == '\n' || c == '|' }

  predicate IsSeparator(c: char) { IsBreak(c) || IsWhitespace(c) }

  /** Case mapping leaves markers and separators alone. */
  ghost predicate IsLawful(table: CharTable) {
    forall c :: IsMarker(c) || IsSeparator(c) ==> table.lowercase(c) == [c]
  }

  /** What remains of a text: its characters, the segment of each, and whether a separator came before it. */
  datatype Lexemes = Lexemes(chars: string, segments: seq<nat>, separated: seq<bool>) {
    predicate Valid() { |chars| == |segments| == |separated| }
  }

  /** The reader's state: the lexemes so far, the current segment, and a separator not yet recorded. */
  datatype State = State(lexemes: Lexemes, segment: nat, pending: bool)

  const START: State := State(Lexemes([], [], []), 0, false)

  function ReadChar(c: char, s: State): State {
    if IsMarker(c) then s
    else if IsBreak(c) then s.(segment := s.segment + 1, pending := true)
    else if IsWhitespace(c) then s.(pending := true)
    else
      var l := s.lexemes;
      State(Lexemes(l.chars + [c], l.segments + [s.segment], l.separated + [s.pending]), s.segment, false)
  }

  function Read(t: string, s: State): State {
    if t == "" then s else Read(t[1..], ReadChar(t[0], s))
  }

  function Lower(t: string, table: CharTable): string {
    if t == "" then "" else table.lowercase(t[0]) + Lower(t[1..], table)
  }

  /** `normalize_assertion_lexemes_v9` */
  function Normalize(t: string, table: CharTable): Lexemes { Read(Lower(t, table), START).lexemes }

  lemma {:induction false} ReadKeepsValid(t: string, s: State)
    requires s.lexemes.Valid()
    ensures Read(t, s).lexemes.Valid()
    decreases |t|
  {
    if t != "" { ReadKeepsValid(t[1..], ReadChar(t[0], s)); }
  }

  lemma {:induction false} ReadAppend(a: string, b: string, s: State)
    ensures Read(a + b, s) == Read(b, Read(a, s))
    decreases |a|
  {
    hide ReadChar;
    if a == "" {
      assert a + b == b;
    } else {
      assert (a + b)[1..] == a[1..] + b;
      ReadAppend(a[1..], b, ReadChar(a[0], s));
    }
  }

  lemma {:induction false} LowerAppend(a: string, b: string, table: CharTable)
    ensures Lower(a + b, table) == Lower(a, table) + Lower(b, table)
    decreases |a|
  {
    if a == "" {
      assert a + b == b;
    } else {
      assert (a + b)[1..] == a[1..] + b;
      LowerAppend(a[1..], b, table);
    }
  }

  /** The reader as the source runs it, over the characters of each case mapping. */
  method NormalizeLexemes(t: string, table: CharTable) returns (lexemes: Lexemes)
    ensures lexemes == Normalize(t, table) && lexemes.Valid()
  {
    hide Read, Lower;
    var chars, segments, separated := "", [], [];
    var segment: nat, pending := 0, false;
    ReadNothing(START);
    LowerNothing(table);
    for i := 0 to |t|
      invariant State(Lexemes(chars, segments, separated), segment, pending) == Read(Lower(t[..i], table), START)
    {
      var lower := table.lowercase(t[i]);
      ghost var before := Lower(t[..i], table);
      assert before + lower[..0] == before;
      for k := 0 to |lower|
        invariant State(Lexemes(chars, segments, separated), segment, pending) == Read(before + lower[..k], START)
      {
        var c := lower[k];
        assert before + lower[..k + 1] == (before + lower[..k]) + [c];
        ReadOneMore(before + lower[..k], c, START);
        if IsMarker(c) {
        } else if c == '\n' || c == '|' {
          segment := segment + 1;
          pending := true;
        } else if IsWhitespace(c) {
          pending := true;
        } else {
          chars := chars + [c];
          segments := segments + [segment];
          separated := separated + [pending];
          pending := false;
        }
      }
      assert lower[..|lower|] == lower;
      LowerOneMore(t, i, table);
    }
    assert t[..|t|] == t;
    lexemes := Lexemes(chars, segments, separated);
    ReadKeepsValid(Lower(t, table), START);
  }

  lemma {:induction false} ReadNothing(s: State)
    ensures Read("", s) == s
  {
  }

  lemma {:induction false} LowerNothing(table: CharTable)
    ensures Lower("", table) == ""
  {
  }

  lemma {:induction false} ReadOneMore(t: string, c: char, s: State)
    ensures Read(t + [c], s) == ReadChar(c, Read(t, s))
  {
    hide ReadChar;
    ReadAppend(t, [c], s);
    ReadNothing(ReadChar(c, Read(t, s)));
    assert [c][1..] == "";
  }

  lemma {:induction false} LowerOneMore(t: string, i: nat, table: CharTable)
    requires i < |t|
    ensures Lower(t[..i + 1], table) == Lower(t[..i], table) + table.lowercase(t[i])
  {
    assert t[..i + 1] == t[..i] + [t[i]];
    LowerAppend(t[..i], [t[i]], table);
    assert [t[i]][1..] == "";
    assert Lower([t[i]], table) == table.lowercase(t[i]) + Lower("", table);
  }

  // ---------------------------------------------------------------- occurrences

  datatype Boundary = Substring | NumericToken | UnicodeNumericToken

  datatype Occurrence = Occurrence(start: nat, end: nat, startSegment: nat, endSegment: nat)

  predicate IsNumericSign(c: char) {
    c as int in {0x2B, 0x2D, 0x2212, 0xFF0B, 0xFF0D, 0xFE62, 0xFE63, 0x207A, 0x207B, 0x208A, 0x208B, 0xB1, 0x2213}
  }

  predicate IsNumericSeparator(c: char) {
    c as int in {0x2E, 0x2C, 0xFF0E, 0xFF0C, 0x66B, 0x66C, 0xFE50, 0xFE52}
  }

  predicate IsDigit(c: char) { '0' <= c <= '9' }

  predicate IsAsciiLetter(c: char) { 'a' <= c <= 'z' || 'A' <= c <= 'Z' }

  predicate IsWordChar(c: char) { IsDigit(c) || IsAsciiLetter(c) || c == '_' }

  predicate ContinuesNumber(c: char, table: CharTable) {
    IsAsciiLetter(c) || table.isNumeric(c) || c == '_' || IsNumericSign(c)
  }

  predicate SeparatedAt(l: Lexemes, i: nat) { i < |l.separated| && l.separated[i] }

  predicate DigitAt(l: Lexemes, i: int) { 0 <= i < |l.chars| && IsDigit(l.chars[i]) }

  predicate NumericAt(l: Lexemes, i: int, table: CharTable) { 0 <= i < |l.chars| && table.isNumeric(l.chars[i]) }

  /** `has_numeric_token_boundaries_v9` */
  predicate HasNumericBoundaries(l: Lexemes, start: nat, end: nat) {
    && (start == 0 || start > |l.chars| ||
        var c := l.chars[start - 1];
        if c == '+' || c == '-' || IsWordChar(c) then SeparatedAt(l, start)
        else !((c == '.' || c == ',') && !SeparatedAt(l, start) && DigitAt(l, start - 2)))
    && (end >= |l.chars| ||
        var c := l.chars[end];
        if c == '+' || c == '-' || IsWordChar(c) then SeparatedAt(l, end)
        else !((c == '.' || c == ',') && !SeparatedAt(l, end) && DigitAt(l, end + 1)))
  }

  /** `has_unicode_numeric_token_boundaries_v9` */
  predicate HasUnicodeNumericBoundaries(l: Lexemes, start: nat, end: nat, table: CharTable) {
    && (start == 0 || start > |l.chars| ||
        var c := l.chars[start - 1];
        if IsNumericSign(c) then false
        else if ContinuesNumber(c, table) then SeparatedAt(l, start)
        else IsNumericSeparator(c) ==> SeparatedAt(l, start) || !NumericAt(l, start - 2, table))
    && (end >= |l.chars| ||
        var c := l.chars[end];
        if ContinuesNumber(c, table) then SeparatedAt(l, end)
        else IsNumericSeparator(c) ==> SeparatedAt(l, end) || !NumericAt(l, end + 1, table))
  }

  predicate HasBoundaries(l: Lexemes, start: nat, end: nat, boundary: Boundary, table: CharTable) {
    match boundary
    case Substring => true
    case NumericToken => HasNumericBoundaries(l, start, end)
    case UnicodeNumericToken => HasUnicodeNumericBoundaries(l, start, end, table)
  }

  /** The pattern stands here, overlapping occurrences included. */
  predicate OccursAt(l: Lexemes, pattern: string, start: nat, boundary: Boundary, table: CharTable) {
    && pattern != "" && start + |pattern| <= |l.chars| && l.chars[start..start + |pattern|] == pattern
    && HasBoundaries(l, start, start + |pattern|, boundary, table)
  }

  /** `occurrences_v9`, from a position on. */
  function Occurrences(l: Lexemes, pattern: string, from: nat, boundary: Boundary, table: CharTable): seq<Occurrence>
    requires l.Valid()
    decreases |l.chars| - from
  {
    if from >= |l.chars| then []
    else
      (if OccursAt(l, pattern, from, boundary, table)
       then [Occurrence(from, from + |pattern|, l.segments[from], l.segments[from + |pattern| - 1])] else [])
      + Occurrences(l, pattern, from + 1, boundary, table)
  }

  /** Every place where the pattern stands is reported, and nothing else. */
  lemma {:induction false} OccurrencesComplete(l: Lexemes, pattern: string, from: nat, boundary: Boundary,
                                               table: CharTable, o: Occurrence)
    requires l.Valid()
    ensures o in Occurrences(l, pattern, from, boundary, table) <==>
            && from <= o.start && OccursAt(l, pattern, o.start, boundary, table) && o.end == o.start + |pattern|
            && o.startSegment == l.segments[o.start] && o.endSegment == l.segments[o.end - 1]
    decreases |l.chars| - from
  {
    hide OccursAt;
    if from < |l.chars| {
      OccurrencesComplete(l, pattern, from + 1, boundary, table, o);
      OccursWithin(l, pattern, from, boundary, table);
    }
    OccursWithin(l, pattern, o.start, boundary, table);
  }

  lemma {:induction false} OccursWithin(l: Lexemes, pattern: string, start: nat, boundary: Boundary, table: CharTable)
    ensures OccursAt(l, pattern, start, boundary, table) ==> pattern != "" && start + |pattern| <= |l.chars|
  {
  }

  // ---------------------------------------------------------------- relations

  datatype Scope = Between | Segment | RelatedSegments | RelationWindow

  datatype Relation = Relation(
    anchors: seq<string>,
    values: seq<string>,
    forbidden: seq<string>,
    boundary: Boundary,
    scope: Scope,
    forbiddenDistance: nat,
    ordered: bool,
    maxDistance: nat)

  function AllOccurrences(l: Lexemes, patterns: seq<string>, boundary: Boundary, table: CharTable): seq<Occurrence>
    requires l.Valid()
  {
    if patterns == [] then []
    else
      Occurrences(l, Normalize(patterns[0], table).chars, 0, boundary, table)
      + AllOccurrences(l, patterns[1..], boundary, table)
  }

  datatype Range = Range(start: nat, end: nat)

  function RangeOf(o: Occurrence): Range { Range(o.start, o.end) }

  function Distance(a: Range, b: Range): nat {
    if a.end <= b.start then b.start - a.end else if b.end <= a.start then a.start - b.end else 0
  }

  predicate Overlap(a: Range, b: Range) { a.start < b.end && b.start < a.end }

  predicate IsWithin(o: Occurrence, segment: nat) { o.startSegment == segment && o.endSegment == segment }

  predicate OverlapsSegments(a: Occurrence, b: Occurrence) {
    a.startSegment <= b.endSegment && b.startSegment <= a.endSegment
  }

  function Span(a: Occurrence, v: Occurrence): Range {
    Range(if a.start <= v.start then a.start else v.start, if a.end >= v.end then a.end else v.end)
  }

  predicate IsPair(r: Relation, a: Occurrence, v: Occurrence) {
    && (r.scope.Segment? ==> IsWithin(a, a.startSegment) && IsWithin(v, a.startSegment))
    && (r.ordered ==> v.start >= a.end)
    && (if r.ordered then v.start - a.end else Distance(RangeOf(a), RangeOf(v))) <= r.maxDistance
  }

  predicate Forbids(r: Relation, c: Occurrence, a: Occurrence, v: Occurrence) {
    match r.scope
    case Between => Overlap(Span(a, v), RangeOf(c))
    case Segment => IsWithin(c, a.startSegment) && Distance(Span(a, v), RangeOf(c)) <= r.forbiddenDistance
    case RelatedSegments =>
      (OverlapsSegments(c, a) || OverlapsSegments(c, v)) && Distance(Span(a, v), RangeOf(c)) <= r.forbiddenDistance
    case RelationWindow => Distance(Span(a, v), RangeOf(c)) <= r.forbiddenDistance
  }

  predicate IsPairAt(r: Relation, anchors: seq<Occurrence>, values: seq<Occurrence>, i: nat, j: nat) {
    i < |anchors| && j < |values| && IsPair(r, anchors[i], values[j])
  }

  predicate IsForbidden(r: Relation, forbidden: seq<Occurrence>, a: Occurrence, v: Occurrence) {
    exists k :: 0 <= k < |forbidden| && Forbids(r, forbidden[k], a, v)
  }

  /**
   The verdict on three lists of occurrences. In a relation window one forbidden occurrence near
   any pair spoils them all; in the other scopes one clean pair is enough.
   */
  ghost predicate Holds(r: Relation, anchors: seq<Occurrence>, values: seq<Occurrence>, forbidden: seq<Occurrence>) {
    && (exists i: nat, j: nat ::
          IsPairAt(r, anchors, values, i, j)
          && (r.scope.RelationWindow? || !IsForbidden(r, forbidden, anchors[i], values[j])))
    && (r.scope.RelationWindow? ==>
          forall i: nat, j: nat :: IsPairAt(r, anchors, values, i, j) ==>
              !IsForbidden(r, forbidden, anchors[i], values[j]))
  }

  /** `relation_is_satisfied_v9` on the lexemes of a summary. */
  ghost predicate Satisfies(l: Lexemes, r: Relation, table: CharTable)
    requires l.Valid()
  {
    Holds(r, AllOccurrences(l, r.anchors, Substring, table), AllOccurrences(l, r.values, r.boundary, table),
          AllOccurrences(l, r.forbidden, Substring, table))
  }

  lemma {:induction false} NormalizeIsValid(t: string, table: CharTable)
    ensures Normalize(t, table).Valid()
  {
    ReadKeepsValid(Lower(t, table), START);
  }

  ghost predicate IsSatisfied(summary: string, r: Relation, table: CharTable) {
    NormalizeIsValid(summary, table);
    Satisfies(Normalize(summary, table), r, table)
  }

  // ---------------------------------------------------------------- what the verdict depends on

  /** The same characters, separated alike wherever one comes before. */
  predicate SameReading(l: Lexemes, m: Lexemes) {
    && l.Valid() && m.Valid() && l.chars == m.chars
    && forall i :: 1 <= i < |l.chars| ==> l.separated[i] == m.separated[i]
  }

  /** The segments stand in the same order, whatever their numbers. */
  predicate SameOrder(l: Lexemes, m: Lexemes) {
    && |l.segments| == |m.segments|
    && forall i, j :: 0 <= i < |l.segments| && 0 <= j < |l.segments| ==>
         (l.segments[i] <= l.segments[j] <==> m.segments[i] <= m.segments[j])
  }

  predicate IgnoresSegments(scope: Scope) { scope.Between? || scope.RelationWindow? }

  /** What a scope can see of two texts is the same. */
  predicate SameView(l: Lexemes, m: Lexemes, scope: Scope) {
    SameReading(l, m) && (IgnoresSegments(scope) || SameOrder(l, m))
  }

  /** An occurrence carries the segments of its ends. */
  predicate StandsIn(o: Occurrence, l: Lexemes)
    requires l.Valid()
  {
    && o.start < o.end <= |l.chars|
    && o.startSegment == l.segments[o.start] && o.endSegment == l.segments[o.end - 1]
  }

  /** Occurrences at the same places of two texts. */
  predicate SamePlaces(l: Lexemes, m: Lexemes, a: seq<Occurrence>, b: seq<Occurrence>)
    requires l.Valid() && m.Valid()
  {
    && |a| == |b|
    && forall i :: 0 <= i < |a| ==> RangeOf(a[i]) == RangeOf(b[i]) && StandsIn(a[i], l) && StandsIn(b[i], m)
  }

  lemma {:induction false} OccursAtAlike(l: Lexemes, m: Lexemes, pattern: string, start: nat,
                                         boundary: Boundary, table: CharTable)
    requires SameReading(l, m)
    ensures OccursAt(l, pattern, start, boundary, table) <==> OccursAt(m, pattern, start, boundary, table)
  {
    hide IsWordChar, IsNumericSign, IsNumericSeparator, ContinuesNumber, IsDigit;
  }

  lemma {:induction false} OccurrencesAlike(l: Lexemes, m: Lexemes, pattern: string, from: nat,
                                            boundary: Boundary, table: CharTable)
    requires SameReading(l, m)
    ensures SamePlaces(l, m, Occurrences(l, pattern, from, boundary, table),
                       Occurrences(m, pattern, from, boundary, table))
    decreases |l.chars| - from
  {
    hide OccursAt;
    if from < |l.chars| {
      OccursAtAlike(l, m, pattern, from, boundary, table);
      OccursWithin(l, pattern, from, boundary, table);
      OccurrencesAlike(l, m, pattern, from + 1, boundary, table);
    }
  }

  lemma {:induction false} AllOccurrencesAlike(l: Lexemes, m: Lexemes, patterns: seq<string>,
                                               boundary: Boundary, table: CharTable)
    requires SameReading(l, m)
    ensures SamePlaces(l, m, AllOccurrences(l, patterns, boundary, table), AllOccurrences(m, patterns, boundary, table))
    decreases |patterns|
  {
    hide Occurrences, StandsIn, RangeOf;
    if patterns != [] {
      OccurrencesAlike(l, m, Normalize(patterns[0], table).chars, 0, boundary, table);
      AllOccurrencesAlike(l, m, patterns[1..], boundary, table);
    }
  }

  /** Two occurrences at the same places of two texts. */
  predicate SamePlace(l: Lexemes, m: Lexemes, a: Occurrence, b: Occurrence)
    requires l.Valid() && m.Valid()
  {
    RangeOf(a) == RangeOf(b) && StandsIn(a, l) && StandsIn(b, m)
  }

  /** The order of the segments decides whether an occurrence is within another's segment, and whether two overlap. */
  lemma {:induction false} SegmentsAlike(l: Lexemes, m: Lexemes, a: Occurrence, b: Occurrence, v: Occurrence,
                                         w: Occurrence)
    requires SameReading(l, m) && SameOrder(l, m) && SamePlace(l, m, a, b) && SamePlace(l, m, v, w)
    ensures IsWithin(v, a.startSegment) <==> IsWithin(w, b.startSegment)
    ensures OverlapsSegments(v, a) <==> OverlapsSegments(w, b)
  {
  }

  lemma {:induction false} PairAlike(l: Lexemes, m: Lexemes, r: Relation, a: Occurrence, b: Occurrence, v: Occurrence,
                                     w: Occurrence)
    requires SameView(l, m, r.scope) && SamePlace(l, m, a, b) && SamePlace(l, m, v, w)
    ensures IsPair(r, a, v) <==> IsPair(r, b, w)
  {
    if !IgnoresSegments(r.scope) {
      SegmentsAlike(l, m, a, b, a, b);
      SegmentsAlike(l, m, a, b, v, w);
    }
    hide SameReading, SameOrder, StandsIn, IsWithin;
  }

  lemma {:induction false} ForbidsAlike(l: Lexemes, m: Lexemes, r: Relation, c: Occurrence, d: Occurrence,
                                        a: Occurrence, b: Occurrence, v: Occurrence, w: Occurrence)
    requires SameView(l, m, r.scope) && SamePlace(l, m, c, d) && SamePlace(l, m, a, b) && SamePlace(l, m, v, w)
    ensures Forbids(r, c, a, v) <==> Forbids(r, d, b, w)
  {
    if !IgnoresSegments(r.scope) {
      SegmentsAlike(l, m, a, b, c, d);
      SegmentsAlike(l, m, v, w, c, d);
    }
    hide SameReading, SameOrder, StandsIn, IsWithin, OverlapsSegments;
  }

  lemma {:induction false} ForbiddenAlike(l: Lexemes, m: Lexemes, r: Relation, f: seq<Occurrence>, g: seq<Occurrence>,
                                          a: Occurrence, b: Occurrence, v: Occurrence, w: Occurrence)
    requires SameView(l, m, r.scope) && SamePlaces(l, m, f, g) && SamePlace(l, m, a, b) && SamePlace(l, m, v, w)
    ensures IsForbidden(r, f, a, v) <==> IsForbidden(r, g, b, w)
  {
    hide SameReading, SameOrder, StandsIn, Forbids;
    forall k | 0 <= k < |f| ensures Forbids(r, f[k], a, v) <==> Forbids(r, g[k], b, w) {
      ForbidsAlike(l, m, r, f[k], g[k], a, b, v, w);
    }
  }

  lemma {:induction false} HoldsAlike(l: Lexemes, m: Lexemes, r: Relation, a: seq<Occurrence>, b: seq<Occurrence>,
                                      v: seq<Occurrence>, w: seq<Occurrence>, f: seq<Occurrence>, g: seq<Occurrence>)
    requires SameView(l, m, r.scope) && SamePlaces(l, m, a, b) && SamePlaces(l, m, v, w) && SamePlaces(l, m, f, g)
    ensures Holds(r, a, v, f) <==> Holds(r, b, w, g)
  {
    hide IsForbidden, IsPair, SameReading, SameOrder, StandsIn;
    forall i: nat, j: nat
      ensures IsPairAt(r, a, v, i, j) <==> IsPairAt(r, b, w, i, j)
      ensures IsPairAt(r, a, v, i, j) ==> (IsForbidden(r, f, a[i], v[j]) <==> IsForbidden(r, g, b[i], w[j]))
    {
      if i < |a| && j < |v| {
        PairAlike(l, m, r, a[i], b[i], v[j], w[j]);
        ForbiddenAlike(l, m, r, f, g, a[i], b[i], v[j], w[j]);
      }
    }
    hide IsPairAt;
  }

  /**
   The verdict depends on the reading alone, and in the scopes that ask for segments also on their
   order: not on their numbers, nor on what came before the first character.
   */
  lemma {:induction false} VerdictDependsOnView(l: Lexemes, m: Lexemes, r: Relation, table: CharTable)
    requires SameView(l, m, r.scope)
    ensures Satisfies(l, r, table) <==> Satisfies(m, r, table)
  {
    hide Holds, AllOccurrences, SamePlaces, IgnoresSegments, SameOrder;
    AllOccurrencesAlike(l, m, r.anchors, Substring, table);
    AllOccurrencesAlike(l, m, r.values, r.boundary, table);
    AllOccurrencesAlike(l, m, r.forbidden, Substring, table);
    HoldsAlike(l, m, r,
               AllOccurrences(l, r.anchors, Substring, table), AllOccurrences(m, r.anchors, Substring, table),
               AllOccurrences(l, r.values, r.boundary, table), AllOccurrences(m, r.values, r.boundary, table),
               AllOccurrences(l, r.forbidden, Substring, table), AllOccurrences(m, r.forbidden, Substring, table));
  }

  // ---------------------------------------------------------------- rewrapping

  /** A run of separators and markers with at least one separator. */
  predicate IsWrapping(run: string) {
    && (forall i :: 0 <= i < |run| ==> IsSeparator(run[i]) || IsMarker(run[i]))
    && exists i :: 0 <= i < |run| && IsSeparator(run[i])
  }

  predicate AreMarkers(run: string) { forall i :: 0 <= i < |run| ==> IsMarker(run[i]) }

  /** The breaks of a run. */
  function Breaks(run: string): nat {
    if run == "" then 0 else (if IsBreak(run[0]) then 1 else 0) + Breaks(run[1..])
  }

  /** One has a break exactly if the other does. */
  predicate BreakAlike(run: string, other: string) { Breaks(run) == 0 <==> Breaks(other) == 0 }

  /** No lexeme is in a segment after the current one. */
  predicate IsCurrent(s: State) {
    forall i :: 0 <= i < |s.lexemes.segments| ==> s.lexemes.segments[i] <= s.segment
  }

  /** The lexemes of the current segment are at the same positions. */
  predicate SameCurrent(s: State, t: State) {
    && |s.lexemes.segments| == |t.lexemes.segments|
    && forall i :: 0 <= i < |s.lexemes.segments| ==>
         (s.lexemes.segments[i] == s.segment <==> t.lexemes.segments[i] == t.segment)
  }

  /** States that read the same text from here on alike. */
  predicate AlikeFrom(s: State, t: State) {
    SameReading(s.lexemes, t.lexemes) && (s.pending == t.pending || s.lexemes.chars == "")
  }

  /** And with their segments in the same order. */
  predicate OrderedAlikeFrom(s: State, t: State) {
    SameOrder(s.lexemes, t.lexemes) && IsCurrent(s) && IsCurrent(t) && SameCurrent(s, t)
  }

  lemma {:induction false} ReadKeepsAlike(text: string, s: State, t: State)
    requires AlikeFrom(s, t)
    ensures AlikeFrom(Read(text, s), Read(text, t))
    decreases |text|
  {
    hide IsWhitespace, IsBreak, IsMarker;
    if text != "" { ReadKeepsAlike(text[1..], ReadChar(text[0], s), ReadChar(text[0], t)); }
  }

  lemma {:induction false} ReadCharKeepsOrder(c: char, s: State, t: State)
    requires OrderedAlikeFrom(s, t)
    ensures OrderedAlikeFrom(ReadChar(c, s), ReadChar(c, t))
  {
    hide IsWhitespace, IsBreak, IsMarker;
  }

  lemma {:induction false} ReadKeepsOrder(text: string, s: State, t: State)
    requires OrderedAlikeFrom(s, t)
    ensures OrderedAlikeFrom(Read(text, s), Read(text, t))
    decreases |text|
  {
    hide ReadChar, OrderedAlikeFrom;
    if text != "" {
      ReadCharKeepsOrder(text[0], s, t);
      ReadKeepsOrder(text[1..], ReadChar(text[0], s), ReadChar(text[0], t));
    }
  }

  /** A run adds no lexeme: it advances the segment by its breaks and leaves a separator pending if it has one. */
  lemma {:induction false} ReadRun(run: string, s: State)
    requires forall i :: 0 <= i < |run| ==> IsSeparator(run[i]) || IsMarker(run[i])
    ensures Read(run, s) == s.(segment := s.segment + Breaks(run),
                               pending := s.pending || exists i :: 0 <= i < |run| && IsSeparator(run[i]))
    decreases |run|
  {
    hide IsWhitespace;
    if run != "" {
      assert !(IsMarker(run[0]) && IsSeparator(run[0])) by { MarkersSeparateNothing(run[0]); }
      ReadRun(run[1..], ReadChar(run[0], s));
      assert forall i :: 0 <= i < |run[1..]| ==> run[1..][i] == run[i + 1];
      assert forall i :: 1 <= i < |run| ==> run[i] == run[1..][i - 1];
    }
  }

  lemma {:induction false} MarkersSeparateNothing(c: char)
    ensures !(IsMarker(c) && IsSeparator(c))
  {
  }

  lemma {:induction false} LowerOfRun(run: string, table: CharTable)
    requires IsLawful(table) && forall i :: 0 <= i < |run| ==> IsSeparator(run[i]) || IsMarker(run[i])
    ensures Lower(run, table) == run
    decreases |run|
  {
    hide IsWhitespace;
    if run != "" { LowerOfRun(run[1..], table); }
  }

  /** Reading a text around a run. */
  lemma {:induction false} ReadAround(a: string, run: string, b: string, table: CharTable)
    requires IsLawful(table) && forall i :: 0 <= i < |run| ==> IsSeparator(run[i]) || IsMarker(run[i])
    ensures Read(Lower(a + run + b, table), START) == Read(Lower(b, table), Read(run, Read(Lower(a, table), START)))
  {
    hide IsLawful, IsSeparator, IsMarker, Read, Lower;
    LowerAppend(a + run, b, table);
    LowerAppend(a, run, table);
    LowerOfRun(run, table);
    ReadAppend(Lower(a, table) + run, Lower(b, table), START);
    ReadAppend(Lower(a, table), run, START);
  }

  lemma {:induction false} NormalizeAround(a: string, run: string, b: string, table: CharTable)
    requires IsLawful(table) && forall i :: 0 <= i < |run| ==> IsSeparator(run[i]) || IsMarker(run[i])
    ensures Normalize(a + run + b, table) == Read(Lower(b, table), Read(run, Read(Lower(a, table), START))).lexemes
  {
    ReadAround(a, run, b, table);
    hide IsLawful, IsSeparator, IsMarker, Read, Lower;
  }

  /**
   One change of layout: a wrapping for another, markers put in, or a wrapping put before or after
   the text. For a scope that asks for segments, the exchanged wrappings both break the line or neither does.
   */
  ghost predicate IsRewrapped(before: string, after: string, scope: Scope) {
    || (exists a, run, other, b ::
        IsExchanged(before, after, a, run, other, b) && (IgnoresSegments(scope) || BreakAlike(run, other)))
    || (exists a, run, b :: AreMarkers(run) && before == a + "" + b && after == a + run + b)
    || (exists run :: IsWrapping(run) && (after == "" + run + before || after == before + run + ""))
  }

  predicate IsExchanged(before: string, after: string, a: string, run: string, other: string, b: string) {
    IsWrapping(run) && IsWrapping(other) && before == a + run + b && after == a + other + b
  }

  /** The reader behind a wrapping with n breaks. */
  function Behind(s: State, n: nat): State { s.(segment := s.segment + n, pending := true) }

  lemma {:induction false} NormalizeBehind(a: string, run: string, b: string, table: CharTable)
    requires IsLawful(table) && IsWrapping(run)
    ensures Normalize(a + run + b, table) ==
              Read(Lower(b, table), Behind(Read(Lower(a, table), START), Breaks(run))).lexemes
  {
    NormalizeAround(a, run, b, table);
    ReadRun(run, Read(Lower(a, table), START));
    hide Read, Lower, IsLawful, IsSeparator, IsMarker, Breaks, Normalize;
  }

  lemma {:induction false} RunsReadAlike(a: string, run: string, other: string, b: string, table: CharTable)
    requires IsLawful(table) && IsWrapping(run) && IsWrapping(other)
    ensures SameReading(Normalize(a + run + b, table), Normalize(a + other + b, table))
  {
    NormalizeBehind(a, run, b, table);
    NormalizeBehind(a, other, b, table);
    ReadKeepsValid(Lower(a, table), START);
    var s := Read(Lower(a, table), START);
    hide Read, Lower, IsLawful, IsWrapping, Breaks, Normalize;
    ReadKeepsAlike(Lower(b, table), Behind(s, Breaks(run)), Behind(s, Breaks(other)));
  }

  /** What is read keeps its segments in order with those of what it was, and of what is read next. */
  lemma {:induction false} ReadIsOrdered(text: string)
    ensures OrderedAlikeFrom(Read(text, START), Read(text, START))
  {
    hide Read;
    ReadKeepsOrder(text, START, START);
  }

  /** Advancing the segment by breaks or by none keeps the order of what is behind and of what follows. */
  lemma {:induction false} AdvanceKeepsOrder(s: State, m: nat, n: nat, rest: string)
    requires OrderedAlikeFrom(s, s) && (m == 0 <==> n == 0)
    ensures SameOrder(Read(rest, Behind(s, m)).lexemes, Read(rest, Behind(s, n)).lexemes)
  {
    hide Read;
    ReadKeepsOrder(rest, Behind(s, m), Behind(s, n));
  }

  lemma {:induction false} RunsKeepOrder(a: string, run: string, other: string, b: string, table: CharTable)
    requires IsLawful(table) && IsWrapping(run) && IsWrapping(other) && BreakAlike(run, other)
    ensures SameOrder(Normalize(a + run + b, table), Normalize(a + other + b, table))
  {
    assert Breaks(run) == 0 <==> Breaks(other) == 0;
    hide *;
    NormalizeBehind(a, run, b, table);
    NormalizeBehind(a, other, b, table);
    ReadIsOrdered(Lower(a, table));
    AdvanceKeepsOrder(Read(Lower(a, table), START), Breaks(run), Breaks(other), Lower(b, table));
  }

  lemma {:induction false} MarkersReadAlike(a: string, run: string, b: string, table: CharTable)
    requires IsLawful(table) && AreMarkers(run)
    ensures Normalize(a + run + b, table) == Normalize(a + "" + b, table)
  {
    MarkersBreakNothing(run);
    assert forall i :: 0 <= i < |run| ==> IsMarker(run[i]);
    hide *;
    NormalizeAround(a, run, b, table);
    NormalizeAround(a, "", b, table);
    var s := Read(Lower(a, table), START);
    ReadRun(run, s);
    ReadNothing(s);
  }

  lemma {:induction false} MarkersBreakNothing(run: string)
    requires AreMarkers(run)
    ensures Breaks(run) == 0 && !exists i :: 0 <= i < |run| && IsSeparator(run[i])
    decreases |run|
  {
    if run != "" { MarkersBreakNothing(run[1..]); }
    forall i | 0 <= i < |run| ensures !IsSeparator(run[i]) { MarkersSeparateNothing(run[i]); }
  }

  lemma {:induction false} EndsReadAlike(text: string, run: string, table: CharTable)
    requires IsLawful(table) && IsWrapping(run)
    ensures SameReading(Normalize("" + run + text, table), Normalize(text, table))
    ensures SameOrder(Normalize("" + run + text, table), Normalize(text, table))
    ensures SameReading(Normalize(text + run + "", table), Normalize(text, table))
    ensures SameOrder(Normalize(text + run + "", table), Normalize(text, table))
  {
    ReadAround("", run, text, table);
    ReadAround(text, run, "", table);
    LowerNothing(table);
    ReadNothing(START);
    ReadRun(run, START);
    ReadKeepsAlike(Lower(text, table), Read(run, START), START);
    ReadKeepsOrder(Lower(text, table), Read(run, START), START);
    ReadKeepsValid(Lower(text, table), START);
    ReadRun(run, Read(Lower(text, table), START));
    ReadNothing(Read(run, Read(Lower(text, table), START)));
  }

  /** A change of layout leaves what the scope can see as it was. */
  lemma {:induction false} RewrappingKeepsView(before: string, after: string, scope: Scope, table: CharTable)
    requires IsLawful(table) && IsRewrapped(before, after, scope)
    ensures SameView(Normalize(before, table), Normalize(after, table), scope)
  {
    hide IsLawful, IsWrapping, AreMarkers, Normalize, BreakAlike;
    NormalizeIsValid(before, table);
    if a, run, other, b :| && IsExchanged(before, after, a, run, other, b)
                           && (IgnoresSegments(scope) || BreakAlike(run, other)) {
      RunsReadAlike(a, run, other, b, table);
      if BreakAlike(run, other) { RunsKeepOrder(a, run, other, b, table); }
    } else if a, run, b :| AreMarkers(run) && before == a + "" + b && after == a + run + b {
      MarkersReadAlike(a, run, b, table);
    } else {
      var run :| IsWrapping(run) && (after == "" + run + before || after == before + run + "");
      EndsReadAlike(before, run, table);
    }
  }

  /** Two texts that differ by any number of layout changes, each made in either direction. */
  ghost predicate AreRewrappings(versions: seq<string>, scope: Scope) {
    && versions != []
    && forall i :: 0 <= i < |versions| - 1 ==>
         IsRewrapped(versions[i], versions[i + 1], scope) || IsRewrapped(versions[i + 1], versions[i], scope)
  }

  /**
   Rewrapping invariance, in every scope and for every value boundary: no change of layout changes a
   verdict, if in the scopes that ask for segments lines break where they broke before.
   */
  lemma {:induction false} RewrappingKeepsVerdict(versions: seq<string>, r: Relation, table: CharTable)
    requires IsLawful(table) && AreRewrappings(versions, r.scope)
    ensures IsSatisfied(versions[0], r, table) <==> IsSatisfied(versions[|versions| - 1], r, table)
    decreases |versions|
  {
    hide IsRewrapped, IsLawful, IsSatisfied;
    if |versions| > 1 {
      var x, y := versions[0], versions[1];
      RewrappingKeepsVerdict(versions[1..], r, table);
      assert IsRewrapped(x, y, r.scope) || IsRewrapped(y, x, r.scope);
      if IsRewrapped(x, y, r.scope) { OneRewrapping(x, y, r, table); } else { OneRewrapping(y, x, r, table); }
    }
  }

  lemma {:induction false} OneRewrapping(before: string, after: string, r: Relation, table: CharTable)
    requires IsLawful(table) && IsRewrapped(before, after, r.scope)
    ensures IsSatisfied(before, r, table) <==> IsSatisfied(after, r, table)
  {
    hide IsRewrapped, IsLawful, Satisfies, Normalize, SameView;
    NormalizeIsValid(before, table);
    NormalizeIsValid(after, table);
    RewrappingKeepsView(before, after, r.scope, table);
    VerdictDependsOnView(Normalize(before, table), Normalize(after, table), r, table);
  }

  // ---------------------------------------------------------------- scopes that ask for segments

  const PLAIN_TABLE: CharTable := CharTable(c => [c], c => '0' <= c <= '9')

  /** The value is in the anchor's segment. */
  const IN_ONE_SEGMENT: Relation := Relation(["a"], ["b"], [], Substring, Segment, 0, false, 0)

  /** Nothing forbidden is in a segment of the pair. */
  const IN_OTHER_SEGMENTS: Relation := Relation(["a"], ["a"], ["b"], Substring, RelatedSegments, 0, false, 0)

  lemma {:induction false} PlainLower(t: string)
    ensures Lower(t, PLAIN_TABLE) == t
    decreases |t|
  {
    if t != "" { PlainLower(t[1..]); }
  }

  /** The lexemes of two letters around a wrapping. */
  lemma {:induction false} ReadLetters(run: string)
    requires IsWrapping(run)
    ensures Normalize("a" + run + "b", PLAIN_TABLE) == Lexemes("ab", [0, Breaks(run)], [false, true])
  {
    PlainLower("a" + run + "b");
    ReadLetter("", 'a', START);
    ReadNothing(START);
    assert "" + ['a'] == "a" && ['b'] == "b" && ['a'] + ['b'] == "ab";
    ReadAppend("a", run, START);
    ReadRun(run, Read("a", START));
    ReadLetter("a" + run, 'b', START);
    hide Read, Lower, IsWrapping, Breaks;
  }

  lemma {:induction false} ReadLetter(t: string, c: char, s: State)
    requires IsAsciiLetter(c)
    ensures var r := Read(t, s); var l := r.lexemes;
            Read(t + [c], s) ==
            State(Lexemes(l.chars + [c], l.segments + [r.segment], l.separated + [r.pending]), r.segment, false)
  {
    ReadOneMore(t, c, s);
  }

  lemma {:induction false} SingleOccurrence(l: Lexemes, c: char)
    requires l.Valid() && l.chars == "ab" && (c == 'a' || c == 'b')
    ensures AllOccurrences(l, [[c]], Substring, PLAIN_TABLE) ==
            var i := if c == 'a' then 0 else 1; [Occurrence(i, i + 1, l.segments[i], l.segments[i])]
  {
    PlainLower([c]);
    ReadOneMore("", c, START);
    ReadNothing(START);
    assert "" + [c] == [c] && Normalize([c], PLAIN_TABLE).chars == [c];
    assert l.chars[0..1] == "a" && l.chars[1..2] == "b" && [c][0] == c && "a"[0] == 'a' && "b"[0] == 'b';
    assert [[c]][1..] == [] && AllOccurrences(l, [], Substring, PLAIN_TABLE) == [];
    assert Occurrences(l, [c], 2, Substring, PLAIN_TABLE) == [];
    var first, second := Occurrence(0, 1, l.segments[0], l.segments[0]), Occurrence(1, 2, l.segments[1], l.segments[1]);
    assert OccursAt(l, [c], 0, Substring, PLAIN_TABLE) <==> c == 'a';
    assert OccursAt(l, [c], 1, Substring, PLAIN_TABLE) <==> c == 'b';
    assert Occurrences(l, [c], 1, Substring, PLAIN_TABLE) == if c == 'b' then [second] else [];
    assert Occurrences(l, [c], 0, Substring, PLAIN_TABLE) == if c == 'b' then [second] else [first];
    assert AllOccurrences(l, [[c]], Substring, PLAIN_TABLE) == Occurrences(l, [c], 0, Substring, PLAIN_TABLE) + [];
  }

  lemma {:induction false} PlainIsLawful()
    ensures IsLawful(PLAIN_TABLE)
  {
  }

  /** Every relation of the scope has the same verdict with one wrapping as with the other, around any texts. */
  ghost predicate KeepsVerdicts(run: string, other: string, scope: Scope) {
    forall a: string, b: string, r: Relation, table: CharTable :: IsLawful(table) && r.scope == scope ==>
      (IsSatisfied(a + run + b, r, table) <==> IsSatisfied(a + other + b, r, table))
  }

  /**
   Exactly which wrappings may be exchanged: any two in the scopes that ignore segments, and in the
   two that ask for them those that both break the line, however often, or both do not.
   */
  lemma {:induction false} WhichWrappingsKeepVerdicts(run: string, other: string, scope: Scope)
    requires IsWrapping(run) && IsWrapping(other)
    ensures KeepsVerdicts(run, other, scope) <==> IgnoresSegments(scope) || BreakAlike(run, other)
  {
    hide IsLawful, IsWrapping, IsSatisfied, Breaks;
    if IgnoresSegments(scope) || BreakAlike(run, other) {
      forall a: string, b: string, r: Relation, table: CharTable | IsLawful(table) && r.scope == scope
        ensures IsSatisfied(a + run + b, r, table) <==> IsSatisfied(a + other + b, r, table)
      {
        assert IsExchanged(a + run + b, a + other + b, a, run, other, b);
        OneRewrapping(a + run + b, a + other + b, r, table);
      }
    } else if KeepsVerdicts(run, other, scope) {
      var r := if scope.Segment? then IN_ONE_SEGMENT else IN_OTHER_SEGMENTS;
      PlainIsLawful();
      assert IsSatisfied("a" + run + "b", r, PLAIN_TABLE) <==> IsSatisfied("a" + other + "b", r, PLAIN_TABLE);
      VerdictOnLetters(run);
      VerdictOnLetters(other);
    }
  }

  /** Two letters around a wrapping are in one segment exactly if it has no break. */
  lemma {:induction false} VerdictOnLetters(run: string)
    requires IsWrapping(run)
    ensures IsSatisfied("a" + run + "b", IN_ONE_SEGMENT, PLAIN_TABLE) <==> Breaks(run) == 0
    ensures IsSatisfied("a" + run + "b", IN_OTHER_SEGMENTS, PLAIN_TABLE) <==> Breaks(run) != 0
  {
    ReadLetters(run);
    var l := Normalize("a" + run + "b", PLAIN_TABLE);
    hide Normalize, Occurrences, AllOccurrences, Satisfies, IsWrapping, Breaks;
    OneVerdict(l);
    OtherVerdict(l);
  }

  /** For instance: a line break for a space moves the value out of the anchor's segment. */
  lemma {:induction false} SegmentScopeSeesWrapping()
    ensures IsRewrapped("a" + " " + "b", "a" + "\n" + "b", Between)
    ensures IsSatisfied("a" + " " + "b", IN_ONE_SEGMENT, PLAIN_TABLE)
    ensures !IsSatisfied("a" + "\n" + "b", IN_ONE_SEGMENT, PLAIN_TABLE)
  {
    assert " "[0] == ' ' && "\n"[0] == '\n' && " "[1..] == "" && "\n"[1..] == "";
    assert IsWrapping(" ") && IsWrapping("\n");
    assert Breaks("") == 0 && Breaks(" ") == 0 && Breaks("\n") == 1;
    hide IsSatisfied, IsWrapping, Breaks;
    assert IsExchanged("a" + " " + "b", "a" + "\n" + "b", "a", " ", "\n", "b");
    VerdictOnLetters(" ");
    VerdictOnLetters("\n");
  }

  lemma {:induction false} OneVerdict(l: Lexemes)
    requires l.Valid() && l.chars == "ab"
    ensures Satisfies(l, IN_ONE_SEGMENT, PLAIN_TABLE) <==> l.segments[0] == l.segments[1]
  {
    hide Occurrences, AllOccurrences;
    SingleOccurrence(l, 'a');
    SingleOccurrence(l, 'b');
    assert ['a'] == "a" && ['b'] == "b";
    var anchors := AllOccurrences(l, ["a"], Substring, PLAIN_TABLE);
    var values := AllOccurrences(l, ["b"], Substring, PLAIN_TABLE);
    NoPatterns(l);
    assert IsPairAt(IN_ONE_SEGMENT, anchors, values, 0, 0) <==> l.segments[0] == l.segments[1];
  }

  lemma {:induction false} OtherVerdict(l: Lexemes)
    requires l.Valid() && l.chars == "ab"
    ensures Satisfies(l, IN_OTHER_SEGMENTS, PLAIN_TABLE) <==> l.segments[0] != l.segments[1]
  {
    hide Occurrences, AllOccurrences;
    SingleOccurrence(l, 'a');
    SingleOccurrence(l, 'b');
    assert ['a'] == "a" && ['b'] == "b";
    var anchors := AllOccurrences(l, ["a"], Substring, PLAIN_TABLE);
    var forbidden := AllOccurrences(l, ["b"], Substring, PLAIN_TABLE);
    assert IsPairAt(IN_OTHER_SEGMENTS, anchors, anchors, 0, 0);
    assert Forbids(IN_OTHER_SEGMENTS, forbidden[0], anchors[0], anchors[0]) <==> l.segments[0] == l.segments[1];
    assert IsForbidden(IN_OTHER_SEGMENTS, forbidden, anchors[0], anchors[0]) <==> l.segments[0] == l.segments[1];
  }

  lemma {:induction false} NoPatterns(l: Lexemes)
    requires l.Valid()
    ensures AllOccurrences(l, [], Substring, PLAIN_TABLE) == []
  {
  }
}
