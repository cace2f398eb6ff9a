/**
 Text lookup over history records: matches of a query, the excerpt around a match, and the
 chunks a record is read in. Text is valid UTF-8; all offsets are byte offsets.
 */
module HistoryText {
  import opened ByteStrings
  import opened Utf8

  const MAX_QUERY_BYTES: nat := 512
  const MAX_EXCERPT_BYTES: nat := 1024

  datatype Mode = Substring | Exact

  datatype Kind = User | Assistant | Function | Tool | Status

  datatype Record = Record(
    seqNo: nat,
    turnId: bytes,
    kind: Kind,
    field: bytes,
    callId: Option<bytes>,
    artifactId: Option<bytes>,
    text: bytes)

  datatype Range = Range(start: nat, end: nat)

  datatype Excerpt = Excerpt(
    seqNo: nat,
    turnId: bytes,
    kind: Kind,
    field: bytes,
    callId: Option<bytes>,
    artifactId: Option<bytes>,
    range: Range,
    matched: Option<Range>,
    excerpt: bytes)

  // ---------------------------------------------------------------- matches

  function Lower(b: byte): byte { if 65 <= b <= 90 then b + 32 else b }

  /** `eq_ignore_ascii_case` */
  predicate EqualFold(a: bytes, b: bytes) {
    |a| == |b| && forall i :: 0 <= i < |a| ==> Lower(a[i]) == Lower(b[i])
  }

  predicate Same(a: bytes, b: bytes, caseSensitive: bool) {
    if caseSensitive then a == b else EqualFold(a, b)
  }

  /** The query occurs at start, and both its ends are character boundaries. */
  predicate IsOccurrence(text: bytes, query: bytes, caseSensitive: bool, start: nat) {
    start + |query| <= |text| && IsBoundary(text, start) && IsBoundary(text, start + |query|)
    && Same(text[start..start + |query|], query, caseSensitive)
  }

  /** The occurrences from `start` on, each one after the last, trying every byte position in turn. */
  function Occurrences(text: bytes, query: bytes, caseSensitive: bool, start: nat): seq<Range>
    requires query != []
    decreases |text| - start
  {
    if start + |query| > |text| then []
    else if IsOccurrence(text, query, caseSensitive, start) then
      [Range(start, start + |query|)] + Occurrences(text, query, caseSensitive, start + |query|)
    else Occurrences(text, query, caseSensitive, start + 1)
  }

  function Matches(text: bytes, query: bytes, mode: Mode, caseSensitive: bool): seq<Range>
    requires query != []
  {
    if mode.Exact? then
      if Same(text, query, caseSensitive) then [Range(0, |text|)] else []
    else Occurrences(text, query, caseSensitive, 0)
  }

  /** Each reported range is an occurrence at or after start, in order and disjoint. */
  ghost predicate AreOccurrences(text: bytes, query: bytes, caseSensitive: bool, start: nat, found: seq<Range>) {
    && (forall i :: 0 <= i < |found| ==>
          start <= found[i].start && found[i].end == found[i].start + |query|
          && IsOccurrence(text, query, caseSensitive, found[i].start))
    && (forall i, j :: 0 <= i < j < |found| ==> found[i].end <= found[j].start)
  }

  ghost predicate StartsInside(found: seq<Range>, p: nat) {
    exists i :: 0 <= i < |found| && found[i].start <= p < found[i].end
  }

  /** Every occurrence of the query from start on starts inside a reported one. */
  ghost predicate CoverOccurrences(text: bytes, query: bytes, caseSensitive: bool, start: nat, found: seq<Range>) {
    forall p: nat :: start <= p && IsOccurrence(text, query, caseSensitive, p) ==> StartsInside(found, p)
  }

  /** One occurrence in front of those after it. */
  lemma {:induction false} ConsOccurrence(text: bytes, query: bytes, caseSensitive: bool, start: nat, rest: seq<Range>)
    requires query != [] && IsOccurrence(text, query, caseSensitive, start)
    ensures var found := [Range(start, start + |query|)] + rest;
            && (AreOccurrences(text, query, caseSensitive, start + |query|, rest) ==>
                  AreOccurrences(text, query, caseSensitive, start, found))
            && (CoverOccurrences(text, query, caseSensitive, start + |query|, rest) ==>
                  CoverOccurrences(text, query, caseSensitive, start, found))
  {
    hide IsOccurrence;
    var found := [Range(start, start + |query|)] + rest;
    assert forall i :: 0 < i < |found| ==> found[i] == rest[i - 1];
    if CoverOccurrences(text, query, caseSensitive, start + |query|, rest) {
      forall p: nat | start <= p && IsOccurrence(text, query, caseSensitive, p)
        ensures StartsInside(found, p)
      {
        if p < start + |query| {
          assert found[0].start <= p < found[0].end;
        } else {
          assert StartsInside(rest, p);
          var i :| 0 <= i < |rest| && rest[i].start <= p < rest[i].end;
          assert found[i + 1] == rest[i];
        }
      }
    }
  }

  /** And taking that first occurrence off again. */
  lemma {:induction false} UnconsOccurrence(text: bytes, query: bytes, caseSensitive: bool, start: nat,
                                            found: seq<Range>)
    requires query != [] && IsOccurrence(text, query, caseSensitive, start)
    requires AreOccurrences(text, query, caseSensitive, start, found)
    requires CoverOccurrences(text, query, caseSensitive, start, found)
    ensures found != [] && found[0] == Range(start, start + |query|) && found == [found[0]] + found[1..]
    ensures AreOccurrences(text, query, caseSensitive, start + |query|, found[1..])
    ensures CoverOccurrences(text, query, caseSensitive, start + |query|, found[1..])
  {
    hide IsOccurrence;
    assert StartsInside(found, start);
    FirstOccurrence(text, query, caseSensitive, start, found);
    RestAreOccurrences(text, query, caseSensitive, start, found);
    hide StartsInside, AreOccurrences;
    forall p: nat | start + |query| <= p && IsOccurrence(text, query, caseSensitive, p)
      ensures StartsInside(found[1..], p)
    {
      StartsInsideRest(found, p);
    }
  }

  lemma {:induction false} FirstOccurrence(text: bytes, query: bytes, caseSensitive: bool, start: nat,
                                           found: seq<Range>)
    requires AreOccurrences(text, query, caseSensitive, start, found) && StartsInside(found, start)
    ensures found != [] && found[0] == Range(start, start + |query|) && found == [found[0]] + found[1..]
  {
    hide IsOccurrence;
  }

  lemma {:induction false} RestAreOccurrences(text: bytes, query: bytes, caseSensitive: bool, start: nat,
                                              found: seq<Range>)
    requires AreOccurrences(text, query, caseSensitive, start, found) && found != []
             && found[0] == Range(start, start + |query|)
    ensures AreOccurrences(text, query, caseSensitive, start + |query|, found[1..])
  {
    hide IsOccurrence;
    var rest := found[1..];
    assert forall i :: 0 <= i < |rest| ==> rest[i] == found[i + 1];
  }

  lemma {:induction false} StartsInsideRest(found: seq<Range>, p: nat)
    requires StartsInside(found, p) && found != [] && found[0].end <= p
    ensures StartsInside(found[1..], p)
  {
    var j :| 0 <= j < |found| && found[j].start <= p < found[j].end;
    assert found[1..][j - 1] == found[j];
  }

  /** Between start and the end of the text there is nothing to find. */
  lemma {:induction false} NoneLeft(text: bytes, query: bytes, caseSensitive: bool, start: nat, found: seq<Range>)
    requires start + |query| > |text|
    ensures AreOccurrences(text, query, caseSensitive, start, found) ==> found == []
    ensures AreOccurrences(text, query, caseSensitive, start, [])
    ensures CoverOccurrences(text, query, caseSensitive, start, [])
  {
    assert found != [] && found[0].start >= start ==> !IsOccurrence(text, query, caseSensitive, found[0].start);
  }

  /** A position that is no occurrence can be stepped over. */
  lemma {:induction false} StepOver(text: bytes, query: bytes, caseSensitive: bool, start: nat, found: seq<Range>)
    requires !IsOccurrence(text, query, caseSensitive, start)
    ensures AreOccurrences(text, query, caseSensitive, start, found) <==>
              AreOccurrences(text, query, caseSensitive, start + 1, found)
    ensures CoverOccurrences(text, query, caseSensitive, start, found) <==>
              CoverOccurrences(text, query, caseSensitive, start + 1, found)
  {
    hide IsOccurrence;
  }

  /**
   Reported matches are occurrences, in order and disjoint, and nothing is missed but what
   overlaps an earlier match.
   */
  lemma {:induction false} OccurrencesComplete(text: bytes, query: bytes, caseSensitive: bool, start: nat)
    requires query != []
    ensures AreOccurrences(text, query, caseSensitive, start, Occurrences(text, query, caseSensitive, start))
    ensures CoverOccurrences(text, query, caseSensitive, start, Occurrences(text, query, caseSensitive, start))
    decreases |text| - start
  {
    hide IsOccurrence, AreOccurrences, CoverOccurrences;
    if start + |query| > |text| {
      NoneLeft(text, query, caseSensitive, start, []);
    } else if IsOccurrence(text, query, caseSensitive, start) {
      OccurrencesComplete(text, query, caseSensitive, start + |query|);
      ConsOccurrence(text, query, caseSensitive, start, Occurrences(text, query, caseSensitive, start + |query|));
    } else {
      OccurrencesComplete(text, query, caseSensitive, start + 1);
      StepOver(text, query, caseSensitive, start, Occurrences(text, query, caseSensitive, start + 1));
    }
  }

  /** And the match list is the only one with these properties. */
  lemma {:induction false} OccurrencesUnique(text: bytes, query: bytes, caseSensitive: bool, start: nat,
                                             found: seq<Range>)
    requires query != []
    requires AreOccurrences(text, query, caseSensitive, start, found)
    requires CoverOccurrences(text, query, caseSensitive, start, found)
    ensures found == Occurrences(text, query, caseSensitive, start)
    decreases |text| - start
  {
    hide IsOccurrence, AreOccurrences, CoverOccurrences;
    if start + |query| > |text| {
      NoneLeft(text, query, caseSensitive, start, found);
    } else if IsOccurrence(text, query, caseSensitive, start) {
      UnconsOccurrence(text, query, caseSensitive, start, found);
      OccurrencesUnique(text, query, caseSensitive, start + |query|, found[1..]);
    } else {
      StepOver(text, query, caseSensitive, start, found);
      OccurrencesUnique(text, query, caseSensitive, start + 1, found);
    }
  }

  /** Skipping to the next boundary skips no occurrence. */
  lemma {:induction false} SkipNonBoundaries(text: bytes, query: bytes, caseSensitive: bool, start: nat, next: nat)
    requires query != [] && start <= next
    requires forall p :: start <= p < next ==> !IsOccurrence(text, query, caseSensitive, p)
    ensures Occurrences(text, query, caseSensitive, start) == Occurrences(text, query, caseSensitive, next)
    decreases next - start
  {
    hide IsOccurrence;
    if start < next { SkipNonBoundaries(text, query, caseSensitive, start + 1, next); }
  }

  // ---------------------------------------------------------------- excerpts

  function ExcerptOf(record: Record, start: nat, end: nat): Excerpt
    requires start <= end <= |record.text|
  {
    Excerpt(record.seqNo, record.turnId, record.kind, record.field, record.callId, record.artifactId,
            Range(start, end), None, record.text[start..end])
  }

  /** The first boundary at or after i. */
  function BoundaryAtOrAfter(s: bytes, i: nat): (b: nat)
    requires i <= |s|
    ensures i <= b <= |s| && IsBoundary(s, b) && forall k :: i <= k < b ==> !IsBoundary(s, k)
    decreases |s| - i
  {
    if IsBoundary(s, i) then i else BoundaryAtOrAfter(s, i + 1)
  }

  /** How much room the window leaves before a match of length n. */
  function RoomBefore(n: nat): nat {
    (if n <= MAX_EXCERPT_BYTES then MAX_EXCERPT_BYTES - n else 0) / 2
  }

  function WindowStart(text: bytes, match_: Range): nat
    requires match_.start <= match_.end <= |text|
  {
    var room := RoomBefore(match_.end - match_.start);
    BoundaryAtOrAfter(text, if match_.start >= room then match_.start - room else 0)
  }

  function WindowEnd(text: bytes, start: nat): nat
    requires start <= |text|
  {
    BoundaryAtOrBefore(text, Min(start + MAX_EXCERPT_BYTES, |text|))
  }

  /** The window the source chooses: the ordinary one, or its fallback when that ends before the match does. */
  function Window(text: bytes, match_: Range): (w: Range)
    requires match_.start <= match_.end <= |text| && IsBoundary(text, match_.end)
    ensures w.start <= w.end <= |text|
  {
    var start := WindowStart(text, match_);
    var end := WindowEnd(text, start);
    if end < match_.end then
      Range(BoundaryAtOrAfter(text, if match_.end >= MAX_EXCERPT_BYTES then match_.end - MAX_EXCERPT_BYTES else 0),
            match_.end)
    else Range(start, end)
  }

  /**
   For a match as long as a query may be, and in fact up to the whole window, the fallback never
   runs: the window is aligned, at most 1024 bytes, contains the match, and is cut short of 1024
   bytes only by the end of the text or by fewer than four bytes of one scalar.
   */
  lemma {:induction false} WindowContainsMatch(text: bytes, match_: Range)
    requires ValidUtf8(text) && match_.start <= match_.end <= |text|
    requires IsBoundary(text, match_.start) && IsBoundary(text, match_.end)
    requires match_.end - match_.start <= MAX_EXCERPT_BYTES
    ensures var start := WindowStart(text, match_);
            var end := WindowEnd(text, start);
            && Window(text, match_) == Range(start, end)
            && start <= match_.start && match_.end <= end
            && IsBoundary(text, start) && IsBoundary(text, end)
            && end - start <= MAX_EXCERPT_BYTES
            && (end == |text| || end - start > MAX_EXCERPT_BYTES - 4)
  {
    hide IsBoundary, ValidUtf8;
    var start := WindowStart(text, match_);
    var limit := Min(start + MAX_EXCERPT_BYTES, |text|);
    var lo, hi := BoundariesNear(text, limit);
    WholeTextBoundary(text);
  }

  lemma {:induction false} WholeTextBoundary(text: bytes)
    ensures IsBoundary(text, |text|) && IsBoundary(text, 0)
  {
  }

  method WalkForward(text: bytes, i: nat) returns (b: nat)
    requires i <= |text|
    ensures b == BoundaryAtOrAfter(text, i)
  {
    b := i;
    while !IsBoundary(text, b)
      invariant b <= |text| && BoundaryAtOrAfter(text, b) == BoundaryAtOrAfter(text, i)
      decreases |text| - b
    {
      b := b + 1;
    }
  }

  method WalkBack(text: bytes, i: nat) returns (b: nat)
    requires i <= |text|
    ensures b == BoundaryAtOrBefore(text, i)
  {
    b := i;
    while !IsBoundary(text, b)
      invariant b <= |text| && BoundaryAtOrBefore(text, b) == BoundaryAtOrBefore(text, i)
      decreases b
    {
      b := b - 1;
    }
  }

  /** The excerpt around a match, by the source's boundary walks and its fallback. */
  method ExcerptForMatch(record: Record, matchStart: nat, matchEnd: nat) returns (excerpt: Excerpt)
    requires matchStart <= matchEnd <= |record.text| && IsBoundary(record.text, matchEnd)
    ensures var w := Window(record.text, Range(matchStart, matchEnd));
            excerpt == ExcerptOf(record, w.start, w.end).(matched := Some(Range(matchStart, matchEnd)))
  {
    hide IsBoundary, BoundaryAtOrAfter, BoundaryAtOrBefore, RoomBefore;
    var room := RoomBefore(matchEnd - matchStart);
    var start := WalkForward(record.text, if matchStart >= room then matchStart - room else 0);
    var end := WalkBack(record.text, Min(start + MAX_EXCERPT_BYTES, |record.text|));
    if end < matchEnd {
      end := matchEnd;
      start := WalkForward(record.text, if end >= MAX_EXCERPT_BYTES then end - MAX_EXCERPT_BYTES else 0);
    }
    excerpt := ExcerptOf(record, start, end).(matched := Some(Range(matchStart, matchEnd)));
  }

  // ---------------------------------------------------------------- chunks

  /** The end of the chunk at start: as long as fits max bytes, at least one scalar. */
  function ChunkEnd(text: bytes, max: nat, start: nat): (end: nat)
    requires ValidUtf8(text) && start < |text| && IsBoundary(text, start)
    ensures start < end <= |text| && IsBoundary(text, end)
  {
    var cut := BoundaryAtOrBefore(text, Min(start + max, |text|));
    NextBoundary(text, start);
    if cut <= start then start + ScalarLength(text[start..]) else cut
  }

  /** The chunks of text[start..]. */
  function ChunksFrom(text: bytes, max: nat, start: nat): seq<Range>
    requires ValidUtf8(text) && start <= |text| && IsBoundary(text, start)
    decreases |text| - start
  {
    if start == |text| then []
    else [Range(start, ChunkEnd(text, max, start))] + ChunksFrom(text, max, ChunkEnd(text, max, start))
  }

  function Chunks(text: bytes, max: nat): seq<Range>
    requires ValidUtf8(text)
  {
    ChunksFrom(text, max, 0)
  }

  /** The bytes of ranges of a text, joined. */
  function Slices(text: bytes, ranges: seq<Range>): bytes
    requires forall i :: 0 <= i < |ranges| ==> ranges[i].start <= ranges[i].end <= |text|
  {
    if ranges == [] then [] else text[ranges[0].start..ranges[0].end] + Slices(text, ranges[1..])
  }

  predicate AreChunks(text: bytes, max: nat, start: nat, ranges: seq<Range>) {
    && (forall i :: 0 <= i < |ranges| ==>
          ranges[i].start < ranges[i].end <= |text| && ranges[i].end - ranges[i].start <= max
          && IsBoundary(text, ranges[i].start) && IsBoundary(text, ranges[i].end))
    && (ranges != [] ==> ranges[0].start == start && ranges[|ranges| - 1].end == |text|)
    && (ranges == [] ==> start == |text|)
    && (forall i :: 0 <= i < |ranges| - 1 ==> ranges[i].end == ranges[i + 1].start)
  }

  /** One chunk in front of the chunks after it. */
  lemma {:induction false} ConsChunk(text: bytes, max: nat, start: nat, end: nat, rest: seq<Range>)
    requires start < end <= |text| && end - start <= max && IsBoundary(text, start) && IsBoundary(text, end)
    requires AreChunks(text, max, end, rest)
    ensures AreChunks(text, max, start, [Range(start, end)] + rest)
    ensures Slices(text, [Range(start, end)] + rest) == text[start..end] + Slices(text, rest)
  {
    hide IsBoundary;
    var all := [Range(start, end)] + rest;
    assert all[1..] == rest;
    assert forall i :: 0 < i < |all| ==> all[i] == rest[i - 1];
  }

  lemma {:induction false} ChunkFits(text: bytes, max: nat, start: nat)
    requires ValidUtf8(text) && start < |text| && IsBoundary(text, start) && max >= 4
    ensures ChunkEnd(text, max, start) - start <= max
  {
    hide ValidUtf8, IsBoundary, ScalarLength;
    WholeTextBoundary(text);
    var lo, hi := BoundariesNear(text, Min(start + max, |text|));
    NextBoundary(text, start);
  }

  /** Chunks are contiguous, non-empty, aligned, at most max bytes, and spell the text again. */
  lemma {:induction false} ChunksSpellText(text: bytes, max: nat, start: nat)
    requires ValidUtf8(text) && start <= |text| && IsBoundary(text, start) && max >= 4
    ensures AreChunks(text, max, start, ChunksFrom(text, max, start))
    ensures Slices(text, ChunksFrom(text, max, start)) == text[start..]
    decreases |text| - start
  {
    if start < |text| {
      hide ValidUtf8, IsBoundary, AreChunks, Slices, ChunkEnd;
      var end := ChunkEnd(text, max, start);
      ChunkFits(text, max, start);
      ChunksSpellText(text, max, end);
      ConsChunk(text, max, start, end, ChunksFrom(text, max, end));
      JoinSlices(text, start, end);
    }
  }

  lemma {:induction false} JoinSlices(text: bytes, start: nat, end: nat)
    requires start <= end <= |text|
    ensures text[start..end] + text[end..] == text[start..]
  {
  }

  method NextChunkEnd(text: bytes, max: nat, start: nat) returns (end: nat)
    requires ValidUtf8(text) && start < |text| && IsBoundary(text, start)
    ensures end == ChunkEnd(text, max, start)
  {
    hide ValidUtf8, ScalarLength;
    end := WalkBack(text, Min(start + max, |text|));
    NextBoundary(text, start);
    if end <= start {
      end := start + ScalarLength(text[start..]);
    }
  }

  method Utf8Chunks(text: bytes, max: nat) returns (chunks: seq<Range>)
    requires ValidUtf8(text)
    ensures chunks == Chunks(text, max)
  {
    hide ValidUtf8, ChunkEnd;
    chunks := [];
    var start: nat := 0;
    while start < |text|
      invariant start <= |text| && IsBoundary(text, start)
      invariant Chunks(text, max) == chunks + ChunksFrom(text, max, start)
      decreases |text| - start
    {
      var end := NextChunkEnd(text, max, start);
      Regroup(chunks, [Range(start, end)], ChunksFrom(text, max, end));
      chunks := chunks + [Range(start, end)];
      start := end;
    }
  }

  lemma {:induction false} Regroup<T>(a: seq<T>, b: seq<T>, c: seq<T>)
    ensures a + (b + c) == (a + b) + c
  {
  }
}
