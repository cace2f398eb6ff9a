/**
 What a history lookup finds and answers, said of texts, records and views alone: which bytes count as
 equal, what the list of a view holds, which cursors are taken, and what every lookup answers.
 */
module HistoryLookupLaws {
  import opened ByteStrings
  import opened Utf8
  import opened HistoryText
  import opened HistoryPaging
  import opened HistoryPagingLaws

  // ---------------------------------------------------------------- what one record contributes

  /** The upper and the lower case of one ASCII letter. */
  predicate AreCases(upper: byte, lower: byte) { 'A' as int <= upper <= 'Z' as int && lower == upper + 32 }

  predicate IsSameText(a: bytes, b: bytes, caseSensitive: bool) {
    |a| == |b|
    && forall i :: 0 <= i < |a| ==>
         a[i] == b[i] || (!caseSensitive && (AreCases(a[i], b[i]) || AreCases(b[i], a[i])))
  }

  lemma {:induction false} SameMeans(a: bytes, b: bytes, caseSensitive: bool)
    ensures Same(a, b, caseSensitive) <==> IsSameText(a, b, caseSensitive)
  {
    if |a| == |b| {
      forall i | 0 <= i < |a|
        ensures Lower(a[i]) == Lower(b[i]) <==> a[i] == b[i] || AreCases(a[i], b[i]) || AreCases(b[i], a[i])
      {
      }
    }
  }

  /** The query stands at p, between character boundaries; an exact search takes it only as the whole text. */
  ghost predicate IsMatchAt(text: bytes, query: bytes, mode: Mode, caseSensitive: bool, p: nat) {
    && p + |query| <= |text| && IsBoundary(text, p) && IsBoundary(text, p + |query|)
    && IsSameText(text[p..p + |query|], query, caseSensitive)
    && (mode == Exact ==> |query| == |text|)
  }

  ghost predicate IsInside(found: seq<Range>, p: nat) {
    exists i :: 0 <= i < |found| && found[i].start <= p < found[i].end
  }

  /** In order and disjoint, each a match, and no match starts outside them. */
  ghost predicate AreMatches(text: bytes, query: bytes, mode: Mode, caseSensitive: bool, found: seq<Range>) {
    && (forall i :: 0 <= i < |found| ==>
          found[i].end == found[i].start + |query| && IsMatchAt(text, query, mode, caseSensitive, found[i].start))
    && (forall i, j :: 0 <= i < j < |found| ==> found[i].end <= found[j].start)
    && (forall p: nat :: IsMatchAt(text, query, mode, caseSensitive, p) ==> IsInside(found, p))
  }

  lemma {:induction false} OccurrenceMeans(text: bytes, query: bytes, caseSensitive: bool, p: nat)
    ensures IsOccurrence(text, query, caseSensitive, p) <==> IsMatchAt(text, query, Substring, caseSensitive, p)
  {
    hide IsBoundary, IsSameText, Same;
    if p + |query| <= |text| { SameMeans(text[p..p + |query|], query, caseSensitive); }
  }

  /** A search finds every match, none but matches, and of overlapping ones the first. */
  lemma {:induction false} MatchesMean(text: bytes, query: bytes, mode: Mode, caseSensitive: bool)
    requires query != []
    ensures AreMatches(text, query, mode, caseSensitive, Matches(text, query, mode, caseSensitive))
  {
    hide IsBoundary, IsSameText, Same, IsOccurrence;
    if mode.Exact? {
      ExactMeans(text, query, caseSensitive);
    } else {
      OccurrencesComplete(text, query, caseSensitive, 0);
      forall p: nat
        ensures IsOccurrence(text, query, caseSensitive, p) <==> IsMatchAt(text, query, mode, caseSensitive, p)
      {
        OccurrenceMeans(text, query, caseSensitive, p);
      }
      hide IsMatchAt, Occurrences;
      var found := Occurrences(text, query, caseSensitive, 0);
      forall p: nat | IsMatchAt(text, query, mode, caseSensitive, p) ensures IsInside(found, p) {
        assert StartsInside(found, p);
      }
    }
  }

  lemma {:induction false} ExactMeans(text: bytes, query: bytes, caseSensitive: bool)
    requires query != []
    ensures AreMatches(text, query, Exact, caseSensitive, Matches(text, query, Exact, caseSensitive))
  {
    hide IsSameText, Same;
    var found := Matches(text, query, Exact, caseSensitive);
    WholeTextBoundary(text);
    hide IsBoundary;
    assert text[0..|text|] == text;
    SameMeans(text, query, caseSensitive);
    assert IsSameText(text, query, caseSensitive) ==>
             |text| == |query| by { SameTextLength(text, query, caseSensitive); }
    forall p: nat | IsMatchAt(text, query, Exact, caseSensitive, p) ensures IsInside(found, p) {
      assert p == 0 && found == [Range(0, |text|)];
      assert found[0].start <= p < found[0].end;
    }
  }

  lemma {:induction false} SameTextLength(a: bytes, b: bytes, caseSensitive: bool)
    ensures IsSameText(a, b, caseSensitive) ==> |a| == |b|
  {
  }

  /** A piece of a record, with what the record says of itself. */
  ghost predicate IsPieceOf(e: Excerpt, record: Record) {
    && e.seqNo == record.seqNo && e.turnId == record.turnId && e.kind == record.kind && e.field == record.field
    && e.callId == record.callId && e.artifactId == record.artifactId
    && e.range.start <= e.range.end <= |record.text|
    && IsBoundary(record.text, e.range.start) && IsBoundary(record.text, e.range.end)
    && e.excerpt == record.text[e.range.start..e.range.end]
  }

  /**
   The window around a match: it starts at the first boundary that leaves at most half of the 1024 bytes the
   match does not need in front of it, and goes on to the last boundary within 1024 bytes.
   */
  ghost predicate IsWindow(text: bytes, m: Range, w: Range) {
    && w.start <= m.start <= m.end <= w.end <= |text|
    && m.start - w.start <= (1024 - (m.end - m.start)) / 2
    && w.end - w.start <= 1024
    && (forall k: nat :: m.start - (1024 - (m.end - m.start)) / 2 <= k < w.start ==> !IsBoundary(text, k))
    && (forall k: nat :: w.end < k <= w.start + 1024 && k <= |text| ==> !IsBoundary(text, k))
  }

  /** The excerpts of a record that a search reports: one for each match, in order. */
  ghost predicate IsFoundIn(record: Record, request: Request, items: seq<Excerpt>)
    requires request.Search?
  {
    exists found ::
      && AreMatches(record.text, request.query, request.mode, request.caseSensitive, found)
      && |items| == |found|
      && forall i :: 0 <= i < |items| ==> IsFoundAt(record, items[i], found[i])
  }

  ghost predicate IsFoundAt(record: Record, e: Excerpt, m: Range) {
    IsPieceOf(e, record) && e.matched == Some(m) && IsWindow(record.text, m, e.range)
  }

  /** One piece of a record that is read from start to end: as long as fits 1024 bytes. */
  ghost predicate IsChunkAt(record: Record, e: Excerpt, start: nat) {
    && IsPieceOf(e, record) && e.matched == None && e.range.start == start
    && 0 < e.range.end - start <= 1024
    && (forall k: nat :: e.range.end < k <= start + 1024 && k <= |record.text| ==> !IsBoundary(record.text, k))
  }

  /** Where the i-th of some pieces from start on begins: where the one before it ends. */
  function PieceStart(start: nat, items: seq<Excerpt>, i: nat): nat
    requires i < |items|
  {
    if i == 0 then start else items[i - 1].range.end
  }

  /** The pieces of a record from start to its end, each beginning where the one before ends. */
  ghost predicate AreChunksFrom(record: Record, start: nat, items: seq<Excerpt>) {
    && items != [] && items[|items| - 1].range.end == |record.text|
    && (forall i :: 0 <= i < |items| ==> IsChunkAt(record, items[i], PieceStart(start, items, i)))
  }

  ghost predicate AnswersRecord(record: Record, request: Request, items: seq<Excerpt>) {
    if request.Search? then IsFoundIn(record, request, items)
    else if record.turnId == request.turnId then AreChunksFrom(record, 0, items)
    else items == []
  }

  lemma {:induction false} WindowMeans(text: bytes, m: Range)
    requires ValidUtf8(text) && m.start <= m.end <= |text| && m.end - m.start <= 1024
    requires IsBoundary(text, m.start) && IsBoundary(text, m.end)
    ensures IsWindow(text, m, Window(text, m)) && IsBoundary(text, Window(text, m).start)
            && IsBoundary(text, Window(text, m).end)
  {
    WindowContainsMatch(text, m);
    hide IsBoundary, ValidUtf8, Window;
  }

  lemma {:induction false} FoundMeans(record: Record, request: Request)
    requires IsTextRecord(record) && IsRequest(request) && request.Search?
    ensures IsFoundIn(record, request, RecordItems(record, request))
  {
    hide ValidUtf8, IsBoundary, Window, IsWindow, Matches;
    var text := record.text;
    MatchesAreRanges(text, request.query, request.mode, request.caseSensitive);
    MatchesMean(text, request.query, request.mode, request.caseSensitive);
    var found := Matches(text, request.query, request.mode, request.caseSensitive);
    var items := RecordItems(record, request);
    forall i | 0 <= i < |items| ensures IsFoundAt(record, items[i], found[i]) {
      assert items[i] == MatchExcerpt(record, found[i]);
      WindowMeans(text, found[i]);
    }
    hide IsFoundAt, AreMatches;
  }

  lemma {:induction false} ChunkMeans(text: bytes, start: nat)
    requires ValidUtf8(text) && start < |text| && IsBoundary(text, start)
    ensures var end := ChunkEnd(text, MAX_EXCERPT_BYTES, start);
            start < end <= |text| && end - start <= 1024 && IsBoundary(text, end)
            && forall k: nat :: end < k <= start + 1024 && k <= |text| ==> !IsBoundary(text, k)
  {
    hide ValidUtf8, ScalarLength;
    ChunkFits(text, MAX_EXCERPT_BYTES, start);
    NextBoundary(text, start);
    var lo, hi := BoundariesNear(text, Min(start + MAX_EXCERPT_BYTES, |text|));
    hide IsBoundary;
  }

  /** One piece in front of the others. */
  lemma {:induction false} ConsChunkAt(record: Record, e: Excerpt, start: nat, rest: seq<Excerpt>)
    requires IsChunkAt(record, e, start)
    requires if e.range.end == |record.text| then rest == [] else AreChunksFrom(record, e.range.end, rest)
    ensures AreChunksFrom(record, start, [e] + rest)
  {
    var items := [e] + rest;
    hide IsChunkAt;
    forall i | 0 < i < |items| ensures IsChunkAt(record, items[i], PieceStart(start, items, i)) {
      assert items[i] == rest[i - 1] && PieceStart(start, items, i) == PieceStart(e.range.end, rest, i - 1);
    }
  }

  lemma {:induction false} OneChunk(record: Record, start: nat, end: nat)
    requires ValidUtf8(record.text) && start < |record.text| && IsBoundary(record.text, start)
    requires end == ChunkEnd(record.text, MAX_EXCERPT_BYTES, start)
    ensures IsChunkAt(record, ExcerptOf(record, start, end), start)
  {
    hide ValidUtf8, ChunkEnd;
    ChunkMeans(record.text, start);
    hide IsBoundary;
  }

  lemma {:induction false} ChunksFromAreRanges(text: bytes, start: nat)
    requires ValidUtf8(text) && start <= |text| && IsBoundary(text, start)
    ensures AreRanges(text, ChunksFrom(text, MAX_EXCERPT_BYTES, start))
  {
    ChunksSpellText(text, MAX_EXCERPT_BYTES, start);
    hide ValidUtf8, IsBoundary, Slices, ChunksFrom;
  }

  /** The chunks from a boundary on, as pieces of the record. */
  lemma {:induction false} ChunksMean(record: Record, start: nat)
    requires ValidUtf8(record.text) && start < |record.text| && IsBoundary(record.text, start)
    ensures AreRanges(record.text, ChunksFrom(record.text, MAX_EXCERPT_BYTES, start))
    ensures AreChunksFrom(record, start, ChunkExcerpts(record, ChunksFrom(record.text, MAX_EXCERPT_BYTES, start)))
    decreases |record.text| - start
  {
    var text := record.text;
    var end := ChunkEnd(text, MAX_EXCERPT_BYTES, start);
    OneChunk(record, start, end);
    ChunksFromAreRanges(text, start);
    hide ValidUtf8, IsBoundary, ChunkEnd, IsChunkAt, AreChunksFrom, AreRanges;
    var chunks, rest := ChunksFrom(text, MAX_EXCERPT_BYTES, start), ChunksFrom(text, MAX_EXCERPT_BYTES, end);
    assert chunks == [Range(start, end)] + rest;
    if end < |text| {
      ChunksMean(record, end);
    }
    ConsExcerpts(record, Range(start, end), rest);
    hide ChunkExcerpts;
    ConsChunkAt(record, ExcerptOf(record, start, end), start, ChunkExcerpts(record, rest));
  }

  lemma {:induction false} ConsExcerpts(record: Record, r: Range, rest: seq<Range>)
    requires AreRanges(record.text, [r] + rest)
    ensures r.start <= r.end <= |record.text| && AreRanges(record.text, rest)
    ensures ChunkExcerpts(record, [r] + rest) == [ExcerptOf(record, r.start, r.end)] + ChunkExcerpts(record, rest)
  {
    hide IsBoundary;
    var all := [r] + rest;
    assert all[0] == r;
    assert forall i :: 0 <= i < |rest| ==> all[i + 1] == rest[i];
    assert AreRanges(record.text, rest);
    hide AreRanges;
  }

  lemma {:induction false} ReadMeans(record: Record, request: Request)
    requires IsTextRecord(record) && IsRequest(request) && request.Turn? && record.turnId == request.turnId
    ensures AreChunksFrom(record, 0, RecordItems(record, request))
  {
    hide ValidUtf8, AreChunksFrom, AreRanges;
    WholeTextBoundary(record.text);
    ChunksMean(record, 0);
    hide IsBoundary;
  }

  lemma {:induction false} RecordMeans(record: Record, request: Request)
    requires IsTextRecord(record) && IsRequest(request)
    ensures AnswersRecord(record, request, RecordItems(record, request))
  {
    if request.Search? {
      hide IsFoundIn, RecordItems;
      FoundMeans(record, request);
    } else if record.turnId == request.turnId {
      hide AreChunksFrom, RecordItems;
      ReadMeans(record, request);
    } else {
      hide ValidUtf8, Chunks;
      ChunksAreRanges(record.text);
    }
  }

  // ---------------------------------------------------------------- the list of a view

  function Flatten(parts: seq<seq<Excerpt>>): seq<Excerpt> {
    if parts == [] then [] else Flatten(parts[..|parts| - 1]) + parts[|parts| - 1]
  }

  /** What each record contributes, in record order. */
  ghost predicate IsListOf(records: seq<Record>, request: Request, all: seq<Excerpt>) {
    exists parts: seq<seq<Excerpt>> ::
      |parts| == |records| && AnswerRecords(records, request, parts) && all == Flatten(parts)
  }

  ghost predicate AnswerRecords(records: seq<Record>, request: Request, parts: seq<seq<Excerpt>>)
    requires |parts| == |records|
  {
    forall i :: 0 <= i < |records| ==> AnswersRecord(records[i], request, parts[i])
  }

  lemma {:induction false} ItemsMean(records: seq<Record>, request: Request) returns (parts: seq<seq<Excerpt>>)
    requires (forall i :: 0 <= i < |records| ==> IsTextRecord(records[i])) && IsRequest(request)
    ensures |parts| == |records| && AnswerRecords(records, request, parts) && Items(records, request) == Flatten(parts)
    ensures IsListOf(records, request, Items(records, request))
    decreases |records|
  {
    hide IsTextRecord, RecordItems, AnswersRecord;
    parts := [];
    if records != [] {
      var init, last := records[..|records| - 1], records[|records| - 1];
      var front := ItemsMean(init, request);
      RecordMeans(last, request);
      parts := front + [RecordItems(last, request)];
      assert parts[..|parts| - 1] == front;
      forall i | 0 <= i < |records| ensures AnswersRecord(records[i], request, parts[i]) {
        if i < |init| { assert records[i] == init[i]; }
      }
    }
  }

  // ---------------------------------------------------------------- the snapshot

  /** The records are kept, and each view takes those up to the first one behind its cutoff. */
  lemma {:induction false} SnapshotMeans(env: Env, sessionId: bytes, records: seq<Record>,
                                         checkpoints: seq<(bytes, nat)>, j: nat)
    requires (forall i :: 0 <= i < |records| ==> IsTextRecord(records[i])) && j < |checkpoints|
    ensures BuildFromViews(env, Some(sessionId), records, checkpoints).Ok?
    ensures var s := BuildFromViews(env, Some(sessionId), records, checkpoints).value;
            && s.sessionId == Some(sessionId) && s.records == records && |s.views| == |checkpoints|
            && var view := s.views[j];
               && view.checkpointId == checkpoints[j].0 && view.cutoff == checkpoints[j].1
               && view.recordEnd <= |records|
               && (forall i :: 0 <= i < view.recordEnd ==> records[i].seqNo <= view.cutoff)
               && (view.recordEnd < |records| ==> records[view.recordEnd].seqNo > view.cutoff)
               && view.digest == env.snapshotDigest(
                    SnapshotKey(sessionId, view.checkpointId, view.cutoff, records[..view.recordEnd]))
  {
    hide IsTextRecord, RecordEnd;
    var s := BuildFromViews(env, Some(sessionId), records, checkpoints).value;
    assert s.views[j] == MakeView(env, sessionId, records, checkpoints[j]);
  }

  // ---------------------------------------------------------------- cursors

  /**
   What a cursor must say to be taken: for this version, kind, session and request, and a view that is still
   the same.
   */
  ghost predicate IsTicket(env: Env, s: Snapshot, request: Request, cursor: bytes, c: Cursor, j: nat) {
    && 1 <= |cursor| <= 2048 && env.decode(cursor) == Some(c)
    && c.version == 1 && c.schema == 1 && c.extractor == 8 && c.isSearch == request.Search?
    && s.sessionId == Some(c.sessionId) && c.requestDigest == env.requestDigest(request)
    && j < |s.views| && s.views[j].checkpointId == c.checkpointId && s.views[j].digest == c.snapshotDigest
    && forall k :: 0 <= k < j ==> s.views[k].checkpointId != c.checkpointId
  }

  /** The view and position a lookup starts at: those of its cursor, or the start of the newest view. */
  ghost predicate StartsAt(env: Env, s: Snapshot, request: Request, cursor: Option<bytes>, j: nat, start: nat) {
    match cursor
    case None => j + 1 == |s.views| && start == 0
    case Some(text) => exists c :: IsTicket(env, s, request, text, c, j) && c.position == start
  }

  lemma {:induction false} FindsFirst(views: seq<View>, id: bytes, j: nat)
    requires j < |views| && views[j].checkpointId == id && forall k :: 0 <= k < j ==> views[k].checkpointId != id
    ensures FindView(views, id) == Some(views[j])
    decreases |views|
  {
    if j > 0 {
      assert forall k :: 0 <= k < |views| - 1 ==> views[1..][k] == views[k + 1];
      FindsFirst(views[1..], id, j - 1);
    }
  }

  lemma {:induction false} FirstOf(views: seq<View>, id: bytes) returns (j: nat)
    requires FindView(views, id).Some?
    ensures j < |views| && views[j].checkpointId == id && forall k :: 0 <= k < j ==> views[k].checkpointId != id
    ensures FindView(views, id) == Some(views[j])
    decreases |views|
  {
    if views[0].checkpointId == id {
      j := 0;
    } else {
      var i := FirstOf(views[1..], id);
      j := i + 1;
      assert forall k :: 0 <= k < |views| - 1 ==> views[1..][k] == views[k + 1];
      forall k | 0 <= k < j ensures views[k].checkpointId != id {
        if k > 0 { assert views[1..][k - 1] == views[k]; }
      }
    }
  }

  lemma {:induction false} TicketIsTaken(env: Env, s: Snapshot, request: Request, cursor: bytes, c: Cursor, j: nat)
    requires IsTicket(env, s, request, cursor, c, j)
    ensures ResolveCursor(env, s, request, Some(cursor)) == Ok((s.views[j], c.position))
  {
    FindsFirst(s.views, c.checkpointId, j);
  }

  lemma {:induction false} TakenIsTicket(env: Env, s: Snapshot, request: Request, cursor: bytes)
    returns (c: Cursor, j: nat)
    requires ResolveCursor(env, s, request, Some(cursor)).Ok?
    ensures IsTicket(env, s, request, cursor, c, j)
  {
    c := env.decode(cursor).value;
    j := FirstOf(s.views, c.checkpointId);
  }

  /** A lookup starts somewhere exactly when its cursor is taken, or it has none and there is a view. */
  lemma {:induction false} StartMeans(env: Env, s: Snapshot, request: Request, cursor: Option<bytes>)
    ensures forall j: nat, start: nat :: StartsAt(env, s, request, cursor, j, start) ==>
              ResolveCursor(env, s, request, cursor) == Ok((s.views[j], start))
    ensures ResolveCursor(env, s, request, cursor).Ok? ==>
              exists j: nat, start: nat :: StartsAt(env, s, request, cursor, j, start)
  {
    if cursor.Some? {
      hide IsTicket, ResolveCursor;
      forall j: nat, start: nat | StartsAt(env, s, request, cursor, j, start)
        ensures ResolveCursor(env, s, request, cursor) == Ok((s.views[j], start))
      {
        var c :| IsTicket(env, s, request, cursor.value, c, j) && c.position == start;
        TicketIsTaken(env, s, request, cursor.value, c, j);
      }
      if ResolveCursor(env, s, request, cursor).Ok? {
        var c, j := TakenIsTicket(env, s, request, cursor.value);
        assert StartsAt(env, s, request, cursor, j, c.position);
      }
    } else if s.views != [] {
      assert StartsAt(env, s, request, cursor, |s.views| - 1, 0);
    }
  }

  // ---------------------------------------------------------------- what a lookup answers

  /** A query or turn id of 1 to 512 bytes, and 1 to 8 results. */
  predicate HasGoodParameters(request: Request) {
    match request
    case Search(query, _, _, maxResults) => 1 <= |query| <= 512 && 1 <= maxResults <= 8
    case Turn(turnId, maxResults) => 1 <= |turnId| <= 512 && 1 <= maxResults <= 8
  }

  /** The page of a list from start on, and the cursor behind it. */
  ghost predicate IsPageFrom(env: Env, s: Snapshot, view: View, request: Request, all: seq<Excerpt>, start: nat,
                             page: Page) {
    && page.checkpointId == view.checkpointId && page.cutoff == view.cutoff && page.digest == view.digest
    && start <= |all|
    && (if start + request.maxResults >= |all| then page.results == all[start..] && page.next == None
        else
          && page.results == all[start..start + request.maxResults]
          && page.next == Some(NextTicket(env, s, view, request, start + request.maxResults)))
  }

  /** The cursor that is issued for a position of a view. */
  ghost function NextTicket(env: Env, s: Snapshot, view: View, request: Request, position: nat): bytes {
    if s.sessionId.None? then []
    else env.encode(Cursor(1, 1, 8, request.Search?, s.sessionId.value, view.checkpointId, view.digest,
                           env.requestDigest(request), position))
  }

  ghost predicate NamesTurn(records: seq<Record>, request: Request) {
    request.Turn? ==> exists i :: 0 <= i < |records| && records[i].turnId == request.turnId
  }

  /** What a lookup answers that starts at a position of a view. */
  ghost predicate IsAnswerFrom(env: Env, s: Snapshot, view: View, request: Request, start: nat,
                               answer: Result<Page, HistoryError>)
    requires view.recordEnd <= |s.records|
  {
    var records := s.records[..view.recordEnd];
    if !NamesTurn(records, request) then answer == Err(NotFound)
    else exists all :: IsListOf(records, request, all) && IsAnswerOf(env, s, view, request, all, start, answer)
  }

  ghost predicate IsAnswerOf(env: Env, s: Snapshot, view: View, request: Request, all: seq<Excerpt>, start: nat,
                             answer: Result<Page, HistoryError>) {
    if 0 < start && |all| <= start then answer == Err(CursorInvalid)
    else if start + request.maxResults < |all|
            && |NextTicket(env, s, view, request, start + request.maxResults)| > 2048 then answer == Err(SessionError)
    else answer.Ok? && IsPageFrom(env, s, view, request, all, start, answer.value)
  }

  lemma {:induction false} PageMeans(env: Env, s: Snapshot, view: View, request: Request, all: seq<Excerpt>, start: nat)
    requires s.sessionId.Some?
    ensures IsAnswerOf(env, s, view, request, all, start, ServePage(env, s, view, request, all, start))
  {
  }

  lemma {:induction false} AnswerFrom(env: Env, s: Snapshot, request: Request, cursor: Option<bytes>, view: View,
                                      start: nat)
    requires IsSnapshot(env, s) && IsRequest(request) && ResolveCursor(env, s, request, cursor) == Ok((view, start))
    ensures view.recordEnd <= |s.records|
    ensures IsAnswerFrom(env, s, view, request, start, Lookup(env, s, request, cursor))
  {
    hide IsTextRecord, ResolveCursor, IsRequest, ServePage, IsAnswerOf, Items, IsListOf;
    assert IsViewOf(env, s, view);
    var records := s.records[..view.recordEnd];
    var parts := ItemsMean(records, request);
    PageMeans(env, s, view, request, Items(records, request), start);
  }

  /**
   What a lookup answers: good parameters are checked first, then where it starts; from there on the answer is
   the page of the list of that view.
   */
  lemma {:induction false} LookupMeans(env: Env, s: Snapshot, request: Request, cursor: Option<bytes>)
    requires IsSnapshot(env, s)
    ensures var answer := Lookup(env, s, request, cursor);
            && (!HasGoodParameters(request) ==> answer == Err(ValidationError))
            && (HasGoodParameters(request) ==>
                  && (forall j: nat, start: nat :: StartsAt(env, s, request, cursor, j, start) ==>
                        && j < |s.views| && s.views[j].recordEnd <= |s.records|
                        && IsAnswerFrom(env, s, s.views[j], request, start, answer))
                  && ((forall j: nat, start: nat :: !StartsAt(env, s, request, cursor, j, start)) ==>
                        if cursor.None? then answer == Err(NotAvailable) else answer.Err?))
  {
    hide IsTextRecord, IsAnswerFrom, IsSnapshot, Items, ServePage;
    StartMeans(env, s, request, cursor);
    if HasGoodParameters(request) {
      forall j: nat, start: nat | StartsAt(env, s, request, cursor, j, start)
        ensures j < |s.views| && s.views[j].recordEnd <= |s.records|
        ensures IsAnswerFrom(env, s, s.views[j], request, start, Lookup(env, s, request, cursor))
      {
        AnswerFrom(env, s, request, cursor, s.views[j], start);
      }
    }
  }

  /** Which cursors are called invalid and which stale. */
  lemma {:induction false} CursorIsRefused(env: Env, s: Snapshot, request: Request, cursor: bytes)
    requires IsSnapshot(env, s) && HasGoodParameters(request)
    requires forall j: nat, start: nat :: !StartsAt(env, s, request, Some(cursor), j, start)
    ensures Lookup(env, s, request, Some(cursor)) == Err(
      if |cursor| == 0 || |cursor| > 2048 || env.decode(cursor).None? then CursorInvalid
      else if IsOfOtherRequest(env, s, request, env.decode(cursor).value) then CursorInvalid else CursorStale)
  {
    hide IsSnapshot, IsTextRecord, Items, ServePage, StartsAt;
    StartMeans(env, s, request, Some(cursor));
  }

  /** A cursor of this version, kind and session, for other parameters. */
  ghost predicate IsOfOtherRequest(env: Env, s: Snapshot, request: Request, c: Cursor) {
    && c.version == 1 && c.schema == 1 && c.extractor == 8 && c.isSearch == request.Search?
    && s.sessionId == Some(c.sessionId) && c.requestDigest != env.requestDigest(request)
  }

  /**
   The cursor behind a page serves no other request, whatever snapshot is asked: a lookup of the other kind or
   of another session calls it stale, and one with other parameters invalid.
   */
  lemma {:induction false} OtherRequestIsRefused(env: Env, s: Snapshot, request: Request, cursor: Option<bytes>,
                                                 page: Page, t: Snapshot, other: Request)
    requires IsLawful(env) && IsSnapshot(env, s) && IsSnapshot(env, t)
    requires Lookup(env, s, request, cursor) == Ok(page) && page.next.Some? && HasGoodParameters(other)
    requires request.Search? == other.Search? ==> env.requestDigest(request) != env.requestDigest(other)
    ensures Lookup(env, t, other, page.next) == Err(
      if page.next.value == [] then CursorInvalid
      else if request.Search? != other.Search? || s.sessionId != t.sessionId then CursorStale else CursorInvalid)
  {
    hide IsTextRecord, Items, HasTurn, FindView;
    assert IsRequest(other);
    var view, start := ResolveCursor(env, s, request, cursor).value.0, ResolveCursor(env, s, request, cursor).value.1;
    assert IsViewOf(env, s, view);
    hide IsSnapshot;
    var end := start + request.maxResults;
    assert page.next.value == env.encode(NextCursor(env, s.sessionId.value, view, request, end));
    assert env.decode(page.next.value) == Some(NextCursor(env, s.sessionId.value, view, request, end));
  }
}
