/**
 Cursor paging over history lookups: search and turn reading serve one page of a longer list,
 and a cursor names the checkpoint view and the position the next page starts at.
 */
module HistoryPaging {
  import opened ByteStrings
  import opened Utf8
  import opened HistoryText

  const MAX_CURSOR_BYTES: nat := 2048
  const MAX_RESULTS: nat := 8
  const SCHEMA_VERSION: nat := 1
  const EXTRACTOR_VERSION: nat := 8
  const CURSOR_VERSION: nat := 1

  datatype HistoryError = ValidationError | CursorInvalid | CursorStale | NotAvailable | NotFound | SessionError

  datatype View = View(checkpointId: bytes, cutoff: nat, recordEnd: nat, digest: bytes)

  datatype Snapshot = Snapshot(sessionId: Option<bytes>, records: seq<Record>, views: seq<View>)

  datatype Request =
    | Search(query: bytes, mode: Mode, caseSensitive: bool, maxResults: nat)
    | Turn(turnId: bytes, maxResults: nat)

  /** What a cursor's operation and request digest are taken from: the request without its cursor. */
  predicate IsSearch(request: Request) { request.Search? }

  datatype Cursor = Cursor(
    version: nat, schema: nat, extractor: nat, isSearch: bool,
    sessionId: bytes, checkpointId: bytes, snapshotDigest: bytes, requestDigest: bytes, position: nat)

  datatype SnapshotKey = SnapshotKey(sessionId: bytes, checkpointId: bytes, cutoff: nat, records: seq<Record>)

  /** The digests and the cursor encoding, as arbitrary functions. */
  datatype Env = Env(
    snapshotDigest: SnapshotKey -> bytes,
    requestDigest: Request -> bytes,
    encode: Cursor -> bytes,
    decode: bytes -> Option<Cursor>)

  /** Decoding inverts encoding, and distinct snapshots have distinct digests. */
  ghost predicate IsLawful(env: Env) {
    && (forall c :: env.decode(env.encode(c)) == Some(c))
    && (forall k, l :: env.snapshotDigest(k) == env.snapshotDigest(l) ==> k == l)
  }

  datatype Page = Page(checkpointId: bytes, cutoff: nat, digest: bytes, results: seq<Excerpt>, next: Option<bytes>)

  // ---------------------------------------------------------------- snapshots

  predicate IsTextRecord(record: Record) { record.text != [] && ValidUtf8(record.text) }

  ghost predicate IsViewOf(env: Env, s: Snapshot, view: View) {
    s.sessionId.Some? && view.recordEnd <= |s.records|
    && view.digest ==
         env.snapshotDigest(SnapshotKey(s.sessionId.value, view.checkpointId, view.cutoff, s.records[..view.recordEnd]))
  }

  /** What `build_from_views` establishes, and nothing later changes. */
  ghost predicate IsSnapshot(env: Env, s: Snapshot) {
    && (forall i :: 0 <= i < |s.records| ==> IsTextRecord(s.records[i]))
    && (forall i :: 0 <= i < |s.views| ==> IsViewOf(env, s, s.views[i]))
  }

  /** `partition_point`: how many leading records lie at or before the cutoff. */
  function RecordEnd(records: seq<Record>, cutoff: nat): (n: nat)
    ensures n <= |records|
    ensures forall i :: 0 <= i < n ==> records[i].seqNo <= cutoff
    ensures n < |records| ==> records[n].seqNo > cutoff
  {
    if records == [] || records[0].seqNo > cutoff then 0 else 1 + RecordEnd(records[1..], cutoff)
  }

  /** Digests one view per checkpoint; a chain over an empty journal is a session error. */
  function BuildFromViews(env: Env, sessionId: Option<bytes>, records: seq<Record>, checkpoints: seq<(bytes, nat)>)
    : (r: Result<Snapshot, HistoryError>)
    requires forall i :: 0 <= i < |records| ==> IsTextRecord(records[i])
    ensures r.Ok? ==> IsSnapshot(env, r.value) && |r.value.views| == |checkpoints|
    ensures r.Ok? ==> forall i :: 0 <= i < |checkpoints| ==>
              r.value.views[i].checkpointId == checkpoints[i].0 && r.value.views[i].cutoff == checkpoints[i].1
    ensures r.Ok? <==> checkpoints == [] || sessionId.Some?
  {
    if checkpoints == [] then Ok(Snapshot(sessionId, [], []))
    else if sessionId.None? then Err(SessionError)
    else
      var s := Snapshot(sessionId, records, seq(|checkpoints|, i requires 0 <= i < |checkpoints| =>
        MakeView(env, sessionId.value, records, checkpoints[i])));
      assert forall i :: 0 <= i < |checkpoints| ==>
               s.views[i] == MakeView(env, sessionId.value, records, checkpoints[i]);
      Ok(s)
  }

  function MakeView(env: Env, sessionId: bytes, records: seq<Record>, checkpoint: (bytes, nat)): (view: View)
    ensures forall views :: IsViewOf(env, Snapshot(Some(sessionId), records, views), view)
  {
    var end := RecordEnd(records, checkpoint.1);
    View(checkpoint.0, checkpoint.1, end,
         env.snapshotDigest(SnapshotKey(sessionId, checkpoint.0, checkpoint.1, records[..end])))
  }

  // ---------------------------------------------------------------- the list a request pages through

  function MatchExcerpt(record: Record, m: Range): Excerpt
    requires m.start <= m.end <= |record.text| && IsBoundary(record.text, m.end)
  {
    var w := Window(record.text, m);
    ExcerptOf(record, w.start, w.end).(matched := Some(m))
  }

  predicate AreRanges(text: bytes, ranges: seq<Range>) {
    forall i :: 0 <= i < |ranges| ==>
      ranges[i].start <= ranges[i].end <= |text| && IsBoundary(text, ranges[i].start) && IsBoundary(text, ranges[i].end)
  }

  lemma {:induction false} MatchesAreRanges(text: bytes, query: bytes, mode: Mode, caseSensitive: bool)
    requires query != []
    ensures AreRanges(text, Matches(text, query, mode, caseSensitive))
  {
    WholeTextBoundary(text);
    OccurrencesComplete(text, query, caseSensitive, 0);
    OccurrencesAreRanges(text, query, caseSensitive, Occurrences(text, query, caseSensitive, 0));
    hide Occurrences, Same, AreOccurrences, CoverOccurrences;
  }

  lemma {:induction false} OccurrencesAreRanges(text: bytes, query: bytes, caseSensitive: bool, found: seq<Range>)
    requires AreOccurrences(text, query, caseSensitive, 0, found)
    ensures AreRanges(text, found)
  {
    hide Same, IsBoundary;
    forall i | 0 <= i < |found|
      ensures found[i].start <= found[i].end <= |text|
              && IsBoundary(text, found[i].start) && IsBoundary(text, found[i].end)
    {
      assert IsOccurrence(text, query, caseSensitive, found[i].start);
    }
  }

  lemma {:induction false} ChunksAreRanges(text: bytes)
    requires ValidUtf8(text)
    ensures AreRanges(text, Chunks(text, MAX_EXCERPT_BYTES))
  {
    ChunksSpellText(text, MAX_EXCERPT_BYTES, 0);
  }

  function MatchExcerpts(record: Record, ranges: seq<Range>): (items: seq<Excerpt>)
    requires AreRanges(record.text, ranges)
    ensures |items| == |ranges|
  {
    seq(|ranges|, i requires 0 <= i < |ranges| => MatchExcerpt(record, ranges[i]))
  }

  lemma {:induction false} ExcerptAt(record: Record, ranges: seq<Range>, i: nat)
    requires AreRanges(record.text, ranges) && i < |ranges|
    ensures MatchExcerpts(record, ranges)[i] == MatchExcerpt(record, ranges[i])
  {
  }

  function ChunkExcerpts(record: Record, ranges: seq<Range>): (items: seq<Excerpt>)
    requires AreRanges(record.text, ranges)
    ensures |items| == |ranges|
  {
    seq(|ranges|, i requires 0 <= i < |ranges| => ExcerptOf(record, ranges[i].start, ranges[i].end))
  }

  predicate IsRequest(request: Request) {
    var key := if request.Search? then request.query else request.turnId;
    1 <= |key| <= MAX_QUERY_BYTES && 1 <= request.maxResults <= MAX_RESULTS
  }

  /** The excerpts one record contributes. */
  function RecordItems(record: Record, request: Request): seq<Excerpt>
    requires IsTextRecord(record) && IsRequest(request)
  {
    match request
    case Search(query, mode, caseSensitive, _) =>
      MatchesAreRanges(record.text, query, mode, caseSensitive);
      MatchExcerpts(record, Matches(record.text, query, mode, caseSensitive))
    case Turn(turnId, _) =>
      ChunksAreRanges(record.text);
      if record.turnId == turnId then ChunkExcerpts(record, Chunks(record.text, MAX_EXCERPT_BYTES)) else []
  }

  /** The whole list of a view, in record order. */
  function Items(records: seq<Record>, request: Request): seq<Excerpt>
    requires (forall i :: 0 <= i < |records| ==> IsTextRecord(records[i])) && IsRequest(request)
  {
    if records == [] then []
    else Items(records[..|records| - 1], request) + RecordItems(records[|records| - 1], request)
  }

  predicate HasTurn(records: seq<Record>, turnId: bytes) {
    exists i :: 0 <= i < |records| && records[i].turnId == turnId
  }

  // ---------------------------------------------------------------- one page

  /** The first view of a checkpoint. */
  function FindView(views: seq<View>, checkpointId: bytes): (r: Option<View>)
    ensures r.Some? ==> r.value in views && r.value.checkpointId == checkpointId
    ensures r.None? ==> forall v :: v in views ==> v.checkpointId != checkpointId
  {
    if views == [] then None
    else if views[0].checkpointId == checkpointId then Some(views[0])
    else FindView(views[1..], checkpointId)
  }

  /** The view and position a request starts at: the newest view, or the one its cursor names. */
  function ResolveCursor(env: Env, s: Snapshot, request: Request, cursor: Option<bytes>)
    : (r: Result<(View, nat), HistoryError>)
    ensures r.Ok? ==> r.value.0 in s.views
  {
    if cursor.None? then
      if s.views == [] then Err(NotAvailable) else Ok((s.views[|s.views| - 1], 0))
    else if cursor.value == [] || |cursor.value| > MAX_CURSOR_BYTES then Err(CursorInvalid)
    else
      var decoded := env.decode(cursor.value);
      if decoded.None? then Err(CursorInvalid)
      else
        var c := decoded.value;
        if c.version != CURSOR_VERSION || c.schema != SCHEMA_VERSION || c.extractor != EXTRACTOR_VERSION
           || c.isSearch != IsSearch(request)
        then Err(CursorStale)
        else if s.sessionId != Some(c.sessionId) then Err(CursorStale)
        else if c.requestDigest != env.requestDigest(request) then Err(CursorInvalid)
        else
          var view := FindView(s.views, c.checkpointId);
          if view.None? then Err(CursorStale)
          else if view.value.digest != c.snapshotDigest then Err(CursorStale)
          else Ok((view.value, c.position))
  }

  function NextCursor(env: Env, sessionId: bytes, view: View, request: Request, position: nat): Cursor {
    Cursor(CURSOR_VERSION, SCHEMA_VERSION, EXTRACTOR_VERSION, IsSearch(request), sessionId,
           view.checkpointId, view.digest, env.requestDigest(request), position)
  }

  function EncodeCursor(env: Env, s: Snapshot, view: View, request: Request, position: nat)
    : Result<bytes, HistoryError> {
    if s.sessionId.None? then Err(NotAvailable)
    else
      var encoded := env.encode(NextCursor(env, s.sessionId.value, view, request, position));
      if |encoded| > MAX_CURSOR_BYTES then Err(SessionError) else Ok(encoded)
  }

  /** The page of a list from `start` on: a slice, and a cursor when the list goes on after it. */
  function ServePage(env: Env, s: Snapshot, view: View, request: Request, all: seq<Excerpt>, start: nat)
    : Result<Page, HistoryError> {
    if start > 0 && start >= |all| then Err(CursorInvalid)
    else
      var end := Min(start + request.maxResults, |all|);
      var page := Page(view.checkpointId, view.cutoff, view.digest, all[start..end], None);
      if end == |all| then Ok(page)
      else
        match EncodeCursor(env, s, view, request, end)
        case Err(error) => Err(error)
        case Ok(encoded) => Ok(page.(next := Some(encoded)))
  }

  /** What a lookup answers. */
  function Lookup(env: Env, s: Snapshot, request: Request, cursor: Option<bytes>): Result<Page, HistoryError>
    requires IsSnapshot(env, s)
  {
    if !IsRequest(request) then Err(ValidationError)
    else
      match ResolveCursor(env, s, request, cursor)
      case Err(error) => Err(error)
      case Ok((view, start)) =>
        assert IsViewOf(env, s, view);
        var records := s.records[..view.recordEnd];
        if request.Turn? && !HasTurn(records, request.turnId) then Err(NotFound)
        else ServePage(env, s, view, request, Items(records, request), start)
  }

  // ---------------------------------------------------------------- collecting a page from a stream of items

  /** The counters of a lookup after it was offered these items, from position 0 of the list. */
  datatype Collected = Collected(position: nat, results: seq<Excerpt>, hasMore: bool)

  function After(start: nat, max: nat, offered: seq<Excerpt>): Collected {
    var n := |offered|;
    Collected(Min(n, start + max), offered[Min(start, n)..Min(start + max, n)], n > start + max)
  }

  /** An item before the page, in it, or the first one behind it. */
  lemma {:induction false} AfterOne(start: nat, max: nat, offered: seq<Excerpt>, item: Excerpt)
    requires |offered| <= start + max
    ensures var before, after := After(start, max, offered), After(start, max, offered + [item]);
            && |before.results| <= max
            && (before.position < start ==> after == before.(position := before.position + 1))
            && (before.position >= start && |before.results| < max ==>
                  after == before.(position := before.position + 1, results := before.results + [item]))
            && (before.position >= start && |before.results| == max ==> after == before.(hasMore := true))
  {
    var n := |offered|;
    if n < start {
    } else if n < start + max {
      assert (offered + [item])[start..n + 1] == offered[start..n] + [item];
    } else {
      assert (offered + [item])[start..start + max] == offered[start..start + max];
    }
  }

  /** Once the list is known to go on, its first items decide the page. */
  lemma {:induction false} AfterPrefix(start: nat, max: nat, offered: seq<Excerpt>, all: seq<Excerpt>)
    requires offered <= all
    requires After(start, max, offered).hasMore || offered == all
    ensures After(start, max, offered) == After(start, max, all)
  {
    if |offered| > start + max {
      assert offered[start..start + max] == all[start..start + max];
    }
  }

  /** The closure a search passes to `find_matches`, with the variables it captures. */
  class SearchVisitor {
    const startPosition: nat
    const maxResults: nat
    var position: nat
    var results: seq<Excerpt>
    var hasMore: bool
    ghost var offered: seq<Excerpt>

    constructor (startPosition: nat, maxResults: nat)
      ensures this.startPosition == startPosition && this.maxResults == maxResults
      ensures Valid() && offered == [] && !hasMore
    {
      this.startPosition, this.maxResults := startPosition, maxResults;
      position, results, hasMore, offered := 0, [], false, [];
    }

    ghost predicate Valid()
      reads this
    {
      Collected(position, results, hasMore) == After(startPosition, maxResults, offered)
      && |offered| <= startPosition + maxResults + 1
    }

    /** One match; false asks for no more. */
    method Visit(record: Record, start: nat, end: nat) returns (more: bool)
      requires Valid() && !hasMore
      requires start <= end <= |record.text| && IsBoundary(record.text, end)
      modifies this
      ensures Valid() && offered == old(offered) + [MatchExcerpt(record, Range(start, end))]
      ensures more == !hasMore
    {
      hide Window;
      ghost var item := MatchExcerpt(record, Range(start, end));
      AfterOne(startPosition, maxResults, offered, item);
      offered := offered + [item];
      if position < startPosition {
        position := position + 1;
        return true;
      }
      if |results| == maxResults {
        hasMore := true;
        return false;
      }
      var excerpt := ExcerptForMatch(record, start, end);
      results := results + [excerpt];
      position := position + 1;
      return true;
    }
  }

  method FindExact(record: Record, query: bytes, caseSensitive: bool, visitor: SearchVisitor)
    returns (ghost visited: nat)
    requires query != [] && IsTextRecord(record) && visitor.Valid() && !visitor.hasMore
    modifies visitor
    ensures visitor.Valid()
    ensures AreRanges(record.text, Matches(record.text, query, Exact, caseSensitive))
    ensures var items := MatchExcerpts(record, Matches(record.text, query, Exact, caseSensitive));
            visited == |items| && visitor.offered == old(visitor.offered) + items
  {
    hide MatchExcerpt, After, IsBoundary;
    MatchesAreRanges(record.text, query, Exact, caseSensitive);
    WholeTextBoundary(record.text);
    ghost var items := MatchExcerpts(record, Matches(record.text, query, Exact, caseSensitive));
    visited := 0;
    if Same(record.text, query, caseSensitive) {
      assert items == [MatchExcerpt(record, Range(0, |record.text|))];
      var more := visitor.Visit(record, 0, |record.text|);
      visited := 1;
    }
  }

  /**
   Visits the matches of a record in order until the visitor asks to stop: all of them, or the
   first k of them with the visitor knowing that the list goes on.
   */
  method FindMatches(record: Record, query: bytes, mode: Mode, caseSensitive: bool, visitor: SearchVisitor)
    returns (ghost visited: nat)
    requires query != [] && IsTextRecord(record) && visitor.Valid() && !visitor.hasMore
    modifies visitor
    ensures visitor.Valid()
    ensures AreRanges(record.text, Matches(record.text, query, mode, caseSensitive))
    ensures var items := MatchExcerpts(record, Matches(record.text, query, mode, caseSensitive));
            visited <= |items| && visitor.offered == old(visitor.offered) + items[..visited]
            && (!visitor.hasMore ==> visited == |items|)
  {
    hide MatchExcerpt, IsOccurrence, After, Same, IsBoundary, ScalarLength, ValidUtf8, MatchExcerpts;
    var text := record.text;
    MatchesAreRanges(text, query, mode, caseSensitive);
    ghost var found := Matches(text, query, mode, caseSensitive);
    ghost var items := MatchExcerpts(record, found);
    visited := 0;
    if mode.Exact? {
      visited := FindExact(record, query, caseSensitive, visitor);
      return;
    }
    var start: nat := 0;
    while start + |query| <= |text|
      invariant visitor.Valid() && !visitor.hasMore && visited <= |found|
      invariant Occurrences(text, query, caseSensitive, start) == found[visited..]
      invariant visitor.offered == old(visitor.offered) + items[..visited]
      decreases |text| - start
    {
      if !IsBoundary(text, start) {
        NotAtBoundary(text, query, caseSensitive, start, start + 1);
        start := start + 1;
        continue;
      }
      var end := start + |query|;
      if IsBoundary(text, end) && Same(text[start..end], query, caseSensitive) {
        assert IsOccurrence(text, query, caseSensitive, start) by { OccurrenceHere(text, query, caseSensitive, start); }
        TakeFirst(found, visited, Range(start, end), Occurrences(text, query, caseSensitive, end));
        ExcerptAt(record, found, visited);
        assert items[..visited + 1] == items[..visited] + [items[visited]];
        var more := visitor.Visit(record, start, end);
        visited := visited + 1;
        if !more { return; }
        start := end;
        continue;
      }
      NextBoundary(text, start);
      assert !IsOccurrence(text, query, caseSensitive, start) by { OccurrenceHere(text, query, caseSensitive, start); }
      var step := ScalarLength(text[start..]);
      NotAtBoundary(text, query, caseSensitive, start, start + step);
      start := start + step;
    }
    assert found[visited..] == [];
  }

  lemma {:induction false} TakeFirst<T>(all: seq<T>, n: nat, first: T, rest: seq<T>)
    requires n <= |all| && all[n..] == [first] + rest
    ensures n < |all| && all[n] == first && all[n + 1..] == rest
  {
    assert all[n + 1..] == all[n..][1..];
  }

  lemma {:induction false} OccurrenceHere(text: bytes, query: bytes, caseSensitive: bool, start: nat)
    requires start + |query| <= |text| && IsBoundary(text, start)
    ensures IsOccurrence(text, query, caseSensitive, start)
       <==> IsBoundary(text, start + |query|) && Same(text[start..start + |query|], query, caseSensitive)
  {
  }

  /** Nothing is found before the next boundary. */
  lemma {:induction false} NotAtBoundary(text: bytes, query: bytes, caseSensitive: bool, start: nat, next: nat)
    requires query != [] && start < next
    requires !IsBoundary(text, start) || !IsOccurrence(text, query, caseSensitive, start)
    requires forall p :: start < p < next ==> !IsBoundary(text, p)
    ensures Occurrences(text, query, caseSensitive, start) == Occurrences(text, query, caseSensitive, next)
  {
    SkipNonBoundaries(text, query, caseSensitive, start, next);
  }

  // ---------------------------------------------------------------- the two lookups

  lemma {:induction false} ItemsPrefix(records: seq<Record>, request: Request, n: nat)
    requires (forall i :: 0 <= i < |records| ==> IsTextRecord(records[i])) && IsRequest(request) && n <= |records|
    ensures Items(records[..n], request) <= Items(records, request)
    decreases |records|
  {
    hide IsTextRecord, RecordItems;
    if n == |records| {
      assert records[..n] == records;
    } else {
      ItemsPrefix(records[..|records| - 1], request, n);
      assert records[..|records| - 1][..n] == records[..n];
    }
  }

  lemma {:induction false} ItemsSnoc(records: seq<Record>, request: Request, n: nat)
    requires (forall i :: 0 <= i < |records| ==> IsTextRecord(records[i])) && IsRequest(request) && n < |records|
    ensures Items(records[..n + 1], request) == Items(records[..n], request) + RecordItems(records[n], request)
  {
    hide IsTextRecord, RecordItems;
    assert records[..n + 1][..n] == records[..n];
  }

  /** The end of both lookups: an empty page past the end is an invalid cursor, a full one may go on. */
  method ServeCollected(env: Env, s: Snapshot, view: View, request: Request, start: nat,
                        position: nat, results: seq<Excerpt>, hasMore: bool, ghost all: seq<Excerpt>)
    returns (r: Result<Page, HistoryError>)
    requires IsRequest(request)
    requires Collected(position, results, hasMore) == After(start, request.maxResults, all)
    ensures r == ServePage(env, s, view, request, all, start)
  {
    if start > 0 && (position < start || (results == [] && !hasMore)) { return Err(CursorInvalid); }
    var page := Page(view.checkpointId, view.cutoff, view.digest, results, None);
    if !hasMore { return Ok(page); }
    var encoded := EncodeCursor(env, s, view, request, start + |results|);
    if encoded.Err? { return Err(encoded.error); }
    return Ok(page.(next := Some(encoded.value)));
  }

  /** What one record adds to the matches offered so far. */
  lemma {:induction false} OfferedGrows(records: seq<Record>, request: Request, i: nat, visited: nat,
                                        offered: seq<Excerpt>)
    requires (forall i :: 0 <= i < |records| ==> IsTextRecord(records[i])) && IsRequest(request) && i < |records|
    requires visited <= |RecordItems(records[i], request)|
    requires offered == Items(records[..i], request) + RecordItems(records[i], request)[..visited]
    ensures offered <= Items(records, request)
    ensures visited == |RecordItems(records[i], request)| ==> offered == Items(records[..i + 1], request)
  {
    hide IsTextRecord, RecordItems, Items;
    ItemsSnoc(records, request, i);
    ItemsPrefix(records, request, i + 1);
    var items := RecordItems(records[i], request);
    assert items[..|items|] == items;
  }

  /** The visitor over all records of a view, up to the first match behind the page. */
  method VisitRecords(records: seq<Record>, request: Request, start: nat) returns (visitor: SearchVisitor)
    requires (forall i :: 0 <= i < |records| ==> IsTextRecord(records[i])) && IsRequest(request) && request.Search?
    ensures visitor.Valid() && visitor.startPosition == start && visitor.maxResults == request.maxResults
    ensures visitor.offered <= Items(records, request)
    ensures !visitor.hasMore ==> visitor.offered == Items(records, request)
  {
    hide IsTextRecord, Matches, MatchExcerpts, After, Items;
    visitor := new SearchVisitor(start, request.maxResults);
    NoRecordsNoItems(records, request);
    var i := 0;
    while i < |records| && !visitor.hasMore
      invariant i <= |records| && visitor.Valid() && fresh(visitor)
      invariant visitor.startPosition == start && visitor.maxResults == request.maxResults
      invariant visitor.offered <= Items(records, request)
      invariant !visitor.hasMore ==> visitor.offered == Items(records[..i], request)
    {
      ghost var visited := FindMatches(records[i], request.query, request.mode, request.caseSensitive, visitor);
      OfferedGrows(records, request, i, visited, visitor.offered);
      i := i + 1;
    }
    assert !visitor.hasMore ==> records[..i] == records;
  }

  lemma {:induction false} NoRecordsNoItems(records: seq<Record>, request: Request)
    requires (forall i :: 0 <= i < |records| ==> IsTextRecord(records[i])) && IsRequest(request)
    ensures Items(records[..0], request) == []
  {
  }

  /** `HistorySnapshot::search` */
  method SearchHistory(env: Env, s: Snapshot, request: Request, cursor: Option<bytes>)
    returns (r: Result<Page, HistoryError>)
    requires IsSnapshot(env, s) && request.Search?
    ensures r == Lookup(env, s, request, cursor)
  {
    hide IsTextRecord, ServePage, After, Items;
    if !IsRequest(request) { return Err(ValidationError); }
    var resolved := ResolveCursor(env, s, request, cursor);
    if resolved.Err? { return Err(resolved.error); }
    var view, start := resolved.value.0, resolved.value.1;
    assert IsViewOf(env, s, view);
    hide ResolveCursor;
    var records := s.records[..view.recordEnd];
    var visitor := VisitRecords(records, request, start);
    ghost var all := Items(records, request);
    MoreMeansMore(start, request.maxResults, visitor.offered, visitor.hasMore, visitor.position, visitor.results);
    AfterPrefix(start, request.maxResults, visitor.offered, all);
    r := ServeCollected(env, s, view, request, start, visitor.position, visitor.results, visitor.hasMore, all);
  }

  lemma {:induction false} MoreMeansMore(start: nat, max: nat, offered: seq<Excerpt>, hasMore: bool, position: nat,
                                         results: seq<Excerpt>)
    requires Collected(position, results, hasMore) == After(start, max, offered)
    ensures hasMore == After(start, max, offered).hasMore
  {
  }

  /** The chunks of one record of the turn, up to the first one behind the page. */
  method TakeChunks(record: Record, request: Request, start: nat,
                    position0: nat, results0: seq<Excerpt>, ghost offered0: seq<Excerpt>)
    returns (position: nat, results: seq<Excerpt>, hasMore: bool, ghost offered: seq<Excerpt>)
    requires IsTextRecord(record) && IsRequest(request) && request.Turn? && record.turnId == request.turnId
    requires Collected(position0, results0, false) == After(start, request.maxResults, offered0)
    ensures Collected(position, results, hasMore) == After(start, request.maxResults, offered)
    ensures offered0 <= offered <= offered0 + RecordItems(record, request)
    ensures !hasMore ==> offered == offered0 + RecordItems(record, request)
  {
    hide Chunks;
    ChunksAreRanges(record.text);
    var chunks := Utf8Chunks(record.text, MAX_EXCERPT_BYTES);
    ghost var items := RecordItems(record, request);
    position, results, hasMore, offered := position0, results0, false, offered0;
    for k := 0 to |chunks|
      invariant !hasMore && Collected(position, results, hasMore) == After(start, request.maxResults, offered)
      invariant offered == offered0 + items[..k]
    {
      var item := ExcerptOf(record, chunks[k].start, chunks[k].end);
      assert items[..k + 1] == items[..k] + [item];
      AfterOne(start, request.maxResults, offered, item);
      offered := offered + [item];
      if position < start {
        position := position + 1;
      } else if |results| == request.maxResults {
        hasMore := true;
        return;
      } else {
        results := results + [item];
        position := position + 1;
      }
    }
    assert items[..|items|] == items;
  }

  lemma {:induction false} AfterNone(start: nat, max: nat)
    ensures Collected(0, [], false) == After(start, max, [])
  {
  }

  lemma {:induction false} HasTurnSnoc(records: seq<Record>, turnId: bytes, n: nat)
    requires n < |records|
    ensures HasTurn(records[..n + 1], turnId) == (HasTurn(records[..n], turnId) || records[n].turnId == turnId)
  {
    var shorter, longer := records[..n], records[..n + 1];
    assert longer == shorter + [records[n]];
    assert records[n].turnId == turnId ==> longer[n].turnId == turnId;
    assert forall i :: 0 <= i < n ==> longer[i] == shorter[i];
  }

  /** The page of a turn's chunks, over the records of that turn. */
  method CollectTurn(records: seq<Record>, request: Request, start: nat)
    returns (position: nat, results: seq<Excerpt>, hasMore: bool, foundTurn: bool)
    requires (forall i :: 0 <= i < |records| ==> IsTextRecord(records[i])) && IsRequest(request) && request.Turn?
    ensures Collected(position, results, hasMore) == After(start, request.maxResults, Items(records, request))
    ensures foundTurn == HasTurn(records, request.turnId)
  {
    hide IsTextRecord, Chunks, After, HasTurn, IsRequest;
    ghost var all := Items(records, request);
    position, results, hasMore, foundTurn := 0, [], false, false;
    ghost var offered: seq<Excerpt> := [];
    AfterNone(start, request.maxResults);
    NoTurnInNone(request.turnId);
    assert records[..0] == [];
    var i := 0;
    while i < |records| && !hasMore
      invariant i <= |records|
      invariant Collected(position, results, hasMore) == After(start, request.maxResults, offered)
      invariant offered <= all
      invariant !hasMore ==> offered == Items(records[..i], request)
      invariant foundTurn == HasTurn(records[..i], request.turnId)
      invariant hasMore ==> foundTurn
    {
      ItemsSnoc(records, request, i);
      ItemsPrefix(records, request, i + 1);
      HasTurnSnoc(records, request.turnId, i);
      if records[i].turnId == request.turnId {
        foundTurn := true;
        position, results, hasMore, offered := TakeChunks(records[i], request, start, position, results, offered);
      }
      i := i + 1;
    }
    assert i == |records| ==> records[..i] == records;
    HasTurnPrefix(records, request.turnId, i);
    MoreMeansMore(start, request.maxResults, offered, hasMore, position, results);
    AfterPrefix(start, request.maxResults, offered, all);
  }

  lemma {:induction false} NoTurnInNone(turnId: bytes)
    ensures !HasTurn([], turnId)
  {
  }

  lemma {:induction false} HasTurnPrefix(records: seq<Record>, turnId: bytes, n: nat)
    requires n <= |records|
    ensures HasTurn(records[..n], turnId) ==> HasTurn(records, turnId)
  {
    if HasTurn(records[..n], turnId) {
      var i :| 0 <= i < n && records[..n][i].turnId == turnId;
      assert records[i].turnId == turnId;
    }
  }

  /** `HistorySnapshot::turn` */
  method ReadTurn(env: Env, s: Snapshot, request: Request, cursor: Option<bytes>)
    returns (r: Result<Page, HistoryError>)
    requires IsSnapshot(env, s) && request.Turn?
    ensures r == Lookup(env, s, request, cursor)
  {
    hide IsTextRecord, ServePage, After, HasTurn;
    if !IsRequest(request) { return Err(ValidationError); }
    var resolved := ResolveCursor(env, s, request, cursor);
    if resolved.Err? { return Err(resolved.error); }
    var view, start := resolved.value.0, resolved.value.1;
    assert IsViewOf(env, s, view);
    var records := s.records[..view.recordEnd];
    var position, results, hasMore, foundTurn := CollectTurn(records, request, start);
    if !foundTurn { return Err(NotFound); }
    r := ServeCollected(env, s, view, request, start, position, results, hasMore, Items(records, request));
  }
}
