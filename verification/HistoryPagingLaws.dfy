/**
 What paging promises over several lookups: following cursors yields the whole list of the first
 page's view, once each and in order, even while new checkpoints are added in between; and the
 pages of a turn spell the turn's text again.
 */
module HistoryPagingLaws {
  import opened ByteStrings
  import opened Utf8
  import opened HistoryText
  import opened HistoryPaging

  function JoinResults(pages: seq<Page>): seq<Excerpt> {
    if pages == [] then [] else pages[0].results + JoinResults(pages[1..])
  }

  /** A first page, and then pages each asked for with the cursor of the one before. */
  ghost predicate FollowCursors(env: Env, snapshots: seq<Snapshot>, request: Request, pages: seq<Page>) {
    && |snapshots| == |pages|
    && (forall i :: 0 <= i < |snapshots| ==> IsSnapshot(env, snapshots[i]))
    && (forall i :: 0 <= i < |pages| - 1 ==>
          pages[i].next.Some? && Lookup(env, snapshots[i + 1], request, pages[i].next) == Ok(pages[i + 1]))
  }

  /** What the cursor of a view of some records at some position is. */
  ghost predicate IsCursorOf(env: Env, cursor: bytes, sessionId: bytes, view: View, records: seq<Record>,
                             request: Request, position: nat) {
    && cursor == env.encode(NextCursor(env, sessionId, view, request, position))
    && view.recordEnd == |records|
    && view.digest == env.snapshotDigest(SnapshotKey(sessionId, view.checkpointId, view.cutoff, records))
  }

  /**
   Whatever snapshot accepts a cursor, it answers from the very records the cursor was issued
   for: no later checkpoint can shift a page.
   */
  lemma {:induction false} AcceptedCursorKeepsView(env: Env, s: Snapshot, cursor: bytes, sessionId: bytes, view: View,
                                records: seq<Record>, request: Request, position: nat)
    requires IsLawful(env) && IsSnapshot(env, s) && IsCursorOf(env, cursor, sessionId, view, records, request, position)
    requires ResolveCursor(env, s, request, Some(cursor)).Ok?
    ensures ResolveCursor(env, s, request, Some(cursor)) == Ok((view, position))
    ensures s.sessionId == Some(sessionId) && view.recordEnd <= |s.records| && s.records[..view.recordEnd] == records
  {
    hide IsTextRecord;
    var found := ResolveCursor(env, s, request, Some(cursor)).value.0;
    assert env.decode(cursor) == Some(NextCursor(env, sessionId, view, request, position));
    assert IsViewOf(env, s, found);
    var k := SnapshotKey(sessionId, found.checkpointId, found.cutoff, s.records[..found.recordEnd]);
    var l := SnapshotKey(sessionId, view.checkpointId, view.cutoff, records);
    assert env.snapshotDigest(k) == env.snapshotDigest(l);
    assert k == l;
  }

  /**
   A snapshot of the same session that still has the view under its checkpoint's first entry
   accepts the cursor, unless the encoding is outside the cursor size limit.
   */
  lemma {:induction false} IssuedCursorIsAccepted(env: Env, s: Snapshot, cursor: bytes, sessionId: bytes, view: View,
                               records: seq<Record>, request: Request, position: nat)
    requires IsLawful(env) && IsSnapshot(env, s) && IsCursorOf(env, cursor, sessionId, view, records, request, position)
    requires s.sessionId == Some(sessionId) && FindView(s.views, view.checkpointId) == Some(view)
    ensures ResolveCursor(env, s, request, Some(cursor)) ==
            if 1 <= |cursor| <= MAX_CURSOR_BYTES then Ok((view, position)) else Err(CursorInvalid)
  {
    hide IsSnapshot;
    assert env.decode(cursor) == Some(NextCursor(env, sessionId, view, request, position));
  }

  /** With unique checkpoint ids every view of a snapshot is found under its own id. */
  lemma {:induction false} UniqueIdsFindView(views: seq<View>, i: nat)
    requires i < |views|
    requires forall j, k :: 0 <= j < k < |views| ==> views[j].checkpointId != views[k].checkpointId
    ensures FindView(views, views[i].checkpointId) == Some(views[i])
    decreases |views|
  {
    if i > 0 {
      assert views[1..][i - 1] == views[i];
      UniqueIdsFindView(views[1..], i - 1);
    }
  }

  /** A page of a list: which slice it is, and the cursor that goes on behind it. */
  ghost predicate IsPageAt(env: Env, page: Page, sessionId: bytes, view: View, records: seq<Record>, request: Request,
                           all: seq<Excerpt>, start: nat)
  {
    && start <= |all|
    && var end := Min(start + request.maxResults, |all|);
       && page.results == all[start..end]
       && (page.next.None? <==> end == |all|)
       && (page.next.Some? ==> IsCursorOf(env, page.next.value, sessionId, view, records, request, end))
  }

  lemma {:induction false} LookupIsPage(env: Env, s: Snapshot, cursor: Option<bytes>, sessionId: bytes, view: View,
                     records: seq<Record>, request: Request, start: nat, page: Page)
    requires IsSnapshot(env, s) && s.sessionId == Some(sessionId) && IsRequest(request)
    requires ResolveCursor(env, s, request, cursor) == Ok((view, start))
    requires view.recordEnd <= |s.records| && s.records[..view.recordEnd] == records
    requires Lookup(env, s, request, cursor) == Ok(page)
    ensures IsPageAt(env, page, sessionId, view, records, request, Items(records, request), start)
  {
    hide IsTextRecord, Items, IsRequest;
    assert IsViewOf(env, s, view);
  }

  /**
   From a page on, the results of the pages that follow are the rest of the list, and there are at most as
   many as items.
   */
  lemma {:induction false} PagesFrom(env: Env, snapshots: seq<Snapshot>, request: Request, pages: seq<Page>,
                                     sessionId: bytes, view: View, records: seq<Record>, start: nat)
    requires IsLawful(env) && IsRequest(request) && pages != [] && FollowCursors(env, snapshots, request, pages)
    requires forall i :: 0 <= i < |records| ==> IsTextRecord(records[i])
    requires IsPageAt(env, pages[0], sessionId, view, records, request, Items(records, request), start)
    ensures pages[|pages| - 1].next == None ==> JoinResults(pages) == Items(records, request)[start..]
    ensures start + |pages| - 1 <= |Items(records, request)|
    ensures forall i :: 0 <= i < |pages| - 1 ==> |pages[i].results| == request.maxResults
    decreases |pages|
  {
    hide IsTextRecord, Items, Lookup, IsSnapshot;
    var all := Items(records, request);
    var end := Min(start + request.maxResults, |all|);
    if |pages| > 1 {
      var rest, cursor := pages[1..], pages[0].next.value;
      assert Lookup(env, snapshots[0 + 1], request, pages[0].next) == Ok(pages[0 + 1]);
      FollowOnePage(env, snapshots[1], cursor, sessionId, view, records, request, end, pages[1]);
      assert FollowCursors(env, snapshots[1..], request, rest) by { FollowTail(env, snapshots, request, pages); }
      PagesFrom(env, snapshots[1..], request, rest, sessionId, view, records, end);
      assert all[start..end] + all[end..] == all[start..];
      assert forall i :: 0 < i < |pages| - 1 ==> pages[i] == rest[i - 1];
    } else {
      assert pages[1..] == [];
      assert JoinResults(pages[1..]) == [];
      assert pages[0].next == None ==> all[start..end] == all[start..];
    }
  }

  lemma {:induction false} FollowTail(env: Env, snapshots: seq<Snapshot>, request: Request, pages: seq<Page>)
    requires FollowCursors(env, snapshots, request, pages) && pages != []
    ensures FollowCursors(env, snapshots[1..], request, pages[1..])
  {
    hide IsSnapshot, Lookup;
    forall i | 0 <= i < |pages| - 2
      ensures pages[1..][i].next.Some?
              && Lookup(env, snapshots[1..][i + 1], request, pages[1..][i].next) == Ok(pages[1..][i + 1])
    {
      assert Lookup(env, snapshots[i + 1 + 1], request, pages[i + 1].next) == Ok(pages[i + 1 + 1]);
    }
  }

  lemma {:induction false} FollowOnePage(env: Env, s: Snapshot, cursor: bytes, sessionId: bytes, view: View,
                      records: seq<Record>, request: Request, position: nat, page: Page)
    requires IsLawful(env) && IsSnapshot(env, s) && IsRequest(request)
    requires forall i :: 0 <= i < |records| ==> IsTextRecord(records[i])
    requires IsCursorOf(env, cursor, sessionId, view, records, request, position)
    requires Lookup(env, s, request, Some(cursor)) == Ok(page)
    ensures IsPageAt(env, page, sessionId, view, records, request, Items(records, request), position)
  {
    hide ResolveCursor, ServePage, IsSnapshot, Items, IsCursorOf, IsPageAt, IsTextRecord;
    assert ResolveCursor(env, s, request, Some(cursor)).Ok?;
    AcceptedCursorKeepsView(env, s, cursor, sessionId, view, records, request, position);
    LookupIsPage(env, s, Some(cursor), sessionId, view, records, request, position, page);
  }

  /** Following cursors terminates: no chain of pages, ended or not, is longer than the list by more than one. */
  lemma {:induction false} PagingTerminates(env: Env, snapshots: seq<Snapshot>, request: Request, pages: seq<Page>)
    requires IsLawful(env) && pages != [] && FollowCursors(env, snapshots, request, pages)
    requires Lookup(env, snapshots[0], request, None) == Ok(pages[0])
    ensures snapshots[0].views != [] && IsRequest(request)
    ensures var view := snapshots[0].views[|snapshots[0].views| - 1];
            && view.recordEnd <= |snapshots[0].records|
            && (forall i :: 0 <= i < view.recordEnd ==> IsTextRecord(snapshots[0].records[i]))
            && |pages| <= |Items(snapshots[0].records[..view.recordEnd], request)| + 1
  {
    hide IsTextRecord, Items, ServePage, IsRequest;
    var s := snapshots[0];
    assert IsSnapshot(env, s);
    var view := s.views[|s.views| - 1];
    assert IsViewOf(env, s, view);
    var records := s.records[..view.recordEnd];
    LookupIsPage(env, s, None, s.sessionId.value, view, records, request, 0, pages[0]);
    PagesFrom(env, snapshots, request, pages, s.sessionId.value, view, records, 0);
  }

  /**
   Lossless paging. Take a first page and follow its cursors to the end, each page from any
   snapshot that accepts the cursor. The concatenated results are exactly the list of the first
   page's view, and every page but the last is full.
   */
  lemma {:induction false} PagingIsLossless(env: Env, snapshots: seq<Snapshot>, request: Request, pages: seq<Page>)
    requires IsLawful(env) && pages != [] && FollowCursors(env, snapshots, request, pages)
    requires Lookup(env, snapshots[0], request, None) == Ok(pages[0])
    requires pages[|pages| - 1].next == None
    ensures snapshots[0].views != [] && IsRequest(request)
    ensures var view := snapshots[0].views[|snapshots[0].views| - 1];
            && view.recordEnd <= |snapshots[0].records|
            && (forall i :: 0 <= i < view.recordEnd ==> IsTextRecord(snapshots[0].records[i]))
            && JoinResults(pages) == Items(snapshots[0].records[..view.recordEnd], request)
    ensures forall i :: 0 <= i < |pages| - 1 ==> |pages[i].results| == request.maxResults
  {
    hide IsTextRecord, Items, ServePage, IsRequest;
    var s := snapshots[0];
    assert IsSnapshot(env, s);
    var view := s.views[|s.views| - 1];
    assert IsViewOf(env, s, view);
    var records := s.records[..view.recordEnd];
    LookupIsPage(env, s, None, s.sessionId.value, view, records, request, 0, pages[0]);
    PagesFrom(env, snapshots, request, pages, s.sessionId.value, view, records, 0);
  }

  // ---------------------------------------------------------------- following cursors never fails

  /** The cursors of a view fit the size limit, for the positions of its list. */
  ghost predicate CursorsFit(env: Env, sessionId: bytes, view: View, request: Request, upTo: nat) {
    forall position: nat :: position <= upTo ==>
        1 <= |env.encode(NextCursor(env, sessionId, view, request, position))| <= MAX_CURSOR_BYTES
  }

  /** A snapshot of the session that has the view, and finds it under its id. */
  ghost predicate Keeps(env: Env, s: Snapshot, sessionId: bytes, view: View) {
    IsSnapshot(env, s) && s.sessionId == Some(sessionId) && FindView(s.views, view.checkpointId) == Some(view)
  }

  /** A page's cursor is served by every snapshot that keeps the view: the lookup answers with the page behind it. */
  lemma {:induction false} NextPageIsServed(env: Env, s: Snapshot, page: Page, sessionId: bytes, view: View,
                                            records: seq<Record>, request: Request, start: nat)
    requires IsLawful(env) && IsRequest(request) && Keeps(env, s, sessionId, view)
    requires forall i :: 0 <= i < |records| ==> IsTextRecord(records[i])
    requires CursorsFit(env, sessionId, view, request, |Items(records, request)|)
    requires request.Turn? ==> HasTurn(records, request.turnId)
    requires IsPageAt(env, page, sessionId, view, records, request, Items(records, request), start) && page.next.Some?
    ensures Lookup(env, s, request, page.next).Ok?
    ensures IsPageAt(env, Lookup(env, s, request, page.next).value, sessionId, view, records, request,
                     Items(records, request), start + request.maxResults)
  {
    hide IsTextRecord, Items, HasTurn, IsRequest, IsSnapshot;
    var all, end := Items(records, request), start + request.maxResults;
    assert page.next.value == env.encode(NextCursor(env, sessionId, view, request, end));
    IssuedCursorIsAccepted(env, s, page.next.value, sessionId, view, records, request, end);
    AcceptedCursorKeepsView(env, s, page.next.value, sessionId, view, records, request, end);
    assert end < |all|;
    hide ResolveCursor;
    assert ServePage(env, s, view, request, all, end).Ok?;
    LookupServes(env, s, request, page.next.value, view, records, end);
    FollowOnePage(env, s, page.next.value, sessionId, view, records, request, end,
                  Lookup(env, s, request, page.next).value);
  }

  lemma {:induction false} LookupServes(env: Env, s: Snapshot, request: Request, cursor: bytes, view: View,
                                        records: seq<Record>, position: nat)
    requires IsSnapshot(env, s) && IsRequest(request)
             && ResolveCursor(env, s, request, Some(cursor)) == Ok((view, position))
    requires view.recordEnd <= |s.records| && s.records[..view.recordEnd] == records
    requires request.Turn? ==> HasTurn(records, request.turnId)
    ensures forall i :: 0 <= i < |records| ==> IsTextRecord(records[i])
    ensures Lookup(env, s, request, Some(cursor)) == ServePage(env, s, view, request, Items(records, request), position)
  {
    hide IsTextRecord, Items, HasTurn, IsRequest, ServePage, ResolveCursor;
    assert IsViewOf(env, s, view);
  }

  /** n snapshots from the k-th on. */
  function Taken(at: nat -> Snapshot, k: nat, n: nat): (s: seq<Snapshot>)
    ensures |s| == n
  {
    seq(n, i requires 0 <= i < n => at(k + i))
  }

  /**
   From any page of a view the chain can be followed to its end, the i-th page from the i-th of any
   snapshots that keep the view.
   */
  lemma {:induction false} ChainEnds(env: Env, at: nat -> Snapshot, k: nat, page: Page, sessionId: bytes, view: View,
                                     records: seq<Record>, request: Request, start: nat)
    returns (pages: seq<Page>)
    requires IsLawful(env) && IsRequest(request)
    requires forall i :: Keeps(env, at(i), sessionId, view)
    requires forall i :: 0 <= i < |records| ==> IsTextRecord(records[i])
    requires CursorsFit(env, sessionId, view, request, |Items(records, request)|)
    requires request.Turn? ==> HasTurn(records, request.turnId)
    requires IsPageAt(env, page, sessionId, view, records, request, Items(records, request), start)
    ensures pages != [] && pages[0] == page && pages[|pages| - 1].next == None
    ensures FollowCursors(env, Taken(at, k, |pages|), request, pages)
    decreases |Items(records, request)| - start
  {
    hide IsTextRecord, Items, HasTurn, IsSnapshot, Lookup, CursorsFit, IsLawful, FollowCursors, IsPageAt;
    assert Keeps(env, at(k), sessionId, view);
    if page.next.None? {
      pages := [page];
      FollowNone(env, at, k, request, page);
    } else {
      assert Keeps(env, at(k + 1), sessionId, view);
      NextPageIsServed(env, at(k + 1), page, sessionId, view, records, request, start);
      var next := Lookup(env, at(k + 1), request, page.next).value;
      PageIsInside(env, page, sessionId, view, records, request, start);
      var rest := ChainEnds(env, at, k + 1, next, sessionId, view, records, request, start + request.maxResults);
      pages := [page] + rest;
      FollowOneMore(env, at, k, request, page, rest);
    }
  }

  lemma {:induction false} FollowNone(env: Env, at: nat -> Snapshot, k: nat, request: Request, page: Page)
    requires IsSnapshot(env, at(k))
    ensures FollowCursors(env, Taken(at, k, 1), request, [page])
  {
    hide IsSnapshot, Lookup;
  }

  /** A page with a cursor is full and ends inside the list. */
  lemma {:induction false} PageIsInside(env: Env, page: Page, sessionId: bytes, view: View, records: seq<Record>,
                                        request: Request, start: nat)
    requires IsRequest(request) && (forall i :: 0 <= i < |records| ==> IsTextRecord(records[i]))
    requires IsPageAt(env, page, sessionId, view, records, request, Items(records, request), start) && page.next.Some?
    ensures start + request.maxResults < |Items(records, request)|
  {
    hide IsTextRecord, Items;
  }

  lemma {:induction false} FollowOneMore(env: Env, at: nat -> Snapshot, k: nat, request: Request, page: Page,
                                         rest: seq<Page>)
    requires rest != [] && FollowCursors(env, Taken(at, k + 1, |rest|), request, rest)
    requires IsSnapshot(env, at(k)) && IsSnapshot(env, at(k + 1))
    requires page.next.Some? && Lookup(env, at(k + 1), request, page.next) == Ok(rest[0])
    ensures FollowCursors(env, Taken(at, k, |rest| + 1), request, [page] + rest)
  {
    hide IsSnapshot, Lookup;
    var pages, later := [page] + rest, Taken(at, k + 1, |rest|);
    var snapshots := Taken(at, k, |rest| + 1);
    assert forall i :: 0 <= i < |rest| ==> snapshots[i + 1] == later[i];
    forall i | 0 <= i < |snapshots| ensures IsSnapshot(env, snapshots[i]) {
      if i > 0 { assert snapshots[i] == later[i - 1]; }
    }
    forall i | 0 <= i < |pages| - 1
      ensures pages[i].next.Some? && Lookup(env, snapshots[i + 1], request, pages[i].next) == Ok(pages[i + 1])
    {
      if i > 0 {
        assert pages[i] == rest[i - 1] && pages[i + 1] == rest[i] && snapshots[i + 1] == later[i];
        assert Lookup(env, later[i - 1 + 1], request, rest[i - 1].next) == Ok(rest[i - 1 + 1]);
      } else {
        assert snapshots[1] == later[0] == at(k + 1);
      }
    }
  }

  // ---------------------------------------------------------------- snapshots of a growing journal

  /** What a snapshot is built from: the records up to the last checkpoint, and the checkpoints. */
  datatype Built = Built(records: seq<Record>, checkpoints: seq<(bytes, nat)>) {
    ghost predicate Valid() {
      && (forall i :: 0 <= i < |records| ==> IsTextRecord(records[i]))
      && forall j, k :: 0 <= j < k < |checkpoints| ==> checkpoints[j].0 != checkpoints[k].0
    }
  }

  /** Later in the session: more checkpoints, and records behind every earlier one. */
  ghost predicate IsLater(early: Built, late: Built) {
    && early.checkpoints <= late.checkpoints && early.records <= late.records
    && forall i, j :: |early.records| <= i < |late.records| && 0 <= j < |early.checkpoints| ==>
         late.records[i].seqNo > early.checkpoints[j].1
  }

  function SnapshotOf(env: Env, sessionId: bytes, built: Built): (s: Snapshot)
    requires built.Valid()
    ensures IsSnapshot(env, s) && |s.views| == |built.checkpoints| && (s.views != [] ==> s.sessionId == Some(sessionId))
  {
    BuildFromViews(env, Some(sessionId), built.records, built.checkpoints).value
  }

  lemma {:induction false} RecordEndStays(records: seq<Record>, more: seq<Record>, cutoff: nat)
    requires forall i :: 0 <= i < |more| ==> more[i].seqNo > cutoff
    ensures RecordEnd(records + more, cutoff) == RecordEnd(records, cutoff)
    decreases |records|
  {
    if records == [] {
      assert records + more == more;
    } else {
      assert (records + more)[1..] == records[1..] + more;
      RecordEndStays(records[1..], more, cutoff);
    }
  }

  lemma {:induction false} ViewStays(env: Env, sessionId: bytes, early: Built, late: Built, j: nat)
    requires IsLater(early, late) && j < |early.checkpoints|
    ensures MakeView(env, sessionId, late.records, late.checkpoints[j]) ==
              MakeView(env, sessionId, early.records, early.checkpoints[j])
  {
    var more, cutoff := late.records[|early.records|..], early.checkpoints[j].1;
    hide IsTextRecord, RecordEnd;
    assert late.records == early.records + more && late.checkpoints[j] == early.checkpoints[j];
    assert forall i :: 0 <= i < |more| ==> more[i] == late.records[|early.records| + i];
    RecordEndStays(early.records, more, cutoff);
    var end := RecordEnd(early.records, cutoff);
    assert late.records[..end] == early.records[..end];
  }

  /** Every later snapshot of a session keeps every view of an earlier one. */
  lemma {:induction false} LaterSnapshotKeepsViews(env: Env, sessionId: bytes, early: Built, late: Built, j: nat)
    requires early.Valid() && late.Valid() && IsLater(early, late) && j < |early.checkpoints|
    ensures Keeps(env, SnapshotOf(env, sessionId, late), sessionId, SnapshotOf(env, sessionId, early).views[j])
  {
    hide IsTextRecord, IsViewOf, RecordEnd;
    var s, t := SnapshotOf(env, sessionId, early), SnapshotOf(env, sessionId, late);
    assert s.views[j] == MakeView(env, sessionId, early.records, early.checkpoints[j]);
    assert t.views[j] == MakeView(env, sessionId, late.records, late.checkpoints[j]);
    ViewStays(env, sessionId, early, late, j);
    assert forall i :: 0 <= i < |t.views| ==> t.views[i].checkpointId == late.checkpoints[i].0;
    hide IsLater, MakeView;
    UniqueIdsFindView(t.views, j);
  }

  /** A session as it is looked at: each time later, or the same. */
  ghost predicate IsSession(at: nat -> Built) {
    at(0).checkpoints != [] && forall i :: at(i).Valid() && IsLater(at(0), at(i))
  }

  lemma {:induction false} SessionKeepsView(env: Env, sessionId: bytes, at: nat -> Built, i: nat)
    requires IsSession(at)
    ensures at(0).Valid() && at(i).Valid() && |SnapshotOf(env, sessionId, at(0)).views| == |at(0).checkpoints| > 0
    ensures Keeps(env, SnapshotOf(env, sessionId, at(i)), sessionId,
                  SnapshotOf(env, sessionId, at(0)).views[|at(0).checkpoints| - 1])
  {
    hide Keeps, IsLater;
    LaterSnapshotKeepsViews(env, sessionId, at(0), at(i), |at(0).checkpoints| - 1);
  }

  /** The newest view of a snapshot, which a request without a cursor pages through. */
  function NewestView(env: Env, sessionId: bytes, built: Built): View
    requires built.Valid() && built.checkpoints != []
  {
    SnapshotOf(env, sessionId, built).views[|built.checkpoints| - 1]
  }

  /** Its whole list. */
  function NewestItems(env: Env, sessionId: bytes, built: Built, request: Request): seq<Excerpt>
    requires built.Valid() && built.checkpoints != []
  {
    var s, view := SnapshotOf(env, sessionId, built), NewestView(env, sessionId, built);
    if IsRequest(request) && view.recordEnd <= |s.records| then Items(s.records[..view.recordEnd], request) else []
  }

  /**
   Paging completes. In a session whose journal only grows, with checkpoint ids unique and cursors
   that fit, whenever a first page is served all the others are, each from whatever snapshot is
   current then, and together they are exactly the list of the first page's view.
   */
  lemma {:induction false} PagingCompletes(env: Env, sessionId: bytes, at: nat -> Built, snapshotAt: nat -> Snapshot,
                                           request: Request)
    returns (pages: seq<Page>)
    requires IsLawful(env) && IsSession(at) && at(0).Valid() && at(0).checkpoints != []
    requires forall i :: at(i).Valid() ==> snapshotAt(i) == SnapshotOf(env, sessionId, at(i))
    requires Lookup(env, SnapshotOf(env, sessionId, at(0)), request, None).Ok?
    requires CursorsFit(env, sessionId, NewestView(env, sessionId, at(0)), request,
                        |NewestItems(env, sessionId, at(0), request)|)
    ensures pages != [] && pages[|pages| - 1].next == None
            && Ok(pages[0]) == Lookup(env, SnapshotOf(env, sessionId, at(0)), request, None)
    ensures FollowCursors(env, Taken(snapshotAt, 0, |pages|), request, pages)
    ensures IsRequest(request) && JoinResults(pages) == NewestItems(env, sessionId, at(0), request)
  {
    hide IsTextRecord, Items, CursorsFit, IsLawful, HasTurn, SnapshotOf, Lookup, IsPageAt, IsRequest, JoinResults,
         FollowCursors;
    SessionKeepsView(env, sessionId, at, 0);
    var s := SnapshotOf(env, sessionId, at(0));
    var view := s.views[|at(0).checkpoints| - 1];
    forall i: nat ensures Keeps(env, snapshotAt(i), sessionId, view) {
      SessionKeepsView(env, sessionId, at, i);
    }
    hide IsSession;
    var page := Lookup(env, s, request, None).value;
    FirstPageOf(env, s, sessionId, view, request, page);
    var records := s.records[..view.recordEnd];
    pages := ChainEnds(env, snapshotAt, 0, page, sessionId, view, records, request, 0);
    assert Taken(snapshotAt, 0, |pages|)[0] == s;
    PagingIsLossless(env, Taken(snapshotAt, 0, |pages|), request, pages);
  }

  lemma {:induction false} FirstPageOf(env: Env, s: Snapshot, sessionId: bytes, view: View, request: Request,
                                       page: Page)
    requires IsSnapshot(env, s) && s.sessionId == Some(sessionId) && s.views != [] && view == s.views[|s.views| - 1]
    requires Lookup(env, s, request, None) == Ok(page)
    ensures IsRequest(request) && view.recordEnd <= |s.records|
    ensures forall i :: 0 <= i < view.recordEnd ==> IsTextRecord(s.records[i])
    ensures request.Turn? ==> HasTurn(s.records[..view.recordEnd], request.turnId)
    ensures IsPageAt(env, page, sessionId, view, s.records[..view.recordEnd], request,
                     Items(s.records[..view.recordEnd], request), 0)
  {
    hide IsTextRecord, Items, IsRequest, HasTurn;
    assert IsViewOf(env, s, view);
    LookupIsPage(env, s, None, sessionId, view, s.records[..view.recordEnd], request, 0, page);
  }

  // ---------------------------------------------------------------- the text of a turn

  function JoinExcerpts(items: seq<Excerpt>): bytes {
    if items == [] then [] else items[0].excerpt + JoinExcerpts(items[1..])
  }

  /** The text of all records of a turn, in order. */
  function TurnText(records: seq<Record>, turnId: bytes): bytes {
    if records == [] then []
    else
      var last := records[|records| - 1];
      TurnText(records[..|records| - 1], turnId) + if last.turnId == turnId then last.text else []
  }

  lemma {:induction false} JoinExcerptsAppend(a: seq<Excerpt>, b: seq<Excerpt>)
    ensures JoinExcerpts(a + b) == JoinExcerpts(a) + JoinExcerpts(b)
    decreases |a|
  {
    if a == [] {
      assert a + b == b;
    } else {
      assert (a + b)[1..] == a[1..] + b;
      JoinExcerptsAppend(a[1..], b);
    }
  }

  lemma {:induction false} ChunkExcerptsSpell(record: Record, ranges: seq<Range>)
    requires AreRanges(record.text, ranges)
    ensures JoinExcerpts(ChunkExcerpts(record, ranges)) == Slices(record.text, ranges)
    decreases |ranges|
  {
    hide IsBoundary;
    if ranges != [] {
      var items := ChunkExcerpts(record, ranges);
      assert items[1..] == ChunkExcerpts(record, ranges[1..]);
      ChunkExcerptsSpell(record, ranges[1..]);
    }
  }

  lemma {:induction false} RecordItemsSpell(record: Record, request: Request)
    requires IsTextRecord(record) && IsRequest(request) && request.Turn?
    ensures JoinExcerpts(RecordItems(record, request)) == if record.turnId == request.turnId then record.text else []
  {
    hide ValidUtf8, Chunks;
    ChunksAreRanges(record.text);
    if record.turnId == request.turnId {
      ChunkExcerptsSpell(record, Chunks(record.text, MAX_EXCERPT_BYTES));
      WholeText(record.text);
    }
  }

  lemma {:induction false} WholeText(text: bytes)
    requires ValidUtf8(text)
    ensures AreRanges(text, Chunks(text, MAX_EXCERPT_BYTES))
    ensures Slices(text, Chunks(text, MAX_EXCERPT_BYTES)) == text
  {
    ChunksAreRanges(text);
    ChunksSpellText(text, MAX_EXCERPT_BYTES, 0);
  }

  /** The list a turn lookup pages through spells the turn's text byte for byte. */
  lemma {:induction false} TurnItemsSpellTurn(records: seq<Record>, request: Request)
    requires (forall i :: 0 <= i < |records| ==> IsTextRecord(records[i])) && IsRequest(request) && request.Turn?
    ensures JoinExcerpts(Items(records, request)) == TurnText(records, request.turnId)
    decreases |records|
  {
    hide IsTextRecord, RecordItems;
    if records != [] {
      var init, last := records[..|records| - 1], records[|records| - 1];
      TurnItemsSpellTurn(init, request);
      RecordItemsSpell(last, request);
      JoinExcerptsAppend(Items(init, request), RecordItems(last, request));
    }
  }

  /** All pages of a turn together give back exactly the turn's text in the first page's view. */
  lemma {:induction false} TurnPagesSpellTurn(env: Env, snapshots: seq<Snapshot>, request: Request, pages: seq<Page>)
    requires IsLawful(env) && pages != [] && FollowCursors(env, snapshots, request, pages) && request.Turn?
    requires Lookup(env, snapshots[0], request, None) == Ok(pages[0])
    requires pages[|pages| - 1].next == None
    ensures snapshots[0].views != []
    ensures var view := snapshots[0].views[|snapshots[0].views| - 1];
            view.recordEnd <= |snapshots[0].records|
            && JoinExcerpts(JoinResults(pages)) == TurnText(snapshots[0].records[..view.recordEnd], request.turnId)
  {
    hide IsTextRecord, Items, Lookup, IsLawful;
    PagingIsLossless(env, snapshots, request, pages);
    TurnItemsSpellTurn(snapshots[0].records[..snapshots[0].views[|snapshots[0].views| - 1].recordEnd], request);
  }

  /** Every search excerpt is an aligned piece of its record, at most 1024 bytes, around its match. */
  lemma {:induction false} SearchExcerptHoldsMatch(record: Record, request: Request, i: nat)
    requires IsTextRecord(record) && IsRequest(request) && request.Search?
    requires i < |RecordItems(record, request)|
    ensures var e := RecordItems(record, request)[i];
            && e.matched.Some?
            && e.range.start <= e.matched.value.start <= e.matched.value.end <= e.range.end <= |record.text|
            && e.range.end - e.range.start <= MAX_EXCERPT_BYTES
            && IsBoundary(record.text, e.range.start) && IsBoundary(record.text, e.range.end)
            && e.excerpt == record.text[e.range.start..e.range.end]
            && Same(record.text[e.matched.value.start..e.matched.value.end], request.query, request.caseSensitive)
  {
    hide ValidUtf8, IsBoundary, Window;
    var text := record.text;
    MatchesAreRanges(text, request.query, request.mode, request.caseSensitive);
    var m := Matches(text, request.query, request.mode, request.caseSensitive)[i];
    assert RecordItems(record, request)[i] == MatchExcerpt(record, m);
    MatchIsSame(text, request.query, request.mode, request.caseSensitive, i);
    WindowContainsMatch(text, m);
  }

  lemma {:induction false} MatchIsSame(text: bytes, query: bytes, mode: Mode, caseSensitive: bool, i: nat)
    requires query != [] && i < |Matches(text, query, mode, caseSensitive)|
    ensures var m := Matches(text, query, mode, caseSensitive)[i];
            m.start <= m.end <= |text| && m.end - m.start == |query| && Same(text[m.start..m.end], query, caseSensitive)
  {
    hide Same, Occurrences, IsOccurrence;
    if mode.Exact? {
      assert text[0..|text|] == text;
      SameLength(text, query, caseSensitive);
    } else {
      OccurrencesComplete(text, query, caseSensitive, 0);
      OccurrenceIsSame(text, query, caseSensitive, Occurrences(text, query, caseSensitive, 0)[i].start);
    }
  }

  lemma {:induction false} OccurrenceIsSame(text: bytes, query: bytes, caseSensitive: bool, start: nat)
    requires IsOccurrence(text, query, caseSensitive, start)
    ensures start + |query| <= |text| && Same(text[start..start + |query|], query, caseSensitive)
  {
  }

  lemma {:induction false} SameLength(a: bytes, b: bytes, caseSensitive: bool)
    ensures Same(a, b, caseSensitive) ==> |a| == |b|
  {
  }
}
