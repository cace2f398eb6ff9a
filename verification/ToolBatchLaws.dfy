/**
 What one call and one batch do, said of the surroundings they meet and not of the code that runs
 them: when a tool is dispatched, what is answered, which row settles a call, and where a batch ends.
 */
module ToolBatchLaws {
  import opened ByteStrings
  import opened ToolNames
  import opened ToolBatch

  /** The tools that ask the user first. */
  predicate Asks(call: Call) { call.name == "shell" || call.name == "remember" }

  predicate IsLookup(call: Call) { call.name in {"history_search", "history_turn", "history_artifact"} }

  lemma {:induction false} LookupsDoNotAsk(call: Call)
    ensures IsLookup(call) <==> IsHistoryTool(call.name)
    ensures Asks(call) <==> NeedsApproval(call.name)
    ensures IsLookup(call) ==> !Asks(call)
  {
    assert |"shell"| == 5 && |"remember"| == 8 && |"history_turn"| == 12 && |"history_search"| == 14
           && |"history_artifact"| == 16;
  }

  /** The call can be run when it comes up: its tool is there, its arguments are valid, and nothing was cancelled. */
  predicate IsRunnable(b: Behaviour) { b.available && b.validArguments && b.cancelFrom > 1 }

  /** Nothing happens between there and the run: no late cancellation, and a tool that asks is approved. */
  predicate IsCleared(call: Call, b: Behaviour) {
    IsLookup(call) || (b.cancelFrom > 2 && (Asks(call) ==> b.approval == Approved))
  }

  /**
   A tool is dispatched exactly if it is there, its arguments are valid, the turn is not cancelled at
   the checks before the run, the user approved it where it asks, and the start observer answers.
   */
  lemma {:induction false} DispatchedExactly(call: Call, b: Behaviour)
    ensures Dispatch(call) in RunOf(call, b).acts <==>
              IsRunnable(b) && IsCleared(call, b) && !b.startObserverFails
  {
    LookupsDoNotAsk(call);
    hide IsLookup, Asks, IsHistoryTool, NeedsApproval, HasCode, ErrorOf;
  }

  /** A call is durably started exactly if it is dispatched, or only the user or the start observer stood in the way. */
  lemma {:induction false} StartedExactly(call: Call, b: Behaviour)
    ensures Row(Started, call) in RunOf(call, b).acts <==>
              IsRunnable(b) && (IsLookup(call) || Asks(call) || b.cancelFrom > 2)
  {
    LookupsDoNotAsk(call);
    hide IsLookup, Asks, IsHistoryTool, NeedsApproval, HasCode, ErrorOf;
  }

  /** Why a call that is not dispatched is answered with an error, and with which. */
  function RefusalCode(call: Call, b: Behaviour): string {
    if !b.available then
      if !IsLookup(call) then "not_found" else if b.checkpointed then "history_quota_exhausted"
                                               else "history_not_available"
    else if !b.validArguments then "validation_error"
    else if b.cancelFrom <= 1 || (!IsLookup(call) && b.cancelFrom <= 2) then "cancelled"
    else "approval_required"
  }

  /**
   What a call answers. A dispatched one answers what its tool gave, and any other the error of the
   first thing that stood in its way: no denied call answers anything but `approval_required`. A
   history answer that does not fit its budget is replaced by the quota error.
   */
  lemma {:induction false} AnswersWhatRan(call: Call, b: Behaviour)
    requires RunOf(call, b).end.Returned?
    ensures var result := RunOf(call, b).end.result;
            if IsLookup(call) && !b.outputFits then result == Error("history_quota_exhausted", b.refusal)
            else if Dispatch(call) in RunOf(call, b).acts then result == b.result
            else result == Error(RefusalCode(call, b), b.refusal)
  {
    LookupsDoNotAsk(call);
    hide IsLookup, Asks, IsHistoryTool, NeedsApproval, HasCode;
  }

  /** A call returns exactly if nothing around it fails; a late cancellation without approval makes it panic. */
  lemma {:induction false} ReturnsExactly(call: Call, b: Behaviour)
    ensures var end := RunOf(call, b).end;
            && (end.Returned? <==>
                  && !b.completionObserverFails
                  && (IsLookup(call) ==> b.outputFits || !b.reserveFails)
                  && (IsRunnable(b) && IsCleared(call, b) ==> !b.startObserverFails)
                  && (IsRunnable(b) && Asks(call) ==> b.approval != ApprovalFailed)
                  && (IsRunnable(b) && !IsLookup(call) && !Asks(call) ==> b.cancelFrom > 2))
            && (end.Panicked? <==> IsRunnable(b) && !IsLookup(call) && !Asks(call) && b.cancelFrom <= 2)
  {
    LookupsDoNotAsk(call);
    hide IsLookup, Asks, IsHistoryTool, NeedsApproval, HasCode, ErrorOf;
  }

  /**
   Which row settles a call that returned: in doubt exactly if a dispatched tool said so; cancelled if
   the call was never dispatched for a cancellation, if a lookup answers so, or if a dispatched tool does
   and the turn is cancelled by then; completed otherwise.
   */
  lemma {:induction false} SettledBy(call: Call, b: Behaviour)
    requires RunOf(call, b).end.Returned?
    ensures var acts, result := RunOf(call, b).acts, RunOf(call, b).end.result;
            var ran, says := Dispatch(call) in acts, (code: string) => result.Error? && result.code == code;
            && acts != []
            && acts[|acts| - 1] == Row(
                 if !IsLookup(call) && ran && says("in_doubt") then InDoubt
                 else if says("cancelled") && (IsLookup(call) || !ran || b.cancelFrom <= 3) then Cancelled
                 else Completed, call)
  {
    LookupsDoNotAsk(call);
    CodesDiffer();
    hide IsLookup, Asks, IsHistoryTool, NeedsApproval;
  }

  lemma {:induction false} CodesDiffer()
    ensures "cancelled" !in {"not_found", "validation_error", "approval_required", "history_quota_exhausted",
                             "history_not_available", "in_doubt"}
  {
    assert "cancelled"[0] == 'c' && "not_found"[0] == 'n' && "validation_error"[0] == 'v' && "in_doubt"[0] == 'i'
           && "approval_required"[0] == 'a' && "history_quota_exhausted"[0] == 'h' && "history_not_available"[0] == 'h';
  }

  // ---------------------------------------------------------------- where a batch ends

  /** What the calls did, one after the other. */
  function ActsOf(calls: seq<Call>, bs: seq<Behaviour>): seq<Act>
    requires |calls| == |bs|
  {
    if calls == [] then [] else RunOf(calls[0], bs[0]).acts + ActsOf(calls[1..], bs[1..])
  }

  function RowsOf(calls: seq<Call>, kind: RowKind): seq<Act> {
    seq(|calls|, i requires 0 <= i < |calls| => Row(kind, calls[i]))
  }

  predicate IsDoubt(results: seq<ToolResult>) {
    results != [] && results[|results| - 1].Error? && results[|results| - 1].code == "in_doubt"
  }

  /** The last three results are failures with one fingerprint. */
  predicate IsThird(results: seq<ToolResult>) {
    var n := |results|;
    && n >= 3 && (forall i :: n - 3 <= i < n ==> results[i].Error?)
    && results[n - 3].fingerprint == results[n - 2].fingerprint == results[n - 1].fingerprint
  }

  /** The batch goes on behind a call with this behaviour, which gave the last of these results. */
  predicate GoesPast(b: Behaviour, results: seq<ToolResult>) {
    b.cancelFrom > 4 && !IsDoubt(results) && !IsThird(results)
  }

  predicate HasRoom(max: Option<nat>, tools: nat) { max.Some? ==> tools < max.value }

  /** Call i ran within the limit and answered the result that stands for it. */
  ghost predicate RanAt(calls: seq<Call>, bs: seq<Behaviour>, max: Option<nat>, tools: nat, results: seq<ToolResult>,
                        after: seq<ToolResult>, i: nat)
    requires i < |calls| == |bs| && |results| + i < |after|
  {
    RunOf(calls[i], bs[i]).end == Returned(after[|results| + i]) && HasRoom(max, tools + i) && bs[i].cancelFrom > 0
  }

  predicate PassedAt(bs: seq<Behaviour>, results: seq<ToolResult>, after: seq<ToolResult>, i: nat)
    requires i < |bs| && |results| + i < |after|
  {
    GoesPast(bs[i], after[..|results| + i + 1])
  }

  /** The first n calls of a batch ran, and those before the last of them let it go on. */
  ghost predicate RanFirst(calls: seq<Call>, bs: seq<Behaviour>, max: Option<nat>, tools: nat, results: seq<ToolResult>,
                           after: seq<ToolResult>, n: nat)
    requires |calls| == |bs|
  {
    && n <= |calls| && |after| == |results| + n && results <= after
    && (forall i: nat :: i < n ==> RanAt(calls, bs, max, tools, results, after, i))
    && (forall i: nat :: i + 1 < n ==> PassedAt(bs, results, after, i))
  }

  /**
   The batch ended for this reason, behind a last call or before any, with these rows for it: the rest
   of the calls, whether the limit leaves room for the next of them, and all results so far.
   */
  ghost predicate EndsBy(end: BatchEnd, last: Option<Behaviour>, rest: seq<Call>, bs: seq<Behaviour>, hasRoom: bool,
                         after: seq<ToolResult>, rows: seq<Act>)
    requires |rest| == |bs|
  {
    var goesOn := last.Some? ==> GoesPast(last.value, after);
    match end
    case AllRun => goesOn && rest == [] && rows == []
    case StoppedByLimit =>
      goesOn && rest != [] && !hasRoom && rows == RowsOf(rest, SkippedLimit) + [Turn(LimitReached)]
    case Interrupted =>
      && rows == RowsOf(rest, SkippedCancel) + [Turn(TurnCancelled)]
      && if goesOn then rest != [] && hasRoom && bs[0].cancelFrom == 0
         else last.value.cancelFrom <= 4 && !IsDoubt(after) && !IsThird(after)
    case StoppedInDoubt => last.Some? && IsDoubt(after) && rows == RowsOf(rest, SkippedInDoubt)
    case StoppedStalled =>
      && last.Some? && !IsDoubt(after) && IsThird(after) && !last.value.messageObserverFails
      && rows == RowsOf(rest, SkippedStalled) + [Turn(AgentStalled)]
    case Faulted =>
      if goesOn then
        && rest != [] && hasRoom && bs[0].cancelFrom > 0 && !RunOf(rest[0], bs[0]).end.Returned?
        && rows == RunOf(rest[0], bs[0]).acts
      else
        && !IsDoubt(after) && IsThird(after) && last.value.messageObserverFails && rows == RowsOf(rest, SkippedStalled)
  }

  /** The batch ran its first n calls and ended there. */
  ghost predicate IsExplained(calls: seq<Call>, bs: seq<Behaviour>, max: Option<nat>, tools: nat,
                              results: seq<ToolResult>, batch: Batch, n: nat)
    requires |calls| == |bs|
  {
    && RanFirst(calls, bs, max, tools, results, batch.results, n) && batch.tools == tools + n
    && var ran := ActsOf(calls[..n], bs[..n]);
       && ran <= batch.acts
       && EndsBy(batch.end, if n > 0 then Some(bs[n - 1]) else None, calls[n..], bs[n..], HasRoom(max, tools + n),
                 batch.results, batch.acts[|ran|..])
  }

  lemma {:induction false} SkipsAreRows(calls: seq<Call>, kind: RowKind)
    ensures Skips(calls, kind) == RowsOf(calls, kind)
    decreases |calls|
  {
    if calls != [] {
      SkipsAreRows(calls[1..], kind);
      assert RowsOf(calls, kind) == [Row(kind, calls[0])] + RowsOf(calls[1..], kind);
    }
  }

  lemma {:induction false} StallsAreThird(results: seq<ToolResult>)
    requires results != [] && results[|results| - 1].Error?
    ensures Stalls(results) <==> IsThird(results)
  {
    hide Stalls;
    StallMeansRun(results);
  }

  /** The batch ends before its first call. */
  lemma {:induction false} EndsAtOnce(calls: seq<Call>, bs: seq<Behaviour>, max: Option<nat>, tools: nat,
                                      results: seq<ToolResult>)
    requires |calls| == |bs|
    requires calls == [] || !HasRoom(max, tools) || bs[0].cancelFrom == 0 || !RunOf(calls[0], bs[0]).end.Returned?
    ensures IsExplained(calls, bs, max, tools, results, RunBatch(calls, bs, max, tools, results), 0)
  {
    hide RunOf, Stalls, IsInDoubt, Skips;
    SkipsAreRows(calls, SkippedLimit);
    SkipsAreRows(calls, SkippedCancel);
    assert calls[..0] == [] && bs[..0] == [] && calls[0..] == calls && bs[0..] == bs;
    hide RowsOf;
  }

  /** What the loop makes of a call behind which it stops. */
  function AfterFirst(b: Behaviour, rest: seq<Call>, tools: nat, all: seq<ToolResult>, acts: seq<Act>, inDoubt: bool,
                      stalls: bool): Batch {
    if inDoubt then Batch(acts + Skips(rest, SkippedInDoubt), tools + 1, all, StoppedInDoubt)
    else if stalls then
      if b.messageObserverFails then Batch(acts + Skips(rest, SkippedStalled), tools + 1, all, Faulted)
      else Batch(acts + Skips(rest, SkippedStalled) + [Turn(AgentStalled)], tools + 1, all, StoppedStalled)
    else Batch(acts + Skips(rest, SkippedCancel) + [Turn(TurnCancelled)], tools + 1, all, Interrupted)
  }

  lemma {:induction false} StopsBehindFirst(calls: seq<Call>, bs: seq<Behaviour>, max: Option<nat>, tools: nat,
                                            results: seq<ToolResult>)
    requires |calls| == |bs| > 0 && HasRoom(max, tools) && bs[0].cancelFrom > 0
    requires RunOf(calls[0], bs[0]).end.Returned?
    requires !GoesPast(bs[0], results + [RunOf(calls[0], bs[0]).end.result])
    ensures var run := RunOf(calls[0], bs[0]);
            var all := results + [run.end.result];
            RunBatch(calls, bs, max, tools, results) ==
            AfterFirst(bs[0], calls[1..], tools, all, run.acts, IsDoubt(all), IsThird(all))
  {
    var result := RunOf(calls[0], bs[0]).end.result;
    var all := results + [result];
    assert (result.Error? && Stalls(all)) == IsThird(all) by {
      if result.Error? { StallsAreThird(all); }
      hide Stalls;
    }
    assert IsInDoubt(result) == IsDoubt(all);
    hide RunOf, Stalls, IsThird, IsInDoubt, IsDoubt, Skips;
  }

  /** The rows and the end that go with each reason. */
  lemma {:induction false} AfterFirstEnds(b: Behaviour, rest: seq<Call>, bs: seq<Behaviour>, tools: nat,
                                          all: seq<ToolResult>, acts: seq<Act>, hasRoom: bool) returns (rows: seq<Act>)
    requires |rest| == |bs| && !GoesPast(b, all)
    ensures var batch := AfterFirst(b, rest, tools, all, acts, IsDoubt(all), IsThird(all));
            && batch.results == all && batch.tools == tools + 1 && batch.acts == acts + rows
            && EndsBy(batch.end, Some(b), rest, bs, hasRoom, all, rows)
  {
    hide RunOf, IsThird, IsDoubt, Skips, RowsOf;
    SkipsAreRows(rest, SkippedInDoubt);
    SkipsAreRows(rest, SkippedStalled);
    SkipsAreRows(rest, SkippedCancel);
    rows := if IsDoubt(all) then RowsOf(rest, SkippedInDoubt)
            else if IsThird(all) then
              RowsOf(rest, SkippedStalled) + if b.messageObserverFails then [] else [Turn(AgentStalled)]
            else RowsOf(rest, SkippedCancel) + [Turn(TurnCancelled)];
  }

  /** The batch ends behind its first call. */
  lemma {:induction false} EndsBehindFirst(calls: seq<Call>, bs: seq<Behaviour>, max: Option<nat>, tools: nat,
                                           results: seq<ToolResult>)
    requires |calls| == |bs| > 0 && HasRoom(max, tools) && bs[0].cancelFrom > 0
    requires RunOf(calls[0], bs[0]).end.Returned?
    requires !GoesPast(bs[0], results + [RunOf(calls[0], bs[0]).end.result])
    ensures IsExplained(calls, bs, max, tools, results, RunBatch(calls, bs, max, tools, results), 1)
  {
    hide RunOf, RunBatch, EndsBy, GoesPast;
    StopsBehindFirst(calls, bs, max, tools, results);
    var run, batch := RunOf(calls[0], bs[0]), RunBatch(calls, bs, max, tools, results);
    var all := results + [run.end.result];
    var rows := AfterFirstEnds(bs[0], calls[1..], bs[1..], tools, all, run.acts, HasRoom(max, tools + 1));
    hide AfterFirst;
    FirstActs(calls, bs);
    assert batch.acts[|run.acts|..] == rows;
  }

  lemma {:induction false} FirstActs(calls: seq<Call>, bs: seq<Behaviour>)
    requires |calls| == |bs| > 0
    ensures ActsOf(calls[..1], bs[..1]) == RunOf(calls[0], bs[0]).acts
  {
    hide RunOf;
    assert calls[..1][1..] == [] && bs[..1][1..] == [];
    assert ActsOf(calls[..1], bs[..1]) == RunOf(calls[0], bs[0]).acts + ActsOf([], []);
  }

  lemma {:induction false} MoreActs(calls: seq<Call>, bs: seq<Behaviour>, n: nat)
    requires |calls| == |bs| && n < |calls|
    ensures ActsOf(calls[..n + 1], bs[..n + 1]) == RunOf(calls[0], bs[0]).acts + ActsOf(calls[1..][..n], bs[1..][..n])
  {
    hide RunOf;
    assert calls[..n + 1][1..] == calls[1..][..n] && bs[..n + 1][1..] == bs[1..][..n];
  }

  lemma {:induction false} GoesOnBehindFirst(calls: seq<Call>, bs: seq<Behaviour>, max: Option<nat>, tools: nat,
                                             results: seq<ToolResult>)
    requires |calls| == |bs| > 0 && HasRoom(max, tools) && bs[0].cancelFrom > 0
    requires RunOf(calls[0], bs[0]).end.Returned?
    requires GoesPast(bs[0], results + [RunOf(calls[0], bs[0]).end.result])
    ensures var run := RunOf(calls[0], bs[0]);
            var more := RunBatch(calls[1..], bs[1..], max, tools + 1, results + [run.end.result]);
            RunBatch(calls, bs, max, tools, results) == more.(acts := run.acts + more.acts)
  {
    var all := results + [RunOf(calls[0], bs[0]).end.result];
    if RunOf(calls[0], bs[0]).end.result.Error? { StallsAreThird(all); }
    hide RunOf, Stalls, IsThird;
  }

  /** A call that lets the batch go on, in front of a rest that ended somewhere. */
  lemma {:induction false} EndsLater(calls: seq<Call>, bs: seq<Behaviour>, max: Option<nat>, tools: nat,
                                     results: seq<ToolResult>, more: Batch, n: nat)
    requires |calls| == |bs| > 0 && HasRoom(max, tools) && bs[0].cancelFrom > 0
    requires RunOf(calls[0], bs[0]).end.Returned?
    requires GoesPast(bs[0], results + [RunOf(calls[0], bs[0]).end.result])
    requires IsExplained(calls[1..], bs[1..], max, tools + 1, results + [RunOf(calls[0], bs[0]).end.result], more, n)
    ensures IsExplained(calls, bs, max, tools, results, more.(acts := RunOf(calls[0], bs[0]).acts + more.acts), n + 1)
  {
    var run := RunOf(calls[0], bs[0]);
    var all := results + [run.end.result];
    RanOneMore(calls, bs, max, tools, results, more.results, n);
    NoneRan(calls[1..], bs[1..], max, tools + 1, all, more.results, n);
    MoreActs(calls, bs, n);
    hide RunOf, ActsOf, RanFirst, GoesPast, EndsBy, HasRoom;
    var inner := ActsOf(calls[1..][..n], bs[1..][..n]);
    assert calls[1..][n..] == calls[n + 1..] && bs[1..][n..] == bs[n + 1..];
    assert (run.acts + more.acts)[|run.acts + inner|..] == more.acts[|inner|..];
    if n == 0 {
      EndsBehindOne(more.end, bs[0], calls[1..], bs[1..], HasRoom(max, tools + 1), more.results, more.acts[|inner|..]);
    } else {
      assert bs[1..][n - 1] == bs[n];
    }
  }

  lemma {:induction false} EndsBehindOne(end: BatchEnd, last: Behaviour, rest: seq<Call>, bs: seq<Behaviour>,
                                         hasRoom: bool, after: seq<ToolResult>, rows: seq<Act>)
    requires |rest| == |bs| && EndsBy(end, None, rest, bs, hasRoom, after, rows) && GoesPast(last, after)
    ensures EndsBy(end, Some(last), rest, bs, hasRoom, after, rows)
  {
    hide RunOf, RowsOf, GoesPast;
  }

  lemma {:induction false} NoneRan(calls: seq<Call>, bs: seq<Behaviour>, max: Option<nat>, tools: nat,
                                   results: seq<ToolResult>, after: seq<ToolResult>, n: nat)
    requires |calls| == |bs| && RanFirst(calls, bs, max, tools, results, after, n)
    ensures n == 0 ==> after == results
  {
  }

  lemma {:induction false} RanOneMore(calls: seq<Call>, bs: seq<Behaviour>, max: Option<nat>, tools: nat,
                                      results: seq<ToolResult>, after: seq<ToolResult>, n: nat)
    requires |calls| == |bs| > 0 && HasRoom(max, tools) && bs[0].cancelFrom > 0
    requires RunOf(calls[0], bs[0]).end.Returned?
    requires GoesPast(bs[0], results + [RunOf(calls[0], bs[0]).end.result])
    requires var all := results + [RunOf(calls[0], bs[0]).end.result];
             RanFirst(calls[1..], bs[1..], max, tools + 1, all, after, n)
    ensures RanFirst(calls, bs, max, tools, results, after, n + 1)
  {
    hide RunOf, GoesPast, HasRoom;
    var all := results + [RunOf(calls[0], bs[0]).end.result];
    assert after[..|all|] == all;
    assert after[..|results|] == all[..|results|];
    forall i: nat | i < n + 1
      ensures RanAt(calls, bs, max, tools, results, after, i)
      ensures i < n ==> PassedAt(bs, results, after, i)
    {
      if i > 0 {
        assert RanAt(calls[1..], bs[1..], max, tools + 1, all, after, i - 1);
        assert i < n ==> PassedAt(bs[1..], all, after, i - 1);
        assert calls[1..][i - 1] == calls[i] && bs[1..][i - 1] == bs[i];
        assert |all| + (i - 1) == |results| + i && tools + 1 + (i - 1) == tools + i;
      } else {
        assert after[|results|] == all[|results|] && after[..|results| + 1] == all;
      }
    }
  }

  /**
   Where a batch ends. Its first n calls run, each within the limit, not cancelled before it, and all
   but the last neither in doubt, nor the third equal failure, nor cancelled after it; and it ends
   there with exactly the rows of those calls, a skip of the matching kind for every call left, and
   the row of the turn that belongs to the reason.
   */
  lemma {:induction false} BatchIsExplained(calls: seq<Call>, bs: seq<Behaviour>, max: Option<nat>, tools: nat,
                                            results: seq<ToolResult>) returns (n: nat)
    requires |calls| == |bs|
    ensures IsExplained(calls, bs, max, tools, results, RunBatch(calls, bs, max, tools, results), n)
    decreases |calls|
  {
    hide RunOf, RunBatch, IsExplained, GoesPast, HasRoom;
    if calls == [] || !HasRoom(max, tools) || bs[0].cancelFrom == 0 || !RunOf(calls[0], bs[0]).end.Returned? {
      EndsAtOnce(calls, bs, max, tools, results);
      n := 0;
    } else {
      var all := results + [RunOf(calls[0], bs[0]).end.result];
      if GoesPast(bs[0], all) {
        n := BatchIsExplained(calls[1..], bs[1..], max, tools + 1, all);
        GoesOnBehindFirst(calls, bs, max, tools, results);
        EndsLater(calls, bs, max, tools, results, RunBatch(calls[1..], bs[1..], max, tools + 1, all), n);
        n := n + 1;
      } else {
        EndsBehindFirst(calls, bs, max, tools, results);
        n := 1;
      }
    }
  }
}
