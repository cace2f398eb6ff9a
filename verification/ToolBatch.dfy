/**
 One batch of tool calls: every call occurrence is started at most once, dispatched only right
 after its durable start, and settled by exactly one outcome row, whatever results, denials,
 cancellations and limits the batch meets.
 */
module ToolBatch {
  import opened ByteStrings
  import opened ToolNames

  datatype Call = Call(id: string, name: string)

  datatype RowKind =
    | Started
    | Completed
    | Cancelled
    | InDoubt
    | SkippedCancel
    | SkippedInDoubt
    | SkippedStalled
    | SkippedLimit

  datatype TurnRow = LimitReached | TurnCancelled | AgentStalled

  /** A journal row of a call, a journal row of the turn, or the execution of a tool. */
  datatype Act = Row(kind: RowKind, call: Call) | Turn(row: TurnRow) | Dispatch(call: Call)

  /** A settled call, or one that is in doubt. */
  predicate IsOutcome(kind: RowKind) { kind != Started }

  datatype Approval = Approved | Denied | ApprovalFailed

  /** A tool result: an error has a code, and a fingerprint of the failed call. */
  datatype ToolResult = Success | Error(code: string, fingerprint: string)

  /** What the world does to one call; from `cancelFrom` on, cancellation checks find the turn cancelled. */
  datatype Behaviour = Behaviour(
    available: bool,               // the tool is registered; a history tool is exposed
    checkpointed: bool,            // there is a history to look into
    validArguments: bool,
    cancelFrom: nat,
    approval: Approval,
    startObserverFails: bool,
    result: ToolResult,
    refusal: string,               // the fingerprint of an error the agent itself makes up for the call
    outputFits: bool,              // a history result is within its output budget
    reserveFails: bool,            // the fallback for it does not fit either; no admitted call has this
    completionObserverFails: bool,
    messageObserverFails: bool)

  predicate NeedsApproval(name: string) { name == "shell" || name == "remember" }

  /** The cancellation checks of one call, in the order the source makes them. */
  const BEFORE_CALL: nat := 0
  const BEFORE_START: nat := 1
  const AFTER_APPROVAL: nat := 2
  const AFTER_RUN: nat := 3
  const AFTER_CALL: nat := 4

  predicate IsCancelled(b: Behaviour, check: nat) { b.cancelFrom <= check }

  /** How one call ended: with a result, with an error that ends the turn at once, or in the unreachable branch. */
  datatype CallEnd = Returned(result: ToolResult) | Aborted | Panicked

  datatype CallRun = CallRun(acts: seq<Act>, end: CallEnd)

  /** An outcome row and the completion observer after it. */
  function Settle(before: seq<Act>, kind: RowKind, call: Call, result: ToolResult, b: Behaviour): CallRun {
    CallRun(before + [Row(kind, call)], if b.completionObserverFails then Aborted else Returned(result))
  }

  function ErrorOf(code: string, b: Behaviour): ToolResult {
    Error(code, b.refusal)
  }

  predicate HasCode(result: ToolResult, code: string) { result.Error? && result.code == code }

  predicate IsInDoubt(result: ToolResult) { HasCode(result, "in_doubt") }

  /**
   The end of a history call: a result beyond its output budget is replaced by the fallback, which may not
   fit either.
   */
  function SettleHistory(before: seq<Act>, call: Call, result: ToolResult, b: Behaviour): CallRun {
    if !b.outputFits && b.reserveFails then CallRun(before, Aborted)
    else
      var kept := if b.outputFits then result else ErrorOf("history_quota_exhausted", b);
      Settle(before, if HasCode(kept, "cancelled") then Cancelled else Completed, call, kept, b)
  }

  /** `execute_history_call` */
  function HistoryRun(call: Call, b: Behaviour): CallRun {
    if !b.available then
      SettleHistory([], call, ErrorOf(if b.checkpointed then "history_quota_exhausted" else "history_not_available", b),
                    b)
    else if !b.validArguments then SettleHistory([], call, ErrorOf("validation_error", b), b)
    else if IsCancelled(b, BEFORE_START) then SettleHistory([], call, ErrorOf("cancelled", b), b)
    else if b.startObserverFails then CallRun([Row(Started, call)] + [Row(InDoubt, call)], Aborted)
    else SettleHistory([Row(Started, call)] + [Dispatch(call)], call, b.result, b)
  }

  /** `execute_call` for every other tool. */
  function ToolRun(call: Call, b: Behaviour): CallRun {
    if !b.available then Settle([], Completed, call, ErrorOf("not_found", b), b)
    else if !b.validArguments then Settle([], Completed, call, ErrorOf("validation_error", b), b)
    else if IsCancelled(b, BEFORE_START) then Settle([], Cancelled, call, ErrorOf("cancelled", b), b)
    else
      var started := [Row(Started, call)];
      if NeedsApproval(call.name) && b.approval == ApprovalFailed then CallRun(started + [Row(InDoubt, call)], Aborted)
      else if IsCancelled(b, AFTER_APPROVAL) then
        if NeedsApproval(call.name) then Settle(started, Cancelled, call, ErrorOf("cancelled", b), b)
        else CallRun([], Panicked)
      else if NeedsApproval(call.name) && b.approval == Denied then
        Settle(started, Completed, call, ErrorOf("approval_required", b), b)
      else if b.startObserverFails then CallRun(started + [Row(InDoubt, call)], Aborted)
      else
        var ran := started + [Dispatch(call)];
        if HasCode(b.result, "in_doubt") then Settle(ran, InDoubt, call, b.result, b)
        else if IsCancelled(b, AFTER_RUN) && HasCode(b.result, "cancelled") then
          Settle(ran, Cancelled, call, b.result, b)
        else Settle(ran, Completed, call, b.result, b)
  }

  function RunOf(call: Call, b: Behaviour): CallRun {
    if IsHistoryTool(call.name) then HistoryRun(call, b) else ToolRun(call, b)
  }

  // ---------------------------------------------------------------- one call

  /** The calls of the outcome rows, in order. */
  function Outcomes(acts: seq<Act>): seq<Call> {
    if acts == [] then []
    else
      var last := acts[|acts| - 1];
      Outcomes(acts[..|acts| - 1]) + if last.Row? && IsOutcome(last.kind) then [last.call] else []
  }

  /** Every dispatch comes right after the start row of the same call. */
  predicate DispatchesFollowStarts(acts: seq<Act>) {
    forall i :: 0 <= i < |acts| && acts[i].Dispatch? ==> i > 0 && acts[i - 1] == Row(Started, acts[i].call)
  }

  predicate IsOutcomeRow(act: Act, call: Call) { act.Row? && act.call == call && IsOutcome(act.kind) }

  /** Start, dispatch and outcome rows of one call: at most one each, in this order. */
  predicate IsCallTrace(acts: seq<Act>, call: Call) {
    && |acts| <= 3
    && (|acts| > 1 ==> acts[0] == Row(Started, call))
    && (|acts| > 2 ==> acts[1] == Dispatch(call))
    && (|acts| == 1 ==> acts[0] == Row(Started, call) || IsOutcomeRow(acts[0], call))
    && (|acts| == 2 ==> acts[1] == Dispatch(call) || IsOutcomeRow(acts[1], call))
    && (|acts| == 3 ==> IsOutcomeRow(acts[2], call))
  }

  /** What a call owes whichever way it runs. */
  ghost predicate IsSettledRun(run: CallRun, call: Call, b: Behaviour) {
    && IsCallTrace(run.acts, call)
    && (run.end.Returned? ==>
          Outcomes(run.acts) == [call]
          && (run.acts != [] && run.acts[|run.acts| - 1] == Row(InDoubt, call) <==>
              !IsHistoryTool(call.name) && IsInDoubt(run.end.result)))
    && (run.end.Aborted? ==> Outcomes(run.acts) == [call] || (b.reserveFails && Outcomes(run.acts) == []))
    && (run.end.Panicked? ==> run.acts == [])
  }

  lemma {:induction false} HistoryRunSettles(call: Call, b: Behaviour)
    requires IsHistoryTool(call.name)
    ensures IsSettledRun(HistoryRun(call, b), call, b)
  {
    hide Outcomes, IsHistoryTool, HasCode, ErrorOf, IsInDoubt;
    OutcomesOfTrace(HistoryRun(call, b).acts, call);
  }

  lemma {:induction false} ToolRunSettles(call: Call, b: Behaviour)
    requires !IsHistoryTool(call.name)
    ensures IsSettledRun(ToolRun(call, b), call, b)
  {
    hide Outcomes, IsHistoryTool, NeedsApproval, HasCode, ErrorOf, IsInDoubt;
    ErrorsAreNoDoubt(b);
    OutcomesOfTrace(ToolRun(call, b).acts, call);
    assert HasCode(b.result, "in_doubt") == IsInDoubt(b.result) by { DoubtIsACode(b.result); }
  }

  lemma {:induction false} DoubtIsACode(result: ToolResult)
    ensures HasCode(result, "in_doubt") == IsInDoubt(result)
  {
  }

  /** No error that the agent makes up is in doubt. */
  lemma {:induction false} ErrorsAreNoDoubt(b: Behaviour)
    ensures !IsInDoubt(ErrorOf("not_found", b)) && !IsInDoubt(ErrorOf("validation_error", b))
    ensures !IsInDoubt(ErrorOf("cancelled", b)) && !IsInDoubt(ErrorOf("approval_required", b))
  {
    assert "in_doubt"[0] == 'i' && "cancelled"[0] == 'c' && "not_found"[0] == 'n' && "validation_error"[0] == 'v'
           && "approval_required"[0] == 'a';
  }

  /**
   One call: start, dispatch and outcome at most once each and in order. A call that returns a
   result has exactly one outcome row, in doubt only if its result says so. It panics exactly
   when the turn is cancelled between the check before the start and the one after approval and
   the tool needs no approval.
   */
  lemma {:induction false} CallTrace(call: Call, b: Behaviour)
    ensures var run := RunOf(call, b);
            && IsSettledRun(run, call, b)
            && (run.end.Panicked? <==>
                  !IsHistoryTool(call.name) && !NeedsApproval(call.name) && b.available && b.validArguments
                  && !IsCancelled(b, BEFORE_START) && IsCancelled(b, AFTER_APPROVAL))
  {
    hide IsSettledRun, IsHistoryTool, NeedsApproval;
    if IsHistoryTool(call.name) { HistoryRunSettles(call, b); } else { ToolRunSettles(call, b); }
  }

  lemma {:induction false} NoOutcomes()
    ensures Outcomes([]) == []
  {
  }

  lemma {:induction false} OutcomesOne(acts: seq<Act>)
    requires |acts| == 1
    ensures Outcomes(acts) == OutcomeOf(acts[0])
  {
    NoOutcomes();
    assert acts[..0] == [];
  }

  lemma {:induction false} OutcomesTwo(acts: seq<Act>)
    requires |acts| == 2
    ensures Outcomes(acts) == OutcomeOf(acts[0]) + OutcomeOf(acts[1])
  {
    OutcomesOne(acts[..1]);
  }

  lemma {:induction false} OutcomesThree(acts: seq<Act>)
    requires |acts| == 3
    ensures Outcomes(acts) == OutcomeOf(acts[0]) + OutcomeOf(acts[1]) + OutcomeOf(acts[2])
  {
    OutcomesTwo(acts[..2]);
  }

  function OutcomeOf(act: Act): seq<Call> { if act.Row? && IsOutcome(act.kind) then [act.call] else [] }

  lemma {:induction false} OutcomesOfTrace(acts: seq<Act>, call: Call)
    requires IsCallTrace(acts, call)
    ensures Outcomes(acts) == if acts != [] && IsOutcomeRow(acts[|acts| - 1], call) then [call] else []
  {
    hide Outcomes;
    if |acts| == 0 {
      NoOutcomes();
    } else if |acts| == 1 {
      OutcomesOne(acts);
    } else if |acts| == 2 {
      OutcomesTwo(acts);
    } else {
      OutcomesThree(acts);
    }
  }

  // ---------------------------------------------------------------- the repeated-error detector

  /** The detector's state after results: the last failure and how often it came in a row. */
  function Repeated(results: seq<ToolResult>): Option<(string, nat)> {
    if results == [] then None
    else
      var init, last := results[..|results| - 1], results[|results| - 1];
      if last.Success? then None
      else
        match Repeated(init)
        case Some((key, count)) =>
          if key == last.fingerprint then Some((key, count + 1)) else Some((last.fingerprint, 1))
        case None => Some((last.fingerprint, 1))
  }

  /** The last n results are failures with this fingerprint. */
  predicate EndsWithFailures(results: seq<ToolResult>, key: string, n: nat) {
    n <= |results| && forall i :: |results| - n <= i < |results| ==> results[i].Error? && results[i].fingerprint == key
  }

  /** The count is the length of the longest run of equal failures at the end of the results. */
  lemma {:induction false} RepeatedMeansRun(results: seq<ToolResult>, key: string, n: nat)
    requires n > 0
    ensures EndsWithFailures(results, key, n) <==>
              Repeated(results).Some? && Repeated(results).value.0 == key && Repeated(results).value.1 >= n
    decreases |results|
  {
    if results != [] {
      var init, last := results[..|results| - 1], results[|results| - 1];
      assert results == init + [last];
      if n > 1 {
        RepeatedMeansRun(init, key, n - 1);
        assert EndsWithFailures(results, key, n) <==>
                 last.Error? && last.fingerprint == key && EndsWithFailures(init, key, n - 1);
      } else {
        assert EndsWithFailures(results, key, 1) <==> last.Error? && last.fingerprint == key;
        RepeatedPositive(init);
      }
      RepeatedPositive(init);
    }
  }

  lemma {:induction false} RepeatedPositive(results: seq<ToolResult>)
    ensures Repeated(results).Some? ==> Repeated(results).value.1 >= 1
    decreases |results|
  {
    if results != [] { RepeatedPositive(results[..|results| - 1]); }
  }

  // ---------------------------------------------------------------- the batch

  /** How a batch ended; `Faulted` when an error of its surroundings, or the unreachable branch, cut it off. */
  datatype BatchEnd =
    | AllRun
    | StoppedByLimit
    | Interrupted
    | StoppedInDoubt
    | StoppedStalled
    | Faulted

  /** The turn's tool counter and the results of its calls so far, and what the batch did. */
  datatype Batch = Batch(acts: seq<Act>, tools: nat, results: seq<ToolResult>, end: BatchEnd)

  function Skips(calls: seq<Call>, kind: RowKind): seq<Act> {
    if calls == [] then [] else [Row(kind, calls[0])] + Skips(calls[1..], kind)
  }

  predicate Stalls(results: seq<ToolResult>) { Repeated(results).Some? && Repeated(results).value.1 >= 3 }

  predicate LimitIsReached(max: Option<nat>, tools: nat) { max.Some? && tools >= max.value }

  /** The tool loop over the rest of a batch. */
  function RunBatch(calls: seq<Call>, bs: seq<Behaviour>, max: Option<nat>, tools: nat, results: seq<ToolResult>): Batch
    requires |calls| == |bs|
    decreases |calls|
  {
    if calls == [] then Batch([], tools, results, AllRun)
    else
      var call, b, rest := calls[0], bs[0], calls[1..];
      if LimitIsReached(max, tools) then
        Batch(Skips(calls, SkippedLimit) + [Turn(LimitReached)], tools, results, StoppedByLimit)
      else if IsCancelled(b, BEFORE_CALL) then
        Batch(Skips(calls, SkippedCancel) + [Turn(TurnCancelled)], tools, results, Interrupted)
      else
        var run := RunOf(call, b);
        if !run.end.Returned? then Batch(run.acts, tools, results, Faulted)
        else
          var result := run.end.result;
          var all := results + [result];
          if IsInDoubt(result) then
            Batch(run.acts + Skips(rest, SkippedInDoubt), tools + 1, all, StoppedInDoubt)
          else if result.Error? && Stalls(all) then
            if b.messageObserverFails then Batch(run.acts + Skips(rest, SkippedStalled), tools + 1, all, Faulted)
            else Batch(run.acts + Skips(rest, SkippedStalled) + [Turn(AgentStalled)], tools + 1, all, StoppedStalled)
          else if IsCancelled(b, AFTER_CALL) then
            Batch(run.acts + Skips(rest, SkippedCancel) + [Turn(TurnCancelled)], tools + 1, all, Interrupted)
          else
            var more := RunBatch(rest, bs[1..], max, tools + 1, all);
            more.(acts := run.acts + more.acts)
  }

  lemma {:induction false} OutcomesAppend(a: seq<Act>, b: seq<Act>)
    ensures Outcomes(a + b) == Outcomes(a) + Outcomes(b)
    decreases |b|
  {
    hide IsOutcome;
    if b == [] {
      assert a + b == a;
    } else {
      OutcomesAppend(a, b[..|b| - 1]);
      assert (a + b)[..|a + b| - 1] == a + b[..|b| - 1];
    }
  }

  lemma {:induction false} SkipsSettle(calls: seq<Call>, kind: RowKind)
    requires IsOutcome(kind)
    ensures Outcomes(Skips(calls, kind)) == calls && DispatchesFollowStarts(Skips(calls, kind))
    decreases |calls|
  {
    if calls != [] {
      SkipsSettle(calls[1..], kind);
      OutcomesAppend([Row(kind, calls[0])], Skips(calls[1..], kind));
      assert [Row(kind, calls[0])][..0] == [];
      assert Outcomes([Row(kind, calls[0])]) == [calls[0]];
    }
  }

  lemma {:induction false} TurnRowSettlesNothing(acts: seq<Act>, row: TurnRow)
    ensures Outcomes(acts + [Turn(row)]) == Outcomes(acts)
    ensures DispatchesFollowStarts(acts) ==> DispatchesFollowStarts(acts + [Turn(row)])
  {
    assert (acts + [Turn(row)])[..|acts|] == acts;
  }

  lemma {:induction false} DispatchesAppend(a: seq<Act>, b: seq<Act>)
    requires DispatchesFollowStarts(a) && DispatchesFollowStarts(b)
    ensures DispatchesFollowStarts(a + b)
  {
    var c := a + b;
    forall i | 0 <= i < |c| && c[i].Dispatch?
      ensures i > 0 && c[i - 1] == Row(Started, c[i].call)
    {
      if i >= |a| { assert b[i - |a|] == c[i]; }
    }
  }

  lemma {:induction false} CallTraceDispatches(acts: seq<Act>, call: Call)
    requires IsCallTrace(acts, call)
    ensures DispatchesFollowStarts(acts)
  {
  }

  /** Settled or skipped: the outcome rows of a batch that this run and these skips make up. */
  lemma {:induction false} StoppedBatchSettles(call: Call, acts: seq<Act>, rest: seq<Call>, kind: RowKind)
    requires IsCallTrace(acts, call) && Outcomes(acts) == [call] && IsOutcome(kind)
    ensures Outcomes(acts + Skips(rest, kind)) == [call] + rest && DispatchesFollowStarts(acts + Skips(rest, kind))
  {
    SkipsSettle(rest, kind);
    OutcomesAppend(acts, Skips(rest, kind));
    CallTraceDispatches(acts, call);
    DispatchesAppend(acts, Skips(rest, kind));
  }

  /** What a batch owes: outcome rows for all its calls, or for a prefix when a fault cut it off. */
  ghost predicate Conserves(calls: seq<Call>, batch: Batch) {
    && DispatchesFollowStarts(batch.acts)
    && Outcomes(batch.acts) <= calls
    && (!batch.end.Faulted? ==> Outcomes(batch.acts) == calls)
  }

  /** The batch stops before this call: every call left is skipped. */
  lemma {:induction false} StopBeforeConserves(calls: seq<Call>, kind: RowKind, row: TurnRow, tools: nat,
                                               results: seq<ToolResult>, end: BatchEnd)
    requires IsOutcome(kind) && !end.Faulted?
    ensures Conserves(calls, Batch(Skips(calls, kind) + [Turn(row)], tools, results, end))
  {
    SkipsSettle(calls, kind);
    TurnRowSettlesNothing(Skips(calls, kind), row);
  }

  /** The batch is cut off inside a call. */
  lemma {:induction false} FaultConserves(calls: seq<Call>, b: Behaviour, tools: nat, results: seq<ToolResult>)
    requires calls != [] && !RunOf(calls[0], b).end.Returned?
    ensures var acts := RunOf(calls[0], b).acts;
            Conserves(calls, Batch(acts, tools, results, Faulted))
  {
    hide RunOf, IsCallTrace, DispatchesFollowStarts;
    CallTrace(calls[0], b);
    CallTraceDispatches(RunOf(calls[0], b).acts, calls[0]);
    assert [calls[0]] <= calls && Outcomes([]) == [];
  }

  /** The batch stops after a call that returned: the calls after it are skipped. */
  lemma {:induction false} StopAfterConserves(calls: seq<Call>, b: Behaviour, kind: RowKind, row: TurnRow, tools: nat,
                                              results: seq<ToolResult>, end: BatchEnd)
    requires calls != [] && RunOf(calls[0], b).end.Returned? && IsOutcome(kind)
    ensures var acts := RunOf(calls[0], b).acts + Skips(calls[1..], kind);
            && Conserves(calls, Batch(acts, tools, results, end))
            && Conserves(calls, Batch(acts + [Turn(row)], tools, results, end))
  {
    hide RunOf, IsCallTrace, DispatchesFollowStarts, Skips, Outcomes;
    var acts := RunOf(calls[0], b).acts;
    CallTrace(calls[0], b);
    StoppedBatchSettles(calls[0], acts, calls[1..], kind);
    TurnRowSettlesNothing(acts + Skips(calls[1..], kind), row);
    assert calls == [calls[0]] + calls[1..] && calls[..|calls|] == calls;
  }

  /** A call that returned, before a rest that conserves. */
  lemma {:induction false} GoOnConserves(calls: seq<Call>, b: Behaviour, more: Batch)
    requires calls != [] && RunOf(calls[0], b).end.Returned? && Conserves(calls[1..], more)
    ensures Conserves(calls, more.(acts := RunOf(calls[0], b).acts + more.acts))
  {
    hide RunOf, IsCallTrace, DispatchesFollowStarts, Outcomes;
    var acts := RunOf(calls[0], b).acts;
    CallTrace(calls[0], b);
    CallTraceDispatches(acts, calls[0]);
    OutcomesAppend(acts, more.acts);
    DispatchesAppend(acts, more.acts);
    assert calls == [calls[0]] + calls[1..];
    assert [calls[0]] + Outcomes(more.acts) <= calls;
  }

  /**
   Conservation. A batch that ends or stops by itself leaves exactly one outcome row per call
   occurrence, in the order of the calls; one cut off by a fault, rows for a prefix of them. No
   tool runs before its own durable start or twice.
   */
  lemma {:induction false} BatchConserves(calls: seq<Call>, bs: seq<Behaviour>, max: Option<nat>, tools: nat,
                                          results: seq<ToolResult>)
    requires |calls| == |bs|
    ensures Conserves(calls, RunBatch(calls, bs, max, tools, results))
    decreases |calls|
  {
    if calls == [] {
      assert Outcomes([]) == [];
    } else {
      hide RunOf, Skips, Conserves, Outcomes, Stalls, IsInDoubt, LimitIsReached, IsCancelled;
      var b := bs[0];
      var run := RunOf(calls[0], b);
      if LimitIsReached(max, tools) {
        StopBeforeConserves(calls, SkippedLimit, LimitReached, tools, results, StoppedByLimit);
      } else if IsCancelled(b, BEFORE_CALL) {
        StopBeforeConserves(calls, SkippedCancel, TurnCancelled, tools, results, Interrupted);
      } else if !run.end.Returned? {
        FaultConserves(calls, b, tools, results);
      } else {
        var all := results + [run.end.result];
        if IsInDoubt(run.end.result) {
          StopAfterConserves(calls, b, SkippedInDoubt, TurnCancelled, tools + 1, all, StoppedInDoubt);
        } else if run.end.result.Error? && Stalls(all) {
          StopAfterConserves(calls, b, SkippedStalled, AgentStalled, tools + 1, all, StoppedStalled);
          StopAfterConserves(calls, b, SkippedStalled, AgentStalled, tools + 1, all, Faulted);
        } else if IsCancelled(b, AFTER_CALL) {
          StopAfterConserves(calls, b, SkippedCancel, TurnCancelled, tools + 1, all, Interrupted);
        } else {
          BatchConserves(calls[1..], bs[1..], max, tools + 1, all);
          GoOnConserves(calls, b, RunBatch(calls[1..], bs[1..], max, tools + 1, all));
        }
      }
    }
  }

  /**
   The calls that count as executed are those with a result, never push the turn past its tool
   limit, and the batch stops for the limit exactly when it finds the limit spent.
   */
  lemma {:induction false} BatchCounts(calls: seq<Call>, bs: seq<Behaviour>, max: Option<nat>, tools: nat,
                                       results: seq<ToolResult>)
    requires |calls| == |bs|
    ensures var batch := RunBatch(calls, bs, max, tools, results);
            && results <= batch.results && batch.tools - tools == |batch.results| - |results| <= |calls|
            && (max.Some? && tools <= max.value ==> batch.tools <= max.value)
            && (batch.end.StoppedByLimit? ==> LimitIsReached(max, batch.tools))
            && (batch.end.AllRun? ==> batch.tools == tools + |calls|)
    decreases |calls|
  {
    hide RunOf, Skips, Outcomes, Stalls, IsInDoubt, IsCancelled;
    if calls != [] {
      var run := RunOf(calls[0], bs[0]);
      if run.end.Returned? {
        BatchCounts(calls[1..], bs[1..], max, tools + 1, results + [run.end.result]);
      }
    }
  }

  /** The last three results are failures with one fingerprint. */
  predicate EndsInStall(results: seq<ToolResult>) {
    && |results| >= 3 && results[|results| - 1].Error?
    && EndsWithFailures(results, results[|results| - 1].fingerprint, 3)
  }

  lemma {:induction false} StallMeansRun(results: seq<ToolResult>)
    requires results != [] && results[|results| - 1].Error?
    ensures EndsInStall(results) <==> Stalls(results)
  {
    RepeatedMeansRun(results, results[|results| - 1].fingerprint, 3);
  }

  /**
   The stall detector. A batch that stalls ends on three equal failures in a row, counted across
   the batches of the turn; and no result but the last one of a batch ever completes such a run.
   */
  lemma {:induction false} StallsOnThreeEqualFailures(calls: seq<Call>, bs: seq<Behaviour>, max: Option<nat>,
                                                      tools: nat, results: seq<ToolResult>)
    requires |calls| == |bs|
    ensures var batch := RunBatch(calls, bs, max, tools, results);
            && (batch.end.StoppedStalled? ==> EndsInStall(batch.results))
            && (forall n :: |results| < n < |batch.results| ==> !EndsInStall(batch.results[..n]))
            && (batch.end.AllRun? && calls != [] ==> !EndsInStall(batch.results))
    decreases |calls|
  {
    hide RunOf, Skips, Outcomes, Stalls, IsInDoubt, IsCancelled, LimitIsReached, EndsInStall;
    if calls != [] {
      var run := RunOf(calls[0], bs[0]);
      var batch := RunBatch(calls, bs, max, tools, results);
      if run.end.Returned? {
        var all := results + [run.end.result];
        if run.end.result.Error? { StallMeansRun(all); } else { SuccessIsNoStall(all); }
        StallsOnThreeEqualFailures(calls[1..], bs[1..], max, tools + 1, all);
        BatchCounts(calls[1..], bs[1..], max, tools + 1, all);
        BatchCounts(calls, bs, max, tools, results);
        forall n | |results| < n < |batch.results| ensures !EndsInStall(batch.results[..n]) {
          if n == |all| { assert batch.results[..n] == all; }
        }
      }
    }
  }

  lemma {:induction false} SuccessIsNoStall(results: seq<ToolResult>)
    requires results != [] && results[|results| - 1].Success?
    ensures !EndsInStall(results)
  {
  }

  /** Observers answer, approvals do not fail and history results fit. */
  predicate IsQuiet(b: Behaviour) {
    && b.approval != ApprovalFailed && !b.startObserverFails && (b.outputFits || !b.reserveFails)
    && !b.completionObserverFails && !b.messageObserverFails
  }

  /** A call that would start, cancelled between its last two checks, and not one that asks for approval. */
  predicate IsCancelledLate(call: Call, b: Behaviour) {
    && !IsHistoryTool(call.name) && !NeedsApproval(call.name) && b.available && b.validArguments
    && !IsCancelled(b, BEFORE_START) && IsCancelled(b, AFTER_APPROVAL)
  }

  lemma {:induction false} QuietCallReturns(call: Call, b: Behaviour)
    requires IsQuiet(b)
    ensures RunOf(call, b).end.Returned? <==> !IsCancelledLate(call, b)
  {
    hide IsHistoryTool, NeedsApproval, HasCode;
    CallTrace(call, b);
  }

  /** Call i is reached: all calls before it ran to their end, within the limit, and it is cancelled late. */
  predicate FaultsAt(calls: seq<Call>, bs: seq<Behaviour>, max: Option<nat>, tools: nat, results: seq<ToolResult>,
                     i: nat)
    requires |calls| == |bs| && i < |calls|
  {
    && RunBatch(calls[..i], bs[..i], max, tools, results).end.AllRun?
    && !LimitIsReached(max, tools + i) && IsCancelledLate(calls[i], bs[i])
  }

  /** The first call of a batch leaves the rest of it to be run. */
  predicate GoesOn(call: Call, b: Behaviour, max: Option<nat>, tools: nat, results: seq<ToolResult>) {
    && !LimitIsReached(max, tools) && !IsCancelled(b, BEFORE_CALL) && RunOf(call, b).end.Returned?
    && var result := RunOf(call, b).end.result;
       !IsInDoubt(result) && !(result.Error? && Stalls(results + [result])) && !IsCancelled(b, AFTER_CALL)
  }

  lemma {:induction false} BatchGoesOn(calls: seq<Call>, bs: seq<Behaviour>, max: Option<nat>, tools: nat,
                                       results: seq<ToolResult>)
    requires |calls| == |bs| > 0 && GoesOn(calls[0], bs[0], max, tools, results)
    ensures var run := RunOf(calls[0], bs[0]);
            var more := RunBatch(calls[1..], bs[1..], max, tools + 1, results + [run.end.result]);
            RunBatch(calls, bs, max, tools, results) == more.(acts := run.acts + more.acts)
  {
    hide RunOf, LimitIsReached, IsCancelled, IsInDoubt, Stalls;
  }

  lemma {:induction false} BatchEndsHere(calls: seq<Call>, bs: seq<Behaviour>, max: Option<nat>, tools: nat,
                                         results: seq<ToolResult>)
    requires |calls| == |bs| > 0 && !GoesOn(calls[0], bs[0], max, tools, results) && IsQuiet(bs[0])
    ensures var end := RunBatch(calls, bs, max, tools, results).end;
            !end.AllRun? && (end.Faulted? <==> !LimitIsReached(max, tools) && IsCancelledLate(calls[0], bs[0]))
  {
    hide RunOf, LimitIsReached, IsInDoubt, Stalls, IsHistoryTool, NeedsApproval;
    QuietCallReturns(calls[0], bs[0]);
  }

  /** Past a first call that goes on, faults are those of the rest. */
  lemma {:induction false} FaultMovesOn(calls: seq<Call>, bs: seq<Behaviour>, max: Option<nat>, tools: nat,
                                        results: seq<ToolResult>, i: nat)
    requires |calls| == |bs| && 0 < i < |calls|
    ensures FaultsAt(calls, bs, max, tools, results, i) && IsQuiet(bs[0]) ==>
              GoesOn(calls[0], bs[0], max, tools, results)
    ensures GoesOn(calls[0], bs[0], max, tools, results) ==>
              var all := results + [RunOf(calls[0], bs[0]).end.result];
              FaultsAt(calls, bs, max, tools, results, i) <==> FaultsAt(calls[1..], bs[1..], max, tools + 1, all, i - 1)
  {
    hide RunBatch, GoesOn, RunOf, LimitIsReached, IsCancelledLate, IsQuiet;
    assert calls[..i][1..] == calls[1..][..i - 1] && bs[..i][1..] == bs[1..][..i - 1];
    if GoesOn(calls[0], bs[0], max, tools, results) {
      BatchGoesOn(calls[..i], bs[..i], max, tools, results);
    } else if IsQuiet(bs[0]) {
      BatchEndsHere(calls[..i], bs[..i], max, tools, results);
    }
  }

  lemma {:induction false} FaultsAtFirst(calls: seq<Call>, bs: seq<Behaviour>, max: Option<nat>, tools: nat,
                                         results: seq<ToolResult>)
    requires |calls| == |bs| > 0
    ensures FaultsAt(calls, bs, max, tools, results, 0) <==>
              !LimitIsReached(max, tools) && IsCancelledLate(calls[0], bs[0])
  {
    hide IsCancelledLate;
    assert calls[..0] == [];
  }

  /** A late cancellation of the next call: the turn panics, and no call of the rest gets an outcome. */
  lemma {:induction false} LateCancellationSettlesNothing(calls: seq<Call>, bs: seq<Behaviour>, max: Option<nat>,
                                                          tools: nat, results: seq<ToolResult>)
    requires |calls| == |bs| > 0 && !LimitIsReached(max, tools) && IsCancelledLate(calls[0], bs[0])
    ensures RunBatch(calls, bs, max, tools, results) == Batch([], tools, results, Faulted)
  {
    CallTrace(calls[0], bs[0]);
  }

  /** A call that is reached and cancelled late cuts the batch off, with outcomes for the calls before it. */
  lemma {:induction false} FaultSettlesPrefix(calls: seq<Call>, bs: seq<Behaviour>, max: Option<nat>, tools: nat,
                                              results: seq<ToolResult>, i: nat)
    requires |calls| == |bs| && i < |calls| && FaultsAt(calls, bs, max, tools, results, i)
    requires forall k :: 0 <= k < |bs| ==> IsQuiet(bs[k])
    ensures var batch := RunBatch(calls, bs, max, tools, results);
            batch.end.Faulted? && Outcomes(batch.acts) == calls[..i]
    decreases i
  {
    hide RunBatch, RunOf, LimitIsReached, IsCancelledLate, IsCancelled, IsInDoubt, Stalls, IsQuiet, FaultsAt, Outcomes,
         IsCallTrace;
    if i == 0 {
      FaultsAtFirst(calls, bs, max, tools, results);
      LateCancellationSettlesNothing(calls, bs, max, tools, results);
      NoOutcomes();
    } else {
      var run := RunOf(calls[0], bs[0]);
      FaultMovesOn(calls, bs, max, tools, results, i);
      FaultSettlesPrefix(calls[1..], bs[1..], max, tools + 1, results + [run.end.result], i - 1);
      BatchGoesOn(calls, bs, max, tools, results);
      GoesOnSettles(calls[0], bs[0], max, tools, results);
      OutcomesAppend(run.acts, RunBatch(calls[1..], bs[1..], max, tools + 1, results + [run.end.result]).acts);
      assert [calls[0]] + calls[1..][..i - 1] == calls[..i];
    }
  }

  lemma {:induction false} GoesOnSettles(call: Call, b: Behaviour, max: Option<nat>, tools: nat,
                                         results: seq<ToolResult>)
    requires GoesOn(call, b, max, tools, results)
    ensures Outcomes(RunOf(call, b).acts) == [call]
  {
    hide RunOf, LimitIsReached, IsCancelled, IsInDoubt, Stalls, Outcomes;
    CallTrace(call, b);
  }

  /** Where a batch was cut off. */
  lemma {:induction false} FaultIsReached(calls: seq<Call>, bs: seq<Behaviour>, max: Option<nat>, tools: nat,
                                          results: seq<ToolResult>) returns (i: nat)
    requires |calls| == |bs| && RunBatch(calls, bs, max, tools, results).end.Faulted?
    requires forall k :: 0 <= k < |bs| ==> IsQuiet(bs[k])
    ensures i < |calls| && FaultsAt(calls, bs, max, tools, results, i)
    decreases |calls|
  {
    hide RunOf, LimitIsReached, IsCancelledLate, IsCancelled, IsInDoubt, Stalls, IsQuiet, FaultsAt;
    if calls == [] {
      assert false;
    } else if GoesOn(calls[0], bs[0], max, tools, results) {
      BatchGoesOn(calls, bs, max, tools, results);
      hide RunBatch;
      i := FaultIsReached(calls[1..], bs[1..], max, tools + 1, results + [RunOf(calls[0], bs[0]).end.result]);
      FaultMovesOn(calls, bs, max, tools, results, i + 1);
      i := i + 1;
    } else {
      hide RunBatch;
      BatchEndsHere(calls, bs, max, tools, results);
      FaultsAtFirst(calls, bs, max, tools, results);
      i := 0;
    }
  }

  /**
   In quiet surroundings a batch is cut off exactly when it reaches a call that is cancelled late,
   and it then leaves that call and all behind it without an outcome.
   */
  lemma {:induction false} QuietBatchSettles(calls: seq<Call>, bs: seq<Behaviour>, max: Option<nat>, tools: nat,
                                             results: seq<ToolResult>)
    requires |calls| == |bs| && forall i :: 0 <= i < |bs| ==> IsQuiet(bs[i])
    ensures var batch := RunBatch(calls, bs, max, tools, results);
            && (batch.end.Faulted? <==> exists i: nat :: i < |calls| && FaultsAt(calls, bs, max, tools, results, i))
            && (!batch.end.Faulted? ==> Outcomes(batch.acts) == calls)
            && (forall i: nat :: i < |calls| && FaultsAt(calls, bs, max, tools, results, i) ==>
                Outcomes(batch.acts) == calls[..i])
  {
    hide RunBatch, FaultsAt, Outcomes, IsQuiet, DispatchesFollowStarts;
    BatchConserves(calls, bs, max, tools, results);
    if RunBatch(calls, bs, max, tools, results).end.Faulted? {
      var i := FaultIsReached(calls, bs, max, tools, results);
    }
    forall i: nat | i < |calls| && FaultsAt(calls, bs, max, tools, results, i)
      ensures var batch := RunBatch(calls, bs, max, tools, results);
              batch.end.Faulted? && Outcomes(batch.acts) == calls[..i]
    {
      FaultSettlesPrefix(calls, bs, max, tools, results, i);
    }
  }

  // ---------------------------------------------------------------- dispatches

  /** The calls dispatched, in order. */
  function Dispatched(acts: seq<Act>): seq<Call> {
    if acts == [] then []
    else
      var last := acts[|acts| - 1];
      Dispatched(acts[..|acts| - 1]) + if last.Dispatch? then [last.call] else []
  }

  lemma {:induction false} DispatchedAppend(a: seq<Act>, b: seq<Act>)
    ensures Dispatched(a + b) == Dispatched(a) + Dispatched(b)
    decreases |b|
  {
    if b == [] {
      assert a + b == a;
    } else {
      DispatchedAppend(a, b[..|b| - 1]);
      assert (a + b)[..|a + b| - 1] == a + b[..|b| - 1];
    }
  }

  lemma {:induction false} SkipsDispatchNothing(calls: seq<Call>, kind: RowKind)
    ensures Dispatched(Skips(calls, kind)) == []
    decreases |calls|
  {
    if calls != [] {
      SkipsDispatchNothing(calls[1..], kind);
      DispatchedAppend([Row(kind, calls[0])], Skips(calls[1..], kind));
      assert [Row(kind, calls[0])][..0] == [];
    }
  }

  lemma {:induction false} TurnRowDispatchesNothing(acts: seq<Act>, row: TurnRow)
    ensures Dispatched(acts + [Turn(row)]) == Dispatched(acts)
  {
    assert (acts + [Turn(row)])[..|acts|] == acts;
  }

  /** Each call that its own run dispatches, once per occurrence and in order. */
  function Runnable(calls: seq<Call>, bs: seq<Behaviour>): seq<Call>
    requires |calls| == |bs|
  {
    if calls == [] then []
    else (if Dispatch(calls[0]) in RunOf(calls[0], bs[0]).acts then [calls[0]] else []) + Runnable(calls[1..], bs[1..])
  }

  lemma {:induction false} CallDispatchesOnce(call: Call, b: Behaviour)
    ensures Dispatched(RunOf(call, b).acts) == if Dispatch(call) in RunOf(call, b).acts then [call] else []
  {
    hide RunOf;
    CallTrace(call, b);
    DispatchesOfTrace(RunOf(call, b).acts, call);
  }

  lemma {:induction false} NothingDispatched()
    ensures Dispatched([]) == []
  {
  }

  lemma {:induction false} DispatchedOne(acts: seq<Act>)
    requires |acts| == 1
    ensures Dispatched(acts) == DispatchOf(acts[0])
  {
    NothingDispatched();
    assert acts[..0] == [];
  }

  lemma {:induction false} DispatchedTwo(acts: seq<Act>)
    requires |acts| == 2
    ensures Dispatched(acts) == DispatchOf(acts[0]) + DispatchOf(acts[1])
  {
    DispatchedOne(acts[..1]);
  }

  lemma {:induction false} DispatchedThree(acts: seq<Act>)
    requires |acts| == 3
    ensures Dispatched(acts) == DispatchOf(acts[0]) + DispatchOf(acts[1]) + DispatchOf(acts[2])
  {
    DispatchedTwo(acts[..2]);
  }

  function DispatchOf(act: Act): seq<Call> { if act.Dispatch? then [act.call] else [] }

  lemma {:induction false} DispatchesOfTrace(acts: seq<Act>, call: Call)
    requires IsCallTrace(acts, call)
    ensures Dispatched(acts) == if Dispatch(call) in acts then [call] else []
  {
    hide Dispatched;
    if |acts| == 0 {
      NothingDispatched();
    } else if |acts| == 1 {
      DispatchedOne(acts);
    } else if |acts| == 2 {
      DispatchedTwo(acts);
    } else {
      DispatchedThree(acts);
    }
  }

  /**
   Each occurrence of a call is dispatched at most once, in the order of the batch, and what is
   dispatched, even by a call that a fault cut off, never exceeds the tool limit.
   */
  lemma {:induction false} DispatchesAtMostOnce(calls: seq<Call>, bs: seq<Behaviour>, max: Option<nat>, tools: nat,
                                                results: seq<ToolResult>)
    requires |calls| == |bs|
    ensures var acts := RunBatch(calls, bs, max, tools, results).acts;
            && Dispatched(acts) <= Runnable(calls, bs)
            && (max.Some? && tools <= max.value ==> tools + |Dispatched(acts)| <= max.value)
    decreases |calls|
  {
    hide RunOf, Skips, Dispatched, Stalls, IsInDoubt, IsCancelled;
    if calls == [] {
      NothingDispatched();
    } else {
      var b, rest := bs[0], calls[1..];
      var run := RunOf(calls[0], b);
      if LimitIsReached(max, tools) || IsCancelled(b, BEFORE_CALL) {
        var kind := if LimitIsReached(max, tools) then SkippedLimit else SkippedCancel;
        var row := if LimitIsReached(max, tools) then LimitReached else TurnCancelled;
        SkipsDispatchNothing(calls, kind);
        TurnRowDispatchesNothing(Skips(calls, kind), row);
      } else {
        CallDispatchesOnce(calls[0], b);
        if run.end.Returned? {
          var all := results + [run.end.result];
          StopDispatchesNoMore(run.acts, rest, SkippedInDoubt, TurnCancelled);
          StopDispatchesNoMore(run.acts, rest, SkippedStalled, AgentStalled);
          StopDispatchesNoMore(run.acts, rest, SkippedCancel, TurnCancelled);
          var more := RunBatch(rest, bs[1..], max, tools + 1, all);
          DispatchesAtMostOnce(rest, bs[1..], max, tools + 1, all);
          DispatchedAppend(run.acts, more.acts);
        }
      }
    }
  }

  lemma {:induction false} StopDispatchesNoMore(acts: seq<Act>, rest: seq<Call>, kind: RowKind, row: TurnRow)
    ensures Dispatched(acts + Skips(rest, kind)) == Dispatched(acts)
    ensures Dispatched(acts + Skips(rest, kind) + [Turn(row)]) == Dispatched(acts)
  {
    SkipsDispatchNothing(rest, kind);
    DispatchedAppend(acts, Skips(rest, kind));
    TurnRowDispatchesNothing(acts + Skips(rest, kind), row);
  }

  // ---------------------------------------------------------------- the loop itself

  /** The running agent: its journal, the turn's tool counter and the last failure with its count. */
  class ToolLoop {
    const max: Option<nat>
    var acts: seq<Act>
    var tools: nat
    var repeated: Option<(string, nat)>
    ghost var results: seq<ToolResult>

    constructor (limit: Option<nat>)
      ensures max == limit && acts == [] && tools == 0 && results == [] && Valid()
    {
      max := limit;
      acts, tools, repeated, results := [], 0, None, [];
    }

    ghost predicate Valid()
      reads this
    {
      repeated == Repeated(results)
    }

    method SettleCall(kind: RowKind, call: Call, result: ToolResult, b: Behaviour) returns (end: CallEnd)
      modifies this`acts
      ensures acts == old(acts) + [Row(kind, call)]
      ensures end == if b.completionObserverFails then Aborted else Returned(result)
    {
      acts := acts + [Row(kind, call)];
      end := if b.completionObserverFails then Aborted else Returned(result);
    }

    method ExecuteHistoryCall(call: Call, b: Behaviour) returns (end: CallEnd)
      modifies this`acts
      ensures acts == old(acts) + HistoryRun(call, b).acts && end == HistoryRun(call, b).end
    {
      hide HasCode, ErrorOf;
      var result;
      if !b.available {
        result := ErrorOf(if b.checkpointed then "history_quota_exhausted" else "history_not_available", b);
      } else if !b.validArguments {
        result := ErrorOf("validation_error", b);
      } else if IsCancelled(b, BEFORE_START) {
        result := ErrorOf("cancelled", b);
      } else {
        acts := acts + [Row(Started, call)];
        if b.startObserverFails {
          acts := acts + [Row(InDoubt, call)];
          return Aborted;
        }
        acts := acts + [Dispatch(call)];
        result := b.result;
      }
      if !b.outputFits {
        result := ErrorOf("history_quota_exhausted", b);
        if b.reserveFails { return Aborted; }
      }
      var kind := if HasCode(result, "cancelled") then Cancelled else Completed;
      end := SettleCall(kind, call, result, b);
    }

    method ExecuteTool(call: Call, b: Behaviour) returns (end: CallEnd)
      modifies this`acts
      ensures acts == old(acts) + ToolRun(call, b).acts && end == ToolRun(call, b).end
    {
      if !b.available {
        end := SettleCall(Completed, call, ErrorOf("not_found", b), b);
        return;
      }
      if !b.validArguments {
        end := SettleCall(Completed, call, ErrorOf("validation_error", b), b);
        return;
      }
      if IsCancelled(b, BEFORE_START) {
        end := SettleCall(Cancelled, call, ErrorOf("cancelled", b), b);
        return;
      }
      // Only a call that asks for approval is durably started before it.
      var started := NeedsApproval(call.name);
      if started {
        acts := acts + [Row(Started, call)];
        if b.approval == ApprovalFailed {
          acts := acts + [Row(InDoubt, call)];
          return Aborted;
        }
      }
      if IsCancelled(b, AFTER_APPROVAL) {
        if !started { return Panicked; }
        end := SettleCall(Cancelled, call, ErrorOf("cancelled", b), b);
        return;
      }
      if started && b.approval == Denied {
        end := SettleCall(Completed, call, ErrorOf("approval_required", b), b);
        return;
      }
      if !started { acts := acts + [Row(Started, call)]; }
      if b.startObserverFails {
        acts := acts + [Row(InDoubt, call)];
        return Aborted;
      }
      acts := acts + [Dispatch(call)];
      var kind :=
        if IsInDoubt(b.result) then InDoubt
        else if IsCancelled(b, AFTER_RUN) && HasCode(b.result, "cancelled") then Cancelled
        else Completed;
      end := SettleCall(kind, call, b.result, b);
    }

    method ExecuteCall(call: Call, b: Behaviour) returns (end: CallEnd)
      modifies this`acts
      ensures acts == old(acts) + RunOf(call, b).acts && end == RunOf(call, b).end
    {
      hide HistoryRun, ToolRun;
      if IsHistoryTool(call.name) { end := ExecuteHistoryCall(call, b); } else { end := ExecuteTool(call, b); }
    }

    method MarkRemainingSkipped(calls: seq<Call>, kind: RowKind)
      modifies this`acts
      ensures acts == old(acts) + Skips(calls, kind)
    {
      for i := 0 to |calls|
        invariant acts + Skips(calls[i..], kind) == old(acts) + Skips(calls, kind)
      {
        assert calls[i..][0] == calls[i] && calls[i..][1..] == calls[i + 1..];
        assert acts + ([Row(kind, calls[i])] + Skips(calls[i + 1..], kind)) ==
                 acts + [Row(kind, calls[i])] + Skips(calls[i + 1..], kind);
        acts := acts + [Row(kind, calls[i])];
      }
    }

    method AppendTurnRow(row: TurnRow)
      modifies this`acts
      ensures acts == old(acts) + [Turn(row)]
    {
      acts := acts + [Turn(row)];
    }

    /** The failure count after one more result; a success forgets it. */
    method NoteResult(result: ToolResult) returns (stalled: bool)
      requires Valid()
      modifies this`repeated, this`results
      ensures Valid() && results == old(results) + [result]
      ensures stalled <==> result.Error? && Stalls(results)
    {
      results := results + [result];
      assert results[..|results| - 1] == old(results);
      if result.Success? {
        repeated := None;
        return false;
      }
      if repeated.Some? && repeated.value.0 == result.fingerprint {
        repeated := Some((result.fingerprint, repeated.value.1 + 1));
      } else {
        repeated := Some((result.fingerprint, 1));
      }
      return repeated.value.1 >= 3;
    }

    /** This state is what a batch leaves behind after these journal rows. */
    ghost predicate IsAfter(before: seq<Act>, batch: Batch)
      reads this
    {
      acts == before + batch.acts && tools == batch.tools && results == batch.results
    }

    /** Running these calls from here completes the batch that started with this journal. */
    ghost predicate IsOnTrack(start: seq<Act>, batch: Batch, calls: seq<Call>, bs: seq<Behaviour>)
      requires |calls| == |bs|
      reads this
    {
      var more := RunBatch(calls, bs, max, tools, results);
      acts + more.acts == start + batch.acts && batch == more.(acts := batch.acts)
    }

    /** One call of the batch; `end` says how the batch ended, if it did. */
    method StepBatch(calls: seq<Call>, bs: seq<Behaviour>, ghost start: seq<Act>, ghost batch: Batch)
      returns (end: Option<BatchEnd>)
      requires Valid() && |calls| == |bs| > 0 && IsOnTrack(start, batch, calls, bs)
      modifies this
      ensures end != Some(StoppedInDoubt) ==> Valid()
      ensures if end.Some? then IsAfter(start, batch) && end.value == batch.end
              else IsOnTrack(start, batch, calls[1..], bs[1..])
    {
      hide RunOf, IsInDoubt, Stalls, IsCancelled, LimitIsReached, Skips, Repeated;
      var call, rest := calls[0], calls[1..];
      if LimitIsReached(max, tools) {
        MarkRemainingSkipped(calls, SkippedLimit);
        AppendTurnRow(LimitReached);
        return Some(StoppedByLimit);
      }
      if IsCancelled(bs[0], BEFORE_CALL) {
        MarkRemainingSkipped(calls, SkippedCancel);
        AppendTurnRow(TurnCancelled);
        return Some(Interrupted);
      }
      var callEnd := ExecuteCall(call, bs[0]);
      if !callEnd.Returned? { return Some(Faulted); }
      tools := tools + 1;
      if IsInDoubt(callEnd.result) {
        results := results + [callEnd.result];
        MarkRemainingSkipped(rest, SkippedInDoubt);
        return Some(StoppedInDoubt);
      }
      var stalled := NoteResult(callEnd.result);
      if stalled {
        MarkRemainingSkipped(rest, SkippedStalled);
        if bs[0].messageObserverFails { return Some(Faulted); }
        AppendTurnRow(AgentStalled);
        return Some(StoppedStalled);
      }
      if IsCancelled(bs[0], AFTER_CALL) {
        MarkRemainingSkipped(rest, SkippedCancel);
        AppendTurnRow(TurnCancelled);
        return Some(Interrupted);
      }
      return None;
    }

    /** The loop over a response's calls. */
    method RunToolBatch(calls: seq<Call>, bs: seq<Behaviour>) returns (end: BatchEnd)
      requires Valid() && |calls| == |bs|
      modifies this
      ensures end != StoppedInDoubt ==> Valid()
      ensures var batch := RunBatch(calls, bs, max, old(tools), old(results));
              IsAfter(old(acts), batch) && end == batch.end
    {
      ghost var start, batch := acts, RunBatch(calls, bs, max, tools, results);
      assert calls[0..] == calls && bs[0..] == bs;
      for i := 0 to |calls|
        invariant Valid() && IsOnTrack(start, batch, calls[i..], bs[i..])
      {
        hide RunBatch, Valid, IsOnTrack, IsAfter;
        assert calls[i..][1..] == calls[i + 1..] && bs[i..][1..] == bs[i + 1..];
        var stepEnd := StepBatch(calls[i..], bs[i..], start, batch);
        if stepEnd.Some? { return stepEnd.value; }
      }
      return AllRun;
    }
  }
}
