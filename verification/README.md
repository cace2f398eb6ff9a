# Verified model of the agent's hard cores

This project models the parts of the agent whose correctness is hardest to see by reading one
function, and proves what they are for. Code that changes state step by step is written as classes
and methods with loops; each such method is proved against a specification function, and the main
results are lemmas about that function over every input, every run or every reachable state.
Induction is written out in every lemma; Dafny's automatic induction is switched off.

A method and its specification share small functions: a field's value, a keyword's check, the branches of
one call. The files ending in `Laws`, with `HistoryResults.dfy` and `GuardianRuns.dfy`, say what those
mean without using them: by the fields of a row, the spelling of a line, the positions of a text, the
characters of a table.

| file | what it models |
|---|---|
| `GateLog.dfy`, `GateLaws.dfy` | the append-only execution gate log: records, its reader and writer, the language it accepts; the bytes of a record and the exact error of every refused log |
| `GuardianProtocol.dfy`, `GuardianRuns.dfy` | host, guardian, children, lock and durable bytes as a transition system with crashes, torn writes and power loss; that whole generations and every torn log are among its runs |
| `Sse.dfy`, `SseReference.dfy`, `SseLaws.dfy` | the byte-at-a-time SSE decoder, and the two-pass reading (sections 9.2.5 and 9.2.6 of the WHATWG HTML Living Standard) it refines; what field lines mean by their spelling, and that printed events are read back |
| `HistoryText.dfy`, `HistoryPaging.dfy`, `HistoryPagingLaws.dfy`, `HistoryLookupLaws.dfy` | matches, excerpt windows, UTF-8 chunks; search and turn lookups with cursors; what following cursors to the end gives; what each lookup finds and answers, by texts, records and views |
| `HistoryQuota.dfy`, `HistoryQuotaLaws.dfy`, `HistoryResults.dfy` | the live history quota and the one rebuilt from the journal; what both keep over batches and turns; which results are delivered, and which journals and responses are accepted |
| `ToolBatch.dfy`, `ToolBatchLaws.dfy` | one batch of tool calls: starts, dispatches, outcomes, skips, the stall detector; what each call answers and where a batch ends, by what they meet |
| `ProviderBudget.dfy`, `ProviderBudgetLaws.dfy` | the budget of Provider calls, enforced from durable dispatch intents across crashes and restarts; what a check answers and writes, by the fields of the journal |
| `SchemaPreflight.dfy`, `SchemaValidator.dfy`, `SchemaBudget.dfy`, `SchemaLaws.dfy` | the explicit-stack walk; the node-budgeted validator against a budget-free meaning of a schema; how much of the budget a validation can take; what each keyword asks of a value |
| `CanonicalJson.dfy`, `FailureFingerprint.dfy`, `TreeLaws.dfy` | the canonical JSON printer, and the failure fingerprint built from its texts; size and height of a tree by the paths into it |
| `Display.dfy`, `DisplayLaws.dfy` | the one-pass capped renderer and the capped JSON writer; which characters are never shown, and how much is |
| `MemoryFile.dfy`, `MemoryLaws.dfy` | the frontmatter printer and parser; the files by their spelling |
| `DriftMetric.dfy`, `DriftLaws.dfy` | the assertion lexer and relation matcher, version 9; its verdicts by positions in the text |
| `ByteStrings.dfy`, `Chars.dfy`, `Utf8.dfy`, `Scalars.dfy`, `JsonValue.dfy`, `ToolNames.dfy` | bytes, UTF-8, Unicode scalars, JSON values and tool names the others share |

## What is taken as given

- SHA-256 is any function to 32 bytes; digests, session ids and cursor texts in the history lookup
  are any functions with the laws in `HistoryPaging.IsLawful` (digests separate what they digest,
  a cursor text decodes to what was encoded, its size may or may not fit the limit).
- A process id is not reused within a guardian's generation: children have distinct identities.
- The guardian model is the session gate (`delete_gate_on_exit = false`) with the Linux
  registration path. An early return of the guardian on an I/O error is a death of the guardian.
- A power loss keeps the synced bytes of the gate, or any longer part of what was written; it ends
  every process.
- JSON objects have unique keys; a map's iteration order is not observed. A floating-point number is
  known by its printed text, and negative zero compares equal to zero. The Unicode case table is any
  table that leaves white space, `*`, `` ` `` and `|` alone.
- The verdicts of the compaction boundary chain (valid, pending for a turn) and of the turn exclusion
  are any functions of the journal. Whether a text is an RFC 3339 timestamp (section 5.6) is any
  predicate; that a generated timestamp satisfies it, is one line and has nothing to trim is assumed.
- Journal appends succeed. What tools, approvals, observers and cancellation do is arbitrary input.

## Findings

Where a property does not hold of the code, the model keeps the code, a lemma gives an input, and
another says exactly when the property holds.

- Running out of the validator's node budget inside a branch counts as a mismatch of that branch, so
  `oneOf` can accept a value that a second branch matches too
  (`SchemaValidator.ExhaustionInsideOneOfAccepts`: an array of 262141 nulls). That is an input of the
  public function `validate_json_schema`: no tool definition of the repository uses `oneOf`, and a
  Provider response of that many nodes is refused before. A validation takes at most
  one node for each pair of a schema node and a value node (`SchemaBudget.InnerTakes`), so the verdict
  is exact whenever the product of the two sizes is at most 262144 (`SmallInputsValidateExactly`), and
  whenever the counter ends within its limit (`ValidatesExactly`); without `oneOf` acceptance is always
  right (`ValidateJsonSchema`).
- A tool whose name starts with `history_` but that is none of the three history tools counts in the
  rebuilt quota and not in the live one (`HistoryQuotaLaws.StrayCallDivides`); the two agree exactly when
  no such call is made (`LiveAgreesWithRebuilt`). A response of 600 such calls, with arguments that keep
  the stall detector quiet, makes the rebuilt counter pass 32768 with no history output at all
  (`StrayCallsPassTurn`).
- The agent reads a call item that has an `id` and no `call_id`, runs it and journals it, and from then on
  no rebuild of its turn's quota succeeds, whatever rows follow (`HistoryQuotaLaws.IdOnlyCallEndsTurn`,
  `BrokenCallEndsTurn`). Over the responses of a turn the rebuild fails exactly if a journalled item lacks
  its `call_id` (`TurnKeepsQuota`).
- A guardian killed after the last byte of CLEAN was written and before it was synced leaves a gate that
  quiescence accepts, although CLEAN is not durable (`GuardianProtocol.UnsyncedCleanOpensGate`). No
  registered child is left by then; `GateAfterEnd` has the exact phases, `PowerLossQuarantines` the exact
  condition for a power loss.
- A tool that asks for no approval reaches `unreachable!` when the turn is cancelled between the two
  checks around approval: the call and all after it are left without an outcome
  (`ToolBatch.LateCancellationSettlesNothing`). In quiet surroundings a batch is cut off exactly if it
  reaches such a call (`QuietBatchSettles`), and `CallTrace` says for one call exactly when it happens.
- A project root with white space at an end is remembered as it is and shown again trimmed
  (`MemoryFile.SpacedRootIsTrimmed`: a directory named "p" and a space); what was remembered is shown
  again as the same entry exactly when the root is not empty and has no white space around it
  (`RememberedIsShown`). A root of white space only, which the agent's own caller with its canonical path
  never passes, would lose the provenance altogether (`BlankRootIsForgotten`).
- The `Segment` and `RelatedSegments` scopes of the drift metric see line wrapping
  (`DriftMetric.SegmentScopeSeesWrapping`). In each of the two, every verdict around two wrappings is
  the same exactly if both break the line, however often, or neither does
  (`WhichWrappingsKeepVerdicts`); in the other two scopes it always is.

## Model

| member | source | states |
|---|---|---|
| `GateLog.DecodeInvertsEncode` | src/execution_guardian.rs:488-516 | a 64-byte record decodes to a kind and generation exactly when it is their one encoding, the kind is ACTIVE or CLEAN and the generation is non-zero |
| `GateLog.GateFile.ReadState` | src/execution_guardian.rs:427-474 | the record loop answers the verdict of the whole content, never changes it, and leaves the handle at the end of an accepted log |
| `GateLog.GateFile.ScanRecords` | src/execution_guardian.rs:443-465 | the loop over 64-byte records computes the generation state machine over all of them, with the index of the first bad record |
| `GateLog.GateFile.OpenGeneration` | src/execution_guardian.rs:827-842 | a generation is opened exactly behind an accepted log, which its ACTIVE record replaces; no non-empty part of that record is accepted; a refused log is left as it was |
| `GateLog.GateFile.CloseGeneration` | src/execution_guardian.rs:1085-1086 | behind the ACTIVE record, appending CLEAN makes the log accepted, and only with its last byte |
| `GateLog.GateLanguage` | src/execution_guardian.rs:427-516 | a byte string is accepted iff it is at most 16 MiB and a concatenation of pairs ACTIVE(g) CLEAN(g) |
| `GateLog.TornGenerationAcceptedOnlyWhole` | src/execution_guardian.rs:427-516 | a crash-cut prefix of one generation's two records is accepted only at lengths 0 and 128 |
| `GateLaws.EncodeMeans` | src/execution_guardian.rs:488-516 | a record is exactly: the eight characters OXEGST01, one byte for the kind, seven zeros, the generation, and the SHA-256 of these 32 bytes |
| `GateLaws.VerdictMeans` | src/execution_guardian.rs:427-474 | every log's verdict: too large; torn; or of the first record that does not open or close a generation as its place asks, that it is no record, or a record in the wrong place, with its number; or the last generation is left open; or accepted |
| `GuardianProtocol.InvPreserved` | src/execution_guardian.rs:810-1095 | every action of host, guardian, child, crash and power loss keeps the invariant: lock and phases agree, the file is what the holder's phase says, exec'd children are registered, a possibly live child means a held lock or a log that stays refused, and one generation at most has live children |
| `GuardianProtocol.AdvanceKeepsInv` | src/execution_guardian.rs:827-1087 | a step of the lock holder keeps the invariant when file and phase still match and the phase after it cannot abandon live children |
| `GuardianProtocol.LeaveKeepsInv` | src/execution_guardian.rs:1086-1094 | a guardian may end in any phase, releasing its lock, and the invariant holds |
| `GuardianProtocol.RegisterKeepsInv` | src/execution_guardian.rs:880-912 | registering a child whose pidfd and frame agree keeps the invariant |
| `GuardianProtocol.HandshakeKeepsInv` | src/execution_guardian.rs:348-381 | the child's side of the handshake (send pidfd, send frame, read the acknowledgement, exec) keeps the invariant |
| `GuardianProtocol.PowerLossKeepsInv` | src/execution_guardian.rs:476-486 | a power loss that keeps synced bytes and any part of what followed keeps the invariant |
| `GuardianProtocol.RunKeepsInv` | src/execution_guardian.rs:810-1095 | the invariant holds after every prefix of every run from any gate file |
| `GuardianProtocol.GenerationSafety` | src/execution_guardian.rs:348-381 | in every reachable state any two children that have exec'd and not exited are registered and of one generation |
| `GuardianProtocol.ReadyAndQuiescenceMeanEmpty` | src/execution_guardian.rs:402-419 | while a guardian is past reading the log, so in every phase after it published READY, and when a quiescence check succeeds, no child of another generation is live |
| `GuardianProtocol.GateAfterEnd` | src/execution_guardian.rs:827-1087 | a guardian past reading leaves a gate that quiescence accepts exactly if it ended before the first byte of ACTIVE or after the last byte of CLEAN |
| `GuardianProtocol.DeathQuarantines` | src/execution_guardian.rs:842-1085 | a guardian that ends while there is power, with ACTIVE durable and CLEAN incomplete, leaves a quarantined gate |
| `GuardianProtocol.PowerLossQuarantines` | src/execution_guardian.rs:476-486 | a power loss with ACTIVE durable leaves a quarantined gate exactly if less than the whole of CLEAN survived, always when CLEAN was incomplete |
| `GuardianProtocol.UnsyncedCleanOpensGate` | src/execution_guardian.rs:476-486 | a guardian killed between the write and the sync of CLEAN leaves a gate that quiescence accepts |
| `GuardianProtocol.QuarantineIsPermanent` | src/execution_guardian.rs:427-474 | no action of any process and no power loss ends the quarantine |
| `GuardianProtocol.RefusedLogStays` | src/execution_guardian.rs:816-835 | while the log is refused and nobody is past reading it, no process changes the file or gets past reading |
| `GuardianProtocol.DeadGuardianQuarantinesForEver` | src/execution_guardian.rs:402-419 | once a guardian died or the power was lost with ACTIVE durable and CLEAN incomplete, no later state of any run has a guardian past reading the log, and no quiescence check succeeds |
| `GuardianRuns.GenerationCanRun` | src/execution_guardian.rs:810-1095 | from every state that keeps the invariant, with a free lock and an accepted log, some run starts a generation, serves, registers and runs a child, and after the host left or died ends with the log accepted again, durably holding that generation's two records |
| `GuardianRuns.EveryTearHappens` | src/execution_guardian.rs:827-1087 | for each of the 129 lengths some run leaves that prefix of the generation's two records behind a dead guardian |
| `GuardianRuns.EveryPartMaySurvive` | src/execution_guardian.rs:476-486 | in some run a power loss keeps any chosen prefix of a torn log: of ACTIVE before its sync, of CLEAN behind the durable ACTIVE |
| `GuardianRuns.RegistrationMatches` | src/execution_guardian.rs:880-912 | a step registers a child only by a frame that names it and a datagram it sent |
| `GuardianRuns.RunningIsAcknowledged` | src/execution_guardian.rs:348-381 | a step lets a child run only by reading its own acknowledgement |
| `GuardianRuns.MismatchParks` | src/execution_guardian.rs:892-901 | a registration frame without its datagram registers and acknowledges nobody and parks the guardian |
| `GuardianRuns.ParkedHolds` | src/execution_guardian.rs:895-903 | a parked guardian keeps the lock and the file through every action but its own death and a power loss |
| `Sse.BoundedSseDecoder.ChargeRawByte` | src/provider_sse.rs:258-274 | a byte is charged to the stream and then the event budget, with the first exceeded limit as the error |
| `Sse.BoundedSseDecoder.EndLine` | src/provider_sse.rs:276-327 | the fields after a line are those of the line specification: BOM, comments, field names and values, blank lines, errors |
| `Sse.BoundedSseDecoder.DispatchFrame` | src/provider_sse.rs:329-364 | a blank line ends a frame: frame limit, event with data delivered once, buffers cleared |
| `Sse.BoundedSseDecoder.PushChunk` | src/provider_sse.rs:159-171 | a live decoder moves as the byte specification over the chunk and fails for good on its first error; a failed or finished one changes nothing |
| `Sse.BoundedSseDecoder.FinishStream` | src/provider_sse.rs:173-190 | finishing completes a pending CR line, discards the tail and finishes or fails the decoder for good |
| `SseReference.EveryReachableState` | src/provider_sse.rs:159-274 | after any chunks every limit holds, error or not, and finishing keeps them; after accepted chunks each field is the one the two-pass reading gives, and the stream counter is every accepted byte: those of completed frames and those charged to the open one |
| `SseReference.AcceptedIsHeld` | src/provider_sse.rs:192-274 | the same from the state behind any complete lines: in the middle of a line, behind a pending CR, or between two lines |
| `Sse.PushAllWithinLimits` | src/provider_sse.rs:192-274 | from any state within the limits, line, event, frame and stream counters stay within them and line, data and type within the event's bytes; an accepted chunk adds exactly its length |
| `Sse.FinishLineWithinLimits` | src/provider_sse.rs:276-327 | ending a line keeps the resource invariant, whatever field it holds |
| `Sse.FinishWithinLimits` | src/provider_sse.rs:235-256 | finishing keeps the resource invariant |
| `SseReference.DecoderReadsStream` | src/provider_sse.rs:192-364 | on every byte string, budgets exceeded or not, the decoder delivers the events of the two-pass reading and ends with its error |
| `SseReference.RunIsRead` | src/provider_sse.rs:192-364 | from the state behind any complete lines, the automaton and the two-pass reading agree on the rest of the stream |
| `SseReference.LineReads` | src/provider_sse.rs:276-364 | ending a line in the automaton moves from the state of the lines before to the state of the lines with it |
| `SseReference.DecoderAcceptsStream` | src/provider_sse.rs:192-364 | a stream is accepted to its end iff its lines, frames and size keep within the limits, its lines are UTF-8 and the handler refuses nothing; all events are delivered then |
| `SseReference.ChunkingIsIrrelevant` | src/provider_sse.rs:159-233 | every way of cutting a stream into chunks gives the same events, the same final state and the same error at the same byte |
| `SseReference.DecodeStream` | src/provider.rs:961-1037 | the loop that pushes network chunks and finishes delivers the two-pass reading of all of them |
| `SseLaws.SpelledFields` | src/provider_sse.rs:296-299 | a line of a name without a colon, a colon, a space and any value has that name and value; so has one without the space if the value starts with none; a line without a colon is a name with an empty value |
| `SseLaws.ByteOrderMark` | src/provider_sse.rs:281-286 | a byte order mark at the start is taken off, and nothing else is |
| `SseLaws.NamesAreSpelled` | src/provider_sse.rs:301-316 | the field names and the kind of an event without one, as strings |
| `SseLaws.RetrySpelled` | src/provider_sse.rs:316-320 | a reconnection time is n exactly for the decimal spellings of n below 2^64, leading zeros included |
| `SseLaws.PrintedEventsAreDelivered` | src/provider_sse.rs:276-364 | any events printed as lines are delivered as they were, in order, by a stream that stays within the limits |
| `SseLaws.DataLineDelivers` | src/provider_sse.rs:276-364 | the stream `data: x` and a blank line delivers one event of kind message with exactly x |
| `HistoryText.OccurrencesComplete` | src/history.rs:1247-1292 | matches are aligned occurrences in order and disjoint, and every aligned occurrence starts inside a reported one |
| `HistoryText.OccurrencesUnique` | src/history.rs:1247-1292 | only one list has those two properties: the one reported |
| `HistoryText.WindowContainsMatch` | src/history.rs:1294-1322 | for a match of at most 1024 bytes the window is aligned, at most 1024 bytes, contains the match, reaches as far as fits, and is what the first attempt gave: the fallback never runs |
| `HistoryText.ExcerptForMatch` | src/history.rs:1294-1322 | the boundary walks and the fallback compute the window and mark the match in it |
| `HistoryText.ChunksSpellText` | src/history.rs:1338-1358 | chunks are contiguous, non-empty, aligned, at most the limit, and spell the text |
| `HistoryText.Utf8Chunks` | src/history.rs:1338-1358 | the chunk loop computes those chunks |
| `HistoryPaging.SearchVisitor.Visit` | src/history.rs:366-391 | a visitor that was offered matches holds the page of them that starts at its position, and asks for no more once one lies behind the page |
| `HistoryPaging.FindMatches` | src/history.rs:1247-1292 | the search loop offers the visitor the record's matches in order, all of them unless it asks to stop |
| `HistoryPaging.SearchHistory` | src/history.rs:347-412 | a search answers the page of the view's full match list at the cursor's position, or the cursor's error |
| `HistoryPaging.CollectTurn` | src/history.rs:414-470 | the loop over a turn's records and chunks collects the page at the position and whether more follow |
| `HistoryPaging.ReadTurn` | src/history.rs:414-482 | a turn lookup answers the page of the turn's chunk list at the cursor's position, or its error |
| `HistoryPagingLaws.AcceptedCursorKeepsView` | src/history.rs:484-519 | an accepted cursor resolves to the view and position it was issued for, over the same records |
| `HistoryPagingLaws.IssuedCursorIsAccepted` | src/history.rs:484-547 | a cursor is accepted by a snapshot that still has its view exactly if its text fits the size limit |
| `HistoryPagingLaws.NextPageIsServed` | src/history.rs:347-412 | every snapshot of the session that keeps the view answers a page's cursor with the page behind it |
| `HistoryPagingLaws.PagingIsLossless` | src/history.rs:347-412 | following cursors to the end, over snapshots that may grow meanwhile, the pages joined are the view's full match list in order without gap or repeat, and every page but the last is full |
| `HistoryPagingLaws.LaterSnapshotKeepsViews` | src/history.rs:237-278 | with unique checkpoint ids, a snapshot built from a longer journal keeps every view of an earlier one, with its records and digest |
| `HistoryPagingLaws.PagingCompletes` | src/history.rs:237-412 | over a session whose journal only grows, with cursors that fit the size limit, every first page has a complete chain of served pages, and joined they are the whole list of the first page's view |
| `HistoryPagingLaws.PagingTerminates` | src/history.rs:347-412 | a chain of pages, each asked for with the cursor before, is at most one longer than the match list |
| `HistoryPagingLaws.TurnPagesSpellTurn` | src/history.rs:414-482 | the excerpts of all pages of a turn, joined, are the text of the turn's records in the view |
| `HistoryPagingLaws.SearchExcerptHoldsMatch` | src/history.rs:1294-1336 | every search result is an aligned excerpt of at most 1024 bytes around a match that equals the query |
| `HistoryLookupLaws.SameMeans` | src/history.rs:1247-1285 | texts count as equal byte for byte, or without case where two bytes are the two cases of one ASCII letter |
| `HistoryLookupLaws.MatchesMean` | src/history.rs:1247-1292 | a search reports places where the query stands between character boundaries, in order and disjoint, and starts none outside them; an exact search the whole text or nothing |
| `HistoryLookupLaws.RecordMeans` | src/history.rs:347-482 | what a record contributes: for each match a piece with the record's fields, the match, and the window the match leaves room for; for a turn the pieces of its whole text end to end, each as long as fits 1024 bytes |
| `HistoryLookupLaws.ItemsMean` | src/history.rs:347-482 | the list of a view is what its records contribute, in their order |
| `HistoryLookupLaws.SnapshotMeans` | src/history.rs:237-277 | a snapshot keeps the records, and each view takes them up to the first one behind its cutoff, under their digest |
| `HistoryLookupLaws.StartMeans` | src/history.rs:484-519 | a lookup starts at the newest view, or where its cursor says, exactly if that is of version 1, schema 1, extractor 8, this kind, session and request, and names a view with the same digest by its first id |
| `HistoryLookupLaws.LookupMeans` | src/history.rs:347-482 | what each lookup answers: bad parameters first; from where it starts, an unknown turn, a position behind the list, a cursor too long, or the page with its slice and the next cursor |
| `HistoryLookupLaws.CursorIsRefused` | src/history.rs:484-519 | every cursor that is not taken is called invalid if it cannot be read or is of other parameters, and stale otherwise |
| `HistoryLookupLaws.OtherRequestIsRefused` | src/history.rs:484-519 | the cursor behind a page is refused, by every snapshot, to each request with another digest or of the other kind |
| `HistoryQuota.RebuildQuota` | src/history.rs:1537-1625 | the fold over calls and the scan with its mutated count map compute the specified quota or the first error |
| `HistoryQuota.ScanRowByMap` | src/history.rs:1566-1618 | one terminal row takes its call off the count map and adds its bytes, is skipped, or is the specified error |
| `HistoryQuota.RebuildCountsOutcomes` | src/history.rs:1537-1625 | a whole journal is accepted iff every call item has a call_id and a name and no call has more outcomes than occurrences, and the quota is then the bytes of its history outcomes |
| `HistoryQuota.ValidateHistoryCalls` | src/agent.rs:3739-3775 | the check of history calls passes iff a response has at most 8 of them, a 512-byte reserve for each, and ids that are distinct and 1 to 128 bytes |
| `HistoryQuota.QuotaKeeper.ExecuteHistoryCall` | src/agent.rs:2473-2586 | a history call writes its result, or the fallback, within its budget and adds its bytes to the counter |
| `HistoryQuota.QuotaKeeper.RunBatch` | src/agent.rs:1069-1164 | the loop over a response's calls, stopped after any of them for any of the four reasons and then skipping the rest, moves journal and counter as specified, reserving for the calls still pending |
| `HistoryQuotaLaws.StepKeepsReserve` | src/agent.rs:2482-2567 | each call keeps the 512-byte reserve of every history call behind it, and used bytes at most 32768 or as they were |
| `HistoryQuota.ControlBytes` | src/agent.rs:2547-2553 | the fallback output takes exactly 113 bytes when escaped |
| `HistoryQuotaLaws.ReserveErrorCondition` | src/agent.rs:2547-2559 | for one call with its reserve: some result meets the reserve error iff the escaped id and the fallback's 113 bytes exceed the call's budget, never for an id of at most 343 escaped bytes |
| `HistoryQuotaLaws.IdentitiesAreShort` | src/session.rs:8086-8088 | identities, as a commit demands them of every call, take at most 343 escaped bytes |
| `HistoryQuotaLaws.ReserveErrorUnreachable` | src/agent.rs:2547-2559 | no call of an admitted response meets the reserve error, whatever was used and whatever the calls before it produced |
| `HistoryQuotaLaws.LiveAgreesWithRebuilt` | src/agent.rs:2473-2586 | after a batch used bytes are at most 32768 or unchanged, the rebuilt quota is the live one plus the stray outputs, and the two agree iff there is no stray call |
| `HistoryQuotaLaws.AdmittedAreNamed` | src/session.rs:8217-8290 | an admitted call lacks neither id nor name, so an admitted response is readable iff every item has a call_id |
| `HistoryQuotaLaws.AcceptedResponseIsReady` | src/agent.rs:3739-3775 | an admitted response leaves every call its reserve, and journal and counter in agreement iff its items all have a call_id; the rebuild fails otherwise |
| `HistoryQuotaLaws.BrokenCallEndsTurn` | src/history.rs:758-787 | after a response with an unreadable call item, no rebuild of the turn succeeds, whatever rows follow |
| `HistoryQuotaLaws.IdOnlyCallEndsTurn` | src/provider.rs:2178-2188 | a response whose one item has an id and no call_id is admitted with nothing used and run to its end, and no rebuild of the turn succeeds afterwards |
| `HistoryQuotaLaws.ExchangeKeepsQuota` | src/agent.rs:1069-1164 | one response, whatever its calls and results and wherever its batch stops: every call gets its outcome, the tool bytes stay within 32768, and the rebuild is the tool bytes plus the stray bytes, or fails iff an item lacks its call_id |
| `HistoryQuotaLaws.TurnKeepsQuota` | src/agent.rs:1069-1164 | the same over all responses of a turn, each starting from the rebuilt quota: the outputs of the three history tools never exceed 32768 bytes, skips and stray calls included |
| `HistoryQuotaLaws.StrayCallsPassTurn` | src/history.rs:1413-1422 | an admitted response of 600 calls named history_foo makes the rebuilt counter pass 32768, whatever they produce |
| `HistoryQuotaLaws.StrayCallDivides` | src/history.rs:1413-1422 | one admitted call named history_foo makes the two counters differ |
| `HistoryQuotaLaws.SkippedCallsFit` | src/agent.rs:2653-2716 | skipping any calls left adds exactly the skip bytes of the history calls among them and settles them all if they were accounted for; within 32768 for short identifiers, which admitted ones are |
| `HistoryResults.CallDelivers` | src/agent.rs:2473-2586 | one call: a history result within 12288 bytes that leaves 512 for each history call behind it is delivered as it is and takes exactly its bytes; any other gets the fallback, or the reserve error if that does not fit |
| `HistoryResults.FirstDeliver` | src/agent.rs:2473-2586 | the same for each of the first calls of a batch, with the counter along them |
| `HistoryResults.BatchDelivers` | src/agent.rs:2473-2716 | a whole batch with any stop: the rows of the calls that ran, each its own result wherever that has room, then the skips with the text of the reason |
| `HistoryResults.SerializedIsJson` | src/history.rs:1475-1493 | the accounted bytes are those of the JSON text of the function_call_output item |
| `HistoryResults.EscapeAllTakes` | src/history.rs:1475-1493 | the bytes of an escaped text, by the bytes of each character |
| `HistoryResults.ErrorTextIsJson` | src/agent.rs:2547-2559 | an error output is the JSON text of its error object |
| `HistoryResults.SkipTexts` | src/agent.rs:2653-2716 | the outputs of the four kinds of skip, spelled out |
| `HistoryResults.FallbackText` | src/agent.rs:2547-2559 | the fallback output, spelled out |
| `HistoryResults.CallsAreCounted` | src/history.rs:1537-1560 | the rebuild counts each call whose name starts with history_ as often as the turn's responses made it, and no other |
| `HistoryResults.RebuildExactly` | src/history.rs:1537-1625 | the rebuild accepts a journal iff every call of the turn is readable, no terminal row is damaged, and no call has more outcomes than occurrences; the counter is the bytes of the outcomes |
| `HistoryResults.QuotaMeans` | src/history.rs:1495-1530 | what is left of 32768 bytes, and when nothing is |
| `HistoryResults.AdmissionMeans` | src/agent.rs:3739-3775 | a response is admitted iff it has at most 8 history calls, 512 bytes left for each, and ids of 1 to 128 bytes that no two share |
| `ToolBatch.CallTrace` | src/agent.rs:2254-2471 | one call starts, is dispatched and gets an outcome at most once each and in this order, in doubt only if its result is; exactly when it panics |
| `ToolBatch.ToolLoop.ExecuteTool` | src/agent.rs:2254-2471 | the checks, approval, start, dispatch and outcome of a tool append the specified rows and end as specified |
| `ToolBatch.ToolLoop.ExecuteHistoryCall` | src/agent.rs:2473-2586 | the same for a history call |
| `ToolBatch.ToolLoop.MarkRemainingSkipped` | src/agent.rs:2653-2716 | every remaining call gets one skip row, in order |
| `ToolBatch.ToolLoop.NoteResult` | src/agent.rs:1117-1152 | the mutated last failure and count are those of the turn's results, and three in a row stall |
| `ToolBatch.ToolLoop.RunToolBatch` | src/agent.rs:1069-1164 | the batch loop leaves journal, tool counter, results and end of the batch specification |
| `ToolBatch.BatchConserves` | src/agent.rs:1069-1164 | a batch that ends or stops by itself has exactly one outcome row per call occurrence in call order; one cut off by a fault, rows for a prefix; every dispatch directly follows its own start |
| `ToolBatch.DispatchesAtMostOnce` | src/agent.rs:1069-1107 | each occurrence is dispatched at most once and in order, and dispatches never exceed the tool limit |
| `ToolBatch.BatchCounts` | src/agent.rs:1069-1107 | executed calls are those with a result and never exceed the limit; the batch stops for the limit only when it is spent |
| `ToolBatch.StallsOnThreeEqualFailures` | src/agent.rs:1121-1152 | a stalled batch ends on three equal failures in a row, counted across batches, and no earlier result completed such a run |
| `ToolBatch.RepeatedMeansRun` | src/agent.rs:1121-1152 | the detector's count is the length of the run of equal failures at the end of the results |
| `ToolBatch.QuietBatchSettles` | src/agent.rs:1069-1164 | without failing observers and approvals (and failing reserves, which no admitted call has) a batch is cut off iff it reaches a call that is cancelled late, and then has outcomes for the calls before it only; otherwise every call gets its outcome |
| `ToolBatch.LateCancellationSettlesNothing` | src/agent.rs:2384-2405 | a late cancellation of the next call ends the batch with no row for it or any call after it |
| `ToolBatchLaws.DispatchedExactly` | src/agent.rs:2254-2440 | a tool is dispatched iff it is there, its arguments are valid, the turn is not cancelled at the checks before, the user approved it where it asks, and the start observer answers |
| `ToolBatchLaws.StartedExactly` | src/agent.rs:2350-2405 | a call is durably started iff it is dispatched or only the user or the start observer stood in the way |
| `ToolBatchLaws.AnswersWhatRan` | src/agent.rs:2254-2586 | a dispatched call answers what its tool gave, and any other the error of the first thing in its way, approval_required for a denial; a history answer that does not fit becomes the quota error |
| `ToolBatchLaws.ReturnsExactly` | src/agent.rs:2254-2586 | a call returns iff nothing around it fails, and panics iff a tool without approval is cancelled late |
| `ToolBatchLaws.SettledBy` | src/agent.rs:2254-2586 | which row settles a call that returned: in doubt, cancelled or completed, by what ran and what it said |
| `ToolBatchLaws.BatchIsExplained` | src/agent.rs:1069-1164 | where a batch ends and with which rows: the calls that ran let it go on, and the reason holds, with a skip of its kind for each call left and the row of the turn |
| `ProviderBudget.Agent.EnsureProviderCallBudget` | src/agent.rs:2741-2830 | the check answers and appends exactly what the durable intents, the epoch's exhaustion rows, the limit and the boundary chain call for; it succeeds iff there is no limit, or the journal is readable and fewer intents than the limit are durable |
| `ProviderBudget.Agent.DurableIntents` | src/agent.rs:3390-3419 | the count of normal and bound compaction starts of the turn |
| `ProviderBudget.BudgetIsNeverExceeded` | src/agent.rs:895-936 | over every run of checks, dispatches, retries, crashes and restarts, a turn's durable intents never exceed the largest limit in force, nor grow at all when they already spend it |
| `ProviderBudget.RunRecordsWell` | src/agent.rs:2755-2830 | every exhaustion a run writes is true of the journal before it, repeats none of its retry epoch, and is not written while a pending boundary owns the turn |
| `ProviderBudgetLaws.IntentsAreDispatches` | src/agent.rs:3390-3419 | the intents of a turn are its dispatch rows, counted |
| `ProviderBudgetLaws.EpochIsBehindRetry` | src/agent.rs:2751-2760 | a row belongs to the epoch iff no retry of the turn stands at it or behind it |
| `ProviderBudgetLaws.CheckAnswers` | src/agent.rs:2741-2830 | what a check answers: nothing without a limit, the chain's error, the first row of a foreign version, and else exhausted iff as many calls were dispatched as the limit |
| `ProviderBudgetLaws.CheckWrites` | src/agent.rs:2780-2830 | a check writes one row iff the calls are spent, no row of the epoch stands for that, and no pending boundary owns the turn |
| `ProviderBudgetLaws.ExhaustionIsOnRecord` | src/agent.rs:2780-2830 | after an exhausted answer without a pending boundary the epoch holds a row with that limit which has no version or that count |
| `ProviderBudgetLaws.SecondCheckWritesNothing` | src/agent.rs:2795-2806 | a check right after an exhausted one with the same limit leaves the journal unchanged |
| `ProviderBudgetLaws.NoExhaustionTwice` | src/agent.rs:2755-2830 | over every run, of two exhaustions of one epoch the later, if the run wrote it, has another limit, or another count than a row that has a version |
| `ProviderBudgetLaws.BudgetCanBeSpent` | src/agent.rs:895-936 | with a valid chain and no foreign version, some run of checks and dispatches spends the budget to exactly its limit |
| `SchemaPreflight.Preflight` | src/agent.rs:3941-3993 | the explicit-stack walk accepts iff height is at most 96 and nodes at most 262144, and its stack never holds more than 98 frames |
| `SchemaPreflight.WalkMeasures` | src/agent.rs:3941-3993 | the recursive walk accepts iff depth and node count are within their limits, and counts exactly the nodes |
| `TreeLaws.PreflightMeans` | src/agent.rs:3941-3993 | a tree passes iff no path into it is longer than 96 steps and there are at most 262144 |
| `TreeLaws.NodesMean` | src/agent.rs:3941-3993 | a tree has as many nodes as there are paths into it |
| `TreeLaws.HeightMeans` | src/agent.rs:3941-3993 | its height is the length of the longest path |
| `SchemaValidator.ValidateJsonSchema` | src/agent.rs:3934-3939 | the verdict of preflight and budgeted validation; for schemas without oneOf acceptance implies the budget-free meaning |
| `SchemaValidator.ValidatesExactly` | src/agent.rs:3995-4153 | when the node counter ends within its limit the verdict is the budget-free meaning, and no depth error occurs |
| `SchemaBudget.InnerTakes` | src/agent.rs:3995-4153 | a validation advances the node counter by at most the product of the schema's and the value's sizes |
| `SchemaBudget.SmallInputsValidateExactly` | src/agent.rs:3934-4153 | when that product is at most 262144, a value validates iff both pass preflight and it has the schema's budget-free meaning |
| `SchemaValidator.InnerFaithful` | src/agent.rs:4020-4153 | from any counter: a run that ends within the budget decides the meaning, and one that does not accepts wrongly only below a oneOf |
| `SchemaValidator.Budget.Enter` | src/agent.rs:3995-4018 | the mutated node counter advances by one and reports exhaustion exactly past its limit |
| `SchemaValidator.ValidateObject` | src/agent.rs:4033-4153 | the keyword checks in source order over the mutated budget agree with the counted specification |
| `SchemaValidator.ExhaustionInsideOneOfAccepts` | src/agent.rs:4039-4056 | a schema and value that validate although the budget-free meaning refuses them |
| `SchemaLaws.AcceptedObeys` | src/agent.rs:4033-4153 | an accepted value obeys every keyword of its schema, said on the trees: const, enum, type, required, additionalProperties false, minimum, maximum, minLength, maxLength |
| `SchemaLaws.KeywordAlone` | src/agent.rs:4062-4153 | a schema of one of const, enum, type, required and the four bounds accepts exactly the values that obey it |
| `SchemaLaws.ClosedAlone` | src/agent.rs:4103-4120 | a schema that closes its properties accepts exactly the objects with keys among them, and everything that is no object |
| `SchemaLaws.EqualsMeans` | src/agent.rs:4062-4075 | the equality behind const and enum: members in any order, the two zeros alike |
| `SchemaLaws.RequiredMeans` | src/agent.rs:4087-4093 | the check of required holds iff every string listed is a key |
| `SchemaLaws.TypeMeans` | src/agent.rs:4076-4085 | the check of type by the constructors of a value, integer excluding doubles |
| `SchemaLaws.BoundsMean` | src/agent.rs:4135-4210 | the checks of the bounds by the integers and lengths they compare |
| `CanonicalJson.CanonIsFaithful` | src/agent.rs:3890-3921 | two values print the same iff they are equal up to the order of object keys |
| `CanonicalJson.CanonEnds` | src/agent.rs:3890-3921 | a printed value is delimited: with any delimiting text after it, both value and text can be told |
| `CanonicalJson.PrintedInjective` | src/agent.rs:3890-3921 | printed numbers are equal only for equal numbers |
| `CanonicalJson.SortedIsSorted` | src/agent.rs:3902-3916 | sorting an object's entries by key gives an ordered list of the same entries |
| `CanonicalJson.StableForgetsDuration` | src/agent.rs:3876-3888 | two stabilised outputs are equal iff the outputs are, ignoring duration_ms at every depth |
| `FailureFingerprint.FingerprintIdentifiesFailure` | src/agent.rs:3862-3874 | whatever the tools are called, and for error codes without a colon (no code of the repository holds one), fingerprints are equal iff name, arguments, code and output up to durations are |
| `FailureFingerprint.NoCanonicalSuffix` | src/agent.rs:3890-3921 | no canonical text has a canonical text behind one of its colons, so a text that ends in one can be read from the right |
| `TreeLaws.DurationIsForgotten` | src/agent.rs:3862-3888 | another leaf at any place of the output leaves the fingerprint as it was iff a field named duration_ms is on the way there |
| `Display.TextForDisplay` | src/untrusted_display.rs:29-43 | the one-pass capped renderer gives the sanitised text truncated to 16 KiB, for every text |
| `Display.SanitizedScalars` | src/untrusted_display.rs:11-27 | sanitised text has a replacement exactly where a presentation control was, and no control left |
| `Display.ShownIsBounded` | src/untrusted_display.rs:102-118 | what is shown is within 16 KiB; when cut, it is whole scalars as far as the suffix leaves room |
| `Display.JsonDisplayWriter.Write` | src/untrusted_display.rs:61-73 | a write takes the part that fits 64 KiB and fails only when nothing does |
| `Display.JsonDisplayWriter.Serialize` | src/untrusted_display.rs:54-78 | however the serialiser splits its writes, the buffer is the capped serialisation, and it is marked truncated iff a write failed |
| `Display.CappedShowsTheSame` | src/untrusted_display.rs:49-100 | the capped bytes, decoded with a scalar cut in the middle, show what the whole serialisation shows |
| `Display.JsonForDisplay` | src/untrusted_display.rs:80-100 | the shown JSON is the whole serialisation sanitised and truncated; the unserializable message never appears for a value within the depth limit |
| `DisplayLaws.ControlMeans` | src/untrusted_display.rs:120-149 | the replaced characters are the control codes, those that turn the writing direction, break lines, have no glyph, are format codes or select variants, listed by class |
| `DisplayLaws.ShownMeans` | src/untrusted_display.rs:29-43 | what is shown is the text with U+FFFD for each hidden character and every other as it is, all of it within 16384 bytes, or else as many characters as leave room for <truncated>; nothing hidden is in it |
| `DisplayLaws.SanitizedIsSafe` | src/untrusted_display.rs:11-27 | sanitising replaces the hidden characters, and newlines only on a single line |
| `DisplayLaws.PrintableIsShown` | src/untrusted_display.rs:29-43 | printable ASCII that fits is shown byte for byte |
| `Scalars.LossyOfCut` | src/untrusted_display.rs:97-99 | a cut through well-formed text loses at most one scalar |
| `Scalars.WellFormedIsEncoded` | src/provider_sse.rs:280 | a byte string is well-formed UTF-8 iff it is the encoding of some scalars |
| `MemoryFile.ParseMemoryFile` | src/memory.rs:252-303 | the line loop with its mutated fields computes the parser's specification |
| `MemoryFile.KnownMeansFile` | src/memory.rs:248-303 | a file has known provenance iff it is a fence, the two fields once each in either order, a fence, and content |
| `MemoryFile.ParsingIsLossless` | src/memory.rs:252-303 | the content is the whole file or what follows the header, for every file |
| `MemoryFile.RenderedIsParsed` | src/memory.rs:248-311 | a rendered file gives back trimmed root, timestamp and content, or all of itself when the root is white space |
| `MemoryFile.RememberedIsShown` | src/memory.rs:114-186 | the remembered entry is shown again iff its root is not empty and has no white space around it |
| `MemoryFile.SpacedRootIsTrimmed` | src/memory.rs:140-161 | a root with a space at its end is remembered and shown again without it |
| `MemoryFile.BlankRootIsForgotten` | src/memory.rs:140-161 | the function accepts a root of one space, and its file is read back without provenance |
| `MemoryLaws.FileMeans` | src/memory.rs:248-303 | a file is read as known iff its header is spelled so: fences with either line end, and two lines that spell root and time in either order; everything else is all content |
| `MemoryLaws.LineEndsDoNotMatter` | src/memory.rs:248-311 | a carriage return before the line feed of any of the four header lines changes neither provenance nor content |
| `MemoryLaws.FieldMeans` | src/memory.rs:269-290 | a header line is a field iff it spells white space, the key, a colon and a value with white space around them |
| `MemoryLaws.FenceMeans` | src/memory.rs:308-311 | the four spellings of a fence |
| `MemoryLaws.TrimMeans` | src/memory.rs:269-290 | trimming takes away exactly the 25 White_Space characters at both ends |
| `MemoryLaws.RememberMeans` | src/memory.rs:140-186 | what is refused, and the file and entry otherwise, with sizes in encoded bytes |
| `MemoryLaws.ShowMeans` | src/memory.rs:114-138 | a file is shown unless it is over 65536 encoded bytes |
| `DriftMetric.NormalizeLexemes` | examples/compaction_drift.rs:993-1022 | the nested loops with their vectors compute the reader's lexemes, of equal lengths |
| `DriftMetric.OccurrencesComplete` | examples/compaction_drift.rs:1298-1321 | every place where a pattern stands within its boundaries is reported with its segments, and nothing else |
| `DriftMetric.VerdictDependsOnView` | examples/compaction_drift.rs:852-932 | a verdict depends only on characters and the separators between them, under all three boundaries, and in the segment scopes on the order of the segments besides |
| `DriftMetric.RewrappingKeepsView` | examples/compaction_drift.rs:983-1022 | exchanging a run of separators, inserting markers, or adding runs at the ends keeps the reading, and the order of segments if lines break where they broke before |
| `DriftMetric.RewrappingKeepsVerdict` | examples/compaction_drift.rs:852-932 | any chain of such changes keeps every verdict; in the two scopes that ask for segments, if exchanged runs both break the line or neither does |
| `DriftMetric.WhichWrappingsKeepVerdicts` | examples/compaction_drift.rs:852-932 | scope by scope: all verdicts around two runs are the same, for every text, relation and case table, iff the scope ignores segments or both runs have a break or neither has |
| `DriftMetric.SegmentScopeSeesWrapping` | examples/compaction_drift.rs:852-932 | a line break for a space changes a Segment verdict |
| `DriftLaws.LexemesMean` | examples/compaction_drift.rs:993-1022 | the lexemes of a text are its lower-case characters that are no marks, breaks or white space, each in the segment of the breaks before it, and separated iff a separator stands in front |
| `DriftLaws.StandsMeans` | examples/compaction_drift.rs:1201-1268 | a pattern occurs iff its characters stand there and it is no part of a longer number, spelled out for the two numeric boundaries |
| `DriftLaws.FoundMeans` | examples/compaction_drift.rs:1298-1321 | the occurrences of several patterns are the places where one of them stands |
| `DriftLaws.VerdictMeans` | examples/compaction_drift.rs:852-932 | a relation is satisfied iff an anchor and a value stand near each other, in order and in one segment where asked, and nothing forbidden spoils the pair; in a relation window, no pair |
| `DriftLaws.FarIsNotSatisfied` | examples/compaction_drift.rs:852-932 | not if each value is more than the distance away from each anchor |
| `DriftLaws.LongerNumberIsNotSatisfied` | examples/compaction_drift.rs:1201-1268 | nor if each place of a value is part of a longer number |

## Left out

- GuardianProtocol.Step: Windows jobs, the ephemeral gate, pidfd transfer bytes, signals and file permissions are abstracted to protocol steps; a process id that is reused within a generation is not modelled.
- GateLog.GateFile.ReadState: read errors of the file system are not modelled.
- Sse.BoundedSseDecoder.DispatchFrame: the handler is a function of the events delivered so far; its own errors carry no text.
- HistoryPaging.SearchHistory: record extraction from the journal, digests and the text encoding of cursors are inputs; artifact grants are not modelled.
- HistoryQuota.RebuildQuota: turn exclusion by the boundary chain is a set of turns; the depth check of tool outputs before serialisation is left out.
- HistoryQuotaLaws.LiveAgreesWithRebuilt: a history call cut off by a failing start observer leaves an in-doubt row, which neither counter counts; the model's observers do not fail.
- HistoryQuotaLaws.TurnKeepsQuota: MCP calls, whose identities other checks admit, are left out. A commit may also refuse a response for the journal's size, the MCP chain or the request slot; like the refusals of the model, that runs no call.
- ToolBatch.BatchConserves: MCP calls (their durable bindings and their skip rows) and failing journal appends are left out.
- ToolBatch.StallsOnThreeEqualFailures: the fingerprint of a failure is an input there; what it identifies is proved in FailureFingerprint.
- ProviderBudget.BudgetIsNeverExceeded: the recovery planner is any order of checks and appends in which each dispatch follows its own successful check; counts are not limited to 64 bits.
- SchemaValidator.ValidateJsonSchema: error messages and paths are dropped, the verdict is kept.
- FailureFingerprint.FingerprintIdentifiesFailure: a missing error code is the code `unknown_error`; every code in the repository is a literal without a colon.
- SseReference.DecodeStream: cancellation, the response deadline and transport errors of the network loop are left out.
- Display.JsonForDisplay: the depth check is an input; `quoted_single_line`'s debug escapes are left out.
- MemoryFile.RememberedIsShown: directory listing, ids and modification times are left out; they would only add easy members.
- DriftMetric.RewrappingKeepsVerdict: earlier and later metric versions are left out; version 10 only removes a backslash before a line break first.
- Compaction boundaries, projections, turn segmentation and session settlement: their verdicts are inputs.
- Configuration, context limits, history artifacts, authentication, the command line and the network: no hard logic, or input and output.
