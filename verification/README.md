# µAgent: models of its bounded text, streaming, supervision and accounting

A Dafny model of the byte-exact algorithms and the concurrency protocols of µAgent, a coding-agent
runtime, with proofs of what they promise. `dafny verify dfyconfig.toml` checks the whole project.

A C++ string is a `string` here, one byte per `char`. Machine widths are written out where a result
depends on them (saturating sums, 63-bit budgets, process ids); lengths and counters of bytes in
memory are unbounded.

| module | models |
|---|---|
| `Utf8`, `Decimal`, `Checked`, `Chunks`, `Options` | codepoint boundaries, decimal text, overflow-safe sums, chunked text, optional values |
| `OutputBuffer`, `Recut` | the head-and-tail buffer of process output, the head-and-tail cut of a text, and that cut made again |
| `Dispatch` | one byte budget shared by a batch of tool results |
| `ToolProtocol`, `AnswerStream` | foreign tool-call markup, and the answer stream that holds content back until it is classified |
| `ReasoningStream` | interleaved reasoning parts spliced into one text with live spans |
| `ToolCalls` | repair and identification of streamed tool calls |
| `ActivityLog` | the rotating log pump and its tail reader |
| `SessionOutput` | a wait that drains a session while its I/O thread appends |
| `Supervision` | completions and wake-ups of concurrent waits, as interleaved atomic steps |
| `Lease` | the file lease, as interleaved system calls, and its published owner |
| `Usage` | saturating usage counters per route and turn |
| `DiffSpan` | the trimmed-span diff |
| `RendererManifest` | the two import-graph worklists of the web build |

Sequential code is modelled as methods and classes proved against specification functions. The two
protocols whose point is interleaving are step functions over a shared state, and their theorems are
about every sequence of steps. Calls into the operating system appear as nondeterministic results:
partial or failed writes and opens, arriving output, exits, aborts and deadlines.

## Where the code does not do what is said of it

- A buffer snapshot can split a codepoint, although include/core/output_buffer.h:53 says a cut never
  does: searching a boundary before the end of the head returns the end itself. `SnapshotValidity`
  gives the exact condition and `SnapshotCanSplitCodepoint` an input.
- A batch that is over its budget can shorten a result whose share is its whole size, although
  src/agent/dispatch.cc:51 says small results are preserved: a result its own limit had already cut is
  cut anew. `OwnSizeKeeps` and `RecutIsSame` say when it comes back byte for byte: over well-formed
  output, exactly when the first cut was not around a marker, or kept as much after its marker as before
  it or one byte more, and not nothing. `RecutCanLose` gives a text that shrinks.
- Reasoning parts can end up inside one another after snapshots with empty text
  (include/api/stream.h:101-116). `StepIsGoodWhenSafe` gives the exact condition on a fragment,
  `RunIsGoodWhenSafe` on a whole run, and `EmptySnapshotsCanMixParts` a run that fails it.
- A read of a session whose whole output is the text `(no new output)` is dropped
  (src/agent/activity.cc:547). `WaitReturnsAllItTook` shows that within the budgets this is the only
  loss, and `SentinelIsDropped` such a read.
- An aborted wait for output returns nothing although it has drained output, while
  src/agent/activity.cc:560-561 says the bytes are left for the next read. `AbortCanLose` says for which
  arguments that can happen: exactly when the wait may block for a marker or for quiet.
  `ReadThenAbortLoses` gives the reads.
- A cancelled wait for completions throws away those it took (src/agent/activity.cc:1237-1240), so they
  are delivered to nobody. `CancelCanLose` says which waits can: exactly those for all of two or more
  activities. `CancelledWaitLosesCompletion` gives a run and `CancelLosesWhen` the moment.
- A log tail with a cap of zero, unlimited for other outputs, reads the older segment only
  (src/agent/activity.cc:119). `BodyIsTail` says that this loses nothing if and only if the current
  segment is empty, and `CapZeroLosesCurrent` gives a log it loses.
- A detached activity whose group outlives its leader becomes ready without a wake-up:
  `OnlyOrphansAreSilent` says that this is the only such change, `WakeUpIsLostWhen` when a wait stays
  blocked for it, and `WakeUpIsLost` gives such a run.
- A lease file must stay in place (include/core/lease.h:21-22), but the pruning of the history tree
  removes aged files, session locks included, without taking their lease (src/core/fs.cc:282-284, called
  at :333). `RemovalWhileOwnedBreaksExclusion` shows what follows when the session is still open.
- A message that ends in an unclosed opener is suppressed, and the check of the whole message finds it
  if and only if a bracketed marker follows outside inline code: `UnclosedOpenerIsFound`, with
  `SuppressedAndNotFound` a message it misses. The turn loop tests both.

## Model

| member | source | states |
|---|---|---|
| `Utf8.SplitIsValid` | src/core/strings.cc:152-174 | cutting well-formed UTF-8 (RFC 3629, section 4) anywhere but inside a codepoint leaves two well-formed strings |
| `Utf8.ValidMeansEncoded` | src/core/strings.cc:152-174 | what the model calls well-formed is exactly what section 3 of RFC 3629 encodes of some sequence of scalar values |
| `Utf8.ValidPrefixEndsOnBoundary` | src/core/strings.cc:152-174 | the converse: a well-formed prefix of a well-formed text ends on a codepoint boundary |
| `Utf8.SeekBoundaryBefore` | src/core/strings.cc:152-159 | the loop stops at the nearest byte at or before the offset that is no continuation byte, and returns the length itself for an offset at or past the end |
| `Utf8.SeekBoundaryAfter` | src/core/strings.cc:161-168 | the loop stops at the nearest boundary at or after the offset |
| `Utf8.BoundariesAreNear` | src/core/strings.cc:152-168 | in well-formed text both searches move at most three bytes |
| `Utf8.PrefixIsValid` | src/core/strings.cc:170-174 | a capped prefix of well-formed text is well-formed |
| `Utf8.PrefixIsNearest` | src/core/strings.cc:170-174 | a capped prefix ends at the nearest boundary at or before the cap |
| `Decimal.TextReadsBack` | include/core/output_buffer.h:20 | to_string of a count consists of digits and reads back as the count, so a marker names one number only |
| `Decimal.SignedTextIsInjective` | include/api/stream.h:289 | two stream indices, of whatever sign, never make the same text |
| `OutputBuffer.HeadTailBuffer.constructor` | include/core/output_buffer.h:26-27 | the two budgets share the maximum, and nothing is held |
| `OutputBuffer.HeadTailBuffer.Push` | include/core/output_buffer.h:29-51 | the buffer accounts for the whole stream: head, cut bytes and tail are exactly what was pushed, the tail is at most twice its budget, and all trims together move no more bytes than were pushed |
| `OutputBuffer.HeadTailBuffer.Snapshot` | include/core/output_buffer.h:54-70 | whatever the chunks were, the snapshot is a function of their concatenation and the budgets |
| `OutputBuffer.HeadTailBuffer.Drain` | include/core/output_buffer.h:77-83 | returns that snapshot and starts an empty stream |
| `OutputBuffer.SnapshotShape` | include/core/output_buffer.h:62-69 | a snapshot of an over-long stream is its start, a marker naming exactly the bytes hidden, and its end, short of the tail budget by continuation bytes only |
| `OutputBuffer.SnapshotValidity` | include/core/output_buffer.h:53-70 | a snapshot of well-formed output is well-formed if and only if nothing was cut or the head budget falls on a codepoint boundary |
| `OutputBuffer.SnapshotCanSplitCodepoint` | include/core/output_buffer.h:53-70 | a concrete stream and budget whose snapshot splits a codepoint |
| `OutputBuffer.HeadTail` | include/core/output_buffer.h:127-146 | the loop of at most three passes returns HeadTailOf, which never exceeds the cap and returns a text that fits unchanged |
| `OutputBuffer.HeadTailKeepsUtf8` | include/core/output_buffer.h:124-146 | well-formed text stays well-formed under every cap |
| `OutputBuffer.CutAroundIsMarked` | include/core/output_buffer.h:138-143 | a cut that settles is a start, a marker naming exactly the bytes between, and an end, both cuts on boundaries |
| `OutputBuffer.CountRepeats` | include/core/output_buffer.h:130-144 | over well-formed text the count of hidden bytes repeats by the third pass, by decimal width |
| `OutputBuffer.ThreePassesSettle` | include/core/output_buffer.h:130-145 | for all well-formed text over the cap, three passes settle if and only if the marker fits, and the ellipsis is the result otherwise |
| `Checked.CheckedAdd` | include/core/checked.h:15-18 | a sum is returned if and only if it fits, and is then exact |
| `Checked.SaturatingAdd` | include/core/checked.h:28-30 | the sum, or the largest size when it does not fit |
| `Checked.AdditionExceeds` | include/core/checked.h:43-46 | true if and only if the unbounded sum is over the limit |
| `Checked.SaturatingAddIsMonoid` | include/core/checked.h:33-40 | saturated addition of counters is associative and commutative, with zero neutral for its results |
| `Checked.SaturatingNonnegativeAdd` | include/core/checked.h:33-40 | the exact sum of what is not negative, or the largest count when it does not fit |
| `Dispatch.LimitOutput` | src/agent/activity.cc:106-109 | a positive cap bounds the text and leaves one that fits alone; other caps leave every text alone |
| `Dispatch.ModelResultText` | src/agent/dispatch.cc:38-49 | a positive cap bounds the result, hint included, and a result that fits comes back whole |
| `Dispatch.ModelResultTextKeepsUtf8` | src/agent/dispatch.cc:38-49 | well-formed output and hint stay well-formed under every cap |
| `Dispatch.ModelHintIs` | src/tools/tool.cc:149-155 | the hint and then the locator of the log, on a line of their own after the output and at the start of the text without any |
| `Dispatch.HintSurvives` | src/agent/dispatch.cc:35-49 | whatever is cut, the whole hint is at the end, if the limit leaves room for it |
| `Dispatch.LimitInForce` | src/agent/dispatch.cc:30-40 | a call's own limit comes before its tool's, and that before the configured one |
| `Dispatch.BatchBudgetIs` | src/agent/dispatch.cc:54-66 | the budget given, or the configured one, or the largest limit in the batch when that is larger |
| `Dispatch.SortBySize` | src/agent/dispatch.cc:77-84 | the positions end up sorted by size and then position, none lost or repeated |
| `Dispatch.TwoPhasesAreFair` | src/agent/dispatch.cc:86-104 | sizes kept up to the share, then the share with one extra for the first few, is a fair split |
| `Dispatch.FillEvenly` | src/agent/dispatch.cc:97-103 | sharing what remains evenly, remainder included, uses up the budget and is fair |
| `Dispatch.Divide` | src/agent/dispatch.cc:76-104 | shares sum to exactly the budget, none exceeds its result's size, and a cut share is at least every other minus one and at least every later one |
| `Dispatch.FairSplitIsUnique` | src/agent/dispatch.cc:76-104 | those properties determine every share: there is one such split |
| `Dispatch.TotalSize` | src/agent/dispatch.cc:69-73 | the saturating total is the exact one, or the largest size |
| `Dispatch.ModelFacingToolResults` | src/agent/dispatch.cc:51-111 | texts total at most a positive budget; within it they are returned as they are; over it each is what its share of the one fair split leaves, all of it when it fits, and a result whose share is its size comes back byte for byte when it was whole or filled its limit, and over well-formed output if and only if it keeps itself |
| `Dispatch.OwnSizeKeeps` | src/agent/dispatch.cc:38-49 | cut to its own size, a result over well-formed output comes out the same if and only if it was not cut, shows only its hint, or its cut recurs |
| `Dispatch.SingleBytesKeepThemselves` | src/agent/dispatch.cc:38-49 | a result of single-byte characters that was cut fills its limit, so it keeps itself |
| `Recut.RecutIsSame` | include/core/output_buffer.h:127-146 | cut again to the size it came out at, well-formed text comes out the same byte for byte if and only if it was not cut around a marker, or in balance: as much kept after the marker as before it or one byte more, and not nothing |
| `Recut.MarkersDiffer` | include/core/output_buffer.h:19-22 | markers of different widths that start close to each other make different texts of one size, whatever the text contains |
| `Recut.RecutCanLose` | include/core/output_buffer.h:127-146 | thirty two-byte characters, which cut to 43 bytes come out at 42 and cut to 42 at 40 |
| `ToolProtocol.IsForeignToolCallOpener` | include/api/tool_protocol.h:21-37 | the loop over the bytes decides the same as normalizing the opener and searching it |
| `ToolProtocol.HasToolCallIsNamesToolCall` | include/api/tool_protocol.h:34-36 | the two searches succeed if and only if the normalized text has "call" somewhere after "tool" |
| `ToolProtocol.VerdictIsStable` | include/api/tool_protocol.h:52-84 | a decided verdict is the verdict on every extension, complete or not, the 256/257 bounds included |
| `ToolProtocol.CompleteVerdict` | include/api/tool_protocol.h:52-84 | a complete message is a call if and only if streaming already said so or it ends in a short unclosed opener; complete messages are always decided |
| `ToolProtocol.VerdictIs` | include/api/tool_protocol.h:52-84 | the exact verdict: a call if and only if markup stands at the first visible byte or a complete message is an unclosed opener, undecided if and only if it is incomplete and may still become markup |
| `ToolProtocol.AngleMarkupIs` | include/api/tool_protocol.h:71-83 | an angle opener is markup if and only if its first closer is within 256 bytes and the letters up to it name a tool call |
| `ToolProtocol.BracketedMarkerIs` | include/api/tool_protocol.h:39-48 | a bracketed marker is one if and only if its first closing bracket is within 256 bytes, a brace follows and the letters between name a tool call |
| `ToolProtocol.NormalizedConcat` | include/api/tool_protocol.h:25-33 | normalizing works byte by byte |
| `ToolProtocol.NormalizedByte` | include/api/tool_protocol.h:25-33 | it keeps digits and small letters, lowers capital letters and drops all else |
| `ToolProtocol.FenceIs` | include/api/tool_protocol.h:96-100 | a fence is three backticks or three tildes |
| `ToolProtocol.ContainsForeignToolCallMarkup` | include/api/tool_protocol.h:89-140 | true if and only if markup stands at some position of the text, outside fences, inline code and closed angles |
| `ToolProtocol.ScanFindsLiveMarkup` | include/api/tool_protocol.h:93-139 | from any point of the scan on, what it finds is exactly the markup in text at a later position |
| `ToolProtocol.ScanReachesMarkup` | include/api/tool_protocol.h:93-138 | leading blanks carry the scan to the first visible byte outside fences and inline code |
| `ToolProtocol.SuppressionAgreesWithValidator` | include/api/tool_protocol.h:52-140 | whatever streaming calls a call, the check of the whole message finds |
| `ToolProtocol.ScanFindsNothing` | include/api/tool_protocol.h:93-139 | from any state, a rest without brackets and without closed angles holds no markup |
| `ToolProtocol.UnclosedOpenerIsFound` | include/api/tool_protocol.h:52-140 | an unclosed opener is a call at the end of the message, and the check of the whole finds it if and only if a bracketed marker follows outside inline code |
| `ToolProtocol.UnclosedOpenerIsNotFound` | include/api/tool_protocol.h:74-83 | so an unclosed opener without brackets is a call at the end of the message and is not found by the check of the whole |
| `ToolProtocol.SuppressedAndNotFound` | include/api/tool_protocol.h:74-83 | a message that is suppressed at its end and not found |
| `AnswerStream.AnswerStream.EmitContent` | include/api/stream.h:141-156 | content is held exactly while it may become markup, suppressed exactly when markup stands at its first visible byte, and printed in adjacent pieces otherwise |
| `AnswerStream.AnswerStream.Finish` | include/api/stream.h:223-234 | at the end the whole content was printed or nothing was and the answer is marked, as the verdict on the complete content says |
| `AnswerStream.AnswerStream.Run` | include/api/stream.h:141-156 | streaming equals batch: for every chunking the answer is suppressed if and only if markup stands at the first visible byte or the content is an unclosed opener; else the printed pieces, each at the offset where those before it end, make up the content; and when what is suppressed is found by the validator |
| `AnswerStream.SuppressedIsMarkup` | src/agent/turn.cc:417-418 | the validator finds a suppressed answer if and only if it is no unclosed opener, or a live marker follows that one |
| `ReasoningStream.ReasoningStream.OutputReasoning` | include/api/stream.h:82-139 | one fragment changes text and spans as Step says, and replaying all emitted patches rebuilds the text |
| `ReasoningStream.ReasoningStream.ShiftOthers` | include/api/stream.h:112-116 | every other span at or after the splice moves by what it added less what it erased, and no other span moves |
| `ReasoningStream.ReplayMore` | include/api/stream.h:109-124 | appending at the offset, or resetting to the whole text, keeps a replaying client equal |
| `ReasoningStream.OtherKeepsSlice` | include/api/stream.h:108-119 | a safe splice leaves every other part's bytes in its span |
| `ReasoningStream.SpliceKeepsDisjoint` | include/api/stream.h:108-119 | a safe splice leaves spans pairwise disjoint |
| `ReasoningStream.ChangeMakesPart` | include/api/stream.h:88-107 | the bytes a change leaves in a part are what its own fragments make: append, replace by a snapshot, freeze when complete |
| `ReasoningStream.StepIsGoodWhenSafe` | include/api/stream.h:82-139 | from a state in order, a fragment keeps spans disjoint, in bounds and equal to their parts' own folds if and only if it is safe, which is checked before the call |
| `ReasoningStream.RunIsGoodWhenSafe` | include/api/stream.h:82-139 | over every run, all parts are in place after every fragment if and only if every fragment is safe in the state before it |
| `ReasoningStream.PartsDoNotDisturbEachOther` | include/api/stream.h:82-139 | over every run without empty snapshots, however parts interleave, spans are disjoint and in bounds and each holds the fold of its own part alone |
| `ReasoningStream.TextIsPartsJoined` | include/api/stream.h:82-139 | over every such run the whole text is the parts, each the fold of its own fragments, in order of entry, with a blank line between them |
| `ReasoningStream.EmptySnapshotsCanMixParts` | include/api/stream.h:101-119 | a run with empty snapshots after which a part's span holds a byte of another part |
| `ToolCalls.FreshId` | include/api/stream.h:290-294 | the suffix search ends and yields the base when free, else its first free numbered form |
| `ToolCalls.AddIdentified` | include/api/stream.h:287-303 | a call under a fresh id keeps all ids distinct and every earlier call as it was |
| `ToolCalls.CollectToolCalls` | include/api/stream.h:248-309 | calls come back in stream order with distinct non-empty ids and object arguments; each keeps its name, its own id when that is free, and its arguments when they are an object, with blank ones made empty and others set aside as malformed; streamed calls are the returned, exactly the nameless, and the last one if and only if it is partial and the response was cut short |
| `ActivityLog.LogFiles.WriteChunk` | src/agent/activity.cc:231-248 | through any partial writes, rotations and failures the log holds the newest of what was written |
| `ActivityLog.LogFiles.PumpLog` | src/agent/activity.cc:207-251 | both segments stay within bounds, the older one when it was so at the start or has been replaced, and together are all that was written or its suffix with a full older segment; at least half the limit is kept of a longer input, and no more than the limit, or 1 KiB; success if and only if all input was written |
| `ActivityLog.SegmentsAfter` | src/agent/activity.cc:231-248 | the older segment is bounded if and only if it was at the start or the log has turned over, and all that is kept is a suffix of what was written if and only if nothing older is left |
| `ActivityLog.RetainsLastSegment` | src/agent/activity.cc:209-210 | at least the last segment of what was written is kept, and without an older log all that is kept is a suffix of it |
| `ActivityLog.BodyIsTail` | src/agent/activity.cc:116-137 | a positive cap reads exactly the last bytes retained across both segments, a negative one all, and zero the older segment only, which loses nothing if and only if the current one is empty |
| `ActivityLog.CapZeroLosesCurrent` | src/agent/activity.cc:116-137 | a log whose only output a cap of zero does not read |
| `ActivityLog.ReadLogTail` | src/agent/activity.cc:128-136 | what was read is shown whole, under a banner unless it is the current segment and nothing else |
| `ActivityLog.ReaderSeesNewestBytes` | src/agent/activity.cc:116-251 | pump then read, for a log that began without an older segment or has turned over: the last min(cap, retained) bytes written, and the last cap bytes when the cap is within a segment |
| `SessionOutput.Session.Append` | src/agent/activity_supervisor.cc:680-700 | output that arrives is pending in full, and the marker window stays the end of the output since it was cleared, 64 KiB of it at least |
| `SessionOutput.WindowMatches` | src/agent/activity_supervisor.cc:690-695 | a marker in the window is in the output since it was cleared, and a marker in the last 64 KiB of that output is in the window |
| `SessionOutput.Session.Drain` | src/agent/activity.cc:494-504 | one locked step takes all pending output |
| `SessionOutput.Round` | src/agent/activity.cc:534-553 | stop conditions are read before the drain, so all output observed then is drained, and a match means the marker is in it |
| `SessionOutput.CollectSessionOutput` | src/agent/activity.cc:512-592 | with the I/O thread appending between locked steps, all rounds belong to one output stream and drained plus pending stays produced; a wait is done if and only if it saw its marker, a terminal session, its first output when it waits for neither marker nor quiet, quiet after output when it waits for that, or may not wait, and is else aborted, yields or is late, in that order; every exit but an abort returns all that was collected, which within the budgets is every byte taken; a wait ending on a terminal session took everything, and an abort of one that waits for any output took nothing |
| `SessionOutput.ChunkIs` | src/agent/activity.cc:494-504 | a read is all that was pending when it fits, the text that stands for no output when nothing was, and no longer than a positive cap |
| `SessionOutput.AbortCanLose` | src/agent/activity.cc:560-581 | over rounds of one output stream, an abort can lose drained output if and only if the wait may block and has a marker or waits for quiet |
| `SessionOutput.ReadThenAbortLoses` | src/agent/activity.cc:560-581 | whatever such a wait finds pending without its marker, an abort right after the read turns into no text |
| `SessionOutput.CollectedNothing` | src/agent/activity.cc:494-504 | within the budgets nothing is collected if and only if every read was empty or the text that stands for no output |
| `SessionOutput.WaitReturnsAllItTook` | src/agent/activity.cc:494-504 | within the budgets, what is returned is every byte taken if and only if no read equals the text that stands for no output |
| `SessionOutput.SentinelIsDropped` | src/agent/activity.cc:546-553 | a read equal to the text that stands for no output is dropped |
| `Supervision.ReapStep` | src/agent/activity.cc:1017-1029 | reaping and keeping a leader's status in one step keeps every live status true |
| `Supervision.TakeStep` | src/agent/activity_supervisor.cc:490-512 | taking removes an activity for one wait only and keeps the status that wait carries true |
| `Supervision.KeepStep` | src/agent/activity.cc:1068-1075 | the winner delivers the status it read and only then erases it |
| `Supervision.OthersUndisturbed` | src/agent/activity.cc:1225-1258 | no step of the world or of another wait disturbs what a wait relies on |
| `Supervision.StepKeepsInv` | src/agent/activity.cc:1031-1105 | every atomic step keeps statuses true, claims exclusive and complete, and changes reported |
| `Supervision.DeliveredExactlyOnce` | src/agent/activity.cc:1031-1105 | over all interleavings every registered activity is live, carried by a wait that goes on, returned by a wait or thrown away by a cancelled one, exactly one of these and exactly once, and whatever was taken carries the true exit status |
| `Supervision.DeliveredStatusIsExitStatus` | src/agent/activity.cc:1017-1029 | over all interleavings, whatever a wait takes carries the status of the step that ended the activity, or zero for a leader that never was a child |
| `Supervision.DecisionIs` | src/agent/activity.cc:1232-1258 | in every reachable state a wait that has examined everything returns if it took something and any will do, or nothing it waits for is live; else it is cancelled by an abort, returns what it took for queued steering or at the deadline, or blocks at the generation it read |
| `Supervision.ReturnsOnlySatisfied` | src/agent/activity.cc:1225-1258 | over all interleavings a wait that nothing makes yield returns only then |
| `Supervision.WaitKeepsRequest` | src/agent/activity.cc:1173-1225 | over all interleavings a wait waits for what it was asked to |
| `Supervision.BlockedWaitIsWoken` | src/agent/activity.cc:1225-1258 | over all interleavings a wait blocked over activities that others have taken has a moved generation |
| `Supervision.EndIsReported` | src/agent/activity_supervisor.cc:630-650 | an activity that ends owes a wake-up |
| `Supervision.WokenWaitScansAgain` | src/agent/activity.cc:1225-1258 | a woken wait reads the generation anew and then scans all it waits for that is live |
| `Supervision.CancelThrowsAwayWhatWasTaken` | src/agent/activity.cc:1225-1240 | over all interleavings a cancelled wait throws away exactly what it took, which is nothing for a wait for any or for one activity |
| `Supervision.CancelLosesWhen` | src/agent/activity.cc:1232-1240 | a cancellation seen after a scan loses something if and only if a wait for all has taken some and others are live |
| `Supervision.CancelledWaitLosesCompletion` | src/agent/activity.cc:1225-1240 | for any two or more activities, a run in which a wait takes one and is cancelled over the rest |
| `Supervision.CancelCanLose` | src/agent/activity.cc:1225-1240 | a wait can lose a completion to a cancellation if and only if it waits for all of two or more activities |
| `Supervision.NoLostWakeUp` | src/agent/activity.cc:1225-1258 | over all interleavings a wait blocked while something it waits for is ready has a moved generation or a notifier mid-step, unless a group ended after its leader since the wait read the generation |
| `Supervision.SilentEndWakesNobody` | src/agent/activity.cc:1055-1059 | the last of a detached group ending after its leader makes the activity ready and changes no generation |
| `Supervision.OnlyOrphansAreSilent` | src/agent/activity.cc:1055-1059 | over all interleavings, the changes nothing reports are exactly the ends of groups after their leaders |
| `Supervision.WakeUpIsLost` | src/agent/activity.cc:1055-1059 | a run that leaves a wait blocked at the current generation with its activity ready and no wake-up on its way |
| `Supervision.WakeUpIsLostWhen` | src/agent/activity.cc:1225-1258 | with no wake-up on its way, a blocked wait misses a ready activity if and only if its group ended after its leader since the wait read the generation |
| `Lease.StepKeepsInv` | include/core/lease.h:40-104 | every system call, crash and removal while unowned keeps locks exclusive and every owner's lock on the named file |
| `Lease.MutualExclusion` | include/core/lease.h:40-104 | in every interleaving of leases opening, locking, re-checking, retrying, removing, releasing and crashing, at most one owns the path |
| `Lease.AcquiresWhenFree` | include/core/lease.h:44-80 | undisturbed, an idle lease becomes the owner if and only if nobody else holds the named file |
| `Lease.RetriesWhenStale` | include/core/lease.h:44-80 | a lease whose file was replaced closes it and becomes the owner of the new one under the same condition |
| `Lease.OwnerLeavesLock` | include/core/lease.h:144-149 | releasing, with or without removing the file, or crashing leaves the lock to others |
| `Lease.RemoveIsSafeWhenUnowned` | include/core/lease.h:21-22 | a removal by somebody else keeps the invariant if and only if nobody owns the path |
| `Lease.RemovalWhileOwnedBreaksExclusion` | include/core/lease.h:21-22 | from any state with an owner, such a removal lets every idle lease become a second owner |
| `Lease.OwnershipIsOwn` | include/core/lease.h:144-149 | no step of another lease takes ownership away |
| `Lease.ParsePid` | include/core/lease.h:118-125 | the digit loop accepts exactly the decimal numbers from 1 to INT32_MAX, its early exit losing none |
| `Lease.LiveOwner` | include/core/lease.h:106-129 | a record is returned if and only if it fits the buffer, names a process in range and matches its running identity |
| `Lease.LiveOwnerIsRunning` | include/core/lease.h:106-129 | by positions: decimal digits from 1 to INT32_MAX, the first space, and the identity the process runs under |
| `Lease.PublishedOwnerIsRead` | include/core/lease.h:85-129 | what an owner publishes is read back while it runs if and only if the record is shorter than the buffer |
| `RendererManifest.Traverse` | web/vite.config.js:27-67 | either worklist ends on every graph and returns exactly what is reachable from its roots along static and dynamic imports, short of the boundary, with all assets and styles |
| `RendererManifest.AllLoaded` | web/vite.config.js:27-67 | with nothing pending, what is marked is exactly what loads |
| `RendererManifest.GenerateBundle` | web/vite.config.js:8-76 | the optional set is what renderer roots load minus what entries load without passing a root that is no entry; the two sets are disjoint |
| `Usage.MergeAssociates` | include/core/usage.h:54-62 | merging usages does not depend on grouping, counter by counter |
| `Usage.UsageAccumulator.Count` | include/core/usage.h:132-135 | usage without a route is added to the unassigned rest |
| `Usage.UsageAccumulator.Add` | include/core/usage.h:137-148 | usage is added to its route and to its turn, or to the unassigned rest when it has none |
| `Usage.UsageAccumulator.TakeAll` | include/core/usage.h:150-164 | everything held is returned and nothing is held afterwards |
| `Usage.UsageIsConserved` | include/core/usage.h:130-164 | over any interleaving, for every route, turn and the unassigned rest, everything drained plus everything held is everything added |
| `Usage.AmountsAreConserved` | include/core/usage.h:130-164 | in plain numbers: for each counter of each account, drained plus held is the exact sum of the nonnegative amounts added, up to the largest count |
| `Usage.TotalExtract` | include/core/usage.h:119-125 | the total of a map of usages does not depend on the order of its keys |
| `Usage.RecordsBalance` | include/core/usage.h:150-164 | in every drained record turns plus the unassigned rest equal routes plus usage without a route |
| `DiffSpan.TrimCommonLines` | include/core/strings.h:200-216 | the span fits both texts, and no other single hunk that fits is shorter |
| `DiffSpan.NoShorterHunk` | include/core/strings.h:200-216 | a longest common prefix and then the longest common suffix maximise the shared lines |
| `DiffSpan.ForEachDiffLine` | include/core/strings.h:220-227 | line by line: one of context before, what was removed, what was inserted, one of context after, each at its position |
| `DiffSpan.DiffRoundTrips` | include/core/strings.h:218-227 | the shared ends with the '-' lines between rebuild the old text, with the '+' lines the new one |

## Left out

- Dispatch.SortBySize: stands for the standard library's sort, whose algorithm is not part of this model; only its result matters.
- ReasoningStream.PartsDoNotDisturbEachOther: is about runs without empty snapshots, since it is false with them; `RunIsGoodWhenSafe` covers every run.
- RendererManifest.Traverse: assumes that no asset or style is named like a chunk, because the build keeps both in one set, and that the set starts empty.
- Supervision.NoLostWakeUp: does not cover an activity made ready by the end of a group after its leader, for the reason given above.
- Lease.MutualExclusion: assumes that a lease file is removed only by its owner or while unowned, which the pruning of aged files does not heed; the two lemmas beside it show what happens otherwise.
- OutputBuffer.HeadTailBuffer.Push: does not model the wrap-around of 64-bit byte counters or of twice the tail budget.
- Supervision: assumes that child exits wake the I/O thread. Where that could not be registered (src/agent/activity_supervisor.cc:633), a detached leader's exit is reported by nobody, and a wait finds it only when something else wakes it.
- Supervision: the count of activities still running is one step here and several locked reads in the source; stop, shutdown and kill paths, foreground activities, process-id reuse and pruning of retained activities are not modelled.
- SessionOutput: a deadline is a bound on wake-ups, because time is not modelled; output after the grace period of an exited process is not modelled.
- Lease: ownership, mode and link-count checks of the opened file and the publishing writes are not modelled; interrupted system calls are retried without effect.
- ActivityLog: interrupted reads and writes are retries without effect, and unlink and rename are assumed to succeed.
- ToolCalls: the ordered map of calls is a sequence of entries, and whether a text parses as a JSON object is a parameter.
- Usage: costs, which are floating-point, and JSON statistics.
- OutputBuffer: the one-line status view of a buffer, which is presentation.
- Event payloads beyond text, offset and reset; response-size limits and the SSE parser.
- The remaining repository: conversation, sessions, tools, configuration, terminal, web and browser code.
