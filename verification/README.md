# A verified model of the agent's stateful core

Sensai is an on-device assistant built on the picoclaw agent, whose Go code is modelled here:
it keeps chat sessions on disk, talks to model providers with fallback, schedules jobs, finds
tools and skills by search, and cuts long answers into messages. This project models the parts of it whose correctness is not visible in any single
function, and proves what they promise. Code that updates state is modelled as methods over
fields, arrays and loops, each proved against a specification function or a stated property;
runs with crashes or interleavings are state machines over the same specification functions.

| files | what is modelled |
|---|---|
| `LineFile.dfy`, `SessionLog.dfy`, `TornRuns.dfy` | the session log: an append-only line file and a meta file with a logical offset, with a crash possible between any two writes, and within the write of an append |
| `Runes.dfy`, `Splitter.dfy`, `SplitterCuts.dfy`, `SplitterProperties.dfy`, `SplitterTermination.dfy`, `SplitterBalance.dfy` | the message splitter, which rewrites its own input when it cuts inside a code block |
| `Sanitizer.dfy`, `AgentTurns.dfy` | the two-pass history sanitizer, and how the agent loop writes and compresses a history |
| `CronService.dfy`, `CronRuns.dfy`, `CronProgress.dfy`, `CronSpacing.dfy` | the job scheduler: its locked sections, and all their interleavings with crashes and failed saves |
| `Bm25Heap.dfy`, `Bm25.dfy` | the BM25 search: an inverted index and a bounded min-heap |
| `Trigrams.dfy`, `SearchCache.dfy` | the skill search cache: least recently used eviction, and similarity of trigram lists |
| `Cooldown.dfy`, `Fallback.dfy` | provider cooldowns and the fallback chain that uses them |
| `ToolRegistry.dfy`, `ToolSearch.dfy` | tools with a time to live, and the search index cached by registry version |
| `MediaStore.dfy` | the media store's three maps |
| `Common.dfy` | datatypes shared by several components |

## What was found

Most of what the code and its comments promise holds on all inputs. Where it does not, the
exact condition is proved instead.

* **Splitter, termination.** The loop puts the header of an open code block back in front of the
  text, so a round may consume no more than it adds. `TerminatesIff`: the loop ends on every
  content whose headers have at most k runes if and only if maxLen < 5, k < 3 or k <= maxLen - 7.
  Headers one rune longer suffice for a content on which it emits chunks for ever.
* **Splitter, balance.** Take a chunk closed inside a block, where no fence straddles the
  tentative cut. It has balanced fences for every limit but 5 to 9, where the opening fence
  itself can be cut: `BalancesIff` proves both directions, with a failing content for each of
  these limits. From 10 on, a straddled fence unbalances the chunk if and only if it ends before
  the real cut (`InsideCutIsBalanced`), which it always does from 14 on.
* **Session log, torn lines.** `store.go` promises that a truncation keeps the last k messages.
  A truncation counts a line torn by a crash, and so keeps k - 1 of the messages in front of it
  and what that line decodes to. Exactly when it decodes, as it does when only its newline was
  lost, these are the last k with the torn append counted as done (`TruncateKeepsLastIff`).
* **Session log, appends.** An append adds a line if and only if the file is empty or ends in a
  newline (`AppendAddsLineIff`). Otherwise its message is joined to the open line.
  `TornCrashSafety` follows such lines through whole runs: no more of the log's lines are damaged
  than appends were torn, and every message on a whole line is read back, at its place.
* **Session log, compaction.** The comment at `pkg/memory/jsonl.go:424-427` says that the next
  compaction corrects the offset after a crash. It does not make a history exact again:
  `CompactKeepsHistory` shows that a completed compaction never changes what is read, and
  `ExactAfterEvent` that only a completed set, or a truncation to at most the abstract length,
  restores exactness.
* **Scheduler.** "every" jobs keep their distance whatever users and failures do, on runs with n
  run loops at a time and no overflow, if and only if n is at most one (`LoopsAreSpacedIff`):
  `Stop` does not wait for the loop that it stops, so a stop and a start can leave two. With one
  loop, they keep it up to a time if and only if that time and the interval together fit 64 bits
  (`SingleLoopIsSpacedIff`); beyond that, the handler starts twice in the same millisecond.
* **Scheduler, one-shot jobs.** They run at most once over every interleaving (`AtMostOnce`), and
  exactly once where nobody takes them away (`AtJobRuns`).
* **Cooldowns.** A failure never shortens a cooldown, given a failure window of at least 19 hours
  less a nanosecond, and that is exact (`WindowIsSoundIff`). The default of 24 hours is enough.
* **Compression.** `forceCompression` says that it keeps the system prompt in `history[0]`. The
  histories that the agent loop writes hold no system message, so what it keeps, with the note
  appended, is the oldest message. It leaves a well-formed history well-formed if and only if
  there is no tool message at the cut (`CompressedIsWellFormedIff`). If there is one, the
  sanitizer drops exactly the rest of that tool run, and over whole sessions nothing else
  (`TranscriptsAreTrimmed`). When a first round makes three calls or more and a context error
  follows, what a provider is still sent of the session is its first message alone
  (`FirstRoundIsCutOff`).

## Assumptions

* Encoding a message and decoding it again gives the message back; an encoded message is not
  empty and contains no newline or carriage return (`LineFile.Codec.Valid`).
* A file write is atomic, except that in `TornRuns.dfy` and the lemmas about torn lines an append
  may be torn. A write that fails leaves the operation where a crash would.
* Clock readings do not go back. New job ids and media references are new.
* A cron expression is evaluated by an arbitrary function of the expression and a time.
* The BM25 weights are arbitrary real-valued functions of the counts they are computed from.

## Model

| member | source | states |
|---|---|---|
| LineFile.ReadMessages | pkg/memory/jsonl.go:131-177 | the line-by-line scan returns the decodable non-empty lines behind the first `skip` non-empty ones, in order |
| LineFile.CountLines | pkg/memory/jsonl.go:181-200 | the count is the number of non-empty lines, decodable or not: the unit in which `skip` is measured |
| LineFile.RenderAll | pkg/memory/jsonl.go:443-456 | the buffer of a rewrite is the concatenation of the messages' lines |
| LineFile.CarriageReturnIsDropped | pkg/memory/jsonl.go:146-167 | a carriage return in front of a newline is no part of the line, as the line scanner has it |
| LineFile.EmptyLinesDoNotCount | pkg/memory/jsonl.go:150-154 | empty lines are neither read nor counted |
| LineFile.LinesOfRender | pkg/memory/jsonl.go:443-456 | scanning a rewritten file, whatever bytes follow, yields one line a message and then the lines of those bytes |
| LineFile.ReadBackOfRender | pkg/memory/jsonl.go:131-177 | reading back a rewritten file returns the same messages from `skip` on, and bytes behind them hide none |
| LineFile.RoundTrip | pkg/memory/jsonl.go:131-177 | the round trip without such bytes, and the line count |
| LineFile.TornLastLine | pkg/memory/jsonl.go:146-167 | a torn last line hides no earlier message, adds only what it decodes to, and counts as a line |
| LineFile.AppendToEndedFile | pkg/memory/jsonl.go:218-253 | to any file that is empty or ends in a newline, an append adds one line, and its message to what is read |
| LineFile.AppendToOpenFile | pkg/memory/jsonl.go:218-253 | to any other file, an append only makes its last line longer |
| LineFile.AppendAddsLineIff | pkg/memory/jsonl.go:218-253 | an append adds a line if and only if no line is left open, a guard on the file before the call |
| LineFile.AppendAfterTornLine | pkg/memory/jsonl.go:218-268 | the message appended after a torn line is read back if and only if the joined line decodes to it |
| SessionLog.Store.AddMessage | pkg/memory/jsonl.go:218-268 | whatever number of its writes succeeds, the two files are as the write sequence says |
| SessionLog.Store.GetHistory | pkg/memory/jsonl.go:270-290 | the history is the messages on the lines from `skip` on; nothing changes |
| SessionLog.Store.TruncateHistory | pkg/memory/jsonl.go:327-361 | the new `skip` comes from the lines actually counted, never from the stored count |
| SessionLog.Store.SetHistory | pkg/memory/jsonl.go:363-394 | `skip` is reset before the file is rewritten |
| SessionLog.Store.Compact | pkg/memory/jsonl.go:402-439 | nothing without an offset; otherwise the active messages replace the file after `skip` is reset |
| SessionLog.Store.SetSummary | pkg/memory/jsonl.go:306-325 | only the summary changes |
| SessionLog.CompletedIsDone | pkg/memory/jsonl.go:218-439 | an operation all of whose writes reached the disk counts as done |
| SessionLog.EventKeepsRepresents | pkg/memory/jsonl.go:218-439 | every operation, complete or cut short after any write, keeps: the lines end with the abstract history, in front of it stand only messages dropped earlier, `skip` lies in that front part |
| SessionLog.CrashSafety | pkg/memory/jsonl.go:218-439 | over every run with crashes, what is read back is the abstract history behind messages dropped earlier, and `skip` never exceeds the lines |
| SessionLog.ExactAfterEvent | pkg/memory/jsonl.go:327-394 | after any event but a rewrite cut short, the history is exact if and only if it was or the event is a completed set, or truncate to at most the abstract length |
| SessionLog.ExactAfterCutShort | pkg/memory/jsonl.go:384-438 | a rewrite cut short between its writes makes all lines readable; exact if and only if none of them was dropped |
| SessionLog.ExactSince | pkg/memory/jsonl.go:218-439 | over whole runs: exact from a restoring operation on, and from the start when no rewrite was cut short |
| SessionLog.CompactKeepsHistory | pkg/memory/jsonl.go:402-439 | a completed compaction never changes what is read back, in any reachable state |
| SessionLog.CountIsIrrelevant | pkg/memory/jsonl.go:344-357 | no history ever returned depends on the stored count, stale or not |
| SessionLog.TornAppendKeepsHistory | pkg/memory/jsonl.go:146-167 | an append torn within its line leaves the history as it was, up to what the torn bytes decode to |
| SessionLog.TruncateCountsTornLine | pkg/memory/jsonl.go:327-361 | after a torn append, truncating to k keeps k - 1 messages and what the torn bytes decode to |
| SessionLog.TruncateKeepsLastIff | pkg/memory/jsonl.go:327-361 | these are the last k messages, the torn append counted as done, if and only if the torn bytes decode |
| TornRuns.EventKeepsEntries | pkg/memory/jsonl.go:218-439 | every operation, complete, cut short or torn, keeps: the file's lines are entries dropped earlier and then the log's, whole or damaged, the last one open or not |
| TornRuns.TornCrashSafety | pkg/memory/jsonl.go:131-439 | over every run with crashes and torn appends, what is read back is the log's kept messages and what its damaged lines decode to, behind entries dropped earlier; no more lines are damaged than appends were torn |
| TornRuns.WholeRunsAreExact | pkg/memory/jsonl.go:218-439 | without torn appends that log is the abstract history |
| Runes.FindLastNewlineInRange | pkg/channels/split.go:188-196 | the last newline of the window, or start - 1 |
| Runes.FindLastSpaceInRange | pkg/channels/split.go:200-208 | the last space or tab of the window, or start - 1 |
| Runes.FindNewlineFrom | pkg/channels/split.go:177-184 | the first newline from an index on, or -1 |
| Runes.FindNextClosingCodeBlockInRange | pkg/channels/split.go:166-173 | the end of the first fence of the range, or -1 |
| Runes.FindLastUnclosedCodeBlockInRange | pkg/channels/split.go:144-162 | the fence left open by a toggling scan, or -1 |
| Runes.UnclosedIffOdd | pkg/channels/split.go:144-162 | a block is reported open if and only if the range has an odd number of fences |
| Runes.FencesAcrossNewline | pkg/channels/split.go:113-120 | a closing fence on its own line adds exactly its own fence |
| Splitter.ChooseCut | pkg/channels/split.go:32-123 | the searches of a round decide as the specification of a step says; all indices in range |
| Splitter.CutOpenBlock | pkg/channels/split.go:61-123 | the same for a block that stays open and whose end is out of reach |
| Splitter.Round | pkg/channels/split.go:32-137 | a round emits the step's chunk and goes on with the step's text and position |
| Splitter.SplitMessage | pkg/channels/split.go:13-140 | the loop emits the chunks of the specified rounds; the case of no limit |
| SplitterCuts.FirstCut | pkg/channels/split.go:38-51 | the first cut, said of the text alone: at the last newline among the last 200 runes before the limit, else at the last space or tab among the last 100, else at the limit |
| SplitterCuts.ScanDecides | pkg/channels/split.go:144-162 | the block reported open is the last fence of the scan that takes each time the next fence behind the last, if their number is odd |
| SplitterCuts.LastChunk | pkg/channels/split.go:28-32 | what fits is emitted whole, and ends the loop |
| SplitterCuts.CutsAtFirstCut | pkg/channels/split.go:44-54 | where no block is open, the chunk ends at the first cut, and the next starts at the first rune behind it that is not blank |
| SplitterCuts.CutsBehindBlock | pkg/channels/split.go:60-63 | where the first fence behind the cut still fits, the chunk ends behind that fence |
| SplitterCuts.CutsInsideBlock | pkg/channels/split.go:80-98 | with more than 20 runes behind the header, the chunk is closed at the last newline behind the header, else where it is full; the rest starts over behind the header |
| SplitterCuts.CutsInFrontOfBlock | pkg/channels/split.go:101-107 | otherwise it ends in front of the block, at a newline, else at a blank |
| SplitterCuts.CutsAtBlock | pkg/channels/split.go:108-111 | with neither, but more than 20 runes of text, it ends at the block |
| SplitterCuts.CutsInsideAfterAll | pkg/channels/split.go:112-121 | with neither and less text, it is closed inside the block where it is full |
| SplitterProperties.LengthBound | pkg/channels/split.go:26-136 | for every content and every maxLen > 0, no chunk has more than maxLen runes, injected closing fence included |
| SplitterProperties.LosesNothing | pkg/channels/split.go:32-137 | after any number of rounds, the chunks' own non-blank runes and then those of the text that remains are the content's, in order; the loop has ended if and only if nothing remains |
| SplitterProperties.SplitLosesNothing | pkg/channels/split.go:13-140 | on every run that ends, the non-injected non-blank runes of the chunks are exactly those of the content |
| SplitterProperties.InjectedIsHeader | pkg/channels/split.go:91-97 | what counts as injected in a rebuilt text is a reopened header and its newline, and nothing else |
| SplitterProperties.SecondSearchIsLater | pkg/channels/split.go:45-90 | the second newline search never lands in front of the first cut |
| SplitterTermination.InsideMakesProgress | pkg/channels/split.go:80-120 | a cut inside a block consumes more than the header it puts back, if that has at most maxLen - 7 runes |
| SplitterTermination.RoundMakesProgress | pkg/channels/split.go:32-137 | every round makes the text that remains shorter, although it may restart at index 0, and lengthens no header |
| SplitterTermination.Terminates | pkg/channels/split.go:32-137 | within as many rounds as there are runes the loop has ended |
| SplitterTermination.RoundsDoNotMatter | pkg/channels/split.go:32-137 | the result does not depend on the model's bound on rounds |
| SplitterTermination.StuckNeverEnds | pkg/channels/split.go:113-120 | a text that starts with too long a header and has no second fence in reach is never finished |
| SplitterTermination.TerminatesIff | pkg/channels/split.go:13-140 | which limits and header lengths the loop can deal with, both directions, for every limit |
| SplitterBalance.NaturalCutsDoNotStraddle | pkg/channels/split.go:44-51 | only a cut at the effective limit can hit a fence |
| SplitterBalance.BalancedIffOpen | pkg/channels/split.go:80-120 | a chunk closed inside a block is balanced if and only if the block is still open at the real cut |
| SplitterBalance.InsideCutIsBalanced | pkg/channels/split.go:54-120 | for limits from 10 on, such a chunk is balanced if and only if no straddling fence ends before the real cut; from 14 on, if and only if no fence straddles the tentative cut |
| SplitterBalance.InsideCutReopens | pkg/channels/split.go:91-120 | for every limit, the rebuilt text starts with the open block's header |
| SplitterBalance.TinyLimitUnbalanced | pkg/channels/split.go:113-120 | for each limit from 5 to 9, a content with no fence straddled whose chunk is not balanced |
| SplitterBalance.BalancesIff | pkg/channels/split.go:54-120 | all such chunks without a straddled fence are balanced if and only if the limit is below 5 or at least 10 |
| Sanitizer.FindAssistant | pkg/agent/context.go:611-620 | whether the nearest message that is no tool message calls tools |
| Sanitizer.FirstPass | pkg/agent/context.go:593-648 | the first pass keeps exactly the messages that fit what was kept before them |
| Sanitizer.MatchResults | pkg/agent/context.go:658-692 | whether the tool run right behind answers every call id, and how long it is |
| Sanitizer.SecondPass | pkg/agent/context.go:654-701 | the second pass drops exactly the unanswered calls with their tool runs |
| Sanitizer.SanitizeHistoryForProvider | pkg/agent/context.go:588-704 | both passes, on every input |
| Sanitizer.WellFormedIs | pkg/agent/context.go:593-692 | the tests of the passes, made at every message, say exactly what strict providers demand |
| Sanitizer.SecondKeepsWellFormed | pkg/agent/context.go:654-701 | dropping whole blocks never takes away the predecessor that a later call needs |
| Sanitizer.SanitizeIsWellFormed | pkg/agent/context.go:588-704 | the output is well-formed for every input list |
| Sanitizer.EveryCallIsAnswered | pkg/agent/context.go:654-701 | in full, for every history: each id of each call that is kept has its answer in the tool messages right behind the call |
| Sanitizer.FirstKeepsIff | pkg/agent/context.go:593-648 | the first pass keeps a message if and only if it is no system message, a tool message has a call in front of its run, and a call follows a user or tool message, among what is kept |
| Sanitizer.SecondDropsUnanswered | pkg/agent/context.go:654-701 | the second pass drops exactly the calls of which some id has no answer right behind them, with their tool runs, and nothing else |
| Sanitizer.FixedPointIffWellFormed | pkg/agent/context.go:588-704 | a history is left unchanged if and only if it is well-formed |
| Sanitizer.Idempotent | pkg/agent/context.go:588-704 | sanitizing twice is sanitizing once |
| Sanitizer.SanitizeKeeps | pkg/agent/context.go:588-704 | the output is a subsequence that keeps every user message and every answer without calls, in order |
| Sanitizer.SanitizeKeepsLast | pkg/agent/context.go:588-704 | a user message or plain answer at the end stays at the end |
| AgentTurns.Session.AppendRound | pkg/agent/loop.go:1246-1411 | the call message, then one result for each call in call order |
| AgentTurns.Session.CallLLM | pkg/agent/loop.go:1115-1193 | a model call with its retries, and with the compression after each context error |
| AgentTurns.Session.RunIterations | pkg/agent/loop.go:1018-1434 | the session after the iterations for every sequence of replies, with timeouts, context errors, failures and the iteration limit |
| AgentTurns.Session.RunTurn | pkg/agent/loop.go:873-959 | user message, iterations, and an answer unless the model failed |
| AgentTurns.TurnIs | pkg/agent/loop.go:913-931 | a turn appends the user message, all rounds in order, and the first text there is of the last reply's content, its reasoning, and the default |
| AgentTurns.TurnAtLimit | pkg/agent/loop.go:913-931 | a turn that runs out of iterations ends with the default |
| AgentTurns.TurnFailed | pkg/agent/loop.go:908-912 | a turn whose model fails has no answer |
| AgentTurns.RetriesAre | pkg/agent/loop.go:1116-1185 | up to two timeouts or context errors are retried, with one compression for each context error |
| AgentTurns.ThirdErrorFails | pkg/agent/loop.go:1116-1193 | a third one fails the call |
| AgentTurns.DecimalIs | pkg/agent/loop.go:1514-1518 | the note gives the number of dropped messages in decimal digits |
| AgentTurns.Session.ForceCompression | pkg/agent/loop.go:1486-1535 | the compressed history with its note, and no change up to four messages |
| AgentTurns.CompressionShortens | pkg/agent/loop.go:1486-1527 | compression of more than four messages strictly shortens and keeps the last message |
| AgentTurns.CompressionKeepsSuffix | pkg/agent/loop.go:1494-1527 | behind the first message, which gets the note, stands a suffix of the old history |
| AgentTurns.CompressionKeepsSound | pkg/agent/loop.go:1486-1527 | compressing, also in the middle of a turn, keeps: a history is well-formed but for a tool run right behind its first message |
| AgentTurns.CompressedIsWellFormedIff | pkg/agent/loop.go:1498-1525 | a well-formed history stays well-formed if and only if there is no tool message at the cut; otherwise the sanitizer drops exactly the rest of that run |
| AgentTurns.FirstRoundIsCutOff | pkg/agent/loop.go:1156-1183 | a family of transcripts on which that happens: of the session only the first message is still sent |
| AgentTurns.TurnKeepsSound | pkg/agent/loop.go:873-959 | every turn, with compressions in it or without, keeps the same |
| AgentTurns.SanitizeTrims | pkg/agent/context.go:588-704 | out of such a history the sanitizer takes exactly that run |
| AgentTurns.TranscriptsAreTrimmed | pkg/agent/loop.go:913-931 | over all sessions: the sanitizer takes out nothing else, and nothing at all if and only if the second message is no tool message |
| AgentTurns.TurnKeepsWellFormed | pkg/agent/loop.go:873-959 | a turn without a context error keeps a transcript well-formed, however it ends |
| AgentTurns.TranscriptsAreFixedPoints | pkg/agent/loop.go:913-931 | every transcript built turn by turn without a context error is left unchanged by the sanitizer |
| CronService.Service.constructor | pkg/cron/service.go:71-80 | a process starts from the stored jobs, or from none when they cannot be read |
| CronService.Service.Start | pkg/cron/service.go:82-104 | jobs, store and running state for every outcome of load and save; a run loop only if all succeeded |
| CronService.Service.Stop | pkg/cron/service.go:106-119 | the service no longer runs; jobs and store do not change |
| CronService.Service.RecomputeNextRuns | pkg/cron/service.go:302-310 | exactly the enabled jobs are armed anew |
| CronService.Service.CollectDue | pkg/cron/service.go:135-169 | exactly the due jobs are collected, in order, and disarmed; nothing when not running |
| CronService.Service.FinishJob | pkg/cron/service.go:195-264 | the job's new state after its handler, for each schedule kind, also when it is gone |
| CronService.Service.AddJob | pkg/cron/service.go:363-404 | the job is appended, armed; it stays in memory when the save fails |
| CronService.Service.RemoveJob | pkg/cron/service.go:420-445 | all jobs with the id go; the store is written only then |
| CronService.Service.EnableJob | pkg/cron/service.go:447-471 | enabling arms anew, disabling disarms |
| CronRuns.DueCount | pkg/cron/service.go:145-158 | with unique ids a tick collects an id at most once, and if and only if its job is due |
| CronRuns.NextIdsKnown | pkg/cron/service.go:82-471 | every section keeps ids unique and schedules as they were added |
| CronRuns.NextKeepsOneShot | pkg/cron/service.go:82-471 | every section keeps: a one-shot job was collected or invoked at most once, and once it was it is not armed |
| CronRuns.AtMostOnce | pkg/cron/service.go:82-471 | over every interleaving, an "at" job's handler is invoked at most once and never early |
| CronProgress.ComputedIs | pkg/cron/service.go:266-300 | "at" jobs are armed for their time if and only if it is still to come, "every" jobs for the interval from now, "cron" jobs for the expression's next tick |
| CronProgress.AddArms | pkg/cron/service.go:363-404 | a new job is enabled and armed so, one-shot jobs are marked for deletion, and the other jobs stay as they are |
| CronProgress.StartArms | pkg/cron/service.go:82-104 | a start arms exactly the enabled jobs of the store |
| CronProgress.EnableArms | pkg/cron/service.go:447-471 | enabling arms, disabling disarms, and no other job changes |
| CronProgress.TickDisarms | pkg/cron/service.go:145-164 | a tick disarms exactly the due jobs |
| CronProgress.DueInOrder | pkg/cron/service.go:145-151 | due jobs are collected in the order of the list |
| CronProgress.FinishIs | pkg/cron/service.go:195-264 | the run is recorded; a one-shot job is deleted, or disabled and disarmed; any other is armed anew; no other job changes |
| CronProgress.NextKeepsWaiting | pkg/cron/service.go:135-310 | an armed job stays armed until a tick from its time on, whatever happens to other jobs |
| CronProgress.TickCollects | pkg/cron/service.go:145-158 | that tick collects it |
| CronProgress.NextKeepsInHand | pkg/cron/service.go:135-310 | a collected job is in a loop's hands and still there to be found, or was invoked |
| CronProgress.AtJobRuns | pkg/cron/service.go:82-471 | an "at" job added before its time, and not removed, switched or stopped, is in a loop's hands exactly once after any tick from its time on: when no loop has it waiting, its handler was invoked exactly once |
| CronProgress.LoopInvokes | pkg/cron/service.go:171-217 | a loop that has the job can always go on, and going on invokes its handler |
| CronSpacing.NextKeepsSpaced | pkg/cron/service.go:135-310 | every section keeps the distance between past starts, and between the last start and the next arming |
| CronSpacing.EveryJobIsSpaced | pkg/cron/service.go:135-310 | with one run loop at a time, any two starts of an "every" job are at least its interval apart |
| CronSpacing.OverflowIsDueAtOnce | pkg/cron/service.go:274-280 | a new job is due at once if and only if the time and its interval do not fit 64 bits |
| CronSpacing.OverflowBreaksSpacing | pkg/cron/service.go:135-280 | for every such time and interval, a run with one loop on which the handler starts twice at the same time |
| CronSpacing.SingleLoopIsSpacedIff | pkg/cron/service.go:135-310 | with one loop, all runs up to a time are spaced if and only if the time and the interval fit 64 bits |
| CronSpacing.TwoLoopsBreakSpacing | pkg/cron/service.go:82-133 | a run with a stop and a start, and so two loops, on which two starts are 1 ms apart for an interval of 10 ms |
| CronSpacing.LoopsAreSpacedIff | pkg/cron/service.go:82-310 | without overflow, all runs with at most n loops at a time are spaced if and only if n is at most one |
| Bm25Heap.SiftDown | pkg/utils/bm25.go:255-272 | restores the heap order below a node, in place, with the same multiset of entries |
| Bm25Heap.MinHeapify | pkg/utils/bm25.go:248-252 | turns any array into a heap of the same entries |
| Bm25Heap.RootIsLeast | pkg/utils/bm25.go:187-203 | the root of a heap scores no more than any entry |
| Bm25Heap.SortedKeepsAreTopK | pkg/utils/bm25.go:203-207 | the sorted heap, once all were seen, is the k best documents |
| Bm25Heap.TopK | pkg/utils/bm25.go:183-207 | min(k, scored) distinct documents, descending, none left out that scores more than one returned |
| Bm25.DedupeTerms | pkg/utils/bm25.go:230-240 | the loop computes the specified deduplication |
| Bm25.DedupeKeepsTerms | pkg/utils/bm25.go:230-240 | the same terms, each once |
| Bm25.CountCorpus | pkg/utils/bm25.go:118-136 | exact term frequencies of each document, document frequencies and total length |
| Bm25.BuildPostings | pkg/utils/bm25.go:158-163 | each term's posting list is its documents in order |
| Bm25.PostingsAreDocs | pkg/utils/bm25.go:158-163 | a document is in a posting list if and only if it contains the term, and once |
| Bm25.AddTerm | pkg/utils/bm25.go:172-180 | one term adds its weight to exactly the documents on its list |
| Bm25.ScoreByIndex | pkg/utils/bm25.go:118-181 | the accumulated scores are the naive ones; a document is scored if and only if it contains a query term |
| Bm25.OneTermScores | pkg/utils/bm25.go:139-181 | a single term scores exactly the documents with it, each from the number of those documents, the term's occurrences in it, and its length among all tokens |
| Bm25.ScoresAddUp | pkg/utils/bm25.go:167-181 | the score of several terms is the sum of their scores |
| Bm25.Search | pkg/utils/bm25.go:97-213 | the results are the k best documents by naive scoring, on every corpus, query and k |
| Trigrams.TrigramCodesDiffer | pkg/skills/search_cache.go:175-182 | packed trigrams are equal if and only if their three bytes are |
| Trigrams.TrigramSetIs | pkg/skills/search_cache.go:175-185 | a code is in the set if and only if three neighbouring bytes are its three groups of eight bits |
| Trigrams.Compact | pkg/skills/search_cache.go:187-195 | the in-place compaction leaves a strictly increasing list with the same elements |
| Trigrams.BuildTrigrams | pkg/skills/search_cache.go:175-196 | the list is strictly increasing and has exactly the text's trigrams |
| Trigrams.CommonIsIntersection | pkg/skills/search_cache.go:204-217 | the merge walk counts exactly the common elements |
| Trigrams.JaccardSimilarity | pkg/skills/search_cache.go:199-220 | the result is true intersection over union |
| SearchCache.SearchCache.constructor | pkg/skills/search_cache.go:34-47 | an empty valid cache with the defaults for limits that are not positive |
| SearchCache.SearchCache.Put | pkg/skills/search_cache.go:93-133 | the new recency list and stored entry; keeps the invariant: each key listed once in order of last use, size within the limit |
| SearchCache.SearchCache.Get | pkg/skills/search_cache.go:51-90 | exact hits first; otherwise a hit if and only if an unexpired entry reaches the threshold, and then a most similar one; only recency changes |
| SearchCache.ThresholdIs | pkg/skills/search_cache.go:65-82 | two queries are similar enough if and only if seven of ten of all their trigrams are common, or they have none |
| SearchCache.SearchCache.FindSimilar | pkg/skills/search_cache.go:65-82 | the best unexpired entry by true Jaccard similarity |
| SearchCache.SearchCache.MoveToEnd | pkg/skills/search_cache.go:158-166 | the key goes to the end, the others keep their order |
| SearchCache.SearchCache.EvictExpired | pkg/skills/search_cache.go:144-156 | exactly the expired entries go |
| SearchCache.SearchCache.EvictOldest | pkg/skills/search_cache.go:119-123 | at capacity, the front key goes and there is room |
| SearchCache.SearchCache.PutThenGet | pkg/skills/search_cache.go:51-133 | a put followed by a get within the time to live returns the stored results |
| SearchCache.SearchCache.EvictsLeastRecentlyUsed | pkg/skills/search_cache.go:107-127 | an unexpired key that a put loses was used before every one that stays, and only at capacity for a new key |
| Cooldown.ClampsDoNotMatter | pkg/providers/cooldown.go:183-207 | the clamped exponents never change the capped value |
| Cooldown.CooldownsGrow | pkg/providers/cooldown.go:183-207 | monotone in the count, within their least and greatest values |
| Cooldown.StandardTable | pkg/providers/cooldown.go:178-193 | 1, 5, 25 minutes, then an hour |
| Cooldown.BillingTable | pkg/providers/cooldown.go:194-207 | 5, 10, 20 hours, then a day |
| Cooldown.Tracker.MarkFailure | pkg/providers/cooldown.go:42-66 | the entry's new state, reset by the failure window included; other providers unchanged |
| Cooldown.Tracker.MarkSuccess | pkg/providers/cooldown.go:69-83 | counters and cooldowns of the provider are cleared, of no other |
| Cooldown.Tracker.IsAvailable | pkg/providers/cooldown.go:86-108 | available unless one of the two ends is pending |
| Cooldown.Tracker.CooldownRemaining | pkg/providers/cooldown.go:112-139 | zero if and only if available, and otherwise exactly how long it stays unavailable |
| Cooldown.FailureKeepsBounded | pkg/providers/cooldown.go:42-66 | a failure keeps the bounds on both ends and the sum of the counts, and moves no end backwards |
| Cooldown.FailureNeverShortens | pkg/providers/cooldown.go:42-83 | on every run of failures and successes, a further failure moves no end backwards, across window resets too |
| Cooldown.CooldownsAreCapped | pkg/providers/cooldown.go:42-83 | on every run and for every failure window, ends lie within 1 hour and 24 hours of the last failure, and the error count is the sum of the counts |
| Cooldown.SuccessClears | pkg/providers/cooldown.go:69-83 | after every run that ends with a success, the provider is available at every time with all counts zero, and every other provider is as before |
| Cooldown.FailureIs | pkg/providers/cooldown.go:42-66 | after every run, a failure counts as one more, or as the first behind the window; it sets the end of one cooldown by that count, in minutes and hours, and leaves the other one and all other providers as they were |
| Cooldown.FailureAfterSuccess | pkg/providers/cooldown.go:42-83 | the first failure after a success disables for exactly one minute, or five hours for billing |
| Cooldown.WindowIsSoundIff | pkg/providers/cooldown.go:10-66 | which failure windows have that property, both directions |
| Fallback.Execute | pkg/providers/fallback.go:101-207 | result, attempts and tracker are those of the specified walk, and the calls made are the specified ones, each with the tracker's entries at its time |
| Fallback.Accounting | pkg/providers/fallback.go:114-206 | the walk in terms of the first candidate that ends it: each earlier one recorded once in order, what it adds, the tracker's state |
| Fallback.ExecuteAccounting | pkg/providers/fallback.go:101-207 | attempt i is candidate i; a success at i leaves exactly i attempts; exhaustion records all |
| Fallback.PassedOverIff | pkg/providers/fallback.go:120-201 | a candidate is passed over if and only if nothing is canceled before it and its provider is cooling down, or its call failed, not canceled, for a reason other than the format; what is recorded and marked then |
| Fallback.ChainIs | pkg/providers/fallback.go:101-207 | the whole chain, without its own functions: it ends at the first candidate that is not passed over, with the answer or error that it met, the earlier ones recorded and marked; it is exhausted if and only if there is none |
| Fallback.ServedIff | pkg/providers/fallback.go:148-156 | served by a candidate if and only if it is the first that is not passed over, available, not canceled, and answers; not retriable only for the format |
| Fallback.GoingOnMeans | pkg/providers/fallback.go:124-200 | an attempt that was not the end is a skip of a cooling provider, or a retriable failure that was marked |
| Fallback.CalledOnlyWhenAvailable | pkg/providers/fallback.go:114-145 | over all calls of a chain: none while the candidate's provider is cooling down, each after all candidates in front of it went on, none twice |
| Fallback.FailedProviderIsSkipped | pkg/providers/fallback.go:114-200 | a provider that just failed is skipped when its next candidate comes up within a minute |
| ToolRegistry.ToolRegistry.Register | pkg/tools/registry.go:33-48 | the core entry replaces any of that name, in a new version |
| ToolRegistry.ToolRegistry.RegisterHidden | pkg/tools/registry.go:51-66 | the same for a hidden entry without time to live |
| ToolRegistry.ToolRegistry.PromoteTools | pkg/tools/registry.go:70-87 | exactly the named hidden tools get the time to live; the version stays |
| ToolRegistry.ToolRegistry.TickTTL | pkg/tools/registry.go:90-98 | exactly the positive times of hidden tools go down by one, in any order of visits |
| ToolRegistry.ToolRegistry.SnapshotHiddenTools | pkg/tools/registry.go:121-137 | exactly the hidden tools, with their version |
| ToolRegistry.ToolRegistry.Get | pkg/tools/registry.go:139-151 | callable if and only if visible |
| ToolRegistry.ToolRegistry.ToProviderDefs | pkg/tools/registry.go:261-296 | listed if and only if visible, so callable if and only if listed |
| ToolRegistry.PromotionLasts | pkg/tools/registry.go:70-98 | after a promotion for t ticks and k ticks, a hidden tool is visible if and only if k < t, whatever happens to other tools |
| ToolRegistry.RegistrationDecides | pkg/tools/registry.go:33-151 | the last registration of a name decides: a core tool is always visible, a hidden one never without a promotion, and the search sees the name exactly if it is hidden |
| ToolRegistry.SameVersionSameDocs | pkg/tools/registry.go:33-98 | what the search could see changes only with the version |
| ToolSearch.BM25SearchTool.GetOrBuildEngine | pkg/tools/search_tool.go:249-279 | what is searched is exactly the hidden tools of the current version |
| ToolSearch.BM25SearchTool.Install | pkg/tools/search_tool.go:262-278 | the part behind the snapshot is the step that the runs are made of, also when another search cached that version meanwhile |
| ToolSearch.BM25SearchTool.FormatDiscoveryResponse | pkg/tools/search_tool.go:191-215 | exactly the found hidden tools get the time to live, said of each entry |
| ToolSearch.NextRecorded | pkg/tools/search_tool.go:249-279 | every step keeps: snapshots and cache hold the hidden tools of their versions |
| ToolSearch.CacheAgrees | pkg/tools/search_tool.go:249-279 | in every reachable state, also with changes between snapshot and caching, equal versions mean the cached corpus is the current hidden tools |
| MediaStore.FileMediaStore.Store | pkg/media/store.go:91-109 | the three maps gain exactly the new reference, and stay exact inverses |
| MediaStore.FileMediaStore.Resolve | pkg/media/store.go:112-121 | the path of a known reference, an error otherwise |
| MediaStore.FileMediaStore.ReleaseAll | pkg/media/store.go:138-157 | removes exactly a scope's references, and collects exactly their paths, each once |
| MediaStore.FileMediaStore.RemoveRef | pkg/media/store.go:194-205 | one reference goes from all three maps, and its scope if it was the last |
| MediaStore.FileMediaStore.CleanExpired | pkg/media/store.go:175-220 | removes exactly the expired references, those older than the limit, leaves no empty scope, collects and counts exactly their paths |
| MediaStore.WithoutKeepsInverse | pkg/media/store.go:138-207 | taking references out of every map keeps them inverse |
| MediaStore.DropScope | pkg/media/store.go:150-157 | dropping a scope whole takes its references from no other scope |

## Left out

- Files: real I/O, fsync, directories, permissions, the text of JSON, the 10 MB line limit, and time stamps in the meta file.
- Sessions: one session per store object; distinct keys are taken to have distinct files. Locking is modelled by operations being atomic up to crashes.
- LineFile.AppendAddsLineIff: not for a file whose last byte is a carriage return, which the program never writes.
- LineFile.AppendAfterTornLine: does not claim that the first append after a torn line survives, because the code joins the two; the exact condition is what is stated.
- Splitter.SplitMessage: has a bound on the number of rounds that the program does not have, because the program need not end; `RoundsDoNotMatter` and `TerminatesIff` say when the bound does not show.
- SplitterTermination.TerminatesIff: decides by limit and header length, not content by content; some contents with longer headers end as well.
- SplitterBalance.InsideCutIsBalanced: speaks of chunks closed inside a block; cuts at the limit and cuts in front of a block may leave fences unbalanced, as in the program. Below a limit of 10 `BalancedIffOpen` is the exact condition.
- Splitter: invalid UTF-8 (the program's conversion to runes replaces it).
- Sanitizer: of a tool call only its id; the other fields of a message pass through unchanged.
- AgentTurns: media, reasoning output, sending messages, and summarization, whose background truncation to four messages can also cut a tool run off from its call. Tool results arrive in call order, as the program appends them; their concurrent execution is not modelled.
- CronRuns: `UpdateJob`, which overwrites run state with the caller's copy, and `Load`; payloads, status texts and the listing of jobs. A handler is always set.
- CronSpacing.EveryJobIsSpaced: needs a single run loop and an interval that does not overflow; `LoopsAreSpacedIff` and `SingleLoopIsSpacedIff` show both to be exact. Clock readings after a run of `SingleLoopIsSpacedIff` are bounded by a 64-bit time.
- Bm25.Search: text splitting (documents and queries are lists of tokens), float rounding, the 32-bit term count, and the order of equal scores.
- SearchCache: query normalization is a function parameter; one clock reading an operation; similarity in exact reals; copying of results, and nil against empty results.
- Cooldown and Fallback: concurrent use of a tracker during a chain, durations and error texts of attempts, `ExecuteImage` and `ResolveCandidates`.
- ToolRegistry and ToolSearch: tool execution, schemas, wrap-around of the 64-bit version, the regex search, and the unsynchronized read in the cache's fast path. A tool's description does not change.
- MediaStore: deleting the files, which the caller of the model gets the paths for; metadata beside the content type; the background goroutine.
- The system prompt cache (depends on file system times), `pkg/mcp/manager.go`, providers, OAuth, HTTP, channel drivers, hardware tools, shell execution, command line, web frontend, configuration, and routing rules: input and output, library wrappers, or single-branch facts.
