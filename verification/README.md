# flowspace3, modelled and proved in Dafny

flowspace3 indexes code and conversations and answers questions about them. This project
models the parts of it that decide things without doing I/O, and proves what they are
relied on for. `dafny verify dfyconfig.toml` checks all of it.

| file | what it models |
|---|---|
| `Utf8.dfy`, `Text.dfy`, `Decimal.dfy` | Rust strings: characters against UTF-8 bytes (section 3 of RFC 3629), their order, the `str` operations used, decimal text |
| `Shaping.dfy`, `Policy.dfy` | the payload policy every stored turn passes through, and what it says of every tool and text |
| `Ingest.dfy`, `Protocol.dfy` | `prepare_batch`, and every sequence of batches against the store |
| `Stored.dfy` | what the stored turns are, in terms of the records read, for a batch and for every run |
| `Tail.dfy`, `Reads.dfy` | the byte framing of a growing file: offset, identity, half-written lines; what one read returns |
| `Runs.dfy`, `Completeness.dfy` | every run of file, reader, cursor and store, with lost and torn polls; what a poll misses |
| `Calendar.dfy`, `Timestamp.dfy` | `civil_from_days` and `now` |
| `Transcript.dfy`, `Imports.dfy` | importing a transcript: header, turns, identity; what is sent, field by field |
| `Agent.dfy`, `AgentRuns.dfy` | the bounded agent loop `ask`; whole runs told from what the model and the toolbox said |
| `Dashboard.dfy`, `Shown.dfy`, `Mailbox.dfy`, `Coalescing.dfy` | the dashboard: its panes and what they show, its worker mailbox and what that costs them |
| `Decoder.dfy`, `Stream.dfy` | the activity stream's decoder, and what it delivers line by line |
| `LineEditor.dfy`, `Editor.dfy` | the dashboard's line editor |
| `Diff.dfy` | snapshot diffing |
| `Merge.dfy`, `Overrides.dfy`, `EnvNames.dfy` | configuration layering, environment overrides and their names, provenance labels |
| `Walk.dfy` | the explicit-stack pre-order walk |
| `Ddoc.dfy`, `Address.dfy`, `Grammar.dfy` | the address grammars and their printers |

Code that changes things step by step is a method or a class with the program's own loops and
fields, proved against functions on values; the theorems are about those functions and about
every run of them. A model, a toolbox, a clock, a hash, JSON and TOML decoding and the order
in which a table yields its entries are parameters or free choices: what is proved holds for
all of them. Machine integers wrap as a release build's do (`u32` turn numbers, `u64` token
totals), and the theorems say where that begins to matter.

## What the proofs found

Where the code and its own documentation part, the model follows the code and the exact
condition is proved:

* `shape_turn` is documented as idempotent. It is, exactly when no item names, in its JSON, a
  path that itself starts with a brace; repeated shaping always settles
  (`ShapingIsIdempotentUnlessBraced`, `SecondPassCanDiffer`, `RepeatedShapingSettles`).
* A write-family call is documented to keep its path, never its body. A JSON input never keeps
  more than characters of one of its strings (`JsonInputNeverKeepsItsBody`); any other input
  is kept whole exactly when it is one trimmed line (`WriteCallKeepsItsInputExactlyWhen`), a
  one-line JSON array included (`OneLineArrayIsKeptWhole`).
* A reader that sees only "other inode, or fewer bytes than the offset" can skip records of a
  file rewritten between two polls. Over every run it has missed nothing exactly when each record
  that begins in the bytes it skipped was read before or is met again
  (`LedgerIsCompleteExactlyWhen`), in particular whenever the lines it consumed are still in
  their place (`NothingIsMissed`). A one-record file truncated and regrown is missed exactly
  when it came back no shorter, in bytes (`RegrowthBetweenPollsLoses`).
* A poll appends its turns and commits its ledger rows separately. Over every run the store
  holds each record once if and only if every poll torn between the two had read nothing new
  (`RunStoresOnce`, `NothingTornExactlyWhenHarmless`); what such polls leave behind is exactly
  the excess of turns over ledger rows (`ExcessIsTorn`), and nothing is lost by them
  (`LedgerIsWhatWasRead`).
* Timestamps are 20 characters and sort like time exactly up to the last second of 9999, and
  until then each reads back as its own second (`TimestampReadsBack`).
* A transcript's title is said to come from the first turn that has prose. Shaping gives every
  turn a body, so it comes from the first turn alone, and is missing exactly when that one is
  blank (`TitleIsTheFirstTurns`).
* An override's name is trimmed of its prefix as often as it begins with it and cut at `__` from
  the left. So a path can be spelt exactly when no part is empty or holds `__`, none but the last
  ends in `_`, and the name does not go on with the prefix (`NameRoundTrip`).
* The dashboard's depth history appends and then cuts, so it keeps the oldest sixty samples.
* Only the first line of a transcript is said to be a header; the code takes any number before
  the first turn, and the last one counts (`FittingFileReads`, `ReadsExactlyWhenAllFit`).
* A reference cut away with a tool result is documented not to be reported. It is reported
  exactly when it occurs in the truncation notice or runs on from the text kept into it
  (`CutAwayReferencesReported`), which does happen (`NoticeVouchesForItsOwnWords`).
* The mailbox is said to hand the newest state to the draw loop. Over every interleaving it
  delivers exactly the messages no push lost (`DeliveredIsWhatWasNotLost`); from four slots on
  a control message is lost exactly when one of its class is pushed while it is queued
  (`DeliveredExactlyWhenNotOvertaken`). A drained pane shows what the newest message about it
  that was not lost says, so it is right whenever the newest one was not lost, and only then if
  that one said something new (`DrainedPaneIsRightExactlyWhen`). Panes that every message of one
  control class speaks to are always right (`DrainedPanesAreUpToDate`). The others do fail: a
  search overtaken by a failed one loses its results, a snapshot its roots, a connection
  overtaken by its disconnection the daemon's name, and an event evicted by a burst its root
  (`OvertakenSearchLosesItsResults`, `OvertakenSnapshotLosesItsRoots`,
  `OvertakenConnectionLosesItsDaemon`, `EvictedRootIsMissing`).
* A turn number written with a plus sign or leading zeros parses, and prints back otherwise
  (`ParseUndoesShow` has the exact condition).

## Model

| member | source | states |
|---|---|---|
| `Utf8.FloorCharBoundary` | crates/core/src/conversation_normalize.rs:356-362 | the cut is a character boundary at or below the limit and no later boundary is |
| `Utf8.FloorIsFit` | crates/core/src/conversation_normalize.rs:350-362 | cutting valid UTF-8 there keeps exactly the longest whole-character prefix within the limit |
| `Shaping.ShapeTurn` | crates/core/src/conversation_normalize.rs:166-219 | the in-place pass over a turn and its items computes the payload policy `Shaped` |
| `Shaping.RewriteItem` | crates/core/src/conversation_normalize.rs:172-217 | one item is rewritten by the policy, results cut at a byte boundary |
| `Shaping.ShapedTextIsStorable` | crates/core/src/conversation_normalize.rs:161-219 | no text of a shaped turn holds NUL, and every write-family call's input is stored as a path and a size |
| `Shaping.HeadIsLongestPrefix` | crates/core/src/conversation_normalize.rs:197-215 | a stored head is the longest prefix of the scrubbed result within 512 bytes; size and flag are the whole result's unless a client cut it first |
| `Shaping.WriteCallKeepsItsInputExactlyWhen` | crates/core/src/conversation_normalize.rs:292-315 | a write-family call's stored path is its whole input if and only if that is one trimmed line not opening with a brace |
| `Shaping.OneLineArrayIsKeptWhole` | crates/core/src/conversation_normalize.rs:309-313 | the failing inputs are real: any one-line JSON array is stored whole |
| `Shaping.JsonInputNeverKeepsItsBody` | crates/core/src/conversation_normalize.rs:301-348 | whatever key, order or form names it, the path of a JSON input holds no quote and no escape: it is characters of one string |
| `Shaping.NamedPathIsKept` | crates/core/src/conversation_normalize.rs:297-348 | with any key, anywhere, whatever comes before, between and after, the path stored is exactly the string behind the first key that gives one |
| `Shaping.HashlineTargetIsKept` | crates/core/src/conversation_normalize.rs:326-334 | a hashline edit is stored as exactly its bracketed target without the hash, its string terminated or not |
| `Shaping.JsonInputKeepsOnlyItsPath` | crates/core/src/conversation_normalize.rs:301-348 | in particular, an input that begins with its path keeps exactly that |
| `Shaping.PlainInputKeepsOnlyItsFirstLine` | crates/core/src/conversation_normalize.rs:292-313 | any other input is stored as its trimmed first line, with or without lines below it |
| `Shaping.SecondPassIsIdentity` | crates/core/src/conversation_normalize.rs:161-187 | a second pass changes nothing exactly when the first left no path starting with a brace |
| `Shaping.ShapingIsIdempotentUnlessBraced` | crates/core/src/conversation_normalize.rs:161-187 | the same condition read off the original turn: no item's JSON names a path starting with a brace |
| `Shaping.SecondPassCanDiffer` | crates/core/src/conversation_normalize.rs:183-185 | for every such path the two passes do differ |
| `Shaping.RepeatedShapingSettles` | crates/core/src/conversation_normalize.rs:161-187 | shaping again and again reaches a fixed point within as many passes as the longest such path |
| `Policy.WriteFamilyExactly` | crates/core/src/conversation_normalize.rs:278-289 | the tools that write files are exactly a namespace ending in a separator, or none, then one of six names in any ASCII case, then nothing or a suffix opening with no letter or digit |
| `Policy.VerbatimInputsAreElidedExactlyWhen` | crates/core/src/conversation_normalize.rs:187-194 | every such tool's verbatim input is stored as a path and a size, every other tool's as its scrubbed text |
| `Policy.WriteCallIsItsPath` | crates/core/src/conversation_normalize.rs:301-348 | whatever else its JSON holds, such a call is stored as the string behind the first of the three path keys it uses |
| `Policy.WriteCallIsItsTarget` | crates/core/src/conversation_normalize.rs:326-334 | with none of those keys, as the target of a hashline edit |
| `Policy.WriteCallWithoutPath` | crates/core/src/conversation_normalize.rs:309-348 | with a string behind none of these keys, it is stored with an empty path |
| `Policy.ItemIsStored` | crates/core/src/conversation_normalize.rs:172-217 | what is stored of every tool call and result, in terms of the item alone |
| `Policy.TurnIsStored` | crates/core/src/conversation_normalize.rs:166-219 | every turn keeps number, role and source, its texts with U+FFFD exactly where NUL stood, and its items in order by the policy |
| `Ingest.PrepareBatch` | crates/core/src/conversation_normalize.rs:108-135 | the turns, ledger rows and count of duplicates are those of the first unseen occurrences, numbered consecutively in a `u32` |
| `Ingest.FreshPicksFirsts` | crates/core/src/conversation_normalize.rs:102-128 | the records kept are, in order, exactly the first occurrences of ordinals the ledger has not seen |
| `Ingest.NumberingIsDense` | crates/core/src/conversation_normalize.rs:117-127 | the numbers are consecutive exactly when the last one fits a `u32` |
| `Stored.RecordIsKept` | crates/core/src/conversation_normalize.rs:149-159 | a record's turn has its role and source, its body, time and sha character for character with U+FFFD exactly where NUL stood, and as many items, in order, each by the policy |
| `Stored.BatchKeepsFirsts` | crates/core/src/conversation_normalize.rs:108-135 | the k-th turn of a batch is so what is stored of the k-th first occurrence of an unseen ordinal |
| `Protocol.PollExtends` | crates/core/src/conversation_normalize.rs:96-135 | a poll given the true ledger and high-water mark extends the stored history by its batch, overlaps and all |
| `Protocol.EveryRunStoresOnce` | crates/core/src/conversation_source.rs:249-262 | after any sequence of batches the store holds the first occurrences of all distinct ordinals, in order, numbered from one |
| `Protocol.NumberableExactlyWhen` | crates/core/src/conversation_normalize.rs:108-128 | that assumption says the distinct ordinals are fewer than 2^32 |
| `Protocol.HoldsMeans` | crates/core/src/conversation_normalize.rs:80-82 | the ledger has one row per distinct ordinal and it carries that turn's number |
| `Protocol.BatchingIsIrrelevant` | crates/core/src/conversation_normalize.rs:96-135 | only the concatenation of what was read matters, not how it was cut into batches |
| `Protocol.RescanAppendsNothing` | crates/core/src/conversation_normalize.rs:8-17 | a poll leaves the store unchanged exactly when the ledger already has every record it read |
| `Protocol.PollStaysDense` | crates/store/src/ingest_cursors.rs:210-230 | numbering on from the high-water mark leaves no gap while the numbers fit |
| `Protocol.HighWaterIsGreatest` | crates/store/src/ingest_cursors.rs:210-230 | the number a poll goes on from is the greatest stored |
| `Tail.ReadLines` | crates/providers/src/conversation_sources/tail.rs:75-158 | one read: resume or start over, stop at the last newline, drop blank lines, refuse bytes that are not text |
| `Reads.ReadReturns` | crates/providers/src/conversation_sources/tail.rs:75-158 | one read of lines written behind what was read before: their texts without the blank ones, a cursor behind the last, and whether it started over |
| `Reads.ReadRefuses` | crates/providers/src/conversation_sources/tail.rs:130-147 | whole lines that are no string's UTF-8 fail the read, which says from where |
| `Tail.GrowthYieldsTheDelta` | crates/providers/src/conversation_sources/tail.rs:55-70 | however growth falls between reads, half lines included, two reads yield what one read of the grown file yields |
| `Tail.RereadingYieldsNothing` | crates/core/src/conversation_source.rs:290-293 | reading again from the cursor returned yields nothing and stays there |
| `Tail.Utf8CutsAtLines` | crates/providers/src/conversation_sources/tail.rs:130-147 | UTF-8 cut behind a newline is UTF-8 on both sides, and only then |
| `Runs.ReadIncremental` | crates/providers/src/conversation_sources/omp.rs:173-195 | the records of the lines read, in order, lines that are no record dropped |
| `Runs.LedgerIsWhatWasRead` | crates/store/src/ingest_cursors.rs:233-243 | over every run, torn and lost polls included, the ledger has exactly the ordinals that committed polls read |
| `Runs.RunStoresOnce` | crates/core/src/conversation_source.rs:249-262 | over every run of appends, rewrites, rotations, lost and torn polls, every ordinal read is stored once, in order, numbered from one, if and only if torn polls left no turn behind |
| `Runs.NothingTornExactlyWhenHarmless` | crates/daemon/src/convo_ingest.rs:985-1016 | and they left none exactly when each had read only records the ledger already had |
| `Runs.ExcessIsTorn` | crates/daemon/src/convo_ingest.rs:985-1016 | over every run turns are never taken back and outnumber the ledger by exactly what torn polls left |
| `Runs.TurnsWithoutLedgerAreDuplicated` | crates/daemon/src/convo_ingest.rs:985-1016 | the poll after a torn one appends the very records it left once more, numbered on from the new high-water mark |
| `Runs.NumbersStayDense` | crates/store/src/ingest_cursors.rs:170-179 | over every run turn numbers run from one without a gap, while they fit a `u32` |
| `Stored.RecordsAreParsed` | crates/providers/src/conversation_sources/omp.rs:173-195 | the records of some lines are, in order, what the reader makes of those it makes something of |
| `Stored.BatchIsParsed` | crates/providers/src/conversation_sources/omp.rs:173-195 | a poll is handed those of the lines one read returns, with that read's cursor |
| `Stored.HeldIsKept` | crates/core/src/conversation_normalize.rs:96-159 | a store that holds a history has its first occurrences as read, in order, and the number of each in its ledger |
| `Stored.RunKeepsWhatWasRead` | crates/core/src/conversation_source.rs:249-262 | after every run whose torn polls had read nothing new, the store is what committed polls read: each ordinal's first record, as read, under its number |
| `Stored.EveryTurnIsSomeLines` | crates/core/src/conversation_normalize.rs:149-159 | whatever happens, every turn stored is what is stored of the record of some line |
| `Completeness.EveryRunIsTraced` | crates/providers/src/conversation_sources/tail.rs:149-157 | over every run the cursor is the number of bytes consumed since the last restart, whole lines whose records have all been read |
| `Completeness.LedgerIsCompleteExactlyWhen` | crates/core/src/conversation_source.rs:312-321 | over every run a readable poll leaves every record of the file in the ledger if and only if it did not resume, or what it skipped had been read or is met again |
| `Completeness.NothingIsMissed` | crates/core/src/conversation_source.rs:312-321 | in particular when the lines consumed are still in their place, whatever happened in between |
| `Completeness.DetectableRunsAreIntact` | crates/providers/src/conversation_sources/tail.rs:98-110 | they are whenever each step either is one the reader detects or leaves those bytes alone |
| `Completeness.RegrowthBetweenPollsLoses` | crates/core/src/conversation_source.rs:256-261 | a file truncated and regrown under the same identity is stored if and only if it came back shorter in bytes |
| `Completeness.StoreMirrorsTheFile` | crates/core/src/conversation_source.rs:246-262 | while the file's bytes are only extended, the stored conversation is its distinct records in file order if and only if no torn poll left a turn behind |
| `Calendar.NextCountsOne` | crates/cli/src/conversation.rs:311-323 | the reference day count moves by one along the leap-year calendar (Appendix C of RFC 3339) |
| `Calendar.RoundTrip` | crates/cli/src/conversation.rs:311-323 | `civil_from_days` inverts the reference count on every valid date |
| `Calendar.CivilIsADate` | crates/cli/src/conversation.rs:311-323 | every integer day converts to a valid date that counts back to it |
| `Calendar.CivilIsTheCalendar` | crates/cli/src/conversation.rs:311-323 | consecutive days convert to consecutive dates of the proleptic Gregorian calendar |
| `Calendar.CivilStartsAtTheEpoch` | crates/cli/src/conversation.rs:311-323 | day 0 is 1970-01-01 |
| `Calendar.CivilIsMonotone` | crates/cli/src/conversation.rs:311-323 | later days are later dates |
| `Calendar.MachineArithmeticIsExact` | crates/cli/src/conversation.rs:312-322 | only the first addition can leave an `i64`, and exactly within 719,468 of its maximum |
| `Timestamp.TimestampsSortLikeTime` | crates/cli/src/conversation.rs:297-309 | up to the last second of 9999 the text has 20 characters and sorts exactly as the seconds do |
| `Timestamp.TextIsRow` | crates/cli/src/conversation.rs:303-308 | the text is the fixed-width fields of section 5.6 of RFC 3339, in order, with their separators |
| `Timestamp.TimestampBoundIsExact` | crates/cli/src/conversation.rs:297-309 | the text has 20 characters exactly up to that second |
| `Timestamp.FiveDigitYearsSortEarly` | crates/cli/src/conversation.rs:303-308 | the next second's text sorts before it |
| `Timestamp.TimestampReadsBack` | crates/cli/src/conversation.rs:297-309 | up to the last second of 9999 the text is a real date and time of day that denotes exactly its second |
| `Transcript.Read` | crates/cli/src/conversation.rs:75-154 | the scan, shaping and precedence of flags over header over derived values, with every error |
| `Transcript.GrowthKeepsScan` | crates/cli/src/conversation.rs:96-116 | once a turn is read the header is settled and further lines only add turns |
| `Transcript.GrownTranscriptKeepsItsGuid` | crates/cli/src/conversation.rs:250-289 | a grown file mints the same identity as soon as the first import held a turn, whatever the clock |
| `Transcript.GrownTranscriptIsADelta` | crates/cli/src/conversation.rs:170-228 | every turn already imported keeps its place, number and content; only a missing time is filled by the clock |
| `Transcript.GrownImportContinues` | crates/cli/src/conversation.rs:75-154 | where imports of a file and of the grown file both succeed and the first held a turn, the identities are equal and the second's turns begin with the first's |
| `Transcript.MintedGuidIsAnId` | crates/cli/src/conversation.rs:280-288 | a minted identity is a canonical UUID for every lowercase hex digest |
| `Transcript.FittingFileReads` | crates/cli/src/conversation.rs:93-116 | a file whose lines all fit reads as its turns in order under its last header |
| `Transcript.ReadsExactlyWhenAllFit` | crates/cli/src/conversation.rs:93-116 | a file reads if and only if every line that is not blank parses and no header line follows a turn line |
| `Transcript.MisfitFails` | crates/cli/src/conversation.rs:100-116 | any other file fails for its first line that does not fit, naming it |
| `Transcript.LastHeaderWins` | crates/cli/src/conversation.rs:109-113 | a further header line replaces the header before the first turn and is an error after it |
| `Imports.FileReadsExactlyWhen` | crates/cli/src/conversation.rs:93-116 | a file reads exactly when each line is blank, or parses trimmed and is no header behind a turn |
| `Imports.FirstBadLineIsNamed` | crates/cli/src/conversation.rs:100-116 | otherwise the first line that does not fit names the error and its number |
| `Imports.TurnIsSent` | crates/cli/src/conversation.rs:165-229 | what is sent of a turn, key by key: number, prose and time under whichever key the dialect used, role, source, items and sha; a turn that is no object fails |
| `Imports.TitleIsTheFirstTurns` | crates/cli/src/conversation.rs:240-248 | the derived title is the first turn's first line, trimmed and cut to 120 characters, or none when that turn is blank, whatever the others say |
| `Imports.GuidIsMinted` | crates/cli/src/conversation.rs:274-289 | a minted identity is five groups of the digest of the source and the first turn as written |
| `Imports.ImportIsWhatWasWritten` | crates/cli/src/conversation.rs:75-154 | every import that succeeds sends each turn line so, in order, under a head that takes each field from the flags, else the header, else what is derived |
| `Agent.Ask` | crates/core/src/agent.rs:248-432 | the loop ends with the result of a run of the turn-by-turn rules, whatever the model and toolbox do |
| `Agent.RunIsUnique` | crates/core/src/agent.rs:248-432 | given what the model and toolbox do there is one such run, so one list of states and one result |
| `Agent.OneTurn` | crates/core/src/agent.rs:285-420 | one turn: accounting, prose, pushback, budget stop, tools |
| `Agent.TakeToolCalls` | crates/core/src/agent.rs:392-420 | a turn's results and trace entries, one per call, in call order |
| `Agent.EveryListIsWellFormed` | crates/core/src/agent.rs:255-258 | every message list handed to the model opens System then User, answers every call in order with nothing else, matches the trace, and strictly extends the list before it |
| `Agent.SpendingIsBounded` | crates/core/src/agent.rs:285-303 | every model call after the first, and every tool run before it, happens below the budget or with spend unknown, and the record is exact |
| `Agent.RunReportsItsSpend` | crates/core/src/agent.rs:267-297 | at most `max_iterations` model calls; the only error is a failed first call; a run without provider failure reports the recorded total |
| `Agent.RecordedIsExact` | crates/core/src/agent.rs:285-297 | a total is recorded exactly when a turn ran and all reported, and is the true sum exactly while it fits a `u64` |
| `Agent.HowTheLoopGoesOn` | crates/core/src/agent.rs:326-345 | the loop goes on only by the one pushback, when nothing was read, or by tools it can afford |
| `AgentRuns.PushedBackAtMostOnce` | crates/core/src/agent.rs:326-345 | no message list holds more than one pushback |
| `AgentRuns.AnswersAreHonest` | crates/core/src/agent.rs:305-368 | Answered means non-blank prose; grounded exactly when Answered and the toolbox answered some call of the run with evidence; ungrounded answers follow the pushback |
| `AgentRuns.EveryListIsWhatWasSaid` | crates/core/src/agent.rs:255-420 | every list handed to the model, message by message, and the trace, entry by entry, from what the model and the toolbox said: ids, shown text, turn, arguments, failure, evidence, visible references and size |
| `AgentRuns.ReadIsEvidence` | crates/core/src/agent.rs:384-443 | something was read exactly when the toolbox answered some call of some earlier turn with evidence |
| `AgentRuns.RunEndsAsSaid` | crates/core/src/agent.rs:264-432 | after which turns the loop goes on, and the whole result it ends with, from what the model and the toolbox said |
| `Agent.TruncateBounds` | crates/core/src/agent.rs:445-455 | a result is whole, or its first characters and the notice, within a fixed size |
| `Agent.SurvivingAreVisible` | crates/core/src/agent.rs:397-401 | the references kept are exactly those occurring in what the model saw |
| `Agent.SurvivesTruncationExactlyWhen` | crates/core/src/agent.rs:395-405 | a reference survives truncation if and only if it occurs in the text kept, in the notice, or across the seam, which takes a line break |
| `Agent.CutAwayReferencesReported` | crates/core/src/agent.rs:107-112 | of the references cut away, the trace entry reports exactly those in the notice or across the seam |
| `Agent.NoticeVouchesForItsOwnWords` | crates/core/src/agent.rs:107-112 | such a reference: in the result, cut away with it, and reported |
| `Dashboard.App.Apply` | crates/cli/src/tui.rs:617-753 | each message changes the panes as `PanesStep`, so they always show `PanesAfter` the messages applied |
| `Dashboard.PanesShowTheMessages` | crates/cli/src/tui.rs:617-753 | every pane shows what the messages applied say: the newest about it, or its history cut to its bound |
| `Dashboard.RootsShowTheLastWord` | crates/cli/src/tui.rs:707-730 | at every path the roots pane shows what the last message about that path said |
| `Dashboard.ActivityKeepsNewest` | crates/cli/src/tui.rs:739-742 | the activity pane is the newest hundred lines, newest first |
| `Dashboard.QueueHistoryKeepsOldest` | crates/cli/src/tui.rs:751-752 | the depth history is the oldest sixty samples |
| `Shown.ConnectionIsShown` | crates/cli/src/tui.rs:617-753 | the newest connect or disconnect decides whether the stream shows as connected |
| `Shown.StreamErrorIsShown` | crates/cli/src/tui.rs:617-753 | and its error |
| `Shown.DaemonIsShown` | crates/cli/src/tui.rs:617-753 | the newest connect names the daemon |
| `Shown.ResultsAreShown` | crates/cli/src/tui.rs:617-753 | the newest successful search gives the results |
| `Shown.SnapshotErrorIsShown` | crates/cli/src/tui.rs:617-753 | the newest snapshot decides the snapshot error |
| `Shown.QueueIsShown` | crates/cli/src/tui.rs:617-753 | the newest good snapshot or queue event gives the queue |
| `Shown.NoStreamIsShown` | crates/cli/src/tui.rs:617-753 | what shows before anything is said of the stream |
| `Shown.RootIsShown` | crates/cli/src/tui.rs:707-730 | the newest message about a path decides whether a root stands there, and which |
| `Shown.ActivityIsShown` | crates/cli/src/tui.rs:739-742 | the activity pane is the text of the newest hundred messages that carry one, newest first |
| `Shown.DepthsAreShown` | crates/cli/src/tui.rs:751-752 | the depth history is the depth of the oldest sixty queues reported |
| `Shown.DepthAddsUp` | crates/cli/src/tui.rs:744-753 | the depth of a queue adds up its rows |
| `Shown.DepthOfOne` | crates/cli/src/tui.rs:744-753 | a row counts what is positive and pending or running |
| `Mailbox.Mailbox.Push` | crates/cli/src/tui.rs:205-243 | a push supersedes, evicts and appends as `PushInto` |
| `Mailbox.PushReplaces` | crates/cli/src/tui.rs:205-231 | a snapshot, search or word on the connection replaces the queued one of its kind |
| `Mailbox.PushAppends` | crates/cli/src/tui.rs:205-243 | with room left, a message that replaces none is appended |
| `Mailbox.PushEvictsEvent` | crates/cli/src/tui.rs:232-243 | in a full queue the oldest event gives way |
| `Mailbox.PushEvictsOldest` | crates/cli/src/tui.rs:232-243 | and without one, the oldest message |
| `Mailbox.Mailbox.ApplyTo` | crates/cli/src/tui.rs:245-257 | a drain hands the dashboard the first messages, in order, and keeps the rest |
| `Mailbox.StampsAreInvisible` | crates/cli/src/tui.rs:205-243 | numbering the messages for the proofs changes nothing the program does |
| `Mailbox.StepIsTheProgram` | crates/cli/src/tui.rs:205-257 | each step of the interleavings is the program's push, or its drain of the first messages up to a budget |
| `Mailbox.EveryInterleavingIsSafe` | crates/cli/src/tui.rs:179-183 | over every interleaving: within capacity, one message per control class, delivery in push order at most once, queued events a suffix of those pushed, and from four slots the newest control messages survive |
| `Mailbox.FourSlotsNeverDropControl` | crates/cli/src/tui.rs:232-241 | from four slots on, the arm that drops the oldest message whatever it is cannot be reached |
| `Mailbox.FewSlotsDropControl` | crates/cli/src/tui.rs:232-241 | with one to three slots it can, and a newest control message is lost |
| `Mailbox.DrainedIsUpToDate` | crates/cli/src/tui.rs:179-183 | once drained, the last message delivered of each control class is the newest pushed |
| `Coalescing.KeptExactlyWhenNotLost` | crates/cli/src/tui.rs:205-257 | over every interleaving and for every capacity, a message pushed is delivered or still queued if and only if no push superseded or evicted it |
| `Coalescing.DeliveredIsWhatWasNotLost` | crates/cli/src/tui.rs:205-257 | once drained, the dashboard has been handed exactly those messages, in push order |
| `Coalescing.DeliveredExactlyWhenNotOvertaken` | crates/cli/src/tui.rs:205-243 | from four slots on, a drained run has delivered a control message if and only if none of its class was pushed while it was queued |
| `Coalescing.DrainedPaneShowsNewestKept` | crates/cli/src/tui.rs:205-257 | over every interleaving, any drained pane shows what the newest message about it that was not lost says |
| `Coalescing.DrainedPaneIsRightExactlyWhen` | crates/cli/src/tui.rs:179-183 | it shows what it would had every message been applied if the newest message about it was not lost, and only then where that one said something new |
| `Coalescing.DrainedDashboardIsRightWhere` | crates/cli/src/tui.rs:617-730 | so for the daemon's name, the search results, the queue and the root at every path |
| `Coalescing.DrainedPanesAreUpToDate` | crates/cli/src/tui.rs:179-183 | a pane that exactly the messages of one control class speak to is always right |
| `Coalescing.DrainedDashboardIsUpToDate` | crates/cli/src/tui.rs:642-649 | so the connection, its error and the snapshot's error always are |
| `Coalescing.OvertakenConnectionLosesItsDaemon` | crates/cli/src/tui.rs:642-649 | a failing input: a connection overtaken by its disconnection loses the daemon's name |
| `Coalescing.OvertakenSearchLosesItsResults` | crates/cli/src/tui.rs:630-641 | another: a search overtaken by a failed one loses its results |
| `Coalescing.OvertakenSnapshotLosesItsRoots` | crates/cli/src/tui.rs:618-629 | another: a snapshot overtaken by a failed one loses every root |
| `Coalescing.EvictedRootIsMissing` | crates/cli/src/tui.rs:232-241 | another, for events: a root announced before a burst that fills the mailbox is missing |
| `Decoder.EventDecoder.Push` | crates/cli/src/tui.rs:387-428 | the records, error and whole new state of decoding every complete line of the buffer |
| `Decoder.DrainConcat` | crates/cli/src/tui.rs:387-428 | decoding a longer buffer is decoding its front and then what that left with the rest |
| `Decoder.ChunkingIsIrrelevant` | crates/cli/src/tui.rs:334-357 | however a stream is cut, decoding fails with the same error or yields the same records and state; what was handed on before a failure is a prefix |
| `Decoder.DrainLeavesNoLine` | crates/cli/src/tui.rs:391-427 | after a successful push no complete line is left in the buffer |
| `Decoder.GreetingComesFirst` | crates/cli/src/tui.rs:401-424 | the greeting is the first record, the only one, and has come exactly when anything has |
| `Stream.EventsAreDelivered` | crates/cli/src/tui.rs:387-428 | once greeted, every well-formed event line is delivered, in order, and blank lines add nothing |
| `Stream.StreamIsDelivered` | crates/cli/src/tui.rs:387-428 | the greeting is delivered before them and its heartbeat kept |
| `Stream.FirstBadLineIsTheError` | crates/cli/src/tui.rs:401-423 | the first bad line gives its own error, with the records before it decoded and the bytes behind it left |
| `Stream.UnfinishedLineIsKept` | crates/cli/src/tui.rs:387-428 | a line without its line feed is kept for the next chunk |
| `Stream.CutStreamIsDelivered` | crates/cli/src/tui.rs:334-357 | however such a stream is cut into chunks, the same records are handed on |
| `Editor.InputBuffer.ByteIndex` | crates/cli/src/tui.rs:467-472 | the byte offset of the cursor is the length of the characters before it and a character boundary |
| `Editor.InputBuffer.Insert` | crates/cli/src/tui.rs:474-479 | inserting bytes is inserting the character |
| `Editor.InputBuffer.Backspace` | crates/cli/src/tui.rs:481-492 | cutting bytes is removing the character before the cursor |
| `Editor.InputBuffer.Delete` | crates/cli/src/tui.rs:494-504 | cutting bytes is removing the character at the cursor |
| `Editor.InputBuffer.Commit` | crates/cli/src/tui.rs:522-532 | the query sent and the history kept are those of the character editor |
| `Editor.InputBuffer.Older` | crates/cli/src/tui.rs:534-542 | stepping back in history, on characters |
| `Editor.InputBuffer.Newer` | crates/cli/src/tui.rs:544-555 | stepping forward in history, on characters |
| `Editor.InputBuffer.PerformAll` | crates/cli/src/tui.rs:466-562 | after any sequence of edits the byte editor is where the character editor is, and has sent the same queries |
| `LineEditor.EveryRunIsGood` | crates/cli/src/tui.rs:466-562 | after every sequence of edits the cursor and history position are in range, and history only grew, trimmed, non-empty and without repeats |
| `LineEditor.BackspaceUndoesInsert` | crates/cli/src/tui.rs:474-492 | backspace undoes insert |
| `LineEditor.InsertUndoesDelete` | crates/cli/src/tui.rs:474-504 | inserting the deleted character and stepping left undoes delete |
| `LineEditor.BackAndForthClears` | crates/cli/src/tui.rs:534-561 | as many steps forward as back through history end on an empty line |
| `LineEditor.OldersShow` | crates/cli/src/tui.rs:534-542 | any number of steps back shows that query from the end, stopping at the oldest |
| `LineEditor.TypingOnBothSides` | crates/cli/src/tui.rs:474-504 | what typing does to the text on either side of the cursor |
| `LineEditor.MovingOnBothSides` | crates/cli/src/tui.rs:506-520 | what moving by one does: one character goes over to the other side |
| `LineEditor.EndsOnOneSide` | crates/cli/src/tui.rs:514-520 | moving to an end takes all of them to one side |
| `LineEditor.CommitRemembers` | crates/cli/src/tui.rs:522-532 | a blank line does nothing; another is sent trimmed and remembered unless it repeats the last |
| `LineEditor.RecallMovesOnePlace` | crates/cli/src/tui.rs:534-561 | recall moves one place through the history, stops at the oldest and clears past the newest |
| `Utf8.LessIsByteOrder` | crates/core/src/git.rs:212 | the order of strings as characters is their order as UTF-8 bytes, in which the map of paths is kept |
| `Diff.ComputeDiff` | crates/core/src/git.rs:312-374 | an error exactly across identities; otherwise the differing paths, each once, in increasing order, with both blobs |
| `Diff.DiffIsUnique` | crates/core/src/git.rs:273-285 | that contract leaves one possible answer |
| `Diff.DiffReverses` | crates/core/src/git.rs:299-374 | the diff the other way is the same with added and removed, before and after, exchanged |
| `Diff.DiffApplies` | crates/core/src/git.rs:299-374 | applied to the old files the diff gives the new ones |
| `Diff.EmptyDiffMeansEqual` | crates/core/src/git.rs:299-303 | nothing is reported exactly when nothing differs |
| `Merge.MergeTables` | crates/core/src/config.rs:1789-1804 | the in-place merge gives one result whatever order the overlay yields its entries in |
| `Merge.MergeByPath` | crates/core/src/config.rs:1783-1816 | every path of a merge reads as its deciding layer does |
| `Merge.OverlayLeavesWin` | crates/core/src/config.rs:1783-1804 | the overlay's scalars win and no leaf is invented |
| `Merge.SilenceKeepsBase` | crates/core/src/config.rs:1783-1804 | where the overlay is silent the base stays, unless replaced above |
| `Merge.SwitchedTablesAreWhole` | crates/core/src/config.rs:1806-1816 | a table whose kind the overlay switches is the overlay's table whole |
| `Merge.MergeTwice` | crates/core/src/config.rs:1783-1816 | merging the same overlay twice is merging it once |
| `Merge.MergeReads` | crates/core/src/config.rs:1783-1816 | how every path reads after a merge, without the merge's own rules: where two `kind` texts differ, or one side is no table, the overlay is whole |
| `Overrides.Resolve` | crates/core/src/config.rs:1704-1771 | the effective configuration, its labels, and which of the four failures is reported |
| `Overrides.OverrideSetsItsPath` | crates/core/src/config.rs:1855-1923 | an accepted override leaves the value its text says, read as the type that was there, or the text itself, and tables above it |
| `Overrides.OverrideIsLocal` | crates/core/src/config.rs:1855-1877 | no path neither above nor below its own reads differently |
| `Overrides.RefusalChangesNothing` | crates/core/src/config.rs:1855-1876 | a refused override leaves the table as it was, created parents included |
| `Overrides.LabelsAreTruthful` | crates/core/src/config.rs:1753-1764 | Defaults means the default left alone by file and overrides, File the file merged onto it and left alone by overrides, Env that the last override of the section set, at its path inside it, the value its text says, which is in effect |
| `EnvNames.NameMeans` | crates/core/src/config.rs:1824-1830 | the path any name means: its pieces at `__`, without the empty ones, in lower case |
| `EnvNames.EveryNameIsCovered` | crates/core/src/config.rs:1824-1830 | every name is prefixes and such pieces |
| `EnvNames.NameRoundTrip` | crates/core/src/config.rs:1824-1830 | in any ASCII case, `FS3_` and parts joined by `__` mean the path of the lower-cased parts, if and only if the parts can be named so |
| `EnvNames.PlainPartsCanBeNamed` | crates/core/src/config.rs:1824-1830 | parts without underscores can always be named, but for the prefix in front of others |
| `EnvNames.AcceptedExactlyWhen` | crates/core/src/config.rs:1820-1923 | an override is accepted exactly when its path has two parts, opens with a section, meets no value on the way and ends at nothing or a scalar its text reads as; else the first failing one names the problem |
| `EnvNames.NamedOverrideIsApplied` | crates/core/src/config.rs:1820-1923 | such an override, named by its parts, sets the path of the lower-cased parts to what its text says |
| `EnvNames.OnlySectionsCount` | crates/core/src/config.rs:1704-1771 | of a file's keys only sections reach the configuration |
| `EnvNames.EveryRefusalIsReported` | crates/core/src/config.rs:1704-1771 | every refused override is reported for its own reason, in order |
| `Walk.PreOrder.Next` | crates/core/src/element.rs:312-318 | each step yields the next element of what the stack still has to yield |
| `Walk.Collect` | crates/core/src/element.rs:290-318 | driving the iterator terminates and yields the recursive pre-order |
| `Walk.FindElement` | crates/core/src/element.rs:365-368 | the first element in that order with the address, or none |
| `Walk.EachNodeOnce` | crates/core/src/element.rs:290-318 | the walk visits every position of the tree once, in increasing pre-order of paths |
| `Ddoc.Render` | crates/core/src/ddoc.rs:357-368 | the pushed segments are the rendered address |
| `Ddoc.RenderUndoesParse` | crates/core/src/ddoc.rs:336-368 | whatever parses renders back as its text |
| `Ddoc.ParseUndoesRender` | crates/core/src/ddoc.rs:336-368 | rendering then parsing gives the address back exactly when the grammar can spell it |
| `Address.ParseUndoesShow` | crates/core/src/address.rs:101-140 | parsing a printed address gives it back for every text that parses; the print is the trimmed text except for oddly spelt turn numbers |
| `Address.SplitLocator` | crates/core/src/address.rs:192-220 | the repository is the longest registered identity on a segment boundary |
| `Address.LongestMatchIsUnique` | crates/core/src/address.rs:179-206 | the split does not depend on order or repetition of the identities |
| `Address.RepositoryRoundTrip` | crates/core/src/address.rs:272-277 | written with its repository an address reads back exactly under the stated condition |
| `Address.BareRoundTrip` | crates/core/src/address.rs:272-277 | the same for a bare address |
| `Address.TurnAddress` | crates/core/src/conversation.rs:98-105 | the rendered turn address, digits included |
| `Address.TurnAddressParses` | crates/core/src/address.rs:232-252 | every `u32` turn of every valid conversation parses back unchanged |
| `Address.ConversationAddressParses` | crates/core/src/address.rs:232-252 | so does the conversation itself |
| `Grammar.ConversationAddresses` | crates/core/src/address.rs:232-252 | what every conversation address without a turn means |
| `Grammar.TurnAddresses` | crates/core/src/address.rs:232-252 | and with one: the first `#t` counts, and what follows is a turn number or an error |
| `Grammar.NumbersAreSpelt` | crates/core/src/address.rs:243-245 | the texts that mean a turn number are exactly its decimal behind zeros and at most one plus, up to the greatest `u32` |
| `Grammar.DocumentAddresses` | crates/core/src/address.rs:117-131 | for every document address, which error it is, the short form included, or which file and segments |
| `Grammar.OtherTexts` | crates/core/src/address.rs:101-135 | blanks around an address change nothing; without scheme or `#` it is none |
| `Grammar.MatchesMeans` | crates/core/src/address.rs:192-206 | an identity matches when it is the locator or stands before a slash in it |
| `Grammar.ResolvedMeans` | crates/core/src/address.rs:192-220 | a locator is the longest matching identity, slashes and the element, or the element alone |
| `Grammar.MintedHasPrefix` | crates/core/src/ddoc.rs:275-290 | a minted id is a prefix without a dash, a dash and four lower-case hex digits |
| `Grammar.SectionAndRow` | crates/core/src/ddoc.rs:371-386 | an address names the section before its first slash and the row behind its last |
| `Grammar.IdsAreUuids` | crates/core/src/conversation.rs:49-75 | a conversation id is 36 characters, dashes in four places and lower-case hex elsewhere |
| `Grammar.TurnAddressIsShown` | crates/core/src/conversation.rs:98-105 | the pushed turn address is the printed one |
| `Decimal.Itoa64` | crates/core/src/conversation.rs:542-555 | `start` stays within the 20-byte buffer for every `u64` and the bytes are the number's canonical text |
| `Decimal.RenderIsCanonical` | crates/core/src/conversation.rs:521-555 | the text has only digits, no leading zero, and decodes to the number |
| `Decimal.RenderParsed` | crates/core/src/address.rs:243-245 | a parsed ordinal prints as its text exactly when that was canonical |

## Left out

- HTTP, authentication, drawing, command-line parsing, installation, secrets, watchers: I/O with no invariant of this kind.
- JSON, TOML, number and date text decoding, SHA-256, clocks: parameters of the members that use them.
- The Postgres store: appending a poll's turns is one atomic step, committing its ledger rows and cursor another; its 32-bit signed turn column and the single-poll lock are not modelled.
- Runs.ReadIncremental: one line is at most one record, as in the omp reader; the claude reader's merging of adjacent lines of one message, and the stores whose cursors are not byte offsets, are not modelled.
- Runs.NumbersStayDense: numbers are `u32` as core mints them; the store's signed column clamps them at 2^31-1, so past that it speaks of core and not of the stored rows.
- Protocol.EveryRunStoresOnce: assumes the distinct records fit the `u32` turn numbers, because past that the numbers wrap.
- Overrides.OverrideSetsItsPath: nested tables are values rather than mutable references; setting a path rebuilds the tables above it.
- Dashboard.App.Apply: the search fields that key presses also write (searching, selection, error), clock readings and inconsistency rows are not modelled; a line of activity is its text.
- Transcript.Read: the file is given as lines; reading it and the exact JSON printer are not modelled.
- Error and notice wording other than the truncation notice and the missing answer, and `Digits`' fallback for invalid UTF-8, which never arises.
- `RepoIdentity` and its URL normalisation, `classify`, `derive_state`, the schema and skew checks.
- The system prompt, the pushback text and the offered tool schemas are opaque values of the agent's surroundings.
