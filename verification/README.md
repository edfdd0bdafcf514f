# Host core: what its algorithms guarantee

This Dafny project models the algorithmic core of the desk host and proves what it promises. One file is one
component; `dafny verify dfyconfig.toml` checks all of them.

| files | component |
|---|---|
| `Diff`, `Hunks`, `Review` | line diff, hunks, and the undo records of tool changes |
| `Json`, `Skipping`, `Sniff`, `Utf8`, `JsonUtf8` | JSON text as RFC 8259 sections 4 and 7 print it, and the depth-aware scanner that finds the kind of a line |
| `LogFile`, `Transcript`, `Layout`, `Seek`, `CrashSafety`, `Pages`, `Trimming` | the append-only transcript: torn writes, the offset index, the two readers and their windows |
| `Differences` | inputs on which the transcript code differs from what one may expect |
| `Decimal`, `Revisions`, `RevisionLog` | the newest decodable line of a message family |
| `ToolBudget` | admission of tool calls through four semaphores |
| `TurnQueue`, `Whitespace` | the queue of prompts of a session |
| `RateLimit`, `BashAborts` | sliding-window brakes, and aborts that arrive before their process |
| `Approvals` | the approval broker composed with the host's table of waiting calls |
| `Folding`, `SearchExcerpt` | search snippets under a length-changing case fold |
| `Base64`, `UsagePaging` | keyset paging and its cursor text |
| `FreeNames`, `Sets` | free ids and labels for a server that moves |
| `Bytes`, `Naturals`, `Wrappers` | bytes, natural numbers, options and results |

How the source is rendered:

- A file is an optional sequence of bytes. A write may be cut at any byte; fsync and rename are not modelled.
- A digest is taken to be injective, so comparing digests is comparing contents.
- JSON decoding is a parameter that succeeds on complete printed objects only.
- Concurrent code is a step relation: one step is what one caller does between two points where others may run.
  Semaphores grant permits to any waiter, which includes the fair order of the original.
- Clocks are numbers passed in; fresh ids are passed in and never repeat; lowercasing is a parameter that maps one
  character to several.
- SQLite tables are sequences of rows with their unique indexes; queries are functions over them.
- Loops and in-place updates of the source are methods with invariants or class methods, each proved against a
  function; the lemmas are about those functions.

## Where the code and its promise differ

The exact condition of each difference is proved, and inputs or runs on which it shows are given.

- A write cut inside a multi-byte character makes every later read of the transcript or of the revisions fail, because
  lines are read as text; no later append repairs it. `TranscriptSurvives`, `RevisionSurvives` and `TornHistory` state
  the exact condition, `TornCharacterIsForever` and `AccentedOk` give the input.
- On an unterminated last line that is complete JSON the sequential reader returns the record and the seeking reader
  does not: `ReadersAgree`, `UnterminatedDiffers`, `UnterminatedShows`.
- A comment promises a rescan when the file has a different length, but only a shorter file is rescanned:
  `RefreshIsExact` says for which files and layouts the result is right all the same, `RewriteIsTrusted` is a rewrite
  of the same or a greater length for which it is not, and `RewriteShows` a given one.
- Revision roots are compared in their escaped form: `RootMatchIsExactIffPlain`, `WrongFamilyAnswers`,
  `WrongFamilyShows`.
- Changes of one file that overlap cannot be undone one after the other: `UnwindSucceedsIff`, `OverlapFails`.
- A tool permit drops its total part first, so for a moment more calls hold a class permit than a total one:
  `ClassWithoutTotalIff`, `ReleasingShows`. A call can be refused while fewer than 64 wait, because calls that are being
  refused are counted too: `RefusedIff`, `RefusedWithRoom`.
- A tombstone and an active entry can share a key once the listener is gone: `StepDisjoint`, `SharedKeyArises`.
- The stored result of an approval need not be what the waiter was sent: `TruthfulThroughoutIff`, `CancelDuringAwait`.
  Pending and results may overlap: `ApartThroughoutIff`, `OfferAgainOverlaps`. At most one decision is delivered
  nevertheless: `FirstDecisionWins`.
- A cursor for an empty turn id is refused: `CursorRoundTripIff`, `FollowCollects`.
- The label of a moved server is cut to 4096 characters but checked against 4096 bytes: `LabelFailsIff`,
  `LongLabelFails`.

A hunk header counts from `old_before + 1` even when the hunk has no old line; the patch tool of `PatchRoundTrip` reads
it so.

## Model

| member | source | states |
|---|---|---|
| Diff.LcsBounds | crates/host-core/src/review.rs:297-306 | no common subsequence of the two suffixes is longer than the value of the table cell for them |
| Diff.WalkIsScript | crates/host-core/src/review.rs:307-324 | the greedy walk from any cell is an edit script between the two suffixes and keeps exactly as many lines as the cell says |
| Diff.DiffIsMinimal | crates/host-core/src/review.rs:291-325 | for all line sequences: Equal and Del lines are exactly before, Equal and Add lines exactly after, the Equal lines are a longest common subsequence, and no edit script has fewer additions plus deletions |
| Diff.AddOnlyWhenDeletingLoses | crates/host-core/src/review.rs:311-318 | ties go to deletion: an Add while old lines remain means that deleting the next old line first would lose a common line |
| Diff.FillTable | crates/host-core/src/review.rs:297-306 | the table filled backwards in place holds the length of a longest common subsequence of the suffixes in every cell |
| Diff.WalkTable | crates/host-core/src/review.rs:307-324 | the two-index loop over the filled table yields the walk |
| Diff.DiffOps | crates/host-core/src/review.rs:291-325 | no script exactly when the table would exceed 2,000,000 cells; otherwise the minimal script |
| Diff.LineCounts | crates/host-core/src/review.rs:327-338 | the totals are the Add and Del ops, and their difference is the growth of the file |
| Hunks.MergeRanges | crates/host-core/src/review.rs:352-366 | widening the last range in place gives sorted ranges with an uncovered op between neighbours that cover exactly the op indices within 3 of a change |
| Hunks.MakeHunks | crates/host-core/src/review.rs:348-402 | the hunks are those of such ranges, with header positions taken from prefix counts |
| Hunks.RangesUnique | crates/host-core/src/review.rs:352-366 | the ranges are determined by the ops they cover |
| Hunks.HunkingUnique | crates/host-core/src/review.rs:348-402 | a script has exactly one list of hunks |
| Hunks.PatchRoundTrip | crates/host-core/src/review.rs:348-402 | for every script: applying its hunks at the old positions turns the old side into the new side, and applying them backwards at the new positions undoes it |
| Hunks.DiffPatches | crates/host-core/src/review.rs:291-402 | the hunks of the diff of before and after turn before into after, and after into before |
| Hunks.HunkTotals | crates/host-core/src/review.rs:327-402 | the add and del lines of all hunks together are the totals of the whole script |
| Review.EveryRunRecords | crates/host-core/src/review.rs:215-574 | in every interleaving of prepare, tool and outside writes, finalize, discard and rollback, each record tells exactly what its prepare and its finalize saw |
| Review.RollbackIsGuarded | crates/host-core/src/review.rs:508-574 | a rollback restores the content seen by prepare if and only if the record is active and reversible, a workspace is open and the file can be read and still equals what finalize saw; otherwise nothing changes |
| Review.RollbackOutcomes | crates/host-core/src/review.rs:508-574 | each outcome of a rollback exactly under its own condition, and never over a directory |
| Review.PrepareTells | crates/host-core/src/review.rs:215-271 | existence, digest if the file could be read, and a copy exactly if it is small enough and copying succeeded |
| Review.RollbackInEveryRun | crates/host-core/src/review.rs:215-574 | the same for every record of every such run |
| Review.UnwindSucceedsIff | crates/host-core/src/review.rs:508-574 | however the changes of a file were interleaved: rolling all of them back in reverse order succeeds at every step if and only if each change began where the one before it ended, and then every earlier content comes back |
| Review.OverlapFails | crates/host-core/src/review.rs:215-574 | two changes of one file that are both prepared before either is written cannot both be rolled back |
| Review.TrackKeepsChain | crates/host-core/src/review.rs:215-574 | each single event keeps the stack of contents and records of a file: finish pushes, a rollback of the newest change pops, everything else leaves it |
| Review.StoreIsAnUndoStack | crates/host-core/src/review.rs:215-574 | in every run in which the changes of a file do not overlap, whatever happens to other files between prepare, write and finalize, the file holds the top of the undo stack whenever no change of it is under way |
| Review.UnwindRestoresAll | crates/host-core/src/review.rs:508-574 | from there, rolling back in reverse order restores every earlier content down to the original |
| Review.EveryRunUnwinds | crates/host-core/src/review.rs:215-574 | composed, from a store without records: after every run in which the changes of a file do not overlap, rolling back what is left in reverse order succeeds at every step and ends with the file as it was in the beginning |
| Review.ReviewStore.PrepareChange | crates/host-core/src/review.rs:215-271 | records the content before a tool call, as the specification step does, whether or not it can be hashed and copied |
| Review.ReviewStore.DiscardChange | crates/host-core/src/review.rs:273-275 | drops the copy of a change that is not kept |
| Review.ReviewStore.FinalizeChange | crates/host-core/src/review.rs:438-494 | fails exactly on an unreadable file and then changes nothing; otherwise records the change, and its status is added, deleted or modified by whether prepare saw a file and there is one now |
| Review.ReviewStore.RollbackChange | crates/host-core/src/review.rs:508-574 | each branch of the rollback, with its error, is the specification step |
| Json.PrintUnique | crates/host-core/src/transcripts.rs:433-445 | a printed value followed by a separator can be read in one way only |
| Json.ObjectTextInjective | crates/host-core/src/transcripts.rs:433-445 | two objects with the same text are the same object |
| Json.TornObjectIsIncomplete | crates/host-core/src/transcripts.rs:590-622 | no complete object is a proper prefix of another, so a torn record is never a complete one |
| Json.EscapeIsIdentityIff | crates/host-core/src/transcripts.rs:1040-1047 | a string equals its escaped form exactly when nothing in it needs escaping |
| Sniff.SniffIsTopLevelType | crates/host-core/src/transcripts.rs:276-337 | for every printed object, in any key order and with any payload and any bytes after it: the kind is the one named by the top-level type key, never one named inside a payload |
| Sniff.TaggedIsObject | crates/host-core/src/transcripts.rs:433-445 | splicing the tag into the text of a body is printing the body with type as its first member |
| Sniff.TaggedIsSniffed | crates/host-core/src/transcripts.rs:276-445 | the scanner returns the tag of every tagged record |
| JsonUtf8.TaggedIsText | crates/host-core/src/transcripts.rs:433-445 | a tagged record whose keys and strings are UTF-8 is UTF-8 text, which the crash-safety theorems ask of records |
| Sniff.ScanJsonString | crates/host-core/src/transcripts.rs:343-353 | the raw text of the string that opens at start and the index after its closing quote; none exactly when it never closes |
| Sniff.SniffLineKind | crates/host-core/src/transcripts.rs:276-337 | the loop over index and depth computes the specified scan |
| LogFile.AppendAddsPieces | crates/host-core/src/transcripts.rs:596-622 | an append cut at any byte leaves all earlier lines alone and adds only its own pieces |
| LogFile.AppendStep | crates/host-core/src/transcripts.rs:596-636 | one append, cut anywhere, onto any file: earlier objects stay, the record counts exactly if its JSON text is whole, and the file stays text exactly if it was and the cut is not inside a character |
| LogFile.TornHistory | crates/host-core/src/transcripts.rs:596-636 | the same over every history of appends, each cut at any byte |
| LogFile.LinesArePieces | crates/host-core/src/transcripts.rs:596-622 | whatever is cut, each line of the file is a record or the beginning of one |
| LogFile.BadCutIsForever | crates/host-core/src/transcripts.rs:596-622 | after one cut inside a character no later append makes the file readable as text again |
| LogFile.CutInsideCharacter | crates/host-core/src/transcripts.rs:596-622 | every record with a character of more than one byte can be cut so |
| LogFile.UncutHistory | crates/host-core/src/transcripts.rs:596-622 | without a crash the file is the header and the records, one a line, and nothing else |
| LogFile.JsonlFile.AppendLine | crates/host-core/src/transcripts.rs:596-622 | the file after a write of which only the first cut bytes reached the disk: header only into a new file, a newline first if the file does not end in one |
| CrashSafety.RowsAreLines | crates/host-core/src/transcripts.rs:773-831 | reading line by line sees exactly the lines of the log |
| CrashSafety.ReadIsRecovered | crates/host-core/src/transcripts.rs:773-831 | on lines that are records or beginnings of records the reader returns the decodable complete objects of its kind, in order |
| CrashSafety.TranscriptSurvives | crates/host-core/src/transcripts.rs:596-831 | for every history of message and compaction appends, each cut at any byte: reading succeeds if and only if no write was cut inside a character, and then returns, in order, exactly the records whose JSON text was fully written |
| Transcript.ReadLine | crates/host-core/src/transcripts.rs:794-800 | one read_line: up to and including the next newline or the end of the file |
| Transcript.ReadTranscriptWindow | crates/host-core/src/transcripts.rs:773-831 | the sequential loop returns the window of decodable messages and all compactions of the rows of the file, or the error of a row that is not UTF-8 |
| Pages.ReadsPage | crates/host-core/src/transcripts.rs:773-831 | a window of a readable file: what the message lines from position start on decode to, limit lines or all that are left, rejected lines counted, and all compactions |
| Pages.WindowIsSlice | crates/host-core/src/transcripts.rs:773-831 | when every message line decodes, a window is the slice [start..start + limit] of the whole history, cut at its end |
| Pages.WindowsJoin | crates/host-core/src/transcripts.rs:773-831 | for every readable file, whatever decodes: a page and the one after it are the page of both, up to the end too |
| Pages.SeekReadsComplete | crates/host-core/src/transcripts.rs:696-767 | by the layout of the file, the seeking reader reads what the sequential one reads of the newline-terminated lines |
| Pages.SeekWindowIsSlice | crates/host-core/src/transcripts.rs:696-767 | its windows are such pages of the terminated message lines, and slices of its own whole history when they all decode |
| Pages.SeekWindowsJoin | crates/host-core/src/transcripts.rs:696-767 | its pages that follow one another join |
| Pages.SeekFailsIff | crates/host-core/src/transcripts.rs:696-767 | by any layout, stale ones too, the seeking reader fails exactly if a line it has to visit is not text; a missing file reads as empty |
| Pages.PagesSurvive | crates/host-core/src/transcripts.rs:596-831 | after any history of cut writes that left the file readable, a page and the rest are exactly the surviving messages |
| Trimming.TrimIsOfCharacters | crates/host-core/src/transcripts.rs:746-807 | trimming the bytes of a line is trimming its characters: exactly the Unicode white space goes, from both ends |
| Layout.FileIs | crates/host-core/src/transcripts.rs:384-425 | a file is its newline-terminated rows and one torn row or none |
| Layout.ScanIs | crates/host-core/src/transcripts.rs:384-425 | a scan from scratch records the offsets of exactly the complete rows by kind, and the length they cover |
| Layout.RefreshIsExact | crates/host-core/src/transcripts.rs:355-425 | for every file and every base layout: refreshing gives what a scan from scratch gives if and only if the file is shorter than the layout, or the layout is that of the lines before its length, or the line that runs over that length counts for nothing; failing reads agree too |
| Layout.RefreshIsScan | crates/host-core/src/transcripts.rs:361-425 | after appends, torn tails, completed tails and replaced tails, refreshing an old layout gives exactly what a scan from scratch gives, errors included |
| Layout.RefreshRun | crates/host-core/src/transcripts.rs:361-425 | the same over every run of file states that keep their complete lines, each refresh starting from the layout of the previous one |
| Layout.ScanLayout | crates/host-core/src/transcripts.rs:384-425 | the loop that pushes offsets and stops at a torn tail computes the specified scan from the base layout |
| Layout.RefreshLayout | crates/host-core/src/transcripts.rs:361-380 | missing, shorter and grown files take the three branches of the specification |
| Seek.SortIsForward | crates/host-core/src/transcripts.rs:718-731 | exactly the wanted offsets, each as often as wanted, are visited in ascending order |
| Seek.SeekFinds | crates/host-core/src/transcripts.rs:696-767 | by the layout of the file, seeking reads exactly the selected window of complete message rows and all complete compaction rows |
| Seek.ReadersAgree | crates/host-core/src/transcripts.rs:696-831 | for every file, start and limit, the seeking reader equals the sequential one if and only if no unterminated last line is a decodable record of the selection |
| Differences.RewriteIsTrusted | crates/host-core/src/transcripts.rs:355-425 | a transcript of one header rewritten, at the same length or with more lines, to begin with a message: the refreshed layout misses that message |
| Differences.RewriteShows | crates/host-core/src/transcripts.rs:355-425 | a given file and rewrite of the same length on which it shows |
| Differences.UnterminatedDiffers | crates/host-core/src/transcripts.rs:696-831 | a header and a message without its newline: only the sequential reader returns the message |
| Differences.UnterminatedShows | crates/host-core/src/transcripts.rs:696-831 | a given file on which it shows |
| Differences.TornCharacterIsForever | crates/host-core/src/transcripts.rs:596-831 | the first record of a transcript cut before a continuing byte of a character: every later read of the transcript fails, whatever is appended |
| Differences.AccentedOk | crates/host-core/src/transcripts.rs:590-622 | there is such a record: a message with one accented letter |
| Seek.ReadWindowWithLayout | crates/host-core/src/transcripts.rs:696-767 | the loop that seeks, reads one line and decodes it computes the specified read |
| Decimal.ParsePrinted | crates/host-core/src/transcripts.rs:1048-1061 | an i64 printed in decimal parses back to itself |
| Decimal.ParsesIff | crates/host-core/src/transcripts.rs:1048-1061 | exactly a sign or none, leading zeros and the numeral printed for an i64 parse, to that i64 |
| Decimal.PrintedIsShortest | crates/host-core/src/transcripts.rs:1048-1061 | what is printed is the shortest text that parses to the value |
| Utf8.PrefixValid | crates/host-core/src/transcripts.rs:794-800 | a valid text cut at a byte is valid exactly when the byte does not continue a character |
| Revisions.HeadIsTopLevel | crates/host-core/src/transcripts.rs:992-1083 | for every printed object the head read from its line is what its top-level members say; keys and strings inside payloads never take part |
| Revisions.HeadByLookup | crates/host-core/src/transcripts.rs:992-1083 | with unique keys the head does not depend on the order of the members |
| Revisions.RevisionLineHead | crates/host-core/src/transcripts.rs:992-1083 | the scanning loop computes the specified head |
| RevisionLog.HeadOfRevision | crates/host-core/src/transcripts.rs:960-1083 | a written record is a complete object whose head is its kind, its escaped root and its index |
| RevisionLog.HitsSuffice | crates/host-core/src/transcripts.rs:1140-1168 | reading back only the matching offsets, newest first, finds what reading all rows newest first would find |
| RevisionLog.ReadRevision | crates/host-core/src/transcripts.rs:1105-1171 | the two passes return the newest terminated line that matches and decodes, or the error of a row that is not UTF-8 |
| RevisionLog.RevisionSurvives | crates/host-core/src/transcripts.rs:960-1171 | for every history of revision and revision_live appends, each cut at any byte: the read succeeds if and only if no write was cut inside a character, and then answers with the newest visible record of that family and index that decodes |
| RevisionLog.LastAnswerIs | crates/host-core/src/transcripts.rs:1105-1171 | the answer is of the last record with this escaped root and index whose own decoder accepts it, live ones by the live decoder and the others by the stored one, and none without such a record |
| RevisionLog.LastWriteWins | crates/host-core/src/transcripts.rs:1105-1171 | when all records decode, each by the decoder of its kind, a lookup by a plain root id answers with what that decoder makes of the last write |
| RevisionLog.CrashFreeReadsLookUp | crates/host-core/src/transcripts.rs:960-1171 | if no write is cut, all records are visible, and reading by a plain root id gives the last write, decoded as live or as stored as it was written |
| RevisionLog.RootMatchIsExactIffPlain | crates/host-core/src/transcripts.rs:1040-1144 | roots are compared in escaped form, which is right for all stored roots if and only if the queried root needs no escaping; otherwise its own records are never found |
| RevisionLog.WrongFamilyAnswers | crates/host-core/src/transcripts.rs:1040-1144 | a query whose root holds a backslash before a quote is answered by the record of another family and not by its own |
| RevisionLog.WrongFamilyShows | crates/host-core/src/transcripts.rs:1040-1144 | two given records on which it shows |
| ToolBudget.EveryRunKeeps | crates/host-core/src/tool_budget.rs:109-253 | in every interleaving of permit-by-permit acquires, timeouts and releases: free plus held permits equal the capacity of every semaphore, the queue counter is the number of calls between increment and decrement, and at most 64 calls are past the queue check |
| ToolBudget.StepTransfers | crates/host-core/src/tool_budget.rs:193-253 | a step takes from a semaphore exactly what its call starts to hold and gives back exactly what it stops to hold |
| ToolBudget.NoDeadlock | crates/host-core/src/tool_budget.rs:217-253 | for every waiting call there is a call that runs its tool or can take its next step |
| ToolBudget.QuietMeansDone | crates/host-core/src/tool_budget.rs:109-153 | when nothing runs and nothing can step, no call is left waiting |
| ToolBudget.StepsAreBounded | crates/host-core/src/tool_budget.rs:109-153 | no call takes more than 25 steps, so a run without new arrivals ends |
| ToolBudget.MutationsAreSerial | crates/host-core/src/tool_budget.rs:199-206 | one session never holds two global mutation permits, whether waiting, running or releasing |
| ToolBudget.WritesAreSerial | crates/host-core/src/tool_budget.rs:31-206 | by tool name: two calls of Write or Edit of one session never run together |
| ToolBudget.RunningByName | crates/host-core/src/tool_budget.rs:31-253 | by tool name: at most 4 Bash calls, 8 of Read, Glob and Grep, 2 of Write and Edit, and 4 of all others run together |
| ToolBudget.SameKind | crates/host-core/src/tool_budget.rs:31-40 | which tool names share their limit |
| ToolBudget.QueuedMutationHoldsNothing | crates/host-core/src/tool_budget.rs:223-234 | a call that waits for the mutation permit of its session holds no other permit |
| ToolBudget.RefusedIff | crates/host-core/src/tool_budget.rs:131-135 | a call is refused exactly when 64 others are counted, calls about to be refused among them |
| ToolBudget.RefusedWithRoom | crates/host-core/src/tool_budget.rs:131-135 | a run in which a call is refused while fewer than 64 are past the queue check |
| ToolBudget.SnapshotCounts | crates/host-core/src/tool_budget.rs:155-166 | the figures of the snapshot are the numbers of permit holders, never underflow, and bound the running calls by 16 and those of one session by 4 |
| ToolBudget.SnapshotShowsRunning | crates/host-core/src/tool_budget.rs:31-166 | a snapshot shows every running call in the figure of its tool |
| ToolBudget.ClassWithoutTotalIff | crates/host-core/src/tool_budget.rs:65-70 | a call holds its class permit without a total permit exactly between the first two drops of a release |
| ToolBudget.ReleasingShows | crates/host-core/src/tool_budget.rs:65-70 | a run after which the snapshot shows one shell call and no active call |
| ToolBudget.Budget.Acquire | crates/host-core/src/tool_budget.rs:109-120 | an arriving call starts to try its semaphores in order, mutations with that of the session first |
| ToolBudget.Budget.TryNext | crates/host-core/src/tool_budget.rs:193-215 | one permit of try_acquire: taken, admitted, or everything to be given back |
| ToolBudget.Budget.WaitNext | crates/host-core/src/tool_budget.rs:217-253 | one permit of acquire_all; the call stays where it is while none is free |
| ToolBudget.Budget.BackOut | crates/host-core/src/tool_budget.rs:202-215 | permits of a failed or timed-out acquisition are dropped one by one, newest first |
| ToolBudget.Budget.Enqueue | crates/host-core/src/tool_budget.rs:131-135 | the counter goes up and its new value decides between waiting and refusal |
| ToolBudget.Budget.Dequeue | crates/host-core/src/tool_budget.rs:131-152 | the counter goes down for a refused and for a granted call |
| ToolBudget.Budget.TimeOut | crates/host-core/src/tool_budget.rs:137-152 | a waiting call gives up with whatever it holds |
| ToolBudget.Budget.DropNext | crates/host-core/src/tool_budget.rs:65-70 | a permit drops total, class, session and session mutation in this order |
| ToolBudget.Budget.TakeSnapshot | crates/host-core/src/tool_budget.rs:155-166 | reads every figure of the snapshot off the semaphores and the counter |
| TurnQueue.EveryRunRefines | crates/host-core/src/turn_queue.rs:81-302 | every run of the table is a run of two sequences per session, a machine of its own that decides acceptance too; ids, positions, priorities and idempotency keys stay distinct, and no session holds more than 8 entries |
| TurnQueue.StepShows | crates/host-core/src/turn_queue.rs:81-302 | one command keeps the table and the sequences in step, for all sessions at once |
| TurnQueue.AcceptsIffAdmits | crates/host-core/src/turn_queue.rs:89-168 | the table accepts a push exactly when the sequences do: the session exists, its key is in none of its entries, they are fewer than 8, and the id is in no entry of any session |
| TurnQueue.StepRefines | crates/host-core/src/turn_queue.rs:81-302 | one command changes each session only as the two sequences say: push appends to plain, prioritize moves one entry to the end of promoted, reorder exchanges adjacent plain entries, remove deletes one, other sessions stay |
| TurnQueue.StepSound | crates/host-core/src/turn_queue.rs:81-302 | every command keeps the uniqueness of the table and the limit of 8 |
| TurnQueue.PushAccepted | crates/host-core/src/turn_queue.rs:89-168 | a row is inserted exactly when the session exists, the key is new, the two sequences hold fewer than 8 entries and the id is not in use |
| TurnQueue.PushIsIdempotent | crates/host-core/src/turn_queue.rs:98-114 | repeating a push with its idempotency key and hash returns the same entry and changes nothing |
| TurnQueue.PushReplies | crates/host-core/src/turn_queue.rs:88-168 | every reply of a push exactly under its condition over the rows: unknown session, same key and hash, same key and another hash, full queue, id in use, or the new row with the next position |
| TurnQueue.IdOfIs | crates/host-core/src/turn_queue.rs:124-127 | the id of the client is used unless it is missing or white space |
| TurnQueue.PrioritizeReplies | crates/host-core/src/turn_queue.rs:204-240 | every reply of prioritize: missing, already promoted, or the row with the next priority, and only that row changes |
| TurnQueue.RemoveReplies | crates/host-core/src/turn_queue.rs:189-195 | remove says whether there was such a row, and takes exactly it |
| TurnQueue.ReorderReplies | crates/host-core/src/turn_queue.rs:248-302 | reorder reports a move exactly for a plain row with a plain one on that side; otherwise nothing changes |
| TurnQueue.ListIsDelivery | crates/host-core/src/turn_queue.rs:83-185 | the answer to ORDER BY is unique: the promoted entries in click order, then the plain ones by position |
| TurnQueue.NeighbourIs | crates/host-core/src/turn_queue.rs:267-288 | the nearest plain row on a side is the neighbour in the plain sequence |
| TurnQueue.ReorderRoundTrip | crates/host-core/src/turn_queue.rs:248-302 | moving an entry one way and back restores the table exactly |
| TurnQueue.Queue.PushTurn | crates/host-core/src/turn_queue.rs:88-168 | the checks in their order, each with its reply, and the effect on every session |
| TurnQueue.Queue.List | crates/host-core/src/turn_queue.rs:172-185 | the delivery order of one session |
| TurnQueue.Queue.RemoveTurn | crates/host-core/src/turn_queue.rs:189-195 | whether the entry was queued, and the effect on every session |
| TurnQueue.Queue.PrioritizeTurn | crates/host-core/src/turn_queue.rs:211-240 | missing and already promoted entries are refused; otherwise the next priority, and the effect on every session |
| TurnQueue.Queue.ReorderTurn | crates/host-core/src/turn_queue.rs:248-302 | false for missing, promoted and neighbourless entries; otherwise the positions are exchanged, and the effect on every session |
| RateLimit.WindowsAreBounded | crates/host-core/src/state.rs:156-193 | for every call history on a clock that never goes back, any window of 60 seconds holds at most the limit of accepted calls per plugin and kind |
| RateLimit.RefusedIffFull | crates/host-core/src/state.rs:156-169 | a call is refused exactly when the limit of accepted calls lies in the 60 seconds before it: 10 imports, 5 batch imports, 20 deletes |
| RateLimit.Brakes.RateAllowed | crates/host-core/src/state.rs:156-169 | the pruning loop and the length test compute the specified answer and list |
| RateLimit.Brakes.AllowPluginImport | crates/host-core/src/state.rs:171-185 | batch and single imports use their own lists and limits and leave the others alone |
| RateLimit.Brakes.AllowPluginDelete | crates/host-core/src/state.rs:187-193 | deletes use their own list and limit |
| BashAborts.AbortIsNotLost | crates/host-core/src/state.rs:236-307 | a remembered abort makes the next registration of its key within 60 seconds start cancelled, in every continuation without a clear of the key or a shutdown, unless a pruning evicted it while 1024 tombstones no older were kept |
| BashAborts.AbortTakesEffect | crates/host-core/src/state.rs:271-284 | with live listeners an abort signals the active process, or is remembered from that instant |
| BashAborts.RegisterReplies | crates/host-core/src/state.rs:252-269 | every reply of a registration exactly under its condition, with the channel it leaves |
| BashAborts.AbortReplies | crates/host-core/src/state.rs:271-284 | every reply of an abort: it signals a listener or leaves a tombstone of this instant |
| BashAborts.KeptIff | crates/host-core/src/state.rs:236-250 | a pruning drops what is 60 seconds old, and something younger only while 1024 no older ones are kept |
| BashAborts.SignalStays | crates/host-core/src/state.rs:252-307 | a signal once given stays until the execution is cleared or the host shuts down |
| BashAborts.StepDisjoint | crates/host-core/src/state.rs:252-290 | a key becomes both active and a tombstone exactly by an abort that finds the listener gone |
| BashAborts.SharedKeyArises | crates/host-core/src/state.rs:252-290 | a run after which one key is active and a tombstone |
| BashAborts.EveryRunKeeps | crates/host-core/src/state.rs:236-307 | tombstones never exceed 1025, and with live listeners no key is both active and a tombstone |
| BashAborts.Aborts.Prune | crates/host-core/src/state.rs:236-250 | drops what is 60 seconds old and then the oldest while there are more than 1024; any choice among equally old ones is allowed |
| BashAborts.Aborts.RegisterBash | crates/host-core/src/state.rs:252-269 | the two refusals, and a channel that starts with whether a tombstone was consumed |
| BashAborts.Aborts.AbortOrQueue | crates/host-core/src/state.rs:271-284 | signals a listener or leaves a tombstone, after pruning |
| BashAborts.Aborts.ClearBash | crates/host-core/src/state.rs:286-290 | removes the key from both maps |
| BashAborts.ShutdownTellsAll | crates/host-core/src/state.rs:292-307 | a shutdown signals every active execution, leaves nothing behind, and every later registration is refused |
| BashAborts.Aborts.ShutDown | crates/host-core/src/state.rs:292-307 | the loop over the active executions signals each, then both maps are cleared |
| Approvals.FirstDecisionWins | packages/agent-host/src/approvals.ts:144-239 | in every interleaving of suspended resolves, card settlements, cancels, expiries, stale offers and lost answers: the waiter is sent at most one decision, and at most one resolve of a request reports a new decision, which is the one the waiter was sent |
| Approvals.EveryRunKeeps | crates/host-core/src/permissions.rs:365-425 | a pending request was never answered, and every accepted resolve claims the decision that was sent |
| Approvals.ResolveAsksIff | packages/agent-host/src/approvals.ts:144-171 | a new resolve asks the host if and only if nothing is stored, the request is open and not expired, the revision is absent or equal and the decision is offered; each refusal has its error, in this order |
| Approvals.HostStepSends | crates/host-core/src/permissions.rs:340-425 | every event, seen from one request: what its waiter is newly sent, and that it is then no longer pending |
| Approvals.HostAnswersCall | crates/host-core/src/permissions.rs:365-384 | the host refuses unknown requests and those older than 120 seconds, and accepts the others |
| Approvals.AnswerIsReported | packages/agent-host/src/approvals.ts:167-194 | after the answer of the host a resolve stores and reports its own decision, or fails and stores nothing |
| Approvals.LostAnswerFails | packages/agent-host/src/approvals.ts:167-171 | if the answer of the host is lost the resolve fails, and nothing else changes |
| Approvals.OutcomeIsFinal | packages/agent-host/src/approvals.ts:144-194 | a resolve that is over stays over and never reaches the host |
| Approvals.OfferOpens | packages/agent-host/src/approvals.ts:60-87 | an offer opens its request unless one of that id is open, and answers with the open one |
| Approvals.OfferOverlapsIff | packages/agent-host/src/approvals.ts:60-87 | one offer makes the pending and the results map overlap exactly when it names a settled id |
| Approvals.StepApart | packages/agent-host/src/approvals.ts:60-239 | no other event makes them overlap |
| Approvals.ApartThroughoutIff | packages/agent-host/src/approvals.ts:60-239 | in every run they stay apart throughout if and only if no offer names a settled id |
| Approvals.OfferAgainOverlaps | packages/agent-host/src/approvals.ts:60-228 | one such run: a request is offered, settled, and offered again |
| Approvals.StoredResultNeverExecutes | packages/agent-host/src/approvals.ts:149-150 | a resolve that finds a stored result never reaches the host |
| Approvals.StepTruthfulIff | packages/agent-host/src/approvals.ts:144-239 | the exact events after which a stored result is not what the waiter was sent: a permission handled after a result was stored, an expiry or a session cancel after a permission, a card that settles with something else |
| Approvals.TruthfulThroughoutIff | packages/agent-host/src/approvals.ts:60-239 | in every run all stored results tell throughout what their waiters were sent, if and only if no event is one of these |
| Approvals.CancelStores | packages/agent-host/src/approvals.ts:202-239 | which results of a session cancel stay stored, told from the places of the results stored before: one still stored at its turn keeps its place, the others are appended, and the last 1000 places stay; overlap and full memory included |
| Approvals.CancelsAllowedIff | packages/agent-host/src/approvals.ts:202-239 | while the maps are apart, a session cancel is one of these exactly if one of the last 1000 open requests of the session was already allowed something |
| Approvals.CancelStoresAll | packages/agent-host/src/approvals.ts:202-239 | with room for them, a session cancel stores the results of all its requests, settled before or not |
| Approvals.CancelDuringAwait | packages/agent-host/src/approvals.ts:167-239 | one such run: a session cancel during the await lets a second client read canceled although the waiter is sent the first client's decision |
| Approvals.SettleRemembers | packages/agent-host/src/approvals.ts:202-228 | settling closes the request, remembers its outcome whatever was remembered before, and keeps at most 1000 outcomes |
| Approvals.SettleElsewhere | packages/agent-host/src/approvals.ts:202-228 | settling leaves the other requests open as they were and their results stored, except the oldest beyond 1000 |
| Approvals.CancelCloses | packages/agent-host/src/approvals.ts:231-238 | a session cancel closes exactly the requests of its session; what stays stored of them is canceled |
| Approvals.ApprovalBroker.Register | packages/agent-host/src/approvals.ts:60-87 | an open request is returned as it is; otherwise the new one is opened |
| Approvals.ApprovalBroker.SettleOutcome | packages/agent-host/src/approvals.ts:202-228 | delete, record in place or at the end, and evict the oldest |
| Approvals.ApprovalBroker.BeginResolve | packages/agent-host/src/approvals.ts:144-171 | everything before the await: stored result, unknown, expired, stale and unoffered decisions, or the call to the host |
| Approvals.ApprovalBroker.CancelSession | packages/agent-host/src/approvals.ts:231-238 | settles every open request of the session as canceled |
| Approvals.PermissionManager.ResolveRequest | crates/host-core/src/permissions.rs:365-384 | unknown requests are refused, those older than 120 seconds are denied and refused, others are answered |
| Approvals.PermissionManager.CancelRequest | crates/host-core/src/permissions.rs:389-397 | an open request is denied and removed |
| Approvals.PermissionManager.ExpireRequests | crates/host-core/src/permissions.rs:410-425 | exactly the requests older than 120 seconds are denied, each once, and removed |
| SearchExcerpt.SnippetKeepsMatch | crates/host-core/src/session_search.rs:133-219 | whenever the text matches, the folded snippet contains the folded query, is at most max(budget, matched characters + budget/3) + 2 characters long, and no more characters are matched than the folded query has |
| SearchExcerpt.SnippetShows | crates/host-core/src/session_search.rs:158-219 | the snippet is the trimmed sentence of the match, whole if it fits; otherwise the part that begins a third of the budget before the match and fills the budget or reaches the end of the sentence, with a mark exactly where something is cut off |
| SearchExcerpt.NoMatchShows | crates/host-core/src/session_search.rs:158-219 | without a match the snippet is the beginning of the text |
| SearchExcerpt.BreaksAre | crates/host-core/src/session_search.rs:163-194 | sentences end exactly after a newline, or after a stop and all the stops and closing marks that follow it |
| SearchExcerpt.RangeShift | crates/host-core/src/session_search.rs:195-201 | a piece of the text around the whole match has the same first match, at the shifted place, so the excerpt of the sentence is about the match of the text |
| SearchExcerpt.TrimmedSentenceIs | crates/host-core/src/session_search.rs:188-196 | the trimmed sentence is a piece of the text around the whole match |
| SearchExcerpt.RangeNoneIff | crates/host-core/src/session_search.rs:133-153 | no range exactly when the trimmed query is empty or the folded text does not contain it |
| SearchExcerpt.RangeCovers | crates/host-core/src/session_search.rs:133-153 | the range is the shortest run of characters whose folds hold the first occurrence |
| SearchExcerpt.MatchedLength | crates/host-core/src/session_search.rs:133-153 | no more characters are matched than the folded query has |
| SearchExcerpt.ExcerptKeepsMatch | crates/host-core/src/session_search.rs:205-219 | an excerpt of a matching text still matches |
| SearchExcerpt.ExcerptLength | crates/host-core/src/session_search.rs:205-219 | an excerpt is at most max(budget, matched characters + budget/3) + 2 characters long |
| SearchExcerpt.StartIsLatest | crates/host-core/src/session_search.rs:163-194 | the sentence starts at the latest break before the match |
| SearchExcerpt.EndIsFirst | crates/host-core/src/session_search.rs:163-194 | the sentence ends at the first break after the match, or at the end of the text |
| SearchExcerpt.MatchRange | crates/host-core/src/session_search.rs:133-153 | byte offsets of the folded text are mapped back to characters of the original |
| SearchExcerpt.FindSentence | crates/host-core/src/session_search.rs:163-194 | the scanning loop finds these two breaks |
| SearchExcerpt.BuildSnippet | crates/host-core/src/session_search.rs:158-202 | the snippet is the trimmed sentence if it fits, and an excerpt of it otherwise |
| Base64.RoundTrip | crates/host-core/src/plugin_usage.rs:55-62 | decoding undoes encoding (section 4 of RFC 4648) |
| Base64.DecodeIsCanonical | crates/host-core/src/plugin_usage.rs:59-62 | every text that decodes is the encoding of what it decodes to |
| Base64.Rfc4648Vectors | crates/host-core/src/plugin_usage.rs:55-62 | encodings given in section 10 of RFC 4648 |
| UsagePaging.CursorRoundTripIff | crates/host-core/src/plugin_usage.rs:55-77 | a cursor comes back from its text exactly when its id is not empty, colons in the id or not |
| UsagePaging.DecodeCursorIff | crates/host-core/src/plugin_usage.rs:59-77 | exactly the encodings of v1, an end time and an id that is not empty are cursors; everything else is refused |
| UsagePaging.RowsAre | crates/host-core/src/plugin_usage.rs:153-172 | the query returns exactly the selected rows, each once, by end time and id |
| UsagePaging.RowsAfter | crates/host-core/src/plugin_usage.rs:163-168 | the rows after the key of a row are the rest of the list, whatever cursor led there |
| UsagePaging.PageIs | crates/host-core/src/plugin_usage.rs:172-252 | a page is the next limit rows, and has a cursor exactly when rows are left |
| UsagePaging.PageRefusedIff | crates/host-core/src/plugin_usage.rs:82-252 | a page is refused exactly for a reversed window, one of more than 365 days, a limit outside 1 to 500, or a bad cursor |
| UsagePaging.FollowCollects | crates/host-core/src/plugin_usage.rs:224-252 | following nextCursor from any valid cursor ends, and collects all later rows if and only if no full page ends in an empty id |
| UsagePaging.PagesCollectAllTurns | crates/host-core/src/plugin_usage.rs:153-252 | from the start, the pages of any limit concatenate to exactly the completed turns of sessions not deleted that ended in the window and belong to the asked session and project, each once, by end time and id; this never fails when no id is empty |
| FreeNames.DistinctIds | crates/host-core/src/agent_capabilities.rs:409-419 | distinct ordinals give distinct ids, truncated or not, after lowercasing too |
| FreeNames.DistinctNames | crates/host-core/src/agent_capabilities.rs:434-445 | distinct suffix ordinals give distinct labels, truncated or not, after lowercasing too |
| FreeNames.IdKeepsMost | crates/host-core/src/agent_capabilities.rs:409-419 | a suffixed id keeps the longest beginning of the id that leaves room for the suffix and does not end in a dash; an id with room is kept whole |
| FreeNames.NameKeepsMost | crates/host-core/src/agent_capabilities.rs:434-445 | a suffixed label keeps the longest beginning of the label that leaves room for the suffix and does not end in a blank |
| FreeNames.NameFirst | crates/host-core/src/agent_capabilities.rs:434-438 | the first candidate is the label itself, cut to the character budget |
| FreeNames.FreeIdFound | crates/host-core/src/agent_capabilities.rs:401-425 | with fewer than 998 taken names a valid id gets a free one within the length limit, with the smallest free ordinal |
| FreeNames.NoIdFree | crates/host-core/src/agent_capabilities.rs:401-425 | with the id and all candidates up to 999 taken there is none |
| FreeNames.CandidateIsValid | crates/host-core/src/mcp_servers.rs:97-107 | every suffixed candidate of a valid id is valid |
| FreeNames.FreeNameFound | crates/host-core/src/agent_capabilities.rs:449-457 | with fewer than 998 taken names every label gets a free, non-empty one with the smallest free ordinal |
| FreeNames.NoNameFree | crates/host-core/src/agent_capabilities.rs:449-457 | with all candidates up to 999 taken the label is kept |
| FreeNames.TransferFindsNames | crates/host-core/src/mcp_servers.rs:553-581 | a move into a level of fewer than 128 servers never fails for want of a name, and its names clash with none there |
| FreeNames.TransferFullIff | crates/host-core/src/mcp_servers.rs:553-557 | a move is refused for want of room exactly when the level holds 128 servers or more |
| FreeNames.TransferKeepsFree | crates/host-core/src/mcp_servers.rs:553-577 | a server whose id and label are free at the destination keeps both |
| FreeNames.LabelFailsIff | crates/host-core/src/mcp_servers.rs:570-581 | the move of a server with a legal label fails exactly when the first free label is a suffixed one whose base and suffix take more than 4096 bytes |
| FreeNames.LabelNeverFails | crates/host-core/src/mcp_servers.rs:570-581 | labels with six bytes to spare and ASCII labels always move |
| FreeNames.LongLabelFails | crates/host-core/src/mcp_servers.rs:570-581 | 2048 two-byte letters are a legal label that cannot be moved beside itself |
| FreeNames.ChooseId | crates/host-core/src/agent_capabilities.rs:401-425 | the loop over ordinals, with the popping of trailing dashes, computes the specified id |
| FreeNames.ChooseName | crates/host-core/src/agent_capabilities.rs:449-457 | the loop over ordinals computes the specified label |

## Left out

- Previews of large or binary files, their byte and line limits, and the removal and sweeping of snapshots (`review.rs`).
- Session headers, in-flight records, whole rewrites of a transcript and `update_message` (`transcripts.rs`): a rewrite is a new file.
- LogFile.TornHistory: a failed write is one that stopped after some bytes; bytes out of order after a power loss are not modelled.
- Revisions.HeadByLookup: asks for unique keys, which serialised records have; with repeated keys the head is the one of `HeadOf`, read in order.
- RevisionLog.CrashFreeReadsLookUp: is about records that decode and a plain root; `RevisionSurvives` covers the others.
- ToolBudget.NoDeadlock: fairness among waiters is not modelled; cancelling the acquire future itself, which would skip the decrement of the counter, is not either.
- TurnQueue.EveryRunRefines: deleting a session with its rows, the listing of all sessions at once, and the width of the integer columns are left out.
- BashAborts.Aborts.Prune: reads the clock once per call, where the original reads it for each tombstone.
- BashAborts.Aborts.ShutDown: the permission requests and plugin calls that a shutdown also cancels belong to other tables.
- Approvals.FirstDecisionWins: plan and goal proposals, which resolve through a database, are left out; request ids are fresh, as UUIDs are; listing the open requests is left out.
- SearchExcerpt.SnippetKeepsMatch: folding is per character, so the lowercase of a final capital sigma, which depends on its neighbours, is not modelled; nor are the full-text index and the queries of `search` and `context`.
- SearchExcerpt.MatchRange: finding in UTF-8 bytes is taken to hit character boundaries only.
- UsagePaging.PagesCollectAllTurns: the table, the window and the filters are fixed while paging; parsing of the request parameters and token counters is left out.
- FreeNames.TransferFindsNames: writing the file, activation state, and the refusal to overwrite an existing path are left out.
- Redaction, network policy, secrets, plugins, scheduling, terminals and the desktop user interface.
