# Pi Desk: remote helper, editing, search, supervision

A Dafny 4.11 model of the parts of Pi Desk where several programs, goroutines or separately written pieces of code
have to agree, with proofs that they do. `dafny verify dfyconfig.toml` checks everything.

| file | what it models |
|---|---|
| `RequestTable.dfy` | the helper server's active requests and tombstones |
| `RequestLane.dfy` | one request, with the client call, the frames under way and the server goroutine |
| `RemoteSession.dfy` | one client and one server with any number of requests over two FIFO streams |
| `RequestEnds.dfy` | the objects and loops at the two ends of a request |
| `Utf8.dfy`, `SpliceEdit.dfy` | valid UTF-8 (section 4 of RFC 3629) and the in-memory part of `EditFileAll` |
| `ConditionalWrite.dfy`, `EditHistory.dfy` | one conditional write step by step, and all interleavings of edits and writes |
| `InstallLock.dfy` | the reference-counted lock per installed artifact |
| `PirpcClient.dfy` | the RPC client's pending and abandoned calls, and its close race |
| `Supervisor.dfy` | the Pi supervisor's session tables, and the maintenance gate |
| `Bindings.dfy` | coordinator, repository and terminal, which each keep a view of what is bound |
| `Paths.dfy`, `MakeDirectories.dfy`, `Search.dfy`, `FilePages.dfy`, `GitPack.dfy` | what the helper produces, and what the client accepts |
| `RecordFraming.dfy`, `FrameCodec.dfy` | records one to a line, and length-prefixed frames |
| `ConfigDiscovery.dfy` | the walk over Include directives |
| `JsonComments.dfy` | removing comments from JSON with comments |
| `Bytes.dfy`, `Sequences.dfy`, `Wrappers.dfy` | what the others share |

Objects that the program updates in place are classes whose methods are tied to functions of their fields; loops are
methods with invariants; concurrency is a step system in which every critical section, and every send or receive, is a
step of its own, and the results are about every run.

## What is taken for granted

- SHA-256 is injective (`Bytes.Digest`). JSON of an envelope can be read back (`FrameCodec.Faithful`); a JSON record has
  no line feed in it and does not end in a carriage return (`RecordFraming.OneLine`). Which characters are control or
  format characters is a parameter, as are pattern matching and what a configuration source contains.
- The session starts behind the handshake and has no transport failure; the clock does not go back. Looking up the
  request of a control frame and cancelling it, or adding the credit, are one step: a request that completes in between
  has no use for either. So is reading the clock and what is done at that time.
- Timeouts are cancellations at any time. Foreign calls may fail at any time.
- Histories of edits are for one root with no other program at work; a single write is also modelled against another
  program that changes anything before its second look and behind it. Nobody asks for a file by the random name of a temporary.
- A file that is read page by page does not change meanwhile.
- In `Bindings.dfy` one operation of the coordinator, which holds its lock all the while, is one step, and the results
  hold between such operations and before the shutdown of a service, which forgets its threads
  (internal/appservice/terminal.go:78). A terminal request takes the terminal's lock alone (lines 255-259), so it can
  still be routed by a task that the coordinator has already deleted and the terminal not yet.
- A directory walk stays below the search path.

## Where the code differs from what is said about it

- An edit is meant to require that each old text occurs once. The search looks for a second occurrence only behind the
  end of the first one, so it accepts an overlapping one; exactly the texts that overlap themselves are affected
  (`SpliceEdit.SearchIsExactIff`, `SpliceEdit.OverlapAcceptedExample`).
- A comment in `isCurrent` (internal/piruntime/supervisor.go:297-299) says that generations are assigned under the
  supervisor's lock. They are assigned before it is taken (line 108); the generations of a thread still strictly
  increase, because a thread has one start at a time.
- A trailing carriage return of a record is tolerated, but counts towards the record limit if a line feed follows
  (`RecordFraming.CarriageReturnCounts`).
- The paging loop drops a last page that is one empty line (`FilePages.LoadPages`).
- A server refusal for too many requests would make most client calls kill the helper
  (`RequestLane.RefusalsAreKnown`); the client's own limit makes it unreachable for them
  (`RemoteSession.RequestsAreRegistered`).
- A late cancel or credit is meant to be harmless. It ends the session if it is read a minute after its request
  completed (`RemoteSession.LateCancelEndsTheSession`), or if 1024 other calls have completed since
  (`RemoteSession.OvertakenCancelEndsTheSession`), and in no other case (`RemoteSession.ControlFrameFailsIffForgotten`).
  The second can happen even to a frame that is written while its call is pending, because the lock is given up between
  the completion of a request and the writing of its terminal frame (`RemoteSession.WaitingAnswerEndsTheSession`). It
  cannot if the requests that complete in this gap, and the calls that start between the answer and the control frame,
  are 960 at most (`RemoteSession.PromptFrameFailsIffExpired`).
- A conditional write is meant to replace a file only if it is what the caller expects. What another program writes
  between the second look and the rename is lost all the same (`ConditionalWrite.LateChangeIsLostIff`); a file that was
  to be new is never written over another one.
- Git lists an unmerged file once for each of its stages. If such a file matches, the client takes the whole result for
  a protocol error (`Search.UnmergedFileIsRejected`, `Search.UnmergedMatchIsRejected`); a repeated name that does not
  match does no harm (`Search.Find`, `Search.Grep`).
- A context file may have 256 KiB, but is refused if a line of it falls across the end of a page, however short the line
  is: two lines of 30,000 bytes are too much (`FilePages.TwoLinesAreRefused`). Which files are refused is said by
  `FilePages.NoneCutIff`, and page by page by `FilePages.PageIff`.
- StopAll takes all sessions out of the table before it closes them, and maintenance is not prepared if one of them does
  not close cleanly; the sessions are gone then all the same (`Supervisor.PreparedIff`).

## Model

| member | source | states |
|---|---|---|
| RequestTable.PruneKeepsUnexpired | internal/remotehelper/server.go:611-622 | pruning removes a tombstone exactly if its time is up |
| RequestTable.PruneIsLive | internal/remotehelper/server.go:611-622 | pruning a consistent table drops the expired front of the queue and leaves the map equal to what the queue lists |
| RequestTable.EvictIsRoom | internal/remotehelper/server.go:601-605 | the eviction loop drops at most the oldest entry, exactly when the table is full |
| RequestTable.AddTombstoneIs | internal/remotehelper/server.go:599-609 | a new tombstone ends up last in a queue that stays distinct, sorted by expiry, equal to the map, and at most 1024 long |
| RequestTable.RegisterValid | internal/remotehelper/server.go:474-505 | an identifier is refused exactly if it is active or has an unexpired tombstone; otherwise it becomes active, over the limit exactly if 64 requests are active, or if it is a process and 16 active requests are |
| RequestTable.CompleteValid | internal/remotehelper/server.go:580-590 | completion moves an identifier from the active map to the end of the tombstone queue, where a late control frame finds it |
| RequestTable.FindIs | internal/remotehelper/server.go:507-520 | what a control frame finds: the active request, an unexpired tombstone, or nothing |
| RequestTable.LateControlToleratedIff | internal/remotehelper/server.go:507-609 | whatever requests, completions, cancels and credits come after the completion of a request, at whatever times, a control frame for it is tolerated if and only if it comes within a minute of the completion and fewer than 1024 other requests have completed since |
| RequestTable.EveryRunKeepsTable | internal/remotehelper/server.go:131-237 | in every run of the serve loop from an empty table the table is consistent, at most 65 requests are active, 64 worked on, and 16 of those are processes |
| RequestTable.ServingStep | internal/remotehelper/server.go:180-236 | one turn of the serve loop, or one completion, keeps that invariant |
| RequestTable.LoopGoesOn | internal/remotehelper/server.go:206-236 | a completion takes its request out of the active map; the serve loop goes on after a refusal it has answered, and ends after a shutdown, when nothing is active |
| RequestTable.LoopDecides | internal/remotehelper/server.go:159-237 | after each frame the serve loop ends, reads on, waits for a shutdown or answers a refusal exactly as identifier, time, kind and the number of active requests and processes say |
| RequestTable.Server.PruneTombstones | internal/remotehelper/server.go:611-622 | the loop over the fields computes the specified pruning |
| RequestTable.Server.AddTombstoneLocked | internal/remotehelper/server.go:599-609 | the method over the fields computes the specified insertion with pruning and eviction |
| RequestTable.Server.CountProcesses | internal/remotehelper/server.go:495-500 | the loop counts exactly the active process requests |
| RequestTable.Server.RegisterRequest | internal/remotehelper/server.go:474-505 | the method over the fields has the same answers: the limits are 64 active requests, and 16 active processes for a process |
| RequestTable.Server.FindRequest | internal/remotehelper/server.go:549-564 | the lookup answers as specified and changes nothing but expired entries |
| RequestTable.Server.CompleteRequest | internal/remotehelper/server.go:580-590 | completes exactly the active requests, with the specified new state |
| RequestLane.RefusalsAreKnown | internal/remotessh/runtime_process.go:210-786 | the client decodes every error code that a handler ends a request with, and knows just two that no handler sends; the refusal of the serve loop it knows for Bash and root opening alone, an unknown outcome for the methods that change something |
| RequestLane.StepKeepsLane | internal/remotessh/runtime_process.go:525-601 | every step of either end of a request, interleaved in any way, keeps credit conservation, sequence numbers, the output prefix, and what the frames under way will make of the call |
| RequestLane.CreditIsConserved | internal/remotehelper/bash.go:191-222 | in every run of a Bash request the credit at the server, under way, charged, under way as data, and owed adds up to 65536 from the first credit on; the call is never made to kill the helper and its output is a prefix of what was read |
| RequestLane.CreditAcceptedIff | internal/remotehelper/bash.go:191-197 | credit is refused exactly if it is none, or would bring the balance above 256 KiB |
| RequestLane.CreditIsNeverRefused | internal/remotehelper/bash.go:191-197 | the server accepts every credit frame of a request it works on, and its balance never exceeds the window |
| RequestLane.DrainedStreamIsNotStuck | internal/remotehelper/bash.go:206-222 | with nothing under way and nothing owed, a blocked producer has a signal and finds its credit |
| RequestLane.NoLostWakeUp | internal/remotehelper/bash.go:199-222 | a blocked producer with enough credit has the one-slot signal, or the signal is about to be set |
| RequestLane.WorkerGetsOn | internal/remotehelper/bash.go:88-137 | once every frame to it has been read, a worker can go on without a cancel or a time limit: it takes its credit, sleeps and is woken, writes, or ends, unless its call has something to do first |
| RequestLane.FramesGetOn | internal/remotessh/runtime_process.go:531-588 | a frame that has reached the reader is handed over, or the full inbox of its call is read first, or the credit that the call owes is written first |
| RequestLane.NoCallIsKilled | internal/remotessh/runtime_process.go:531-588 | no frame received or under way makes the call kill the helper |
| RequestLane.OutputIsPrefix | internal/remotessh/runtime_process.go:543-565 | the output of a call is a prefix of what the server has read, and all of it once the call succeeded with a matching byte count |
| RequestLane.TerminalIsLast | internal/remotehelper/server.go:580-597 | a terminal frame is the last of its request, and the server no longer works on it |
| RequestLane.DoneEndsWithTerminal | internal/remotehelper/server.go:580-597 | when the server is done, the last frame under way is the terminal one |
| RequestLane.TakeCreditKeeps | internal/remotehelper/bash.go:206-215 | charging a chunk keeps the invariant |
| RequestLane.WakeKeeps | internal/remotehelper/bash.go:216-221 | taking the one-slot signal keeps the invariant |
| RequestLane.WriteChunkKeeps | internal/remotehelper/bash.go:105-110 | writing a chunk keeps sequence numbers, output and credit in step |
| RequestLane.FinishKeeps | internal/remotehelper/bash.go:95-137 | every way in which a worker can end leaves the call with a success over all output, or an error it knows |
| RequestLane.PublishKeeps | internal/remotehelper/server.go:593-596 | writing the terminal frame of a completed request changes nothing for its call |
| RequestLane.ReceiveKeeps | internal/remotessh/runtime_process.go:531-565 | receiving one frame keeps the invariant |
| RemoteSession.TakeFindsCall | internal/remotessh/runtime_process.go:825-834 | the reader never meets an identifier that is not pending |
| RemoteSession.RequestsAreRegistered | internal/remotehelper/server.go:219-228 | no request of an honest client is a duplicate, none meets the count limit of 64, and only Bash requests can be refused |
| RemoteSession.RefusedIff | internal/remotehelper/server.go:493-502 | over all runs, a Bash request is refused exactly if 16 of the requests worked on at that moment are Bash requests; no other request is refused |
| RemoteSession.CancelledIff | internal/remotehelper/server.go:549-565 | a request that is worked on becomes cancelled by exactly two steps, the end of its time and the reading of a cancel for it, and stays so; it leaves the table by its own completion alone |
| RemoteSession.CancelIsHeard | internal/remotehelper/bash.go:206-222 | a cancel read while its request is worked on reaches the worker: in every later state of every run this may end with it from its start, from waiting for credit and from the end of the output, until it has ended |
| RemoteSession.NotCancelledBefore | internal/remotehelper/bash.go:104-124 | a Bash worker that was not cancelled never ends as cancelled |
| RemoteSession.ControlFrameFailsIffForgotten | internal/remotehelper/server.go:507-564 | in every run, a cancel or credit is rejected by the server if and only if its request completed a minute ago or longer, or 1024 others have completed since |
| RemoteSession.FewCompleteBefore | internal/remotessh/runtime_process.go:862-901 | between the writing of a terminal frame and the reading of a control frame that was written while its call was pending at most 63 other requests complete; a control frame written later adds the calls started before it |
| RemoteSession.PromptFrameFailsIffExpired | internal/remotehelper/server.go:580-622 | if no more than 960 requests and calls together come between, requests that complete between the completion of a request and the writing of its terminal frame, and calls that start before a control frame is written after its call has its answer, then that frame is rejected if and only if the minute is over: no eviction drops the tombstone |
| RemoteSession.RunInTimeIsFaultless | internal/remotessh/runtime_process.go:795-924 | a run whose terminal and control frames are all written promptly in this sense, and whose control frames are read within the minute, meets no fault at all |
| RemoteSession.LateCancelEndsTheSession | internal/remotehelper/server.go:549-564 | a run in which a cancel that is written while its call is pending ends the session, because it is read after the minute |
| RemoteSession.OvertakenCancelEndsTheSession | internal/remotehelper/server.go:599-609 | a run in which no time passes and a cancel ends the session, because 1024 other calls come and go before it is written |
| RemoteSession.WaitingAnswerEndsTheSession | internal/remotehelper/server.go:580-597 | a run in which no time passes and a cancel that is written and read while its call is pending ends the session, because 1024 other requests come and go after the request was completed and before its answer is written |
| RemoteSession.ActiveArePending | internal/remotehelper/server.go:503-504 | the requests active at the server are a subset of those pending at the client |
| RemoteSession.StepKeepsSession | internal/remotessh/runtime_process.go:795-924 | every step of the whole system keeps its invariant; the only fault is a control frame for a forgotten request, and it is met exactly then; the completion of a request and the writing of its terminal frame are two steps |
| RemoteSession.RunKeeps | internal/remotessh/runtime_process.go:795-924 | the invariant holds in every fault-free run |
| RemoteSession.EveryRunIsSound | internal/remotessh/runtime_process.go:795-924 | over all runs from the handshake: active requests are pending, at most 64 are; every registered request that is no longer active has exactly one terminal frame, to be written, under way or taken, and no other has any; every frame under way belongs to a pending call, no call kills the helper, and Bash output is a prefix, and all of it on success |
| RemoteSession.SessionGetsOn | internal/remotessh/runtime_process.go:795-924 | as long as some call has not ended, some step can be taken that is no new call, no cancel and no passing of time: neither the one frame that the reader holds for all calls, nor the serve loop, nor a producer without credit holds up all others |
| RemoteSession.EveryRunGoesOn | internal/remotessh/runtime_process.go:795-924 | a run from the handshake stands still only when every call ever made has ended, with all of the output or an error it knows |
| RemoteSession.TakenFrameIsLastIffTerminal | internal/remotessh/runtime_process.go:818-829 | when the reader takes a terminal frame it is the last of its request |
| RemoteSession.RequestIsNew | internal/remotehelper/server.go:480-485 | a request that arrives has an identifier that is neither active nor tombstoned, and is still pending |
| RemoteSession.FinishKeeps | internal/remotehelper/server.go:580-592 | completion of a request keeps the invariant, eviction included |
| RemoteSession.TerminalKeeps | internal/remotehelper/server.go:593-596 | the writing of its terminal frame keeps it, whatever has happened since the lock was given up |
| RemoteSession.ServeKeeps | internal/remotehelper/server.go:180-236 | reading one frame in the serve loop keeps the invariant |
| RemoteSession.TakeKeeps | internal/remotessh/runtime_process.go:818-835 | reading one frame at the client keeps the invariant |
| RequestEnds.HelperRequest.PushCredit | internal/remotehelper/bash.go:191-204 | credit is added exactly if it is positive and stays within the maximum, and then the one-slot signal is set |
| RequestEnds.HelperRequest.TryTakeCredit | internal/remotehelper/bash.go:206-215 | credit is taken exactly if there is enough |
| RequestEnds.RunBashServer | internal/remotehelper/bash.go:88-137 | the chunk loop writes numbered chunks and the byte count or the error that the process ends with, or stops with the limit at the first chunk beyond 16 MiB, or with the cancellation where credit no longer comes |
| RequestEnds.ReadsAllIff | internal/remotehelper/bash.go:95-115 | all chunks are read exactly if they are within the limit and all get their credit |
| RequestEnds.StreamRoundTrip | internal/remotessh/runtime_process.go:533-565 | however the output falls into chunks, the receive loop puts it together again and accepts the byte count |
| RequestEnds.SucceedsIff | internal/remotessh/runtime_process.go:531-588 | a Bash call succeeds with exactly these frames: the acceptance, numbered chunks none of which is empty or longer than the window, and a response with the number of bytes, at most 16 MiB |
| RequestEnds.FailsIff | internal/remotessh/runtime_process.go:566-588 | it fails with a code exactly for the front of such a sequence and a code it knows; everything else kills the helper |
| RequestEnds.AnyOutputIsDelivered | internal/remotehelper/bash.go:88-137 | for any output of at most 16 MiB in any chunks there is a run of both ends in which the call succeeds with all of it |
| RequestEnds.AnyAnswerIsDelivered | internal/remotehelper/server.go:229-236 | for every answer that the handler of another method can give there is a run that delivers it |
| RequestEnds.BashCall.HandleFrame | internal/remotessh/runtime_process.go:532-588 | one turn of the receive loop over the fields is the specified one, and returns credit for exactly the data accepted |
| RequestEnds.BashCall.Receive | internal/remotessh/runtime_process.go:525-601 | the loop computes the specified progress, and the credit written is the window plus all data accepted |
| RequestEnds.HelperGeneration.Allocate | internal/remotessh/runtime_process.go:862-870 | a fresh identifier is pending, or the limit of 64 is reached and nothing changes |
| RequestEnds.HelperGeneration.Take | internal/remotessh/runtime_process.go:825-834 | a frame is known exactly if its call is pending, and a terminal one ends it |
| Utf8.Truncate | internal/remotehelper/files.go:484-493 | the text cut to the budget is its longest valid prefix within it |
| Utf8.CutLosesLittle | internal/remotehelper/files.go:484-493 | cutting valid text loses at most three bytes beyond the budget |
| Utf8.ValidIff | internal/remotehelper/files.go:225-227 | a text is valid exactly if it is the encoding (section 3 of RFC 3629) of some character numbers, none of them a surrogate |
| Utf8.WordSplitsText | internal/remotessh/runtime_files.go:319-328 | where valid text contains valid text, the parts before and behind are valid |
| SpliceEdit.LocatedIsFound | internal/remotessh/runtime_files.go:325-329 | an old text is accepted when it occurs first at a place and not again from the end of that occurrence on |
| SpliceEdit.Locate | internal/remotessh/runtime_files.go:325-329 | an accepted old text occurs at its span, not before it, and not behind it |
| SpliceEdit.BorderlessIsUnique | internal/remotessh/runtime_files.go:325-329 | an old text that does not overlap itself is accepted exactly if it occurs once |
| SpliceEdit.BorderedIsAcceptedTwice | internal/remotessh/runtime_files.go:325-329 | an old text that overlaps itself is accepted in some content, which is text if it is, where it occurs twice |
| SpliceEdit.SearchIsExactIff | internal/remotessh/runtime_files.go:325-329 | the search accepts an old text that is not unique in some text if and only if it overlaps itself |
| SpliceEdit.OverlapAcceptedExample | internal/remotessh/runtime_files.go:298-351 | a concrete file with two occurrences that is edited |
| SpliceEdit.SpliceIsSequential | internal/remotessh/runtime_files.go:337-347 | the one-pass splice is the replacement of the spans one at a time, the last first |
| SpliceEdit.SpliceLength | internal/remotessh/runtime_files.go:337-347 | the result is as long as the content plus the sum of the differences |
| SpliceEdit.UndoRestores | internal/remotessh/runtime_files.go:337-347 | putting the old texts back over the new ones restores the content |
| SpliceEdit.AnySortWillDo | internal/remotessh/runtime_files.go:331-336 | however the sort treats equal starts, the overlap check and the spans spliced are the same |
| SpliceEdit.EditIgnoresOrder | internal/remotessh/runtime_files.go:298-351 | permuting the replacements changes neither the outcome nor the error |
| SpliceEdit.EditMeans | internal/remotessh/runtime_files.go:298-351 | a successful edit is the sequential replacement, has the summed length, is at most 16 MiB, is valid text without NUL, and can be undone |
| SpliceEdit.EditOutcome | internal/remotessh/runtime_files.go:298-351 | which edits fail, and how: a request that is not well-formed, a file that is no text, an old text that is not located or two located where they overlap, a result above 16 MiB; every other edit succeeds, adjacent replacements included |
| SpliceEdit.SpliceKeepsText | internal/remotessh/runtime_files.go:319-347 | replacing texts in text by texts gives text |
| SpliceEdit.SpliceInto | internal/remotessh/runtime_files.go:337-350 | the loop with its early size checks fails exactly if the final result is too big, and otherwise computes the splice |
| SpliceEdit.FindSpans | internal/remotessh/runtime_files.go:324-330 | the loop finds all spans, or a conflict |
| SpliceEdit.CheckApart | internal/remotessh/runtime_files.go:332-336 | the loop decides whether the sorted spans are apart |
| SpliceEdit.CheckRequest | internal/remotessh/runtime_files.go:299-306 | the loop decides whether the replacements are acceptable |
| SpliceEdit.EditFileAll | internal/remotessh/runtime_files.go:298-351 | for every content and list of replacements the method has the specified outcome |
| ConditionalWrite.Root.Write | internal/remotehelper/write.go:44-131 | whatever another program does between the two looks and between the second look and the commit, and whichever foreign calls fail: a write commits only if both looks saw what the caller expected, switches one target in one step with its metadata kept, makes a new file only where there is none, and otherwise leaves all targets alone; if nothing fails the reply is the verdict on the two looks and on what the commit finds, and no temporary stays |
| ConditionalWrite.LateChangeIsLostIff | internal/remotehelper/write.go:110-125 | what another program puts at the target after the second look is overwritten, and the write reported as a success, if and only if the write was to replace a file, everything before was as expected, and it is no directory |
| ConditionalWrite.SucceedsIff | internal/remotehelper/write.go:44-131 | by the files alone: if nothing fails, a write succeeds exactly with a proper request, for a file that is as expected, still the same node with the same content, mode and owner at the second look, and with no new file and no directory in the way of the commit |
| ConditionalWrite.FailsBecause | internal/remotehelper/write.go:133-197 | how the others fail: bad request, irregular file, file above 16 MiB, directory in the way of the rename, and a conflict in every other case |
| ConditionalWrite.Root.Inspect | internal/remotehelper/write.go:158-197 | an inspection may fail, but what it reports is what is there |
| ConditionalWrite.Root.Recheck | internal/remotehelper/write.go:99-109 | the second look passes only if it sees the same file, digest, mode and owner as the first |
| ConditionalWrite.Root.CreateTemporary | internal/remotehelper/write.go:199-218 | a new empty file under a name that was free, or nothing |
| ConditionalWrite.Root.WriteContent | internal/remotehelper/write.go:220-235 | partial writes add up to the content, or the call fails with a prefix written |
| ConditionalWrite.Root.Stage | internal/remotehelper/write.go:81-97 | the temporary ends up with the content and the metadata of the file it replaces |
| ConditionalWrite.Root.Commit | internal/remotehelper/write.go:110-125 | the name switches to the temporary in one step, or nothing changes; a link fails on any name that is taken, a rename on a directory |
| ConditionalWrite.Root.CleanUp | internal/remotehelper/write.go:75-80 | the temporary is removed unless the system refuses |
| ConditionalWrite.Root.RecheckOrCleanUp | internal/remotehelper/write.go:75-109 | the second look passes with the temporary kept, or fails with it removed unless the system refuses |
| ConditionalWrite.Root.CommitAndCleanUp | internal/remotehelper/write.go:75-125 | commit and removal together, over what the other program has left |
| ConditionalWrite.Root.Prepare | internal/remotehelper/write.go:71-109 | from the temporary to the second look |
| EditHistory.NoLostUpdate | internal/remotehelper/write.go:44-131 | over all interleavings of edits and writes through one root, the files are what the successful calls make of them one after the other in commit order, each on exactly the content it read or whose digest it gave |
| EditHistory.OnlyCommitsShow | internal/remotehelper/write.go:52-131 | every step but a commit, and so every call that fails, leaves all files as they were |
| EditHistory.CommitIsMeant | internal/remotehelper/write.go:99-125 | at its commit a call turns the current content into what it would make of it alone |
| EditHistory.ReadsAreWhole | internal/remotessh/runtime_files.go:311-318 | what an edit reads is what the file held when it was opened, whatever has been committed since |
| EditHistory.AloneIsMeaning | internal/remotessh/runtime_files.go:298-362 | an edit or a write that nothing disturbs runs to success and has its meaning, whatever other calls there are |
| EditHistory.LooksPassIff | internal/remotehelper/write.go:57-109 | each of the two looks lets the call go on exactly if the file has the content that the request expects, or is missing if none is expected; a call that gives up gives the lock back |
| EditHistory.FailsBeforeIff | internal/remotessh/runtime_files.go:307-351 | before it looks, a call fails for these reasons alone: too much to write, no file to edit, a file above 16 MiB, an edit that cannot be made |
| EditHistory.ConflictMeansCommit | internal/remotehelper/write.go:57-109 | an edit gives up at a look only if some call has committed to its file since it was opened: there is no conflict without a cause |
| EditHistory.StepKeeps | internal/remotehelper/write.go:44-131 | every step of every call keeps the invariant of tree, lock, log and temporaries |
| EditHistory.CommitKeeps | internal/remotehelper/write.go:110-125 | a commit keeps it and extends the serial history |
| InstallLock.EveryRunExcludes | internal/remotessh/installer.go:69-106 | over all runs of any number of callers: at most one holds a key, all with a reference share one lock object, token and holder add up to one, and a key is registered exactly while it is referred to |
| InstallLock.MutualExclusion | internal/remotessh/installer.go:83-96 | two holders of a key are the same caller |
| InstallLock.OneLockPerKey | internal/remotessh/installer.go:73-81 | every caller that refers to a key refers to the registered lock object |
| InstallLock.SendNeverBlocks | internal/remotessh/installer.go:86-88 | the release finds the slot of the gate free |
| InstallLock.WaitIsForAHolder | internal/remotessh/installer.go:83-84 | a waiting caller can take the token, unless some caller holds the key |
| InstallLock.RegisteredIffUsed | internal/remotessh/installer.go:90-93 | the registry entry exists exactly while some caller refers to the key |
| InstallLock.NobodyIsStuck | internal/remotessh/installer.go:83-104 | every caller can go on: from waiting by giving up, from holding by releasing, and after that by leaving, which ends its reference |
| InstallLock.AnyoneMayCome | internal/remotessh/installer.go:73-81 | a caller can come at any time and waits for the registered lock, or for a new one |
| InstallLock.TokenMoves | internal/remotessh/installer.go:83-88 | the token goes to the caller that takes it and comes back when that releases |
| InstallLock.StepKeeps | internal/remotessh/installer.go:69-106 | every step keeps the invariant |
| InstallLock.Registry.Reference | internal/remotessh/installer.go:73-81 | the first critical section over the objects: one lock per key, counted up |
| InstallLock.Registry.Unreference | internal/remotessh/installer.go:98-103 | the last critical section: counted down, and removed at zero |
| InstallLock.Registry.Acquire | internal/remotessh/installer.go:69-106 | undisturbed, it gets the lock exactly if the token is there and the context has not ended, and leaves no trace otherwise |
| InstallLock.Registry.Release | internal/remotessh/installer.go:85-95 | the token goes back, and the entry goes with the last reference |
| PirpcClient.EveryRunIsSafe | internal/pirpc/client.go:74-307 | over all runs: each result channel gets at most one result, no send blocks, no waiting call is stranded, and the abandoned table is consistent |
| PirpcClient.NoCallIsStranded | internal/pirpc/client.go:269-284 | a waiting call has a result or is owed one; after finish has sent its errors it has one, unless the reader is just delivering it |
| PirpcClient.SendsNeverBlock | internal/pirpc/client.go:248-282 | whoever is to send finds the one slot of the channel free |
| PirpcClient.LateReplySilentIff | internal/pirpc/client.go:234-247 | a reply to a call that was given up is silent if and only if the call is among the last 256 given up |
| PirpcClient.AbandonValid | internal/pirpc/client.go:292-307 | giving up keeps pending and abandoned disjoint, and the order a list of the abandoned, each once, at most 256 |
| PirpcClient.JudgeIff | internal/pirpc/client.go:234-247 | in every state a reply is delivered exactly if its call is pending, and dropped without a word exactly if the call is one of the last 256 given up |
| PirpcClient.ReplyArrives | internal/pirpc/client.go:234-267 | a reply to a waiting call is delivered to it and to no other, and is what it returns with |
| PirpcClient.ErrorArrives | internal/pirpc/client.go:269-284 | when the client closes, each pending call gets the error |
| PirpcClient.RegisteredIff | internal/pirpc/client.go:93-99 | calls are registered until the client is closed, and never after |
| PirpcClient.StepKeeps | internal/pirpc/client.go:74-307 | every step keeps the invariant |
| PirpcClient.Client.Register | internal/pirpc/client.go:93-99 | a call is registered exactly if the client is not closed |
| PirpcClient.Client.AbandonPending | internal/pirpc/client.go:292-307 | the method over the fields gives up a pending call as specified |
| PirpcClient.Client.Lookup | internal/pirpc/client.go:234-247 | the verdict on a reply, and what is left pending |
| PirpcClient.Client.TakeAll | internal/pirpc/client.go:276-279 | finish takes all pending calls |
| PirpcClient.Client.Finish | internal/pirpc/client.go:269-284 | the first time the client is closed and everything pending is taken; after that nothing happens |
| PirpcClient.Client.RemovePending | internal/pirpc/client.go:286-290 | one call is taken out |
| Supervisor.EveryRunIsOrderly | internal/piruntime/supervisor.go:71-311 | over all runs: a thread is in at most one of the three tables, the generations of a thread strictly increase, each generation exits at most once, and nothing is active while maintenance is prepared |
| Supervisor.DeferredDeleteIsOwn | internal/piruntime/supervisor.go:91-98 | the deferred delete of one start never removes the claim of another |
| Supervisor.RegisterIsOnlyRefusedWhenClosed | internal/piruntime/supervisor.go:120-131 | a started process is refused exactly if the supervisor is closed; another session is never in the way |
| Supervisor.MaintenanceIsQuiet | internal/appservice/agent.go:253-267 | from the moment StopAll has emptied the table to the end of the maintenance nothing is active; before, only exits still under way make StopAll refuse |
| Supervisor.PreparedIff | internal/appservice/agent.go:253-267 | a preparation that has its runtime is given up at once exactly if an exit is under way; otherwise, whatever goes on meanwhile, it closes every session it took out of the table, and succeeds exactly if all of them close cleanly |
| Supervisor.ClosingGoesOn | internal/piruntime/supervisor.go:227-238 | nothing that goes on meanwhile keeps StopAll from closing its sessions, and the errors it joins are those of its sessions |
| Supervisor.ClaimedIff | internal/piruntime/supervisor.go:76-89 | a start gets its claim exactly if the supervisor is open and its own thread has no session, start or exit |
| Supervisor.FreeThreadIsClaimed | internal/piruntime/supervisor.go:76-89 | the same after any run of steps of other threads: they never keep a free thread from starting |
| Supervisor.ClaimBecomesSession | internal/piruntime/supervisor.go:100-135 | a claimed start becomes the session of its thread, with a generation of its own, unless the supervisor is closed |
| Supervisor.ExitIsTold | internal/piruntime/supervisor.go:254-281 | a session that ends while it is in the table leaves it, is told of once and makes room; one that was taken out before is not told of |
| Supervisor.NotReadyIsRemoved | internal/piruntime/supervisor.go:144-149 | a start that does not become ready takes out its own session, and no other |
| Supervisor.StepKeeps | internal/piruntime/supervisor.go:71-311 | every step keeps the invariant |
| Supervisor.RegisterGenerations | internal/piruntime/supervisor.go:108-134 | a session is registered with a generation above all that its thread has had |
| Supervisor.WakeKeeps | internal/piruntime/supervisor.go:254-267 | a watcher turns its own session into an exit, and no other |
| Supervisor.Supervisor.BeginStart | internal/piruntime/supervisor.go:76-89 | a claim is granted exactly if the supervisor is open and the thread is in none of the tables |
| Supervisor.Supervisor.FinishStart | internal/piruntime/supervisor.go:120-134 | the claim goes, and the session is entered unless the supervisor is closed or the thread has one |
| Supervisor.Supervisor.Stop | internal/piruntime/supervisor.go:174-189 | the session goes, and the answer tells what there was |
| Supervisor.Supervisor.StopAll | internal/piruntime/supervisor.go:221-238 | nothing changes because a start or exit is under way, or all sessions go, and the errors are exactly those of the sessions that do not close cleanly |
| Supervisor.Supervisor.Shutdown | internal/piruntime/supervisor.go:240-252 | closed for good, with no session left |
| Supervisor.Supervisor.RemoveSession | internal/piruntime/supervisor.go:303-311 | only the expected session is removed |
| Supervisor.Supervisor.WatchExit | internal/piruntime/supervisor.go:256-263 | only the watched session starts to exit |
| Supervisor.Supervisor.CountActive | internal/piruntime/supervisor.go:212-216 | the number of distinct threads that start, run or exit, each counted once; zero exactly if there is none |
| Supervisor.Supervisor.Start | internal/piruntime/supervisor.go:71-156 | undisturbed, a start ends with one session of a generation that was never used, or with the table as it was |
| Supervisor.Supervisor.Watch | internal/piruntime/supervisor.go:254-281 | undisturbed, the exit of a session takes it out, and is told of exactly if it was still there |
| Bindings.EveryRunAgrees | internal/appservice/remotebackend.go:56-153 | in every run coordinator, repository and terminal agree: same generation or none, every task points at a live binding of its generation, a terminal thread is active exactly if it has a task |
| Bindings.RunAgrees | internal/appservice/remotebackend.go:56-153 | agreement is kept, no thread changes its workspace, and the generations seen never decrease |
| Bindings.LaterBindingsAreNewer | internal/appservice/repository.go:504-508 | a later binding of a workspace has a strictly higher generation |
| Bindings.StaleUnbindIsNoOp | internal/appservice/remotebackend.go:115-127 | an unbind changes nothing exactly unless the lease is the one that the task of the thread holds, and then only this task goes, in coordinator and terminal |
| Bindings.StaleBindIsNoOp | internal/appservice/remotebackend.go:74-80 | a bind of a generation that is not newer changes nothing |
| Bindings.RoutedIffTask | internal/appservice/terminal.go:255-273 | the terminal routes to the remote runtime exactly the threads with a task in the named workspace, and to the local one exactly the threads that were never remote |
| Bindings.UnbindTargetIs | internal/appservice/remotebackend.go:129-153 | unbinding a target unbinds exactly the workspaces bound for it, in all three services, ends their tasks and deactivates their threads, which keep their workspace; everything else stays |
| Bindings.BindWorkspaceIff | internal/appservice/remotebackend.go:56-88 | each outcome of binding a workspace with its new state: done for an approved backend above all generations seen, which ends the tasks of the old one; a newer one that the repository refuses leaves the workspace unbound |
| Bindings.BindTaskIff | internal/appservice/remotebackend.go:90-113 | a task is bound exactly with an approved lease of the bound generation, to a ready thread that has no other lease and is of this workspace, or is new and fits below 500 active ones; otherwise nothing changes |
| Bindings.ApplyAgrees | internal/appservice/remotebackend.go:56-153 | each operation keeps the agreement |
| Bindings.ApplyGrows | internal/appservice/repository.go:501-509 | whatever is newly bound has a higher generation than anything seen in its workspace |
| Bindings.UnbindAlso | internal/appservice/remotebackend.go:129-153 | unbinding one workspace after others is unbinding them together |
| Bindings.Coordinator.BindWorkspaceBackend | internal/appservice/remotebackend.go:56-88 | the method over the three objects has the specified outcome and new state |
| Bindings.Coordinator.BindTask | internal/appservice/remotebackend.go:90-113 | the method over the objects has the specified outcome and new state |
| Bindings.Coordinator.UnbindTask | internal/appservice/remotebackend.go:115-127 | only the task of the lease given goes, in coordinator and terminal together |
| Bindings.Coordinator.UnbindTarget | internal/appservice/remotebackend.go:129-138 | the loop unbinds all workspaces of the target in all three services |
| Bindings.Coordinator.UnbindWorkspaceLocked | internal/appservice/remotebackend.go:140-153 | the workspace and its tasks go in all three services |
| Bindings.RepositoryService.BindRemoteWorkspace | internal/appservice/repository.go:484-510 | the repository accepts a backend exactly if it is the bound one or newer than all it has seen |
| Bindings.RepositoryService.UnbindRemoteWorkspace | internal/appservice/repository.go:514-522 | only the generation given is unbound |
| Bindings.TerminalService.BindRemoteThread | internal/appservice/terminal.go:212-238 | a thread is activated exactly if it keeps its workspace and is known or fits below the limit |
| Bindings.TerminalService.UnbindRemoteThread | internal/appservice/terminal.go:240-248 | a known thread becomes inactive and keeps its workspace |
| Paths.AncestorIsValid | internal/remotehelper/files.go:423-455 | every ancestor of a valid path is a valid path |
| Paths.AncestorIsPrefix | internal/remotehelper/mkdir.go:37-44 | an ancestor followed by a slash is a prefix of everything below it followed by a slash |
| Paths.JoinSplit | internal/remotehelper/files.go:433-436 | the components of a path, joined, are the path |
| Paths.SplitJoin | internal/remotehelper/mkdir.go:70-75 | components without slashes, joined, have those components |
| Paths.ValidPathIff | internal/remotehelper/files.go:423-455 | a path is valid exactly if it joins at most 64 names with slashes and has at most 4096 bytes; a name is not empty, dot or dot-dot, and at most 255 bytes of plain text without slash and backslash |
| Paths.HereIsValidIff | internal/remotehelper/files.go:423-432 | a dot is valid exactly where the root may be named, and changes nothing for other paths |
| Paths.WithinIff | internal/remotehelper/search.go:356-358 | a candidate is within the search path exactly if that is the root, or a slash and more stand behind it |
| MakeDirectories.Root.Mkdir | internal/remotehelper/mkdir.go:25-68 | whatever other programs make or remove meanwhile: what the helper says it made passes the client check and is as many directories as it made, and a plain cancellation has made none; if others remove nothing, it was not there before, the path and its ancestors are directories, and nothing else has changed; with no other program and no failure it makes exactly the missing ancestors, or there is a conflict because one of them is no directory |
| MakeDirectories.Root.Ensure | internal/remotehelper/mkdir.go:44-65 | one round: afterwards there is a directory, made by this call or by others, or an error; if no system call fails for reasons of its own, what the looks see decides which |
| MakeDirectories.Root.MakeNext | internal/remotehelper/mkdir.go:36-66 | one turn of the loop: the next ancestor is there or made, and what was made before stays accounted for |
| MakeDirectories.MadeByOthers | internal/remotehelper/mkdir.go:55-62 | a directory that appears between look and mkdir is as good as one that was there; anything else that does is a conflict |
| MakeDirectories.AncestorsAreAccepted | internal/remotessh/runtime_files.go:275-292 | any ancestors of a valid path, from the top down, are accepted |
| MakeDirectories.ValidCreatedDirectories | internal/remotessh/runtime_files.go:275-292 | the loop decides exactly: valid paths, ancestors of the target, each below the one before, none twice |
| MakeDirectories.AcceptsIff | internal/remotessh/runtime_files.go:275-292 | the client accepts exactly the lists of ancestors of the target, or the target itself, from the top down |
| GitPack.PackRoundTrip | internal/remotehelper/git.go:130-144 | packed outputs unpack to the original ones, and are accepted exactly if they have the parts of their operation |
| GitPack.AcceptedIsPacked | internal/remotessh/runtime_git.go:75-98 | whatever the client accepts is the packing of the outputs it unpacks |
| GitPack.AcceptedIff | internal/remotessh/runtime_git.go:75-98 | the client accepts exactly the packings of outputs of at most 8 MiB that have the names of the parts of the operation |
| GitPack.PackGitOutputs | internal/remotehelper/git.go:130-144 | the loop packs as specified, and fails exactly if the outputs are more than 8 MiB |
| GitPack.Git | internal/remotehelper/git.go:72-123 | a read succeeds exactly if every command of the operation prints at most its limit and the root is still the same; the client accepts the result and gets what each command printed under the name of its part; otherwise the first command that fails decides the error, and only then the root |
| GitPack.OutputsFit | internal/remotehelper/git.go:130-136 | the limits of the commands make the limit of the packing unreachable, and the parts that the helper names are those that the client expects |
| GitPack.RunPlan | internal/remotehelper/git.go:79-117 | the commands run one after the other up to the first that fails |
| GitPack.ValidGitResult | internal/remotessh/runtime_git.go:75-98 | the loop decides exactly whether the parts cover the blob in order with their digests |
| FilePages.ReadLines | internal/remotehelper/files.go:213-267 | the reply is determined by how far a page of whole lines reaches within its budgets, a cut last line, and whether every line looked at is text, unless the caller gives up before the scan has come so far |
| FilePages.ScanPage | internal/remotehelper/files.go:219-262 | the loop collects exactly that page |
| FilePages.AddLine | internal/remotehelper/files.go:227-261 | one line that is not skipped: it goes on the page whole, is cut, or ends the page before it |
| FilePages.ReachBytes | internal/remotehelper/files.go:236-250 | a page keeps its byte budget, a line is cut only if it does not fit, and a page stops early only when it is full |
| FilePages.PagesAreAccepted | internal/remotessh/runtime_files.go:181-187 | the client accepts every page the helper replies with, and the next line is behind the first one asked for |
| FilePages.AcceptsIff | internal/remotessh/runtime_files.go:181-187 | the client accepts exactly pages from the line asked for, empty or of no more lines than asked for, that are text of at most 50 KiB |
| FilePages.LoadPages | internal/appservice/remotebroker.go:404-433 | the paging loop ends and gives the lines joined by line feeds, without a last page that is one empty line, exactly if all lines are text, the lines fall into pages none of which has to cut one, and the whole is at most 256 KiB |
| FilePages.LoadPage | internal/appservice/remotebroker.go:407-432 | one round of the loop: it fails only on a file that cannot be loaded, ends with the whole, or goes on further behind |
| FilePages.NoneCutIff | internal/remotehelper/files.go:236-262 | no page has a cut line exactly if the file falls into pages each of which ends with the file, with its 2000th line, or with a line after which not even an empty one fits |
| FilePages.PageIff | internal/remotehelper/files.go:236-262 | when few lines are left but too many bytes for one page, the next page is uncut exactly if some lines at its front come to 51,199 or 51,200 bytes |
| FilePages.SmallIsNotCut | internal/remotehelper/files.go:236-262 | lines that fit one page by their bytes are never cut |
| FilePages.TwoLinesAreRefused | internal/appservice/remotebroker.go:413-415 | a file of two lines of 30,000 bytes is refused |
| FilePages.ReadFile | internal/remotehelper/files.go:188-267 | a missing file, one that is not regular and one above 16 MiB have their errors, and any other its page |
| FilePages.ScanLine | internal/remotehelper/files.go:213-222 | a line ends before its line feed and loses one carriage return there, what follows is scanned on its own, and a line of more than 1 MiB, its carriage return counted, ends the scan |
| FilePages.ScanCrLf | internal/remotehelper/files.go:213-222 | a line that ends in carriage return and line feed is the line without both |
| FilePages.ScanLast | internal/remotehelper/files.go:213-222 | the last line needs no line feed |
| FilePages.LoadContext | internal/appservice/remotebroker.go:402-437 | the first of the two context files that is there decides alone, and its digest is of its name and value |
| FilePages.DigestTells | internal/appservice/remotebroker.go:425-436 | two contexts have the same digest exactly if they are of the same file and have the same value; no context has a digest of its own |
| FilePages.ContextIsFile | internal/appservice/remotebroker.go:402-437 | the context of a file without carriage returns is the file without its last line feed, and one more if the last page was one empty line |
| FilePages.LinesRebuild | internal/remotehelper/files.go:214-224 | the lines of a text without carriage returns rebuild it |
| FilePages.FinalPage | internal/appservice/remotebroker.go:417-428 | the last page completes the whole, and is dropped if it is one empty line behind others |
| FilePages.FollowedPageIsNotEmpty | internal/appservice/remotebroker.go:417-419 | a page that more lines follow is not empty, so no separator is lost before it |
| Search.Find | internal/remotehelper/search.go:76-109 | the result is the first of the matching candidates, all of them unless a limit was reached; the client accepts it exactly if these are distinct, so always if no matching candidate is listed twice, and exactly then if no limit was reached |
| Search.FindPaths | internal/remotehelper/search.go:84-99 | the callback keeps as many matching candidates from the first on as limit and budget allow |
| Search.FindIsAcceptedIff | internal/remotessh/runtime_search.go:114-131 | the sorted result is accepted if and only if no path was kept twice |
| Search.ValidFindResult | internal/remotessh/runtime_search.go:114-131 | the loop decides exactly: sorted, valid paths within the root, none twice, within limit and budget |
| Search.AcceptsFindIff | internal/remotessh/runtime_search.go:114-131 | the client accepts exactly results of at most the limit and 2000 paths, valid, within the search path, in strictly ascending order, and within 128 KiB |
| Search.StepsAreCandidates | internal/remotehelper/search.go:285-354 | the enumeration hands over the candidates of the listing in order, valid paths within the search path, all of them unless it comes to its limit |
| Search.EnumerationEnds | internal/remotehelper/search.go:285-390 | the enumeration hands over the candidates before the 100,001st entry that counts, reports as skipped what it passes over there, and comes to its limit exactly if there is such an entry |
| Search.UnsupportedIs | internal/remotehelper/search.go:360-390 | names of Git that are no valid paths are reported as skipped wherever they stand |
| Search.ListedTwice | internal/remotehelper/search.go:285-310 | the candidates that pass a test are distinct exactly if no such entry is listed twice |
| Search.UnmergedFileIsRejected | internal/remotessh/runtime_search.go:114-131 | a listing with an unmerged file, which Git names once for each stage, gives a result that the client disconnects for |
| Search.Grep | internal/remotehelper/search.go:111-208 | the result is what the candidates from the first on contribute, all of it unless a limit was reached; the client accepts it exactly if no candidate with matches came twice, so always if none is listed twice, and exactly then if no limit was reached |
| Search.GrepFile | internal/remotehelper/search.go:152-192 | the running byte count is the size of the matches kept, also across the rollback of a file that turns out not to be text |
| Search.GrepCandidate | internal/remotehelper/search.go:125-193 | one candidate adds its contribution, or the search ends with a front of its matches |
| Search.GrepAll | internal/remotehelper/search.go:122-193 | over the whole enumeration the budget and the contributions are kept |
| Search.GrepIsAcceptedIff | internal/remotessh/runtime_search.go:133-151 | the sorted result is accepted if and only if no line of a path was reported twice |
| Search.KeysOfAll | internal/remotehelper/search.go:152-193 | no line is reported twice exactly if no candidate with matches is visited twice |
| Search.KeysOfGathered | internal/remotehelper/search.go:152-193 | the same for a search that stops in the middle of a file |
| Search.UnmergedMatchIsRejected | internal/remotessh/runtime_search.go:133-151 | an unmerged file with a matching line gives a result that the client disconnects for |
| Search.ValidGrepResult | internal/remotessh/runtime_search.go:133-151 | the loop decides exactly: valid matches in strictly increasing order, within limit and budget |
| Search.AcceptsGrepIff | internal/remotessh/runtime_search.go:133-151 | the client accepts exactly results of at most the limit and 2000 matches, each with a valid path within the search path, a line and a text of at most 16 KiB, in strictly ascending order of path and line, and within 128 KiB |
| Search.IsSorted | internal/remotessh/runtime_search.go:115-117 | the loop decides whether the paths are sorted |
| RecordFraming.ReadRecords | internal/pirpc/framing.go:32-77 | records delivered and the error depend on the stream alone, not on the pieces it comes in |
| RecordFraming.PiecesDoNotMatter | internal/pirpc/framing.go:40-76 | folding over any proper pieces is parsing the stream they make up |
| RecordFraming.ReadPieces | internal/pirpc/framing.go:38-76 | the loop with its buffer computes the fold |
| RecordFraming.ParseLine | internal/pirpc/framing.go:44-58 | a complete line within the limit is delivered without its line end, and what follows is read on its own |
| RecordFraming.RoundTrip | internal/pirpc/framing.go:14-28 | any list of encoded records is read back |
| RecordFraming.EncodedIffReadable | internal/pirpc/framing.go:23-27 | a value is encoded exactly if a reader with the same limit reads it back |
| RecordFraming.CarriageReturnCounts | internal/pirpc/framing.go:44-54 | a carriage return counts towards the limit before a line feed, but not at the end of the stream |
| RecordFraming.ParseTail | internal/pirpc/framing.go:28-70 | what comes of the end of a stream without a line feed: nothing, a last record, too much, or the error of the stream |
| FrameCodec.ListReadsBack | internal/remoteprotocol/codec.go:39-147 | any list of frames that can be written is read back, up to the end of the stream or to where it breaks off |
| FrameCodec.ReadsBack | internal/remoteprotocol/codec.go:39-88 | a written frame is read back, whatever follows it, and the stream is left at that |
| FrameCodec.PrefixYieldsNoFrame | internal/remoteprotocol/codec.go:39-88 | a proper prefix of a frame never yields a frame, and only the empty one of a stream that does not break off is its end |
| FrameCodec.LengthOfHeader | internal/remoteprotocol/codec.go:120-120 | the four header bytes give the length back |
| FrameCodec.HeaderOfLength | internal/remoteprotocol/codec.go:48-48 | every four bytes are the header of exactly one length |
| FrameCodec.EnvelopeIff | internal/remoteprotocol/types.go:75-123 | by fields: only requests have a time limit, only requests and events a method, only errors an error, only events no identifier, cancels no payload, errors and cancels no blob, and each text keeps its limit |
| FrameCodec.GotIff | internal/remoteprotocol/codec.go:39-88 | a frame is read exactly if the stream begins with a length, so many bytes that decode to a valid envelope, and the blob it announces, all within the limits |
| FrameCodec.WrittenIff | internal/remoteprotocol/codec.go:101-127 | a message is written exactly if blob and control part keep their limits and its envelope is valid with the length of the blob; which check fails first is told |
| FrameCodec.Reader.Read | internal/remoteprotocol/codec.go:39-88 | the method reads as specified, every error and a stream that breaks off included, and leaves the stream behind the frame |
| FrameCodec.Writer.Write | internal/remoteprotocol/codec.go:101-133 | a whole frame is sent, or nothing if a check fails, or part of it if the stream fails |
| FrameCodec.Writer.WriteAll | internal/remoteprotocol/codec.go:135-147 | partial writes add up to the value, or a prefix was sent |
| FrameCodec.Writer.SendParts | internal/remoteprotocol/codec.go:120-131 | header, control and blob go out in order, as one frame or a prefix of it |
| ConfigDiscovery.Scanner.Discover | internal/remotessh/discovery.go:99-112 | what is seen is what a chain of includes leads to from the first root, and what one leads to from the second past all that the first has led to; the part of each root is closed under includes |
| ConfigDiscovery.Scanner.LoadRoot | internal/remotessh/discovery.go:115-124 | a successful scan of a root that exists adds exactly what a chain of includes leads to past the sources seen before; every source is parsed once, and both budgets hold |
| ConfigDiscovery.Scanner.Load | internal/remotessh/discovery.go:126-196 | the walk ends on cyclic includes, sees all that is included and nothing else, and fails beyond depth 5 before it looks whether the source was seen; when it fails, a chain of includes leads to what the error says: a missing or irregular source, one that is no text or malformed, one above 1 MiB or beyond the budgets, or a chain of more than five |
| ConfigDiscovery.Scanner.Admit | internal/remotessh/discovery.go:137-180 | a source is marked exactly if file count, kind, sizes and encoding allow it, and parsed only if it is well formed |
| ConfigDiscovery.Scanner.LoadIncludes | internal/remotessh/discovery.go:181-195 | the loop over the patterns of a source |
| ConfigDiscovery.Scanner.LoadMatches | internal/remotessh/discovery.go:189-193 | the loop over the matches of a pattern |
| ConfigDiscovery.ReachableIsInside | internal/remotessh/discovery.go:126-196 | what is reachable is in every closed set that has the root |
| JsonComments.StripKeepsSegments | internal/appservice/mcpconfig.go:640-686 | the stripped text consists of exactly the non-comment segments of the text, in order and byte for byte, so its literals are unchanged and no comment is left or made |
| JsonComments.StripIsIdempotent | internal/appservice/mcpconfig.go:640-686 | stripping twice is stripping once |
| JsonComments.UnchangedIff | internal/appservice/mcpconfig.go:640-686 | a text is unchanged if and only if it has no comment |
| JsonComments.OutputIsCommentFree | internal/appservice/mcpconfig.go:640-686 | the output has no comment outside literals |
| JsonComments.LineCommentGoes | internal/appservice/mcpconfig.go:640-686 | two slashes outside a literal take everything up to the line feed, which stays |
| JsonComments.BlockCommentGoes | internal/appservice/mcpconfig.go:640-686 | a slash and a star outside a literal take everything up to and with the next star and slash, or to the end |
| JsonComments.LiteralStays | internal/appservice/mcpconfig.go:640-686 | a literal stays byte for byte, whatever it has inside, a quote behind a backslash included |
| JsonComments.SlashStays | internal/appservice/mcpconfig.go:640-686 | a single slash is no comment |
| JsonComments.StripIsKept | internal/appservice/mcpconfig.go:640-686 | the scanner appends the segments that are no comments |
| JsonComments.StripJSONComments | internal/appservice/mcpconfig.go:640-686 | the loop with its four flags computes the specified scan |
| JsonComments.LexJoins | internal/appservice/mcpconfig.go:640-686 | the segments of a text are the text |

## Left out

- Processes, SSH, SFTP, pseudo-terminals, sockets, and the resolution of paths and links: foreign calls.
- The terminal.run stream and its input and resize events, the hello handshake, and the shutdown of a helper as seen from both programs.
- Operating helper paths whose bodies only decode JSON, and the fields of an envelope that no model depends on.
- RequestTable.Server.CompleteRequest: does not model the identity of the request object, because identifiers are never used twice within one session.
- EditHistory.NoLostUpdate: does not model two nested roots, because each has a lock of its own.
- Supervisor.EveryRunIsOrderly: does not model records of type runtime_exit that a Pi process itself writes, because they are passed on like any other event.
- The words and blocks of an SSH configuration source, and the list of aliases made from them: a source is what it includes and whether it is well formed.
- MakeDirectories.Root.Mkdir: does not model that errors other than cancellation are reported as outcome unknown, because the code reports them as they are although directories may have been made.
- RequestEnds.RunBashServer: does not model a chunk that cannot be written, because the transport is gone then.
- FrameCodec.ListReadsBack: does not model that marshalling compacts the payload of an envelope, because JSON is a parameter there.
- The handler of ReadRecords sees a buffer that is reused for the next record; records are values here.
- Search.Find: does not model its cancellation, nor the order in which a directory walk finds its entries.
- Directory listings, images, hashing, model probing, configuration editors and everything of the user interface: easy, or plumbing.
