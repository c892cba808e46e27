# A model of the repository's text tools, protocols and name tables

The project states and proves how the algorithmic parts of the repository behave. Most of the
repository is glue around WebGL, subprocesses and files; the parts with a state, a protocol or
an inverse are modelled here, one module for each.

| Module | What it models |
|---|---|
| `BracketMatching` | cpplint's forward and backward bracket matchers, which carry a stack from line to line |
| `AngleMatching`, `MirrorMatching`, `TemplateLists` | what the matchers make of angles: a walk forward, the same walk over the mirrored text backward, and template lists, on which the two undo each other |
| `PreprocessorNesting`, `PreprocessorBranches` | cpplint's nesting state, saved and restored around `#if`, `#else` and `#endif`; what a whole conditional comes to |
| `CommentRemoval`, `CommentMarkers`, `RawStrings`, `RawLiterals` | cpplint's cleansing of comments over several lines and of raw strings; which lines open and close a comment; raw strings put together from their parts |
| `BroadcastBarrier`, `BarrierWakeUps`, `WatchBarrier` | the counter and wake-up barrier of two tokio benches, over a broadcast and over a watch channel |
| `ChatRoom`, `ChatHistory` | the chat server: joining, relaying and leaving under one lock; its log, read off the events, and who hears what |
| `WorkerPool`, `PoolOrder` | the downloader's worker threads, its printer thread, its queues and its return code; the order of what is printed |
| `SetJmp`, `SetJmpWrites` | the setjmp table in linear memory, in the port and in the C code that the port quotes |
| `CommentText`, `DocComments`, `CommentTokens`, `CommentRules` | the comment converter: lines, indentation and doc comments; tokens, their rewriting, and what each known phrase becomes in front of any text |
| `NinjaDefinitions`, `NinjaFiles` | preprocessor definitions: parsing, merging, saving, unescaping; the line of a file they come from |
| `GlNames`, `GlDeletes`, `GlPrograms`, `GlUses` | GL object names in memory; when a delete goes through, and names over a run of calls; programs, the program in use and the uniform cache; what a use does to the calls behind it |
| `RowAlignment` | the padded size of an image, in 32-bit arithmetic |
| `PyText`, `Words`, `Wrappers` | string helpers; bytes, words and their arithmetic; `Option` and `Result` |

Sequential code is a method or a class that is proved against a function on values; the
properties are then lemmas about that function. The concurrent programs are state machines: a
step function for each thread, and lemmas about every run, that is, about every order in which
the threads take their steps. What the environment decides is a parameter: whether a character
is a word character, whether WebGL makes an object or resolves a name, what a download puts
out, what a freshly allocated block contains.

The step functions follow the source branch by branch: `BracketMatching.ForwardToken`,
`ForwardStep` and `BackwardStep` the two scans of `cpplint.py:1493-1675`;
`PreprocessorNesting.Preprocess` and `Step` the updates of `cpplint.py:2489-2591`;
`BroadcastBarrier.SenderStep` and `TaskStep` the loops of `sync_broadcast.rs:39-65`;
`WatchBarrier.WatchSenderStep` and `WatcherStep` those of `sync_watch.rs:38-64`;
`ChatRoom.Step` the tasks of `chat.rs:152-242`; `WorkerPool.MainStep`, `WorkerStep` and
`PrinterStep` the threads of `download_from_google_storage.py`; `SetJmp.Save` and `SaveC` the
two versions of saveSetjmp; `GlPrograms.Step` the program calls of `envGl.ts`.

What these functions compute is then said a second time without them: the matchers by a walk over
the characters (`AngleMatching.CloseExpressionAnswers`, `MirrorMatching.ReverseCloseExpressionAnswers`),
the nesting tracker by the edits of the live lines (`PreprocessorBranches.StackIsLiveEdits`), the chat
by its history (`ChatHistory.LogIsHistory`, `ChannelIsHistory`), the pool by one order of all that is
put out (`PoolOrder.PrintedInOrder`), raw strings by their parts (`RawLiterals.LiteralIsRemoved`),
comments by phrases in front of texts (`CommentRules`), and programs by the calls that make, use and
delete them (`GlUses.OnlyLiveProgramsAnswer`, `ValueReachesUniform`).

Some laws hold only under a condition. Each of these is an equivalence, so the condition is
exact, and comes with an input at which the law fails:

* Splitting into lines and joining gives the text back if and only if it has no `\r\n`
  (`CommentText.LinesRoundTrip`; `ReturnIsLost`).
* Trimming the common indent twice is trimming once if and only if no line but the last ends in a
  carriage return, that is, the text has no `\r\r\n` (`CommentText.TrimIsIdempotent`,
  `CleanIsNoDoubleReturn`; `TrimTakesMore`). Commenting is idempotent under a like condition
  (`CommentIsIdempotent`; `CommentTakesMore`).
* Saved definitions are read back if and only if no name has white space or `=` and no value has
  white space, `$` or `\` (`NinjaDefinitions.SavedComesBack`; `DollarIsLost`).
* saveSetjmp reports the size of the table it returns if and only if it grows the table at most
  once (`SetJmp.ReportedSizeIsTableSize`; `ReportedSizeIsWrong`). In the port, earlier entries
  survive the growth if and only if the new block happens to hold just them
  (`SetJmp.GrowthKeepsByChance`; `GrowthIntoZeros` is a case in which they do not).
* Making GL names and deleting the same array restores the table if and only if no name went past
  32 bits (`GlNames.GenThenDelete`; `BigNameIsLost`).
* OpenGL has glDelete calls ignore names that are 0 or unknown, or come twice. A call in `envGl.ts`
  goes through, and then does what OpenGL prescribes, if and only if its names are those of
  objects and pairwise different; otherwise it stops with an error
  (`GlNames.DeleteSucceeds`, `GlDeletes.MeetsOpenGl`; `ZeroIsRefused`, `RepeatedIsRefused`).
* Rounding up with `& -y` gives the least multiple of a power of two if and only if the masked sum
  is below 2 to the 31 (`RowAlignment.RoundUpIsLeastMultiple`; `RoundUpWraps`).

One law is two one-way lemmas: the downloader's results mean what they say if there is a worker or
no job (`WorkerPool.ReturnMeansDone`), and without workers the call returns and no job is taken
(`NoWorkersNoJobs`).

The code and what is written about it disagree in two places, and the model follows the code: the
deletes just mentioned, and the growth of the setjmp table. The C code quoted in `importObject.ts`
grows it with `realloc`, the port with `free` and `malloc`; `SetJmp.GrowthKeepsInC` and
`SetJmp.GrowthForgets` state the two outcomes.

## Model

| member | source | states |
|---|---|---|
| BracketMatching.ReferenceMatchersInvert | rust-skia/skia-bindings/depot_tools/cpplint.py:1558-1714 | plain three-bracket matching forward and backward on a text are inverse: one finds q from p exactly if the other finds p from q |
| BracketMatching.BackwardRetraces | rust-skia/skia-bindings/depot_tools/cpplint.py:1602-1675 | if reading forward closes everything pending, reading backward from there arrives where it started, with the partners of what was pending |
| BracketMatching.ForwardRetraces | rust-skia/skia-bindings/depot_tools/cpplint.py:1480-1555 | the mirror image: what a backward reading closes, a forward reading retraces |
| BracketMatching.FindEndOfExpressionInLine | rust-skia/skia-bindings/depot_tools/cpplint.py:1480-1555 | the loop with its mutable stack gives the position and the stack of the token-wise scan of the line; what that scan finds, brackets and angles alike, is said by AngleMatching.ScanIsWalk |
| BracketMatching.FindStartOfExpressionInLine | rust-skia/skia-bindings/depot_tools/cpplint.py:1602-1675 | the backward loop, with its double steps over `->`, `>=`, `<<` and operator names, gives the position and the stack of the backward scan |
| BracketMatching.CloseExpression | rust-skia/skia-bindings/depot_tools/cpplint.py:1558-1599 | the loop over the lines returns the place of Closing, or the end of the text and -1; which place that is, is said by AngleMatching.CloseExpressionAnswers |
| BracketMatching.ReverseCloseExpression | rust-skia/skia-bindings/depot_tools/cpplint.py:1679-1714 | the loop over the lines backwards returns the place of Opening, or line 0 and -1; which place that is, is said by MirrorMatching.ReverseCloseExpressionAnswers |
| BracketMatching.ClosingIsOneScan | rust-skia/skia-bindings/depot_tools/cpplint.py:1581-1599 | for every opener, scanning line by line with a carried stack is one scan of the classified characters of the whole text, a step towards AngleMatching.CloseExpressionIsWalk |
| BracketMatching.CloseExpressionIsReference | rust-skia/skia-bindings/depot_tools/cpplint.py:1558-1599 | for `(`, `[` and `{`, angles, shifts, arrows and semicolons never change the answer: place and failure are those of the plain matcher on the whole text |
| BracketMatching.ReverseCloseExpressionIsReference | rust-skia/skia-bindings/depot_tools/cpplint.py:1679-1714 | the same for `)`, `]` and `}` on the way back |
| BracketMatching.MatchersUndoEachOther | rust-skia/skia-bindings/depot_tools/cpplint.py:1558-1714 | over any number of lines, CloseExpression leads from an opening to a closing bracket if and only if ReverseCloseExpression leads back |
| BracketMatching.CloseThenReverse | rust-skia/skia-bindings/depot_tools/cpplint.py:1558-1714 | wherever CloseExpression ends for a bracket, ReverseCloseExpression returns to the start |
| BracketMatching.ReverseThenClose | rust-skia/skia-bindings/depot_tools/cpplint.py:1558-1714 | wherever ReverseCloseExpression ends for a bracket, CloseExpression returns to the start |
| BracketMatching.SkippedIsNoBracket | rust-skia/skia-bindings/depot_tools/cpplint.py:1623-1655 | the character that the backward scan passes over without looking is never a bracket |
| BracketMatching.GetTextInside | rust-skia/skia-bindings/depot_tools/cpplint.py:4549-4600 | the text up to the partner of the bracket before the start position, by the same plain matcher; nothing if it is not closed |
| AngleMatching.ScanIsWalk | rust-skia/skia-bindings/depot_tools/cpplint.py:1480-1555 | with nothing but angles open, the scan is the walk: a pair of brackets is passed over in one go, `<` opens, `>` and the second half of a `<<` close, and no mixed stack is needed |
| AngleMatching.CloseExpressionIsWalk | rust-skia/skia-bindings/depot_tools/cpplint.py:1558-1599 | for every opener, `<` included and over any number of lines, the place found is that of the walk over the text |
| AngleMatching.CloseExpressionAnswers | rust-skia/skia-bindings/depot_tools/cpplint.py:1577-1599 | every call: nothing for `<<`, `<=` and a character that opens nothing, else the walk |
| AngleMatching.OperatorMeans | rust-skia/skia-bindings/depot_tools/cpplint.py:1506-1535 | the test for an operator name, said without stripping: the word at its start, only white space behind |
| MirrorMatching.LineInMirror | rust-skia/skia-bindings/depot_tools/cpplint.py:1602-1675 | the backward scan of a line, double steps and all, is the forward scan of the mirrored text, in which a `<` counts if it is the first of an odd run |
| MirrorMatching.ReverseCloseExpressionIsWalk | rust-skia/skia-bindings/depot_tools/cpplint.py:1679-1714 | for every closing bracket and every `>`, the place found is that of the same walk over the mirrored text |
| MirrorMatching.ReverseCloseExpressionAnswers | rust-skia/skia-bindings/depot_tools/cpplint.py:1697-1714 | every call: nothing for a character that closes nothing, else the walk in the mirror |
| TemplateLists.AnglesUndoEachOther | rust-skia/skia-bindings/depot_tools/cpplint.py:1558-1714 | with no `;`, shift, arrow, ` >= ` or operator name between a `<` and a `>`, CloseExpression leads from one to the other if and only if ReverseCloseExpression leads back |
| TemplateLists.FourBracketsClose | rust-skia/skia-bindings/depot_tools/cpplint.py:1558-1599 | what a plain matcher for four kinds of brackets closes on such a stretch, CloseExpression closes at the same place |
| TemplateLists.FourBracketsReopen | rust-skia/skia-bindings/depot_tools/cpplint.py:1679-1714 | and ReverseCloseExpression leads from its `>` back to its `<` |
| TemplateLists.ListExample | rust-skia/skia-bindings/depot_tools/cpplint.py:1558-1599 | an example: the list in `A<B>` ends at position 4 |
| PreprocessorNesting.DeadBranchesLeaveNoTrace | rust-skia/skia-bindings/depot_tools/cpplint.py:2489-2543 | for every sequence of lines, whatever each does to the stack, dropping the lines in `#else` and `#elif` branches of completed conditionals leaves the same stack |
| PreprocessorNesting.DeadBranchesKeepSavedStack | rust-skia/skia-bindings/depot_tools/cpplint.py:2514-2526 | inside such a branch, the stack kept for the `#endif` is the one that the shortened file has |
| PreprocessorNesting.WellNestedErasure | rust-skia/skia-bindings/depot_tools/cpplint.py:2489-2543 | for well nested conditionals, the run and the run without dead branches end in the same state, and no saved stack is left |
| PreprocessorNesting.EveryBranchStartsBeforeIf | rust-skia/skia-bindings/depot_tools/cpplint.py:2514-2526 | inside any open conditional, the next `#elif` or `#else` starts with the stack that the conditional has saved, and the end of the first branch is what is kept; that the saved stack is the one met at the `#if` is PreprocessorBranches.ConditionalIsFirstBranch |
| PreprocessorNesting.WellNestedKeepsOuter | rust-skia/skia-bindings/depot_tools/cpplint.py:2489-2543 | a well nested part leaves the saved stacks of the conditionals around it alone |
| PreprocessorNesting.StepKeepsAgreement | rust-skia/skia-bindings/depot_tools/cpplint.py:2489-2591 | the invariant between a run and the run without dead branches |
| PreprocessorNesting.DeepCopy | rust-skia/skia-bindings/depot_tools/cpplint.py:2513-2525 | the copy has the same contents, in new blocks that are pairwise different |
| PreprocessorNesting.NestingState.UpdatePreprocessor | rust-skia/skia-bindings/depot_tools/cpplint.py:2489-2543 | on blocks in the heap, the contents change as in the model on values, of which PreprocessorBranches says what it comes to, and no block is shared between the stack and the saved stacks |
| PreprocessorNesting.NestingState.BeginIf | rust-skia/skia-bindings/depot_tools/cpplint.py:2510-2513 | a checkpoint is added on top, whose stack before the `#if` is a copy of the stack as it was; the other checkpoints and the stack stay |
| PreprocessorNesting.NestingState.BeginElse | rust-skia/skia-bindings/depot_tools/cpplint.py:2514-2525 | the first time the stack is kept for the `#endif`; every time it goes back to the saved one |
| PreprocessorNesting.NestingState.EndIf | rust-skia/skia-bindings/depot_tools/cpplint.py:2529-2540 | the kept stack becomes the stack, and the last saved state is dropped |
| PreprocessorNesting.NestingState.AlterTop | rust-skia/skia-bindings/depot_tools/cpplint.py:2569-2591 | changing the top block in place changes no saved stack |
| PreprocessorNesting.NestingState.Update | rust-skia/skia-bindings/depot_tools/cpplint.py:2546-2720 | a line acts as one step on values: the directive, then any pushes, pops and changes of the top block |
| PreprocessorNesting.UpdateAll | rust-skia/skia-bindings/depot_tools/cpplint.py:5882-5885 | the loop over the lines of a file acts as the run on values |
| PreprocessorBranches.BranchStartsWithStackAtIf | rust-skia/skia-bindings/depot_tools/cpplint.py:2510-2525 | the first branch and the second start with the stack that the `#if` met |
| PreprocessorBranches.ConditionalIsFirstBranch | rust-skia/skia-bindings/depot_tools/cpplint.py:2489-2543 | after any number of branches, whatever their lines do: the next one starts with the stack that the `#if` met; after the `#endif` the stack is that at the end of the first branch and the saved states are those before |
| PreprocessorBranches.StackIsLiveEdits | rust-skia/skia-bindings/depot_tools/cpplint.py:2489-2591 | for every file, complete or not: the stack is what the lines outside `#elif` and `#else` regions make of it one after the other, with no directive looked at; inside, that stack is kept for the `#endif` |
| PreprocessorBranches.BlocksComeBack | rust-skia/skia-bindings/depot_tools/cpplint.py:2569-2720 | a block pushed, or put in place of the top, is on top again when all above it is popped, and popping it gives the stack before |
| CommentRemoval.RemoveMultiLineComments | rust-skia/skia-bindings/depot_tools/cpplint.py:1353-1366 | in place on the array of lines, what the search for markers gives, with the number of the line of an unclosed comment |
| CommentRemoval.RemoveMarked | rust-skia/skia-bindings/depot_tools/cpplint.py:1353-1366 | the same loop for any tests of lines |
| CommentRemoval.FindNextMultiLineCommentStart | rust-skia/skia-bindings/depot_tools/cpplint.py:1325-1333 | the first line at or after the given one that opens a comment, or the number of lines |
| CommentRemoval.FindNextMultiLineCommentEnd | rust-skia/skia-bindings/depot_tools/cpplint.py:1336-1342 | the first line at or after the given one that ends a comment, or the number of lines |
| CommentRemoval.RemoveMultiLineCommentsFromRange | rust-skia/skia-bindings/depot_tools/cpplint.py:1345-1350 | exactly the lines of the range are blanked |
| CommentRemoval.RemovalIsOnePass | rust-skia/skia-bindings/depot_tools/cpplint.py:1325-1366 | a line is blanked exactly if it lies in a comment that is closed, as read in one pass with one bit of memory; the error says that one is open at the end |
| CommentRemoval.WhatIsLeft | rust-skia/skia-bindings/depot_tools/cpplint.py:1353-1366 | what is left has no start marker, or the first one is the one reported and no end marker follows it |
| CommentRemoval.NoStartIsLeft | rust-skia/skia-bindings/depot_tools/cpplint.py:1353-1366 | without an error no start marker is left |
| CommentRemoval.RemovalIsIdempotent | rust-skia/skia-bindings/depot_tools/cpplint.py:1353-1366 | a second run changes nothing and reports the same, with or without an error |
| CommentMarkers.StartMeans | rust-skia/skia-bindings/depot_tools/cpplint.py:1328-1331 | a line opens a comment if and only if, behind white space, it has `/*` and no `*/` behind that |
| CommentMarkers.EndMeans | rust-skia/skia-bindings/depot_tools/cpplint.py:1339-1340 | a line closes one if and only if it has `*/` with only white space behind |
| RawStrings.CleanseRawStrings | rust-skia/skia-bindings/depot_tools/cpplint.py:1249-1322 | the loop ends and gives one line for each line, as the line function with a pending delimiter says; what that makes of raw strings is said by RawLiterals |
| RawStrings.CleanseOutside | rust-skia/skia-bindings/depot_tools/cpplint.py:1288-1316 | the inner loop ends, because each rewrite that stays on the line shortens it |
| RawStrings.ResumeLine | rust-skia/skia-bindings/depot_tools/cpplint.py:1268-1286 | a line that starts inside a raw string becomes `""`, and the closer stays awaited, if and only if the closer does not occur; otherwise it becomes all of its leading white space, `""`, and what follows the first closer |
| RawStrings.RemoveFirst | rust-skia/skia-bindings/depot_tools/cpplint.py:1302-1316 | the loop is left if and only if there is no raw string, or the first one is in a comment; otherwise what stands before the first one is kept, `""` comes in its place, and the line goes on behind the first occurrence of `)`, its delimiter and a quote, or ends with that closer awaited if and only if it does not occur |
| RawStrings.CleansingIsIdempotent | rust-skia/skia-bindings/depot_tools/cpplint.py:1249-1322 | cleansing cleansed lines changes nothing |
| RawStrings.InsideLines | rust-skia/skia-bindings/depot_tools/cpplint.py:1283-1286 | lines wholly inside a raw string become `""`, and the delimiter stays awaited |
| RawStrings.RawStringOverLines | rust-skia/skia-bindings/depot_tools/cpplint.py:1249-1322 | what becomes of a raw string over several lines, also behind raw strings that its first line opens and closes: cut, `""` for each inner line, and the rest behind the delimiter scanned on |
| RawStrings.CleanseFromSplits | rust-skia/skia-bindings/depot_tools/cpplint.py:1249-1322 | the pending delimiter is all that one line tells the next |
| RawLiterals.RawStartMeans | rust-skia/skia-bindings/depot_tools/cpplint.py:1300-1302 | a raw string starts where one of the five prefixes, a quote, a delimiter without white space, backslash and parentheses, and a parenthesis stand, behind no word character, and nowhere else |
| RawLiterals.LiteralIsRemoved | rust-skia/skia-bindings/depot_tools/cpplint.py:1288-1316 | a raw string put together from any of the five prefixes, a delimiter, a body in which `)`, the delimiter and a quote do not come earlier, and that closer: one step puts `""` in its place and keeps what is around it |
| RawLiterals.LiteralAfterText | rust-skia/skia-bindings/depot_tools/cpplint.py:1288-1316 | the same with plain conditions on the text before it: no quote, no comment, no word character at its end |
| RawLiterals.LiteralOverLines | rust-skia/skia-bindings/depot_tools/cpplint.py:1249-1322 | the same over several lines: `""` behind what stands before, `""` for each inner line, and the last line goes on with its indent, `""` and what follows the closer |
| BroadcastBarrier.ActKeepsInv | tokio/benches/sync_broadcast.rs:39-65 | every step of every task keeps: the counter counts the receivers that are not done, and a waiting sender with counter 0 has a permit or a notifier |
| BroadcastBarrier.EveryRunIsSafe | tokio/benches/sync_broadcast.rs:39-65 | in every interleaving the assertion on the counter holds and each receiver has handled all messages sent, in order, but at most the last |
| BroadcastBarrier.StuckIsFinished | tokio/benches/sync_broadcast.rs:57-65 | no wake-up is lost: a state in which nobody can move is the end, stale permits or not |
| BroadcastBarrier.EveryRunFinishes | tokio/benches/sync_broadcast.rs:39-65 | every run is bounded, and a run that cannot go on has delivered every message to every receiver |
| BroadcastBarrier.ActLowersRank | tokio/benches/sync_broadcast.rs:39-65 | every step, whoever takes it, lowers a rank |
| BarrierWakeUps.OneWakeUpPerRound | tokio/benches/sync_broadcast.rs:39-45 | in every interleaving the wake-ups made and about to be made are as many as the rounds in which all receivers have counted down |
| WatchBarrier.WatchSimulatesBroadcast | tokio/benches/sync_watch.rs:38-64 | every step over the latest-version channel is a step of the broadcast barrier, or none |
| WatchBarrier.RunSimulates | tokio/benches/sync_watch.rs:38-64 | so every run is a run of the broadcast barrier |
| WatchBarrier.EveryVersionIsReadOnce | tokio/benches/sync_watch.rs:38-46 | although only the latest version is kept, every receiver reads every version once, in order, and is at most one behind |
| WatchBarrier.EveryWatchRunFinishes | tokio/benches/sync_watch.rs:56-64 | every run is bounded and ends with everything read by everyone |
| ChatRoom.Shared.Broadcast | tokio/examples/chat.rs:141-147 | the loop over the map puts the message on every channel but the sender's, once |
| ChatRoom.Shared.Register | tokio/examples/chat.rs:159-163 | the address gets the channel, in place of one it had |
| ChatRoom.Shared.Remove | tokio/examples/chat.rs:235 | the address loses its channel; the channels stay as they are |
| ChatRoom.BroadcastPosts | tokio/examples/chat.rs:141-147 | a broadcast in a run is what the method does to the channels of its map |
| ChatRoom.RunKeepsInv | tokio/examples/chat.rs:170-242 | every run with distinct live addresses keeps the invariant between the channels and one global log, which ChatHistory.LogIsHistory reads off the events |
| ChatRoom.ChannelIsLogSlice | tokio/examples/chat.rs:170-242 | what was put on a peer's channel is the log from its registration to its removal, without its own messages; what it received is a prefix; in terms of the events this is ChatHistory.ChannelIsHistory |
| ChatRoom.HeardInOrder | tokio/examples/chat.rs:139-147 | such a slice holds each message of the others once, in the order of the log |
| ChatRoom.CommonMessagesInSameOrder | tokio/examples/chat.rs:139-147 | any two peers get their common messages in the same order, each once |
| ChatHistory.LogIsHistory | tokio/examples/chat.rs:192-240 | on every run the log is read off the events: arrivals, lines behind their speaker's name, farewells, each under its address and in their order |
| ChatHistory.SessionsFollowProtocol | tokio/examples/chat.rs:152-242 | a session can announce itself exactly between registering and announcing, and speak or leave exactly between its announcement and its end; where it stands is read off the events |
| ChatHistory.EveryoneElseHears | tokio/examples/chat.rs:141-240 | each of these is put on the channel of every other session that has registered and not ended, and changes nothing else for anyone else |
| ChatHistory.ChannelIsHistory | tokio/examples/chat.rs:152-240 | what has been put on the channel of a session that listens are the messages of the events since its registration, in their order, but for its own |
| ChatHistory.AllCanBeDelivered | tokio/examples/chat.rs:205-207 | whatever is on a peer's channel can be delivered, which changes nothing else |
| ChatHistory.NewcomerIsHeard | tokio/examples/chat.rs:170-242 | in every reachable room somebody with a free address can connect, give a name, speak and leave, and everyone that listens hears of it |
| WorkerPool.ReturnMeansDone | rust-skia/skia-bindings/depot_tools/download_from_google_storage.py:440-482 | in every interleaving, when the call returns every job was taken once, every worker took one sentinel, the queues are empty, everything put out was printed or collected as often as it was put out, and the result is the maximum of 0 and the codes |
| WorkerPool.NoWorkersNoJobs | rust-skia/skia-bindings/depot_tools/download_from_google_storage.py:447-463 | without workers no job is taken in any run |
| WorkerPool.StuckIsReturned | rust-skia/skia-bindings/depot_tools/download_from_google_storage.py:465-469 | whenever nobody can move, the call has returned |
| WorkerPool.EveryRunReturns | rust-skia/skia-bindings/depot_tools/download_from_google_storage.py:440-482 | every run is bounded and, when it cannot go on, has returned |
| WorkerPool.ActKeepsQueue | rust-skia/skia-bindings/depot_tools/download_from_google_storage.py:245-248 | every step keeps: what was taken and what waits is what was put, in order, and a worker has exited exactly if it took its one sentinel |
| WorkerPool.ActConserves | rust-skia/skia-bindings/depot_tools/download_from_google_storage.py:242-248 | every step keeps, for every output, the balance of what is printed, queued, collected and still to come with what the jobs taken owe |
| WorkerPool.ActKeepsPrinter | rust-skia/skia-bindings/depot_tools/download_from_google_storage.py:379-386 | every step keeps: the end marker is put once, behind all lines, after the last worker has exited |
| WorkerPool.CollectCodes | rust-skia/skia-bindings/depot_tools/download_from_google_storage.py:471-476 | the loop gives the largest code, 0 at least, and the messages that are not empty |
| WorkerPool.MaxCodeIsMax | rust-skia/skia-bindings/depot_tools/download_from_google_storage.py:472-474 | the result of a run is an upper bound of the codes, and 0 or one of them |
| PoolOrder.PrintedInOrder | rust-skia/skia-bindings/depot_tools/download_from_google_storage.py:242-386 | in every interleaving there is one order of all that was put out: lines printed and waiting are its lines, codes collected are its codes, and of each worker it holds what its jobs put out, one after the other in the order taken |
| PoolOrder.AllPrintedInOrder | rust-skia/skia-bindings/depot_tools/download_from_google_storage.py:440-482 | when the call has returned, all lines of that order are printed and it holds all outputs of every job |
| PoolOrder.MessagesInOrder | rust-skia/skia-bindings/depot_tools/download_from_google_storage.py:471-476 | the messages are those of the reports with one that is not empty, each once and in their order |
| SetJmp.Runtime.SaveSetjmp | on-browser/src/importObject.ts:125-155 | the method over linear memory does what the model on values says, as long as blocks are to be had |
| SetJmp.Runtime.FillFreeSlot | on-browser/src/importObject.ts:134-146 | the loop fills the first slot with id 0 and clears the id of the slot behind it, within the table |
| SetJmp.Runtime.Grow | on-browser/src/importObject.ts:148-154 | the table is twice as large in a new block, the save starts over, and the size of this doubling is reported |
| SetJmp.Runtime.TestSetjmp | on-browser/src/importObject.ts:170-184 | the label of the first entry with the id, before the first 0 |
| SetJmp.SaveAppends | on-browser/src/importObject.ts:125-146 | with a free slot a save appends one entry, leaves its id at env, and changes nothing else |
| SetJmp.TableIsMap | on-browser/src/importObject.ts:125-184 | from an empty table over arbitrary words, any saves that fit make each new id map to its own label and every other number to 0 |
| SetJmp.GrowthForgets | on-browser/src/importObject.ts:148-154 | a full table that grows in the port calls itself once and holds what the new block held and the new entry |
| SetJmp.GrowthKeepsByChance | on-browser/src/importObject.ts:148-154 | the earlier entries survive this if and only if the new block happens to hold just them |
| SetJmp.GrowthIntoZeros | on-browser/src/importObject.ts:148-154 | into a zero-filled block: the new id maps to the label, every other id is gone, and the doubled size is reported |
| SetJmp.GrowthKeepsInC | on-browser/src/importObject.ts:94-123 | in the quoted C code every earlier entry survives the growth |
| SetJmp.GrownSize | on-browser/src/importObject.ts:148-154 | the size reported is that of the first doubling, the table returned is doubled as often as blocks came back full |
| SetJmp.ReportedSizeIsTableSize | on-browser/src/importObject.ts:148-154 | the size reported is the table's if and only if it grows at most once |
| SetJmp.ReportedSizeIsWrong | on-browser/src/importObject.ts:148-154 | an example: a table of one slot is doubled twice, and 2 is reported for 4 |
| SetJmp.SizeZeroNeverReturns | on-browser/src/importObject.ts:125-155 | with size 0 every block leads to a request for another one |
| SetJmpWrites.SaveLeavesRest | on-browser/src/importObject.ts:125-155 | a word outside env, the table and the blocks that malloc gives keeps its value, however often the table grows |
| SetJmpWrites.SaveMarksEnv | on-browser/src/importObject.ts:125-155 | a save leaves the last id it has used up at env |
| CommentText.JoinOfLines | rust-skia/comment-converter/src/main.rs:82-89 | splitting and joining loses exactly one carriage return before each newline |
| CommentText.LinesRoundTrip | rust-skia/comment-converter/src/main.rs:82-89 | splitting and joining is the identity if and only if there is no `\r\n` |
| CommentText.ReturnIsLost | rust-skia/comment-converter/src/main.rs:82-89 | an example where it is not |
| CommentText.LinesOfJoin | rust-skia/comment-converter/src/main.rs:82-89 | joined lines split into the same lines, but for carriage returns at their ends |
| CommentText.TrimTakesIndentOnly | rust-skia/comment-converter/src/main.rs:64-80 | trimming takes the same number of bytes from every line, indent only and whole characters, and lessens every indent by it |
| CommentText.SkippingIndent | rust-skia/comment-converter/src/main.rs:73-78 | skipping bytes of indent never splits a UTF-8 sequence |
| CommentText.NoIndentLeft | rust-skia/comment-converter/src/main.rs:64-80 | afterwards no common indent is left |
| CommentText.TrimIsIdempotent | rust-skia/comment-converter/src/main.rs:64-80 | trimming twice is trimming once, if and only if no line but the last ends in a carriage return |
| CommentText.CleanIsNoDoubleReturn | rust-skia/comment-converter/src/main.rs:82-89 | no line but the last ends in a carriage return if and only if the text has no `\r\r\n` |
| CommentText.TrimTakesMore | rust-skia/comment-converter/src/main.rs:64-80 | a text from which trimming takes something twice |
| CommentText.Comment | rust-skia/comment-converter/src/main.rs:37-55 | the loop over the lines makes every line a comment line in its place |
| CommentText.CommentIsIdempotent | rust-skia/comment-converter/src/main.rs:37-55 | commenting keeps the number of lines, makes every line a doc comment but for a blank last one, and is idempotent under an exact condition on carriage returns |
| CommentText.CommentTakesMore | rust-skia/comment-converter/src/main.rs:37-55 | a text that commenting changes twice |
| DocComments.CommentingKeepsText | rust-skia/comment-converter/src/main.rs:37-55 | every line of the commented text is the line of the text behind its mark, but for the white space of blank lines; a doc comment line is left as it is |
| CommentTokens.Tokenize | rust-skia/comment-converter/src/main.rs:325-348 | the loop gives a proper list: runs of one class, neighbours of different classes, together the source |
| CommentTokens.ProperIsUnique | rust-skia/comment-converter/src/main.rs:325-348 | every proper list is the tokens of its own text, so there is one such list for each text |
| CommentTokens.TokensAreProper | rust-skia/comment-converter/src/main.rs:304-348 | tokens are non-empty, uniform and alternate in class |
| CommentTokens.TokensAreFlat | rust-skia/comment-converter/src/main.rs:325-348 | the tokens of a text together are the text |
| CommentTokens.ConsumeTokens | rust-skia/comment-converter/src/main.rs:131-174 | a group takes at least one token and at most all that are left |
| CommentTokens.ConsumeUntilWs | rust-skia/comment-converter/src/main.rs:186-198 | the tokens up to the first white space, and their text |
| CommentTokens.ProcessTokens | rust-skia/comment-converter/src/main.rs:117-129 | the loop never runs past the end, so its assertion holds and no group is asked of no tokens |
| CommentTokens.OrdinaryTextStays | rust-skia/comment-converter/src/main.rs:117-240 | a text without calls and without words that a rule speaks about is not changed |
| CommentTokens.RewritingConservesLines | rust-skia/comment-converter/src/main.rs:117-198 | the line breaks that rewriting loses are those in the white space that `@param name` and `@return` take along, and no others |
| CommentRules.ParamBecomesItem | rust-skia/comment-converter/src/main.rs:134-137 | `@param name` and white space in front of any text become a list item in front of what the text becomes |
| CommentRules.NoteBecomesWord | rust-skia/comment-converter/src/main.rs:138 | `@note ` becomes `Note: ` |
| CommentRules.ReturnBecomesWord | rust-skia/comment-converter/src/main.rs:139 | `@return` and white space in front of a word become `Returns: ` |
| CommentRules.CallBecomesCode | rust-skia/comment-converter/src/main.rs:145-184 | a name with `()` becomes code in snake case, unless it is a reference or more separators follow |
| CommentRules.MemberCallBecomesCode | rust-skia/comment-converter/src/main.rs:141-184 | a member call likewise |
| CommentRules.LibraryCallBecomesLink | rust-skia/comment-converter/src/main.rs:145-184 | a call of a function of the library becomes a link |
| CommentRules.NestedCallBecomesLink | rust-skia/comment-converter/src/main.rs:145-256 | so does a call of a nested name, converted like a nested name |
| CommentRules.ReferenceBecomesLink | rust-skia/comment-converter/src/main.rs:147-150 | a name of the library becomes a link to the name behind its prefix |
| CommentRules.NestedBecomesLink | rust-skia/comment-converter/src/main.rs:147-256 | a nested type is linked in the module of its outer type, a member function keeps its type, anything else stays |
| CommentRules.ConstantBecomesLink | rust-skia/comment-converter/src/main.rs:151-225 | `kCase_Type`, with or without `Sk` before the type, becomes a link to the case of the type |
| CommentRules.LiteralBecomesCode | rust-skia/comment-converter/src/main.rs:158-163 | `true` and `false` become code, `nullptr` becomes `None` |
| CommentRules.IdentifierBecomesCode | rust-skia/comment-converter/src/main.rs:164-239 | a name in camel case becomes code in snake case |
| CommentRules.AddressBecomesLink | rust-skia/comment-converter/src/main.rs:154-198 | an address is put in angle brackets up to the next white space, its dots and commas included |
| CommentRules.OtherWordStays | rust-skia/comment-converter/src/main.rs:168 | a word that no rule speaks about stays |
| CommentRules.TagStays | rust-skia/comment-converter/src/main.rs:134-168 | a tag that is not followed by what its rule asks for stays, such as two blanks behind `@param` |
| CommentRules.GapStays | rust-skia/comment-converter/src/main.rs:170-171 | white space and separators stay |
| CommentRules.PunctuationEndsWords | rust-skia/comment-converter/src/main.rs:304-313 | each of `.`, `;`, `,`, `(` and `)` ends a word, and every other character that is no white space is part of one |
| NinjaDefinitions.UnescapeLoop | rust-skia/skia-bindings/build_support/skia_bindgen.rs:902-918 | the loop with its look ahead gives the function; an escape character at the end is dropped |
| NinjaDefinitions.UnescapeInvertsEscape | rust-skia/skia-bindings/build_support/skia_bindgen.rs:902-918 | unescaping inverts escaping of any characters that include the escape character |
| NinjaDefinitions.NinjaRoundTrip | rust-skia/skia-bindings/build_support/skia_bindgen.rs:898-900 | every text escaped with `\` and then with `$` comes back |
| NinjaDefinitions.UnescapeNinjaKeeps | rust-skia/skia-bindings/build_support/skia_bindgen.rs:898-918 | a text stays if and only if it has neither escape character, and nothing is ever added |
| NinjaDefinitions.SaveDefinitions | rust-skia/skia-bindings/build_support/skia_bindgen.rs:781-795 | the loop writes one definition a line and an empty line |
| NinjaDefinitions.WrittenComesBack | rust-skia/skia-bindings/build_support/skia_bindgen.rs:876-896 | written definitions are read as what their written values stand for, whatever the white space between them |
| NinjaDefinitions.EscapedComesBack | rust-skia/skia-bindings/build_support/skia_bindgen.rs:876-918 | definitions with escaped values come back |
| NinjaDefinitions.SavedComesBack | rust-skia/skia-bindings/build_support/skia_bindgen.rs:781-918 | saved definitions come back if and only if names have no white space and no `=`, and values no white space, `$` or `\` |
| NinjaDefinitions.DollarIsLost | rust-skia/skia-bindings/build_support/skia_bindgen.rs:781-918 | a saved value with `$` that is read back without it |
| NinjaDefinitions.RemoveDuplicates | rust-skia/skia-bindings/build_support/skia_bindgen.rs:870-874 | the filter with a set of names seen keeps the first definition of each name |
| NinjaDefinitions.FirstWinsIsUnique | rust-skia/skia-bindings/build_support/skia_bindgen.rs:870-874 | names are unique afterwards |
| NinjaDefinitions.FirstWinsKeepsFirst | rust-skia/skia-bindings/build_support/skia_bindgen.rs:870-874 | looking up a name gives the first definition, before and after |
| NinjaDefinitions.FirstWinsKeepsOrder | rust-skia/skia-bindings/build_support/skia_bindgen.rs:870-874 | what is kept is at increasing positions of the whole |
| NinjaDefinitions.FilteringAgain | rust-skia/skia-bindings/build_support/skia_bindgen.rs:870-874 | filtering again changes nothing |
| NinjaDefinitions.FilteringFirstPart | rust-skia/skia-bindings/build_support/skia_bindgen.rs:866-868 | filtering the first part beforehand makes no difference |
| NinjaDefinitions.Combine | rust-skia/skia-bindings/build_support/skia_bindgen.rs:866-868 | combining is filtering the concatenation |
| NinjaDefinitions.FromNinjaFiles | rust-skia/skia-bindings/build_support/skia_bindgen.rs:807-841 | merging file by file is one filtering of all definitions together, or the error of the first bad file |
| NinjaFiles.FileIsItsDefines | rust-skia/skia-bindings/build_support/skia_bindgen.rs:825-841 | the definitions of a file are those of its first line with the prefix, whatever lines stand around it |
| NinjaFiles.FileWithoutDefines | rust-skia/skia-bindings/build_support/skia_bindgen.rs:825-841 | a file without such a line is refused |
| GlNames.NameTable.Gen | on-browser/src/envGl.ts:495-533 | the new table and memory for every way the loop can end: all made, creation refused, or no room for a name |
| GlNames.NameTable.Enter | on-browser/src/envGl.ts:504-506 | the object is in the table before its name is written, so also if the write fails |
| GlNames.NameTable.Delete | on-browser/src/envGl.ts:573-586 | the loop deletes the names in the array in turn; it goes through if and only if each can be read, is that of an object, and comes once |
| GlNames.DeleteSucceeds | on-browser/src/envGl.ts:573-586 | that equivalence, from any place of the array on |
| GlDeletes.DeletedIs | on-browser/src/envGl.ts:573-586 | any delete takes exactly the names before the place where it stops from the table and frees their objects in order; it stops at the end, where memory ends, or at the first name that is 0, unknown or repeated |
| GlDeletes.MeetsOpenGl | on-browser/src/envGl.ts:573-586 | a call does what OpenGL prescribes if and only if its names are those of objects and pairwise different, and ends in an error otherwise |
| GlDeletes.ZeroIsRefused | on-browser/src/envGl.ts:576-580 | an example where it does not: the name 0, with any table |
| GlDeletes.RepeatedIsRefused | on-browser/src/envGl.ts:576-583 | another one: a name that comes twice |
| GlDeletes.GenIsCall | on-browser/src/envGl.ts:495-508 | the calls of a run are those of the class: the same table, and the same names in memory |
| GlDeletes.NamesRise | on-browser/src/envGl.ts:495-586 | over any run of calls, with any memory in between, the names handed out rise |
| GlDeletes.NoNameComesTwice | on-browser/src/envGl.ts:495-586 | as long as the counter is below 2 to the 32, no name that a program finds in memory is 0 or comes twice, names deleted in between included |
| GlDeletes.DeletedStaysAway | on-browser/src/envGl.ts:573-586 | the name of a deleted object is that of no object in any later run |
| GlNames.MadeIs | on-browser/src/envGl.ts:495-508 | new names follow the counter, and older entries stay |
| GlNames.WrittenIsRead | on-browser/src/envGl.ts:506-577 | a word written in little-endian order is read back modulo 2 to the 32 |
| GlNames.NameIsRead | on-browser/src/envGl.ts:506-577 | every name is read back where it was written |
| GlNames.RestIsKept | on-browser/src/envGl.ts:506 | nothing but the array of names is written |
| GlNames.NamesAreFresh | on-browser/src/envGl.ts:495-508 | below 32 bits the names in memory are not 0, differ, and belong to no older object |
| GlNames.GenThenDelete | on-browser/src/envGl.ts:495-586 | deleting the array just made restores the table and frees the objects in order, if and only if no name went past 32 bits |
| GlNames.BigNameIsLost | on-browser/src/envGl.ts:506-577 | an example: the object of the 2 to the 32-th name stays |
| GlPrograms.Env.GlCreateProgram | on-browser/src/envGl.ts:661-677 | the object takes the step of the model |
| GlPrograms.Env.GlUseProgram | on-browser/src/envGl.ts:1549-1564 | the object takes the step of the model; what that does to the calls behind it is said by GlUses.UsedStaysInUse and UseOfZeroStays |
| GlPrograms.Env.GlDeleteProgram | on-browser/src/envGl.ts:604-617 | the object takes the step of the model: WebGL is told to free the program, and the program in use is unset if it is this one; comparing objects is comparing ids, because no two ids share an object |
| GlPrograms.Env.GlGetUniformLocation | on-browser/src/envGl.ts:349-380 | the object takes the step of the model: cached id, -1, or a new id in all three maps |
| GlPrograms.ProgramInfo.Cache | on-browser/src/envGl.ts:374-379 | the new id is the number of names with the new one |
| GlPrograms.Env.GlUniform1f | on-browser/src/envGl.ts:937-950 | the object takes the step of the model: the value is sent to the location of the id |
| GlPrograms.StepKeepsInv | on-browser/src/envGl.ts:349-1564 | every call keeps: the maps agree, ids are the numbers from 1 on and differ, every program made is live or has been freed once, and the program in use is live and the one WebGL uses |
| GlPrograms.EveryRunKeepsInv | on-browser/src/envGl.ts:349-1564 | the same on every run |
| GlPrograms.LookupMakesKnown | on-browser/src/envGl.ts:349-380 | a lookup gives an id exactly if the name is cached or WebGL resolves it, and the id leads to the location it was first resolved to |
| GlPrograms.UniformReachesName | on-browser/src/envGl.ts:349-950 | after any run that keeps the program, a uniform set by the id reaches that location in that program; the name keeps its id and no other name has it |
| GlPrograms.DeletedIsGone | on-browser/src/envGl.ts:604-617 | a deleted program is freed and not in use, and its id is refused in every later run |
| GlUses.UsedStaysInUse | on-browser/src/envGl.ts:1549-1564 | a live program that is used is in use, here and in WebGL, through any calls that use none and do not delete it |
| GlUses.UseOfZeroStays | on-browser/src/envGl.ts:937-1564 | after a use of 0 no program is in use and setting a uniform is refused, through any calls that use none |
| GlUses.DeletedIsNotUsed | on-browser/src/envGl.ts:604-950 | likewise after the program in use has been deleted |
| GlUses.CreateAnswers | on-browser/src/envGl.ts:661-677 | a program is made under a number above those of all live programs, with nothing looked up yet |
| GlUses.ValueReachesUniform | on-browser/src/envGl.ts:349-1564 | from making a program over a lookup and a use to setting the uniform, with any calls between that keep the program and its use: the value goes to the location of the name in this program |
| GlUses.OnlyLiveProgramsAnswer | on-browser/src/envGl.ts:349-1564 | a number is good for a use, a delete or a lookup exactly if the calls have made a program under it and not deleted it since; otherwise nothing changes |
| RowAlignment.TestIsPow2 | on-browser/src/getSizePerPixel.ts:206-210 | the test passes if and only if the low 32 bits are a power of two or zero |
| RowAlignment.AndNegative | on-browser/src/getSizePerPixel.ts:211 | and with the negative of a power of two clears the bits below it |
| RowAlignment.RoundUpIsLeastMultiple | on-browser/src/getSizePerPixel.ts:205-212 | rounding up gives the least multiple if and only if the masked sum is below 2 to the 31 |
| RowAlignment.LeastMultipleIsLeast | on-browser/src/getSizePerPixel.ts:205-212 | that multiple is the least of all multiples not below x, and the only such number |
| RowAlignment.RoundUpWraps | on-browser/src/getSizePerPixel.ts:211 | just past the bound the result is negative |
| RowAlignment.ZeroAlignment | on-browser/src/getSizePerPixel.ts:206-211 | an alignment of 0 is let through and gives 0 |
| RowAlignment.ImageSizeIsStrides | on-browser/src/getSizePerPixel.ts:199-219 | the size is the height times the row stride of section 3.7 of the OpenGL ES 3.0 specification, in both of its cases |

## Left out

- TemplateLists.AnglesUndoEachOther: where a `;`, a shift, an arrow, ` >= ` or an operator name stands between the angles the two matchers read them differently, so no undoing is claimed there; what each of them answers is said by CloseExpressionAnswers and ReverseCloseExpressionAnswers.
- Regular expressions, Unicode tables and case conversion are parameters, but for the patterns that decide a scan, which are spelled out as tests on characters.
- The rest of cpplint: style checks, function and include state, error messages and previous_stack_top.
- PreprocessorNesting.NestingState.Update: which pushes, pops and changes of the top block a line makes is a parameter that may depend on the stack; the source finds them in the text of the line.
- PreprocessorNesting.DeepCopy: the fields that only some kinds of block have are one value of an unspecified type.
- PreprocessorNesting.NestingState.BeginElse: the entries of pp_stack are values that are replaced, not objects that are updated; they are referred to from nowhere else.
- CommentRemoval.FindNextMultiLineCommentStart: the test for a start line is a parameter of the loop and spelled out in IsStart, and likewise for the end.
- tokio itself: the broadcast and watch channels, Notify with one permit, the mutex and the unbounded channel are short specifications; atomic operations are sequentially consistent, so memory orderings are not modelled.
- The barrier benches run one script of messages; lagging receivers are modelled, closing the channel is not.
- ChatRoom.ChannelIsLogSlice: assumes that no two live sessions share an address, as TCP provides; socket errors end a session without its farewell, as in the code, and message texts are opaque but for who sent them.
- WorkerPool.ReturnMeansDone: a job is any sequence of lines and codes that depends on the job and the worker; hashing, gsutil, extraction and a job that raises are not modelled.
- SetJmp.TableIsMap: addresses count 32-bit words, ids and labels are unsigned, and fewer than 2 to the 32 saves are made; console output is left out.
- SetJmp.Runtime.Malloc: a block has the contents it happens to have, and does not overlap env; how the allocator finds it is left out.
- The word conversion at the boundary between WebAssembly and JavaScript, where ids from 2 to the 31 on arrive as negative numbers, is not modelled.
- CommentTokens.OrdinaryTextStays: what the case conversions do to a word is not modelled, only that a line break does not come out of a word that has none.
- The converter's first-line rule, its removal of comment delimiters and the composition of all passes in `convert`.
- NinjaDefinitions.FromNinjaFiles: the files' contents are given; reading them, choosing them by features, and panics' messages are left out.
- GlNames.NameTable.Delete: a negative count deletes nothing, as in the code, where OpenGL reports an error.
- GlNames.NameTable: tables of shaders, renderbuffers, framebuffers and samplers work alike and are not repeated; a missing WebGL context, where every call throws at once, is left out.
- GlPrograms.UniformReachesName: names are given as decoded strings, and linking a program again, after which WebGL may move its locations, is left out.
- All calls in `envGl.ts` that only forward to WebGL, and the table of pixel formats in `getSizePerPixel.ts`.
- RowAlignment.RoundUpIsLeastMultiple: sizes are not negative and alignments at most 2 to the 31; numbers are integers, which floating point represents exactly in that range.
- gclient and the other depot_tools scripts, bindgen and cargo output, the workflow generator, and drawing.
