# The algorithms of depot_tools, verified

A Dafny model of the parts of depot_tools whose correctness is not visible in any one function: the
scheduler that runs gclient's dependencies, the text scanners of cpplint, the condition language of
DEPS files, the download pool of `download_from_google_storage`, the reader of submodule diffs, and
the quoting of arguments for `cmd`. `dafny verify dfyconfig.toml` checks all of it.

## The scheduler

`Scheduler.dfy` is the protocol: `ExecutionQueue.flush` on the main thread and any number of worker
threads as interleaved atomic steps. Main holds the condition lock everywhere but in `wait`; a worker
needs the lock once, to notify, before it can die, and to enqueue. The body of an item is
nondeterministic: it may enqueue items, change what `requirements` reads, and end or raise.

- `SchedulerSafety.dfy`: what every step keeps, and from it the results about every reachable state:
  nothing starts after a failure was reaped, `ran` is a topological order, the job limit and the
  exclusion of shared resources hold, worker indices are 1..n in start order, no item is lost.
- `SchedulerLiveness.dfy`: runs as infinite sequences with fairness; `flush` ends, and has then run
  exactly what was enqueued, as long as no scan that ends with nothing running leaves items over.
- `SchedulerWork.dfy`: while a slot is free, main starts the first queued item that nothing keeps, by its own
  steps.
- `ExecutionQueue.dfy`: the code as a class. Each method is proved to take protocol steps only (`Valid`
  ties the fields to a run of the protocol), so all of the above holds of it.
- `Requirements.dfy`: `Dependency.requirements` and `subtree` over a tree that grows. Its relation can be
  ranked if and only if above a solution only solutions are checked out, and among the other
  dependencies no cycle leads from each to its parent or to one checked out above it
  (`WhenRankable`). `Graphs.dfy` has the graph theory behind this.
- `DependencyRuns.dfy`: the queue and the tree together, from the solutions that `RunOnDeps` enqueues to
  the dependencies that every body adds and enqueues. That whatever is required was enqueued by the end
  of a scan is proved, not assumed. Unless requirements are ignored, a fair run in which nothing raises
  ends, having run every processed dependency once, if and only if at no point a dependency that is no
  solution is in the tree above a solution that has not begun (`EndsIffNeverHeld`). Cycles among deeper
  dependencies are harmless, because a dependency is only found after its parent has begun. Only a
  dependency of a solution can do harm, and where the two solutions are above one another the tree alone
  decides, whatever the schedule (`EndsIffHarmless`).
- `AddingRaces.dfy`: bodies that verify and add dependencies at the same time, two steps each. Names stay
  distinct if and only if no two bodies have verified the same name at once; that is when the single step
  of `DependencyRuns` is what happens.
- `Deadlocks.dfy`: what a run that does not end looks like, and an example with three items and one job.
- `Annotated.dfy`, `AnnotatedThreads.dfy`: `Annotated.write`, and threads that call it at the same time.
  The unlocked reads and stores are steps of their own. Output is kept apart in every interleaving if
  and only if no two buffered threads share an index, and those of the queue do not.

## cpplint

- `Brackets.dfy`, `BracketLaws.dfy`: the forward and backward bracket matchers with their template
  heuristics, and `_GetTextInside`. From `(`, `[` or `{` all three are a plain matcher over the joined
  text, and forward and backward undo each other.
- `BracketGrammar.dfy`: what they find, as a grammar. From a bracket, the end of balanced text and its closer,
  and nothing else; from `<`, on one line, the end of template arguments.
- `Nesting.dfy`, `NestingState.dfy`: the stack of blocks. A line comes as what the regular expressions
  find in it. `Nesting` has the values and the theorem about `#if`/`#else`/`#endif`; `NestingState` has
  the blocks as objects that change in place and the deep copies in the checkpoints. `NestingLaws.dfy` says
  what each kind of line pushes, marks and pops, on any stack.
- `Cleansing.dfy`, `Quotes.dfy`, `Comments.dfy`, `CleansedLines.dfy`: raw strings, quoted text, comments
  of several lines, and the four versions of a file. `CleansingLaws.dfy` says for lines that are written out
  what comes of each kind of text in them.

## Conditions, tokens, pool, parsers

- `Conditions.dfy`: `EvaluateCondition` over syntax trees. It ends on every input; a value is the value
  of the fully expanded condition; cycles are reported only where there are some. `ConditionLaws.dfy` gives
  the value, or the error, of every operator for all operands.
- `DepsConditions.dfy`: combining conditions: `UpdateCondition`, `_MergeDepsOs`, `merge_conditions`, and
  what a dependency inherits from its ancestors.
- `HookConditions.dfy`: `hooks_os`, and which hooks run.
- `DepsLaws.dfy`: what becomes of one entry of `deps_os`, `hooks_os` and `deps`, with its condition evaluated.
- `Tokens.dfy`: the token edit of `AddVar`.
- `WorkerPool.dfy`: the queues, sentinels and threads of `download_from_google_storage`.
- `SubmoduleDiff.dfy`: `GetSubmoduleDiff` undoes the rendering of a diff.
- `CmdQuoting.dfy`: `_quote_for_cmd` against the reading rules of `cmd` and `CommandLineToArgvW`.
- `Strings.dfy`: shared definitions about text.

## Where the code differs from what it says

- `requirements` is documented as leading to an orderly run. When a dependency that is no solution is
  added above a solution that has not begun, the solution requires it, while its ancestor on the second
  level, or it itself, requires all solutions: neither is ever started and `flush` polls for ever
  (`DependencyRuns.EndsIffNeverHeld`, `Deadlocks.DeeperAboveDeadlocks`).
- A variable that stands for a tuple is not accepted after `in`, although the tuple written out is
  (`Conditions.TupleVariableDiffers`). Evaluation is exactly that of the expanded condition if and only if
  it comes to no such variable, or the expanded condition fails in the same way
  (`Conditions.ExactIffNoTupleMet`).
- `GetSubmoduleDiff` keeps the tab with which git ends a path that holds a blank
  (`SubmoduleDiff.PathReadsBack`).
- A negative `--num_threads` passes the test for a missing one and starts no worker: nothing is
  downloaded and the result is 0 (`WorkerPool.NoWorkersIffNegative`, `WorkerPool.NoWorkersNoWork`).
- `Annotated.write` goes on without its lock. Every buffered thread keeps its own output in every
  interleaving if and only if no two of them have the same index (`AnnotatedThreads.KeptIffOwnIndices`);
  of any two that have, the one can lose its text (`AnnotatedThreads.SharedIndexLosesText`).
- `verify_validity` is meant to admit a name once, but the tree is free between it and `add_dependency`:
  names stay distinct if and only if no two bodies have verified the same one at once
  (`AddingRaces.ValidIffNoRace`).
- `AddVar` means to raise `ValueError` when `vars` has no formatting information, but its format string
  makes that a `TypeError` (`depot_tools/gclient_eval.py:730-732`); `Tokens.GclientDict.AddVar` follows the
  code.
- `_quote_for_cmd` loses a backslash at the end of a quoted argument, and a tab in one that is not
  quoted splits it; `CmdQuoting.QuoteRoundTrip` says that these are all the cases.
- The comment at `depot_tools/cpplint.py:2827-2829` says that blocks are not modified in place; they are,
  and `NestingStates.NestingState.Update` shows that the saved stacks do not see it.
- `Parse` maps `unix` to `linux` for `deps_os` but not for `hooks_os`
  (`depot_tools/gclient_eval.py:504` and line 575). A hook listed for `unix` runs on every system if it has
  no condition, and is an error if it has one (`HookConditions.UnixHooks`).

## Model

| member | source | states |
|---|---|---|
| SchedulerSafety.NothingStartsAfterFailure | depot_tools/gclient_utils.py:943-981 | In every reachable state, with unique names, a step that starts an item happens only while no item whose run raised is in `ran`; so nothing starts that requires one |
| SchedulerSafety.RanIsTopologicalOrder | depot_tools/gclient_utils.py:959-970 | Every name in `ran` belongs to a start that found all its requirements, read then, in `ran` before it |
| SchedulerSafety.LimitsRespected | depot_tools/gclient_utils.py:930-970 | At most `jobs` workers, and no two of them with a common resource |
| SchedulerSafety.WorkerIndicesUnique | depot_tools/gclient_utils.py:1051-1057 | With more than one job the starts have the indices 1..n in their order, and no two running workers share one |
| SchedulerSafety.EnqueuedIsConserved | depot_tools/gclient_utils.py:891-1049 | Enqueued = queued + running + ran + dropped after a failure, as multisets of names |
| SchedulerSafety.ConfusedOnlyByRepeats | depot_tools/gclient_utils.py:1045-1049 | The "gclient is confused" error comes only of a name that was enqueued twice |
| SchedulerSafety.FlushOutcome | depot_tools/gclient_utils.py:976-1028 | When `flush` is over, nothing is queued or running; it re-raises exactly when some body raised, and otherwise has run exactly what was enqueued |
| SchedulerSafety.InvStep | depot_tools/gclient_utils.py:943-1126 | Every step of main or of a worker keeps the invariant behind the results above |
| SchedulerWork.FreeSlotIsUsed | depot_tools/gclient_utils.py:953-974 | In a reachable state at the test of the inner loop, with fewer than `jobs` running, the first queued item whose requirements are in `ran` and whose resources no running item has is started by main's own steps: one for the test, one for every item before it, and one for it |
| SchedulerLiveness.NeverWaitsForNothing | depot_tools/gclient_utils.py:959-981 | Where, once a scan has ended with nothing running, what queued items require was enqueued and can be ranked below them, nothing is queued any more |
| SchedulerLiveness.NotStrandedTerminates | depot_tools/gclient_utils.py:939-1018 | Every fair run with finitely many items ends in which no scan that ends with nothing running leaves items over |
| SchedulerLiveness.FlushTerminates | depot_tools/gclient_utils.py:939-1018 | So every fair run with finitely many items ends whose requirements are ranked wherever a scan has ended with nothing running; nothing is asked of the states inside a body |
| SchedulerLiveness.FlushRunsEverything | depot_tools/gclient_utils.py:939-1018 | If moreover no body raises, names are unique and nobody interrupts, `flush` returns and `ran` is a permutation of what was enqueued |
| ExecutionQueues.ExecutionQueue.Enqueue | depot_tools/gclient_utils.py:891-908 | Before `flush`: the item is last in the queue, and nothing else changes |
| ExecutionQueues.ExecutionQueue.WorkerStep | depot_tools/gclient_utils.py:1097-1126 | One step of a worker's body or of `_Worker.run` is the protocol's step |
| ExecutionQueues.ExecutionQueue.IsConflict | depot_tools/gclient_utils.py:930-937 | True exactly when a running item shares a resource with the job |
| ExecutionQueues.ExecutionQueue.FlushTerminatedThreads | depot_tools/gclient_utils.py:1030-1049 | Unless it ends confused: no thread that was dead is still listed and what it ran is in `ran`, and every other is listed or in `ran`, whatever workers do meanwhile; the queue is unchanged |
| ExecutionQueues.ExecutionQueue.RunOneTask | depot_tools/gclient_utils.py:1051-1084 | The item leaves the queue and one start of it, with its requirements in `ran`, is logged; it is now running on a worker with the next index, or with one job it has run and is in `ran`, or raised and is not |
| ExecutionQueues.ExecutionQueue.StartOne | depot_tools/gclient_utils.py:959-974 | Either one queued item without a conflict, whose requirements had run, was started; or queue, `ran` and log are unchanged, and then every item missed a requirement or shared a resource with a running item when the scan came to it; with nothing running every item misses a requirement, and with requirements ignored every item has a conflict |
| ExecutionQueues.ExecutionQueue.CheckExceptions | depot_tools/gclient_utils.py:948-952 | If there was an exception the queue is empty; otherwise it is as before, unless a worker has put one meanwhile and it is empty; nothing starts |
| ExecutionQueues.ExecutionQueue.FlushPass | depot_tools/gclient_utils.py:945-981 | One pass of the outer loop ends, at the wait or at the end of `flush`; only protocol steps; a wait with fewer than `jobs` running leaves only items that missed a requirement or shared a resource with a running item |
| ExecutionQueues.ExecutionQueue.Flush | depot_tools/gclient_utils.py:939-1028 | Only reachable states; returning means that all that was enqueued has run and nothing raised, re-raising that something did; stopping at a wait with a free slot means that every queued item missed a requirement or met a resource in use |
| Requirements.SubtreeMember | depot_tools/gclient.py:1502-1510 | `subtree` yields exactly the nodes below the root of it that are to be processed, all of them if asked |
| Requirements.RequiresWhat | depot_tools/gclient.py:604-634 | A dependency requires exactly its parent, the first level if it is on the second, and what is processed and has a path that is its own up to a slash: a name, `/` and some rest, or a name that ends in `/` and some rest |
| Requirements.WhenRankable | depot_tools/gclient.py:604-634 | Exactly when the requirements of a tree can be ranked: above a solution only solutions are checked out, and among the other dependencies there is no cycle of parents and of what is checked out above |
| Requirements.RequirementsDecrease | depot_tools/gclient.py:604-634 | (depth, name length) falls along every requirement if and only if nothing is checked out above a less deep dependency |
| Requirements.NoDeeperAboveIsRankable | depot_tools/gclient.py:604-634 | And then it is such a rank, so the requirements can be ranked |
| DependencyRuns.TreeInvStep | depot_tools/gclient.py:1319-1338 | Every step of a run over a growing tree keeps: enqueued names are distinct and those of processed dependencies; each of these was enqueued or its parent's body is still to do so or has raised; parents have begun; once a dependency of a solution has begun all solutions have run |
| DependencyRuns.StrandedIsHeld | depot_tools/gclient_utils.py:959-981 | If a scan leaves items over with nothing running, some solution that has not begun is below the path of a dependency that is no solution |
| DependencyRuns.EndsUnlessHeld | depot_tools/gclient.py:2433-2442 | Every fair run over a finite tree ends, raising or not, if that never happens or requirements are ignored |
| DependencyRuns.EndsIffNeverHeld | depot_tools/gclient.py:2433-2442 | A fair run over a finite tree in which nothing raises or interrupts ends if and only if that never happens |
| DependencyRuns.DepsRunEverything | depot_tools/gclient.py:2433-2442 | And then `ran` holds every processed dependency of the final tree exactly once, and nothing else |
| DependencyRuns.HeldByChild | depot_tools/gclient.py:604-634 | What holds a solution back is a dependency of another solution, and the held one is not above that other |
| DependencyRuns.HarmlessEnds | depot_tools/gclient.py:604-634 | Every fair run over finite trees ends, whatever the schedule and raising or not, in which dependencies of a solution are above no other solutions than those above that solution |
| DependencyRuns.NoDeepAboveFirstEnds | depot_tools/gclient.py:604-634 | In particular where only solutions are ever above solutions |
| DependencyRuns.ParentAboveNeverEnds | depot_tools/gclient.py:604-634 | No run in which nothing raises or interrupts ends that ever has a dependency of a solution above another solution that the first is above as well |
| DependencyRuns.EndsIffHarmless | depot_tools/gclient.py:604-634 | So where, whenever a dependency of one solution is above another, the solutions are above one another or the same, the trees alone decide whether such a fair run ends |
| AddingRaces.ClearStep | depot_tools/gclient.py:641-670 | As long as there is no race, a step of any body leaves a valid tree, and what was verified can still be added |
| AddingRaces.AdditionIsOneStep | depot_tools/gclient.py:1131-1138 | Then adding is the one step that runs over a tree take |
| AddingRaces.ValidIffNoRace | depot_tools/gclient.py:641-670 | Once all that was verified has been added, the tree is valid, names of processed dependencies distinct, if and only if at no point two bodies had verified the same name |
| AddingRaces.VerifyLaw | depot_tools/gclient.py:641-670 | A name that is nowhere is accepted, one of a sibling or of a processed dependency is not; one that only others have that are not processed is accepted for a processed dependency alone |
| AddingRaces.RaceHappens | depot_tools/gclient.py:641-670 | From any valid tree two bodies can verify the same new dependency and both add it, and the tree is not valid then |
| DependencyRuns.TreeIsRanked | depot_tools/gclient.py:604-634 | At every point of a run a tree that can be ranked gives the scheduler its assumption: what is required was enqueued and is ranked lower |
| DependencyRuns.RankableTreesEnd | depot_tools/gclient.py:604-634 | So a fair run over trees that can be ranked ends |
| Deadlocks.DeadlockIsForever | depot_tools/gclient_utils.py:959-981 | Once nothing runs and every queued item misses a requirement, no step of anyone changes that |
| Deadlocks.EndsOrDeadlocks | depot_tools/gclient_utils.py:939-1018 | A fair run with finitely many items ends or gets there |
| Deadlocks.DeeperAboveDeadlocks | depot_tools/gclient.py:604-634 | Two solutions `p` and `a/b/c`, `p` adding `a/b`, one job: a reachable state from which `flush` polls for ever |
| Annotated.NothingLost | depot_tools/gclient_utils.py:455-470 | The emitted segments and the tail are the input without its terminators; every segment is non-empty and ends in CR or LF |
| Annotated.LineLaw | depot_tools/gclient_utils.py:455-470 | Text up to a carriage return or a line feed goes out as one segment with that character, unless it is empty; text with neither is held |
| Annotated.CutConcat | depot_tools/gclient_utils.py:447-470 | Splitting the input into several writes emits the same segments |
| Annotated.AnnotatedFile.EmitLines | depot_tools/gclient_utils.py:456-470 | The loop ends and emits exactly the segments of the buffer under the given index, keeping its tail |
| Annotated.AnnotatedFile.Write | depot_tools/gclient_utils.py:431-470 | `write` emits the segments of held text and new text, keeps the rest, and touches no other buffer |
| AnnotatedThreads.ThreadsDoNotMix | depot_tools/gclient_utils.py:431-470 | In any interleaving of the single reads and stores of `write`, as long as buffered threads have different indices: what a thread has written, has split off and is still to cut is the cut of its own input, and no split fails |
| AnnotatedThreads.ThreadOutput | depot_tools/gclient_utils.py:431-470 | Whenever such a thread is outside `write`, exactly the segments of its own input are out under its index and its buffer holds the tail |
| AnnotatedThreads.WorkersDoNotMix | depot_tools/gclient_utils.py:1051-1057 | This holds of all workers that the queue starts with more than one job, ended ones included, because of their indices |
| AnnotatedThreads.SharedIndexLosesText | depot_tools/gclient_utils.py:447-470 | Whatever the indices, if two buffered threads share one there is an interleaving that ends with both outside `write`, nothing out, and the text of the first gone |
| AnnotatedThreads.KeptIffOwnIndices | depot_tools/gclient_utils.py:431-470 | In every interleaving every buffered thread keeps its output if and only if no two of them share an index |
| AnnotatedThreads.CallLaw | depot_tools/gclient_utils.py:431-452 | A call with index 0 is written through at once unless zero is included; any other finds or makes its buffer and writes nothing yet |
| Brackets.FindEndOfExpressionInLine | depot_tools/cpplint.py:1728-1804 | The loop with all its heuristics computes the recursive scan |
| Brackets.CloseExpression | depot_tools/cpplint.py:1807-1848 | The loop over lines computes `Close` |
| Brackets.FindStartOfExpressionInLine | depot_tools/cpplint.py:1851-1924 | The backward loop computes the recursive scan |
| Brackets.ReverseCloseExpression | depot_tools/cpplint.py:1927-1964 | The backward loop over lines computes `ReverseClose` |
| Brackets.GetTextInside | depot_tools/cpplint.py:4894-4910 | The loop returns the text up to the matching closer, or nothing |
| BracketLaws.CloseIsPlain | depot_tools/cpplint.py:1728-1848 | From `(`, `[` or `{`, over any number of lines, `CloseExpression` is a plain matcher over the joined text: `<`, `>`, `<<`, `->`, `operator` and `;` are noise |
| BracketLaws.ReverseIsPlain | depot_tools/cpplint.py:1851-1964 | The same for `ReverseCloseExpression` from `)`, `]` or `}` |
| BracketLaws.ReverseUndoesClose | depot_tools/cpplint.py:1807-1964 | Reversing from where the close was found gives back the start |
| BracketLaws.CloseUndoesReverse | depot_tools/cpplint.py:1807-1964 | And conversely |
| BracketLaws.CloseIsTextInside | depot_tools/cpplint.py:4894-4910 | `_GetTextInside` on the joined text and `CloseExpression` find the same span, or both none |
| BracketGrammar.CloseIffBracketed | depot_tools/cpplint.py:1728-1848 | From `(`, `[` or `{`, over any number of lines, an end is found exactly where balanced text and the closer of that bracket end |
| BracketGrammar.ReverseIffBracketed | depot_tools/cpplint.py:1851-1964 | From `)`, `]` or `}`, a start is found exactly where a bracket, balanced text and this closer of it start |
| BracketGrammar.TemplateLaw | depot_tools/cpplint.py:1741-1924 | From `<` on one line: after nested brackets of all four kinds, `->` and `<<`, the `>` that closes it is found, and from there the `<` again; a `;` or a closing bracket instead is a failure |
| BracketGrammar.TemplateOnLine | depot_tools/cpplint.py:1807-1964 | The same of `CloseExpression` and `ReverseCloseExpression`; `<<`, `<=` and other characters start nothing |
| BracketGrammar.OperatorIs | depot_tools/cpplint.py:1754 | The word `operator` at the end, with spaces behind it, is seen |
| BracketGrammar.OperatorOf | depot_tools/cpplint.py:1754 | And where it is seen it is there, as a word |
| Nesting.BracesMatch | depot_tools/cpplint.py:2939-2977 | Matched braces leave the stack exactly as it was; a class or namespace head on top goes with its own braces, or with a semicolon before them |
| Nesting.StepCounted | depot_tools/cpplint.py:2755-2811 | A line outside skipped branches acts on the stack that counts; any other line leaves it alone |
| Nesting.AnyFile | depot_tools/cpplint.py:2755-2811 | For any lines, well nested or not, the stack that counts is that of the lines outside skipped branches |
| Nesting.PartsKeep | depot_tools/cpplint.py:2766-2774 | In a well-nested file those lines are exactly the ones outside the stretches from the first `#else` or `#elif` up to the matching `#endif` |
| Nesting.WellNestedFile | depot_tools/cpplint.py:2766-2811 | So the final stack is that of the file with these stretches taken out |
| Nesting.BranchStartsBeforeIf | depot_tools/cpplint.py:2782-2796 | Every branch is read with the stack from before the `#if` |
| NestingStates.DeepCopy | depot_tools/cpplint.py:2780 | New blocks with the old values, none shared |
| NestingStates.NestingState.UpdatePreprocessor | depot_tools/cpplint.py:2755-2811 | The value of stack and checkpoints is that of the specification, and no block is held by two of them |
| NestingStates.Block.CountParentheses | depot_tools/cpplint.py:2838-2858 | The in-place update of the innermost block: parentheses and the state of an assembly block |
| NestingStates.NestingState.ConsumeTokens | depot_tools/cpplint.py:2939-2977 | Braces, semicolons and closing parentheses push, mark and pop blocks as specified; checkpoints keep their values |
| NestingStates.NestingState.Update | depot_tools/cpplint.py:2814-2977 | One line changes the value of the whole state as specified, saved stacks included: no in-place update leaks into a checkpoint |
| NestingLaws.ClassLaw | depot_tools/cpplint.py:2887-2920 | A class head outside parentheses pushes a class of its name, open if `{` follows; access is `public` for a struct and `private` for a class unless a specifier follows |
| NestingLaws.NoClassLaw | depot_tools/cpplint.py:2891-2906 | A template argument, or a head inside open parentheses, counts for nothing |
| NestingLaws.NamespaceLaw | depot_tools/cpplint.py:2863-2880 | The namespaces of a line are pushed in their order, each open if its brace is there |
| NestingLaws.OpenLaw | depot_tools/cpplint.py:2947-2958 | `{` opens a head that is not open; otherwise `extern "C" {` pushes a block of its own kind and other braces plain blocks, those of assembly marked |
| NestingLaws.PopLaw | depot_tools/cpplint.py:2960-2976 | `}` pops the innermost block if there is one; `;` and `)` pop a head that is not open and nothing else |
| NestingLaws.TokensLaw | depot_tools/cpplint.py:2939-2977 | The tokens of a line act one after another |
| NestingLaws.AccessLaw | depot_tools/cpplint.py:2913-2920 | An access specifier is remembered by the innermost block if that is a class |
| NestingLaws.ColonLaw | depot_tools/cpplint.py:2519-2522 | A bare colon makes a class derived while its head is not open |
| NestingLaws.ParenthesesLaw | depot_tools/cpplint.py:2838-2858 | Parentheses add up in the innermost block, and the states of an assembly statement follow them |
| NestingLaws.OrderLaw | depot_tools/cpplint.py:2838-2977 | A line does this in order: parentheses, namespaces, class head with colon and access, and then the tokens, those behind the head if it counts |
| NestingLaws.AsmLaw | depot_tools/cpplint.py:2838-2977 | An open assembly statement changes nothing but marks: any line leaves the blocks that it leaves without one |
| NestingLaws.MarksLaw | depot_tools/cpplint.py:2845-2858 | And the marks of blocks that it cannot pop are those its parentheses give |
| NestingStates.ProcessFile | depot_tools/cpplint.py:6260-6275 | The loop over a file leaves blocks with the values of the specification; for well-nested conditionals those of the lines outside skipped branches |
| Cleansing.CleanseLine | depot_tools/cpplint.py:1534-1563 | The loop over one line ends, each round shortening the line, and computes the specification |
| Cleansing.CleanseRawStrings | depot_tools/cpplint.py:1493-1568 | As many lines as before; the match for the leading space never fails |
| Cleansing.NoRawStringsLeft | depot_tools/cpplint.py:1493-1568 | Afterwards no line has a raw string that does not stand behind `//` |
| Cleansing.CleansingIsIdempotent | depot_tools/cpplint.py:1493-1568 | Cleansing twice is cleansing once |
| Cleansing.CleanLinesStay | depot_tools/cpplint.py:1493-1568 | Lines without raw strings come out as they are |
| Cleansing.InsideIsBlank | depot_tools/cpplint.py:1516-1532 | In a raw string over several lines the inner lines become `""`, and the last keeps its indentation and what follows the delimiter |
| CleansingLaws.RawAtIff | depot_tools/cpplint.py:1545-1546 | A raw string starts exactly where one of the five prefixes and a quote stand at the start of a word, followed by delimiter characters and a parenthesis |
| CleansingLaws.RawStringLaw | depot_tools/cpplint.py:1549-1557 | A raw string that ends on its line becomes `""`, with the text before and behind it unchanged |
| CleansingLaws.OpenRawStringLaw | depot_tools/cpplint.py:1558-1560 | One that does not cuts the line, which then ends in `""`; its delimiter is looked for from the next line on |
| CleansingLaws.InsideLaw | depot_tools/cpplint.py:1527-1529 | A line without the delimiter becomes `""` |
| CleansingLaws.ResumeLaw | depot_tools/cpplint.py:1516-1526 | The line with the delimiter keeps its indentation, has `""` behind it and then what follows the delimiter |
| Quotes.CollapseQuotes | depot_tools/cpplint.py:1681-1725 | The loop ends, digit separators included, and computes `Collapse` |
| Quotes.CollapseCollapses | depot_tools/cpplint.py:1681-1725 | Every closed quotation in the result is empty |
| Quotes.CollapseIsIdempotent | depot_tools/cpplint.py:1681-1725 | Collapsing twice is collapsing once |
| CleansingLaws.NumberEnds | depot_tools/cpplint.py:1710 | A text ends in a number if it ends in a digit, or `0b` or `0x`, at the start of a word, and hexadecimal digits |
| CleansingLaws.NumberOf | depot_tools/cpplint.py:1710 | And only then |
| CleansingLaws.SeparatorLaw | depot_tools/cpplint.py:1710-1714 | After a number, the longest run of word characters with single separators goes on with the separators taken out |
| CleansingLaws.QuotationLaw | depot_tools/cpplint.py:1690-1723 | Any other quotation becomes a pair of its quotes; a quote without a second one leaves the rest as it is |
| CleansedLines.CollapseStrings | depot_tools/cpplint.py:1659-1725 | An `#include` line stays; in what comes of any other every closed quotation is empty |
| CleansedLines.LiteralIsEmptied | depot_tools/cpplint.py:1674-1708 | A string literal becomes `""` as a whole, whatever quotes and backslashes are escaped in it, and the text before it stays |
| CleansedLines.StringsAreCollapsed | depot_tools/cpplint.py:1659-1725 | In what comes of a line that is no `#include` every closed quotation is empty |
| CleansingLaws.EscapeLaw | depot_tools/cpplint.py:1454-1455 | An escaped character goes with its backslash, and so do all digits after a backslash and all hexadecimal digits after `\x` |
| CleansingLaws.PlainLaw | depot_tools/cpplint.py:1676 | Everything else stays, a backslash with none of these behind it included |
| CleansingLaws.IncludeLaw | depot_tools/cpplint.py:1670-1671 | A line stays that has `#`, the word `include`, an opening and later a closing mark, and only spaces between; every other line is collapsed |
| CleansedLines.CleansedLines.constructor | depot_tools/cpplint.py:1641-1652 | All four arrays have the length of the file, and each entry is made of the line at its place |
| Comments.RemoveMultiLineComments | depot_tools/cpplint.py:1571-1612 | The loops end; a line is blanked exactly when, reading line by line, it belongs to a comment that ends, and the error is reported, for the line that starts the comment, exactly when the file ends inside one |
| Comments.FindNextMultiLineCommentStart | depot_tools/cpplint.py:1571-1579 | The first line from there on that starts a comment and does not end it, or the number of lines |
| Comments.FindNextMultiLineCommentEnd | depot_tools/cpplint.py:1582-1588 | The first line from there on that ends a comment, or the number of lines |
| Comments.NothingLeft | depot_tools/cpplint.py:1599-1612 | Afterwards no line that starts a comment has a line that ends one at or after it |
| Comments.RemoveIsIdempotent | depot_tools/cpplint.py:1599-1612 | Removing twice is removing once |
| CleansingLaws.CommentIff | depot_tools/cpplint.py:1574-1586 | Stripped of spaces, a line starts a comment exactly when it starts with the opening mark and has no closing mark behind it, and ends one exactly when it ends with the closing mark |
| CleansingLaws.FirstCommentLaw | depot_tools/cpplint.py:1591-1612 | The lines before the first comment stay, each of its lines becomes an empty comment, and what follows is read afresh |
| CleansingLaws.OpenCommentLaw | depot_tools/cpplint.py:1606-1610 | A comment that never ends stays |
| Conditions.ValueIsValueOfExpansion | depot_tools/gclient_eval.py:582-681 | A value that comes back is the value of the condition with all string variables expanded, in no more rounds than there are variables |
| Conditions.ReportedCycleIsReal | depot_tools/gclient_eval.py:598-617 | A reported cycle can be reached from the condition and comes back to the reported variable |
| Conditions.RealCycleHasNoValue | depot_tools/gclient_eval.py:582-681 | A condition that can reach a cycle has no value |
| Conditions.ExactIffNoTupleMet | depot_tools/gclient_eval.py:582-681 | Without cycles the outcome is that of the expanded condition, errors included, if and only if evaluation comes to no variable for a tuple after `in`, or the expanded condition fails with an unexpected node too |
| Conditions.AcyclicIsExact | depot_tools/gclient_eval.py:582-681 | Without cycles, and where no variable for a tuple follows `in`, even the errors are those of the expanded condition |
| Conditions.InDiffersIffTuple | depot_tools/gclient_eval.py:593-674 | For one comparison with `in` and a name whose left side has a value: where the name stands for a tuple, the outcome differs from that of the expanded condition unless the elements fail with the same error; otherwise exactly when the outcome of the name by itself does |
| Conditions.TupleVariableDiffers | depot_tools/gclient_eval.py:593-681 | A variable for a tuple after `in` fails although the expanded condition is true |
| ConditionLaws.NameLaw | depot_tools/gclient_eval.py:598-623 | `True`, `False` and `None` stand for themselves, another name for its native variable, and without a variable for its own text |
| ConditionLaws.FormulaLaw | depot_tools/gclient_eval.py:615-617 | A string variable with a value has that of the condition it stands for |
| ConditionLaws.LiteralLaw | depot_tools/gclient_eval.py:592-627 | Strings and the three constants are their own values; a tuple by itself and any other node is an error |
| ConditionLaws.NotLaw | depot_tools/gclient_eval.py:647-652 | `not` turns a boolean around, refuses any other value and passes errors on |
| ConditionLaws.BoolOpLaw | depot_tools/gclient_eval.py:629-645 | `or` of any list of booleans is true exactly when one of them is, `and` exactly when all are |
| ConditionLaws.BoolOpFails | depot_tools/gclient_eval.py:629-645 | The first operand that is no boolean, or fails, decides the error, whatever comes before or after |
| ConditionLaws.EqualLaw | depot_tools/gclient_eval.py:668-669 | `==` of two strings, booleans or numbers says whether they are equal, `True` being 1; things of different kinds differ |
| ConditionLaws.NotEqualLaw | depot_tools/gclient_eval.py:670-671 | `!=` is the opposite |
| ConditionLaws.InStringLaw | depot_tools/gclient_eval.py:672-673 | A string is in another exactly when it is a part of it |
| ConditionLaws.InTupleLaw | depot_tools/gclient_eval.py:664-673 | A string is in a tuple of strings, written out or native, exactly when it is one of them |
| ConditionLaws.InNothingLaw | depot_tools/gclient_eval.py:672-673 | `in` anything else is an error |
| ConditionLaws.CompareFails | depot_tools/gclient_eval.py:654-676 | One operator and one comparator are needed; errors of the left side come first; other operators are errors |
| DepsConditions.UpdatedMeaning | depot_tools/gclient_eval.py:520-535 | Updating with `and` conjoins and with `or` disjoins, absent meaning true, wherever both sides are boolean |
| DepsConditions.DepInfo.UpdateCondition | depot_tools/gclient_eval.py:520-535 | The in-place update of one entry's condition |
| DepsConditions.MergeConditions | depot_tools/gclient_utils.py:1391-1401 | The loop computes the fold over all conditions |
| DepsConditions.MergedMeaning | depot_tools/gclient_utils.py:1391-1401 | The fold holds exactly when all its conditions hold |
| DepsConditions.DepsFile.MergeDepsOs | depot_tools/gclient_eval.py:489-517 | The in-place merge has the values, and the errors, of the specification; an entry already in `deps` is replaced and never written to |
| DepsConditions.MergingKeepsMeaning | depot_tools/gclient_eval.py:564-569 | After folding all `deps_os` sections a dependency is enabled exactly when its own entry was, or a section lists it with a url and both its system and its condition there hold |
| DepsConditions.MergingSucceeds | depot_tools/gclient_eval.py:489-517 | Merging raises exactly when an entry has no `url` key to compare or two urls for one name differ |
| DepsConditions.PostprocessDeps | depot_tools/gclient.py:672-719 | The entries taken and their completed conditions, updated in place |
| HookConditions.MergeHooksOs | depot_tools/gclient_eval.py:571-577 | Every listed hook is appended in order and has the condition of its system added in place; no other hook changes |
| HookConditions.DecidedIffBool | depot_tools/gclient.py:243-247 | A listed hook runs exactly when its own condition and its system ask for it, if and only if `checkout_<os>` is boolean, or counts as false while the hook has no condition |
| HookConditions.UnixHooks | depot_tools/gclient_eval.py:571-577 | Without a variable of that name, a hook listed for `unix` runs always, or raises if it has a boolean condition |
| DepsConditions.StoredIsConjunction | depot_tools/gclient.py:711-719 | At every depth of the tree the stored condition holds exactly when the declared one and those of all ancestors hold |
| DepsConditions.ObjectCondition | depot_tools/gclient.py:811-827 | The condition of an object in a bucket: that conjunction and its own |
| DepsLaws.UpdatedLaw | depot_tools/gclient_eval.py:520-535 | The condition after an update evaluates to the conjunction or the disjunction of what the two evaluate to; after `or` with one of them absent there is none |
| DepsLaws.SystemLaw | depot_tools/gclient_eval.py:504-575 | The variable of a system is `checkout_linux` for `unix` and `checkout_<os>` for the others; hooks use `checkout_<os>` always |
| DepsLaws.ListedLaw | depot_tools/gclient_eval.py:489-517 | An entry with a url is stored, alone under its name, with a condition that evaluates to its own and its system, or that of the entry it meets |
| DepsLaws.UnlistedLaw | depot_tools/gclient_eval.py:495-514 | An entry without a url is passed over; a missing `url` key and a different url are errors |
| DepsLaws.ListedHookLaw | depot_tools/gclient_eval.py:571-577 | A hook listed for a system runs exactly when its own condition holds and its system is checked out |
| DepsLaws.HookLaw | depot_tools/gclient.py:243-247 | A hook runs unless its condition has a value that counts as false; errors are raised |
| DepsLaws.TakenLaw | depot_tools/gclient.py:672-719 | An entry is taken exactly when the file is synced or a custom dependency gives it a url that does not end in `@unmanaged`; its url is its own or the custom one, and its condition evaluates to its own and that of the parent |
| DepsLaws.StoredLaw | depot_tools/gclient.py:711-719 | One level further down: the stored condition of the level above and the declared one |
| Tokens.ShiftLinesInTokens | depot_tools/gclient_eval.py:701-708 | The new map has every token, mutated in place, and nothing else: those from the line on with start line and end line raised by the amount and text and columns as they were, the others unchanged |
| Tokens.ShiftIsInjective | depot_tools/gclient_eval.py:701-708 | Moving lines down maps different positions to different ones |
| Tokens.InsertionUndone | depot_tools/gclient_eval.py:729-762 | Taking the inserted line out and moving back restores the original tokens |
| Tokens.ShiftUnique | depot_tools/gclient_eval.py:701-708 | The shifted map is determined by the original |
| Tokens.GclientDict.AddVar | depot_tools/gclient_eval.py:711-762 | The errors, in their order, leave everything as it was; otherwise no token is lost or added but the given ones, which fill exactly the vacated line: start and end of every token from that line on are one line further down, and start and end of the given ones are raised by that line less 2 |
| WorkerPool.InvStep | depot_tools/download_from_google_storage.py:276-441 | Every step of main, a worker or the printer keeps the invariant of the queues |
| WorkerPool.PoolOutcome | depot_tools/download_from_google_storage.py:519-563 | With at least one worker, in any interleaving: every job taken once, one sentinel for each worker, every emitted line printed in order before the printer stops, result the largest of 0 and all codes |
| WorkerPool.PoolEnds | depot_tools/download_from_google_storage.py:519-563 | Every run ends after boundedly many steps, and only with main finished |
| WorkerPool.AllAtOnce | depot_tools/download_from_google_storage.py:519-545 | No worker waits for another: for any number up to that of workers and of jobs there is a run in which so many workers are in the middle of a job of their own at once |
| WorkerPool.NoWorkersNoWork | depot_tools/download_from_google_storage.py:526-548 | Called with no workers it downloads nothing and returns 0 |
| WorkerPool.MaxReturnCode | depot_tools/download_from_google_storage.py:553-555 | The loop computes the largest of 0 and the codes |
| SubmoduleDiff.GetSubmoduleDiff | depot_tools/gclient_scm.py:286-324 | The loop computes the run of the state machine over the lines |
| SubmoduleDiff.DiffReadsBack | depot_tools/gclient_scm.py:286-324 | On the rendering of any sections it returns exactly the modified gitlinks whose hashes are not all zeros, under their paths as git writes them, later sections winning |
| SubmoduleDiff.DiffEntries | depot_tools/gclient_scm.py:286-324 | A path is in the result exactly when some section changes its gitlink between two commits, neither forty zeros, with the commits of the last such section; a path with a blank has a tab behind it |
| SubmoduleDiff.PathReadsBack | depot_tools/gclient_scm.py:308-311 | The path itself comes back if and only if it holds no blank |
| CmdQuoting.CmdUndone | depot_tools/autoninja.py:106-109 | `cmd` removes exactly the carets that were added |
| CmdQuoting.CaretLaw | depot_tools/autoninja.py:104-109 | An argument with one of `^<>&()%` or a pipe in it has carets before all characters that mean something to `cmd`, quotes included; any other has none |
| CmdQuoting.QuoteRoundTrip | depot_tools/autoninja.py:98-109 | The quoted argument is read back as itself if and only if it does not end in a backslash, where it is empty or holds a blank or a quote, and otherwise if and only if it holds no tab |

## Left out

- Subprocesses, git, cipd, gsutil, the file system, the network, progress output and time: bodies of work items and jobs are nondeterministic steps.
- `SystemExit` in a worker: it is not recorded as an exception there, so nothing is said about it.
- ExecutionQueues.ExecutionQueue.Flush: stops after a given number of waits, because the real loop need not end; runs without a bound are the subject of `SchedulerLiveness.FlushTerminates`. Bodies make finitely many `enqueue` calls.
- ExecutionQueues.ExecutionQueue.FlushTerminatedThreads: does not model that the list of running threads is built anew; dead threads are taken out of it one by one, which no other thread can tell apart.
- Resources are sets, not lists; `requirements` is a set read off a map that bodies may replace.
- What the workers do after `flush` has been interrupted or has failed.
- DependencyRuns.TreeInvStep: takes verifying and adding a dependency as one step, which is what happens exactly without the race of `AddingRaces`. That the loop of a body enqueues each of its dependencies once is part of its steps.
- DependencyRuns.EndsIffNeverHeld: does not decide before the run which schedule it takes; where the two solutions are not above one another, the condition is on the moments at which dependencies are added.
- Whether `verify_validity` refuses a name by raising or by returning false, and the urls it compares for that.
- `Annotated.flush`: it tests membership in an iterator that the first test uses up.
- BracketGrammar.TemplateLaw: does not cover template arguments over several lines, nor what the heuristics make of text that is no template, because there is no other specification for it. `InTemplateArgumentList`: whether a class head is a template argument is part of a line's summary.
- The regular expressions of `Update`: a line is what they find in it. The checks at the start and the end of blocks report style errors and are not modelled, but for `is_derived`.
- Nesting.WellNestedFile: does not cover `previous_stack_top`, which is the innermost block before the line read last, counted or not.
- `CleanseComments` and the pattern for `//` comments: parameters of the model.
- Unicode: white space, word characters and digits are those of ASCII; lines hold no line feed.
- Parsing conditions: `ast.parse` is taken as given, and a condition combined from others is the tree of its parts in parentheses, each of which parses by itself.
- `rel_prefix` in `_postprocess_deps`: the renaming and normalizing of paths; which entries become objects; the CIPD branch.
- Variable expansion and schema validation in `Parse`; the condition that a hook inherits from its dependency.
- `AddVar` followed by other edits: nodes of the syntax tree keep their old line numbers.
- Tokens.GclientDict.AddVar: does not model how the tokens of the new line are made; they are given, all on that line.
- Bodies of download jobs that raise, and the early exits before the threads are started.
- Quoting of paths in git's output, and arguments that `cmd` expands between `%` signs.
- Quoting of several arguments at once: an odd number of quotes in one changes how the next is read.
- The style checks of cpplint, `GitWrapper.update`, and everything else in the repository.
