# Models of the systems-programming exercises

The repository is a set of small programs around processes, threads and memory. This project models
five of them in Dafny and proves what they do, for all inputs, all schedules and all runs.

- **The shell** (`src/shell/shell.c`). `ShellTokens` is the lexical level, `ShellGrammar` the language of
  command lines as a function from tokens to trees, and `ShellParser` the parser that moves one cursor over the
  characters, with its `argv` vectors in memory. `ShellRun` is `run_cmd` as a machine of processes, each a
  descriptor table and a stack of what is left to do; a fork copies both, so that a child whose program does
  not start falls through into its parent's code, as in the source. `ShellRunner` is `run_cmd` as statements,
  proved against the machine. `ShellLeaves` counts how often each stage is reached, `ShellWiring` says
  which pipe ends and files each program gets, and `ShellCopies` says which programs are reached with which
  tables when some do not start, by recursion over the tree.
- **dup2 made from dup and close** (`src/shell/mydup2.c`). `Descriptors` is the descriptor table, with
  lowest-free allocation (POSIX.1-2017, System Interfaces, section 2.14), and `MyDup2` the probe, the loops and
  the stack.
- **The thread pool** (`src/threads/thread_pool.c`). `TaskPool` is the pool as a transition system in which each
  statement is a step; `PoolObjects` is what single calls do to the objects in memory, and `PoolIterations`
  shows that one loop iteration is the same in both.
- **Three protocols** (`src/thread_yt`). `BoundedBuffer`, `WorkerQueue` and `FuelStation`, for any number of
  threads, any capacity, any number of tasks, fills and cars, with wakeups that nobody sent. The source files
  are whole programs in comments; the comments are what is modelled. `Sums` holds the sums over threads and
  `Lists` the reading and writing of a list at an index.
- **The in-memory file system** (`src/fs/userfs.c`). `BlockChain` is the chain that `allocate_block` builds,
  `FileData` reading and writing through a descriptor, `Registry` the files, names and descriptors,
  `RegistryMeaning` what each call means for them, and `RegistryAsWritten` the open and close of the source compared with the documented ones.

Interleavings are sequentially consistent. The kernel's objects (descriptor tables, pipes, mutexes,
semaphores, condition variables) are modelled by their contracts.

## Where code, comments and contracts disagree

- `parse_exec` takes `cmde` from the result of the first `parse_redirects` (`src/shell/shell.c:166-167`), which is
  not the exec node when a stage begins with a redirection. The meant form, as in `src/shell/test_shell.c:358-362`,
  writes the words into the node made at line 164. `ShellParser` has both: a parser is made as meant or as
  written. As written, the words of such a stage go over the fields of the redirect node (by `src/shell/shell.h:15-30`
  `argv[0]` lies over `cmd`, `argv[1]` over `file`, `argv[2]` over `mode` and `fd`, and `argv[3]` behind the structure,
  with pointers of eight bytes). `ParseCommand` proves that the two agree exactly on the lines without such a
  stage, and `InputFirst` gives the line `< in cat`.
- `run_cmd` supposes that descriptors 0 and 1 are open. Where 0 is open and 1 is not, the read end of a pipe becomes
  1, and the left child closes it after the move and has no output (`PipeEndsAnywhere`).
- Any token is accepted as the target of a redirection, `|` and `<` included (`src/shell/shell.c:207`). Kept.
- Later redirections wrap earlier ones and are performed first, so that the first one written for a direction wins,
  unlike section 2.7 of the Shell and Utilities volume of POSIX.1-2017. Even that holds only under the exact
  condition in `RedirectChain`: a file that does not open can leave its number to the next one (`FailedOpenShifts`).
- The fall-through after `run_cmd` returns reaches every stage once exactly when no left operand of a pipe comes
  back, which fails when the program of a stage other than the last does not start. `LeafCount` gives the exact
  number of stages reached for every tree and every set of programs that start, `RunsReach` the programs and their
  tables, and `FallThrough` the lines `a | b` such as `nosuch | cat`, where b runs twice.
- `stack_pop` reads above the top (`src/shell/mydup2.c:53`). The model has the meant stack, and beside it
  `WrittenDup2Impl` with the pop of the source; `WrittenPopLeaks` says for which arguments and tables that leaves the
  table right: unless it returns early, exactly when every number below newfd is open.
- `stack_push` does not grow its memory when the stack is full (`src/shell/mydup2.c:43`). `Probe` says when that happens:
  no push finds the stack full exactly when at most 64 numbers below newfd are closed (counted by
  `GapsAreClosed`). Up to there the push of the source is the meant one.
- `dup2_impl` is dup2 only under the condition in `AgreesWithDup2`: it needs a free descriptor for its probe, and
  with a `newfd` that is not below the limit it never returns (`DivergesForever`).
- The check in `thread_pool_push_task` compares the number of threads with the size of the queue
  (`src/threads/thread_pool.c:132`) and never refuses a task, whatever `src/threads/thread_pool.h` says;
  `QueueIsLargeEnough` says when the queue holds all the same.
- `allocate_block` loses the last eight bytes of a size that is a multiple of eight (`KeptIsSize`).
- `read_data` moves the buffer by the length of the block that follows (`src/fs/userfs.c:361`) and asserts that the
  offset equals the bytes read; `ReadEnds` says exactly which reads get past that, and `ReadBack` which do so through the
  descriptor that wrote the file.
- `UFS_CREATE` on a file that exists is an error in the code, though `src/fs/userfs.h:31-32` speaks of opening it;
  the code is followed. So it is in `ufs_delete`, which sets no error code for a missing file.
- `ufs_close` lowers the count of descriptors and leaves a freed file in the list (`src/fs/userfs.c:216-231`). The
  registry follows the discipline described at `src/fs/userfs.c:44-49`. `WrittenCloseAgrees` says exactly when
  the close of the source does the same, and `WrittenRunAgrees` that whole runs agree while every close
  meets that condition.
- `find_filedesc` follows `fd->file` without a test for NULL (`src/fs/userfs.c:97-99`). With slots set to NULL, as
  documented, it would follow a NULL pointer before the assert at line 133. The model skips NULL slots;
  `NullIsScanned` says exactly when the source would meet one.

## Model

| member | source | states |
|---|---|---|
| ShellTokens.TokensAreValid | src/shell/shell.c:225-269 | every token of a NUL-free line is a symbol or a non-empty word without whitespace and symbols |
| ShellTokens.CharacterClasses | src/shell/shell.c:11-12 | the whitespace and the symbols are those of the two strings, and letters are all other characters |
| ShellTokens.SpansTile | src/shell/shell.c:225-269 | the slices that gettoken hands out lie in order without overlap, each spells its token, no word is cut short, and everything between them is whitespace: they tile the line |
| ShellTokens.TokensOfRender | src/shell/shell.c:225-269 | scanning the canonical spelling of a token list gives the list back |
| ShellGrammar.ExactAcceptance | src/shell/shell.c:154-223 | an item list is rejected exactly when a stage has six or more words or a redirect operator has no target, and which of the two errors is reported |
| ShellGrammar.SegmentsJoin | src/shell/shell.c:187-198 | the segments hold no pipe, and joined by pipes they are the items of the line |
| ShellGrammar.ItemsSpell | src/shell/shell.c:200-223 | grouping tokens loses, adds and moves none: the items spell the line, but for an operator at its end without a target |
| ShellGrammar.DanglingIff | src/shell/shell.c:205-210 | an operator lacks its target if and only if an odd number of operators ends the line, since of two operators the second is the target of the first |
| ShellGrammar.LineAcceptance | src/shell/shell.c:27-40 | for every line, on its tokens: it is rejected for too many words if and only if a stage has more than five, and for a missing target if and only if none has and an odd number of redirect operators ends the line; the errors "Symbols remained", "syntax error" and "Unknown tok type" never occur |
| ShellGrammar.MeaningIsWellFormed | src/shell/shell.c:154-198 | the tree of valid items has right-nested pipes and redirections only over execs with at most five valid words |
| ShellGrammar.ParsedIsWellFormed | src/shell/shell.c:27-40 | every successful parse yields a well-formed tree |
| ShellGrammar.MeaningOfUnparse | src/shell/shell.c:154-223 | the tokens of a well-formed tree (words, then redirections innermost first, stages joined by pipes) denote that tree |
| ShellGrammar.RoundTrip | src/shell/shell.c:27-40 | parsing the printed form of a well-formed tree gives the tree back |
| ShellGrammar.ParsePrintParse | src/shell/shell.c:27-40 | parse, print, parse equals parse, on every NUL-free line that parses |
| ShellGrammar.WellFormedIffParsed | src/shell/shell.c:27-40 | the well-formed trees are exactly those that some NUL-free line parses to |
| ShellParser.Parser.Peek | src/shell/shell.c:272-283 | skips whitespace only, and answers whether the next token is one of those asked for |
| ShellParser.Parser.ScanToken | src/shell/shell.c:237-262 | classifies the token under the cursor and finds its end |
| ShellParser.Parser.NextToken | src/shell/shell.c:225-269 | one token is taken from the token list of the rest, the slice spells it, and only whitespace is skipped |
| ShellParser.Parser.GetToken | src/shell/shell.c:225-269 | the same for the shared cursor, which moves unless the line is at its end |
| ShellParser.Parser.ParseRedirects | src/shell/shell.c:200-223 | consumes exactly the leading redirections and wraps the node in them in the order written, or exits for an operator without a target |
| ShellParser.Parser.AddArgument | src/shell/shell.c:175-181 | stores a word in its place in the cells, leaves all other cells alone, exits at the sixth word, and takes the redirections behind it |
| ShellParser.Parser.ParseArguments | src/shell/shell.c:168-184 | the loop up to a pipe or the end leaves the words of the stage in the cells, ended by NULL, and wraps the node in its redirections, or exits as the stage fails |
| ShellParser.Parser.PickNode | src/shell/shell.c:164-167 | as meant the cells are those of the exec node; as written they are those of the redirect node whenever the first parse_redirects returns one |
| ShellParser.MistakenStage | src/shell/shell.c:166-184 | a redirect node whose first cell was overwritten by a word or by NULL stands for no tree, under whatever redirections follow |
| ShellParser.Parser.ParseExec | src/shell/shell.c:155-185 | one stage is consumed and its words lie in the cells that were picked; as meant the tree is the exec of the words under the redirections; as written it is the same unless the stage begins with a redirection, when the node stands for no tree |
| ShellParser.Parser.ParsePipe | src/shell/shell.c:187-198 | the recursive parser consumes everything and builds the tree that the grammar function gives for the tokens that were left, or exits with its error |
| ShellParser.ParseCommand | src/shell/shell.c:27-40 | for every NUL-free line the cursor-moving parser as meant equals the grammar function, its slices tile the line, and every redirect node has the mode and number of its kind; the parser as written rejects the same lines, and its nodes stand for that tree if and only if no stage begins with a redirection |
| ShellParser.InputFirst | src/shell/shell.c:166-167 | the line `< in cat` parses and is one on which the two differ |
| ShellParser.RedirectFields | src/shell/shell.c:141-152 | input is opened for reading as descriptor 0, output for writing, created and truncated, as descriptor 1 |
| Descriptors.FirstFree | src/shell/shell.c:111-111 | the lowest number that is not open, by which open, dup and pipe choose descriptors |
| Descriptors.FirstFreeIs | src/shell/shell.c:111-111 | a free number below which all are open is that number |
| Descriptors.DescriptorTable.DupCall | src/shell/mydup2.c:74-74 | dup on a table that changes in place: lowest free number, same description |
| Descriptors.DescriptorTable.CloseCall | src/shell/mydup2.c:82-85 | close frees the number and fails only for one that is not open |
| MyDup2.Stack.constructor | src/shell/mydup2.c:18-30 | a new stack is empty and has room for 64 |
| MyDup2.Stack.Push | src/shell/mydup2.c:38-48 | the meant push: the contents grow by the item at the top, also when the array is doubled |
| MyDup2.Stack.Pop | src/shell/mydup2.c:50-54 | the meant pop: takes off and returns the top |
| MyDup2.DivergesForever | src/shell/mydup2.c:92-94 | when newfd is not below the limit, no number of dups brings it up: the loop never ends |
| MyDup2.AgreesWithDup2 | src/shell/mydup2.c:63-105 | the exact condition on the arguments and the table under which dup2_impl returns with the result and the whole table of dup2 |
| MyDup2.OutcomeMeans | src/shell/mydup2.c:63-105 | a return of dup2_impl, as of dup2, that is no error leaves newfd on the description of oldfd and every other number, oldfd included, as it was; an error leaves the table |
| MyDup2.ProbeTurn | src/shell/mydup2.c:92-94 | each further dup returns a larger number up to newfd, and the pushed numbers stay fresh, below it and strictly increasing |
| MyDup2.CloseTurn | src/shell/mydup2.c:98-101 | closing the popped number leaves newfd in place and the other pushed ones open |
| MyDup2.Stack.WrittenPop | src/shell/mydup2.c:50-54 | the pop of the source: it returns what lies above the top |
| MyDup2.GapsAreClosed | src/shell/mydup2.c:92-94 | the numbers that the loop pushes are as many as there are closed numbers below newfd |
| MyDup2.Probe | src/shell/mydup2.c:90-94 | the loop ends with newfd on the description of oldfd and every closed number below newfd opened and pushed in order; no push finds the stack full if and only if these are at most 64 |
| MyDup2.CloseIntermediates | src/shell/mydup2.c:98-101 | after the closing loop the table is the one before with newfd on the description, every other number unchanged |
| MyDup2.Dup2Impl | src/shell/mydup2.c:63-105 | wherever it returns: the result, and the whole table, of the outcome that AgreesWithDup2 compares with dup2 |
| MyDup2.WrittenClose | src/shell/mydup2.c:98-101 | with the pop of the source the loop closes what WrittenPops lists: what lies above the stack, and all that was pushed but the lowest |
| MyDup2.WrittenDup2Impl | src/shell/mydup2.c:63-105 | the result and the whole table of dup2_impl with the pop of the source |
| MyDup2.WrittenPopLeaks | src/shell/mydup2.c:50-105 | that is the result and the table that it should leave, whatever lies above the stack, if and only if it returns before the loop or every number below newfd is open |
| ShellRun.AdvanceDecreases | src/shell/shell.c:51-119 | every step of a process lowers the bound on the steps that it and its children still take |
| ShellRun.StepConserves | src/shell/shell.c:51-119 | any step of any process keeps the programs reached and still to be reached |
| ShellRun.RunConserves | src/shell/shell.c:51-119 | the same over whole runs in any interleaving, which are no longer than the bound |
| ShellRun.RunReaches | src/shell/shell.c:51-119 | which programs a finished run has reached, and with which tables, does not depend on the interleaving |
| ShellRun.ExecComesBack | src/shell/shell.c:61-75 | an exec node is one program reached; the process comes back from run_cmd if and only if there are words and execv of them fails |
| ShellLeaves.PipeIsMade | src/shell/shell.c:79-80 | with two numbers free below the limit, pipe succeeds and opens two fresh numbers |
| ShellLeaves.PipeIsMadeIff | src/shell/shell.c:79-80 | pipe succeeds if and only if two numbers below the limit are free |
| ShellLeaves.AdvanceWithin | src/shell/shell.c:77-105 | two free numbers are enough at every point of the execution, however many pipes there are |
| ShellLeaves.FutureCounts | src/shell/shell.c:51-119 | the number of programs reached from a process is the count by recursion over its stack |
| ShellLeaves.LeavesAreAffine | src/shell/shell.c:82-99 | every process that comes back from run_cmd runs what is left of its callers once more |
| ShellLeaves.OnceEachIff | src/shell/shell.c:82-99 | each exec node is reached at least once, and exactly once if and only if no left operand of a pipe comes back |
| ShellLeaves.LeafCount | src/shell/shell.c:51-119 | every finished run of any tree, in any interleaving, reaches the number of programs of the closed form, which is the number of exec nodes exactly under that condition |
| ShellLeaves.ParsedTreesStay | src/shell/shell.c:187-198 | for trees that the parser yields the condition is that every stage but the last has no words or a program that starts |
| ShellLeaves.NoWordsStays | src/shell/shell.c:64-65 | a stage without words, under whatever redirections, never comes back |
| ShellWiring.StageStays | src/shell/shell.c:64-75 | a stage comes back if and only if it has words and execv of them fails |
| ShellWiring.StagesStay | src/shell/shell.c:82-99 | every left operand of a parsed tree stays away if and only if each stage but the last has no words or words that execv can start, and there is one exec node per stage |
| ShellWiring.OneProgramPerSegment | src/shell/shell.c:27-119 | for every line that parses, a finished run reaches at least one program per segment, and exactly one if and only if each segment but the last has no words or words that execv can start |
| ShellWiring.OpenTakesClosed | src/shell/shell.c:107-115 | close and then open land on the number that was closed |
| ShellWiring.WhereFilesLand | src/shell/shell.c:107-115 | for every list of redirections, whichever files open: what descriptors 0 and 1 are in the end, when they are closed, and that no other number changes |
| ShellWiring.RedirectChain | src/shell/shell.c:107-115 | a program reads from the first file written after `<` and writes to the first after `>`, all else unchanged, if and only if these open and the redirections written after the first `>` leave descriptor 0 open |
| ShellWiring.FailedOpenShifts | src/shell/shell.c:109-114 | the instance `> out < missing`: the output file is on descriptor 0 and nothing is on 1 |
| ShellWiring.PipeEndsAnywhere | src/shell/shell.c:79-101 | from any table from which pipe succeeds: what the left child, the right child and the parent have after their moves and closes; the left child is left without 1 if the shell has 0 and not 1 |
| ShellWiring.PipeEnds | src/shell/shell.c:79-101 | with 0 and 1 open the descriptor work around the forks replaces 1 on the left, 0 on the right and nothing in the parent, and leaves no other pipe end open |
| ShellWiring.PipelineFuture | src/shell/shell.c:77-105 | a pipeline reaches exactly its stages, wired by position |
| ShellWiring.PipelineWiring | src/shell/shell.c:77-105 | for every line that parses, in every finished run: one program per stage, whose table, redirections aside, is the initial one with 0 on the read end of the pipe before it and 1 on the write end of the pipe behind it, where these exist |
| ShellWiring.StagesAreSegments | src/shell/shell.c:154-198 | the stages of the tree are the segments between the pipes, each with its words under its redirections |
| ShellWiring.LineRuns | src/shell/shell.c:27-119 | from characters to programs, whichever files open: segment i of the line runs with its own words on the pipes before and behind it, its redirections performed from the last to the first, and under the first redirection of each direction if and only if its files land |
| ShellCopies.RunsIsFuture | src/shell/shell.c:51-119 | the recursion over the tree gives the programs that run_cmd reaches and the copies of the process that come back, each of which runs what is left |
| ShellCopies.RunsReach | src/shell/shell.c:51-119 | for every tree and table, whichever programs start, in any interleaving, a finished run has reached exactly the programs of the recursion, each with its table |
| ShellCopies.NoPipeNoPrograms | src/shell/shell.c:79-80 | a pipe for which two numbers are not free reaches no program |
| ShellCopies.FailedLeft | src/shell/shell.c:82-99 | a pipe of two programs of which the left one does not start: its process runs the right one as well, with the output on the pipe |
| ShellCopies.FallThrough | src/shell/shell.c:27-119 | every line of two words with a pipe between them parses to two exec nodes, and where the left program does not start every finished run has reached three programs, given with their tables |
| ShellCopies.NosuchIsSuchALine | src/shell/shell.c:27-40 | `nosuch` and `cat` are two such words: the line they make is the instance |
| ShellRunner.RunCmd | src/shell/shell.c:51-119 | the statements of run_cmd, with the rest of the callers to do, reach the programs and tables that the process machine reaches |
| ShellRunner.RunExec | src/shell/shell.c:61-75 | the same for an exec node: the program with the table of the process, and nothing more if there are no words or execv of them works |
| ShellRunner.RunPipe | src/shell/shell.c:77-89 | the same for a pipe up to the second fork, the child falling through into it |
| ShellRunner.RunAfterLeft | src/shell/shell.c:91-99 | the same from the second fork on |
| ShellRunner.RunAfterRight | src/shell/shell.c:100-105 | the same for what follows the second fork, in the parent and in a child that came back |
| ShellRunner.ImplServesRunCmd | src/shell/shell.c:83-94 | dup2_impl does in both children what run_cmd needs from dup2 if and only if a third number is free |
| TaskPool.WorkerInv | src/threads/thread_pool.c:29-53 | each statement of a worker keeps the mutex, queue history and task flag invariants |
| TaskPool.PusherInv | src/threads/thread_pool.c:124-142 | each statement of a push keeps them |
| TaskPool.QueueHistory | src/threads/thread_pool.c:29-53 | in every state of every run tail counts the pushes, head the tasks taken, their difference is the count when the mutex is free, at most one task runs, and what has run and completed are prefixes of the pushes |
| TaskPool.SomeThreadCanStep | src/threads/thread_pool.c:35-52 | while a thread has not ended some thread can step |
| TaskPool.RunsEnd | src/threads/thread_pool.c:34-52 | with T workers of N iterations and k concurrent pushes every run has at most 12NT + 5k steps |
| TaskPool.Drain | src/threads/thread_pool.c:35-52 | if k tasks are pushed before T workers of N iterations start, then when all have ended exactly the first min(k, T*N) tasks have run, in order; those are finished with the result of their function, and no others |
| TaskPool.QueueIsLargeEnough | src/threads/thread_pool.c:132-139 | no run stores past the end of the queue exactly when the queue has room for all pushes of the program |
| TaskPool.RunKeepsPushes | src/threads/thread_pool.c:135-139 | in every run each task is pushed as often as the pushers were given it, less what they have still to push |
| TaskPool.PushedInOrder | src/threads/thread_pool.c:135-139 | a single pusher pushes its tasks in their order |
| TaskPool.CompletedOnlyOnce | src/threads/thread_pool.c:124-142 | a completed task that is pushed once is nowhere else in the queue |
| TaskPool.RunKeepsJoined | src/threads/thread_pool.c:170-183 | once the spin loop may end, the task does not change in any later step |
| TaskPool.JoinIsSound | src/threads/thread_pool.c:170-198 | for a task pushed at most once: when the spin loop, which reads the two flags at different moments, ends, the stored result is that of the function and the argument that the task was made with, and no worker touches the task from then on, so that deleting it is safe |
| PoolObjects.NewPool | src/threads/thread_pool.c:55-75 | refuses a number of threads out of range and else makes an empty pool |
| PoolObjects.ThreadPool.PushTask | src/threads/thread_pool.c:124-142 | the waiting tasks grow by the new one at the end, and the check never refuses |
| PoolObjects.ThreadPool.Iteration | src/threads/thread_pool.c:36-47 | the critical section executes the first waiting task and stores its result, or changes nothing |
| PoolObjects.ThreadPool.ProcessTask | src/threads/thread_pool.c:29-53 | a worker with a budget of N iterations executes the first N waiting tasks, or all if there are fewer, touches no other, and ends |
| PoolIterations.TurnOfWorker | src/threads/thread_pool.c:36-47 | the steps of a worker from lock to unlock amount to one atomic iteration on the state: eleven steps with a task, three without |
| PoolIterations.IterationMatches | src/threads/thread_pool.c:36-47 | the iteration on the objects changes them as that iteration changes the state |
| BoundedBuffer.StepInv | src/thread_yt/prod_cons.c:19-51 | every step of every thread keeps the mutex, ticket and data invariants |
| BoundedBuffer.TicketsConserved | src/thread_yt/prod_cons.c:26-45 | in every state of every run the two semaphores and the tickets that threads hold add up to the capacity |
| BoundedBuffer.AccessesInBounds | src/thread_yt/prod_cons.c:28-43 | no write index reaches the capacity and no read index is negative |
| BoundedBuffer.NeverDeadlocks | src/thread_yt/prod_cons.c:19-58 | with a slot, a producer and a consumer, some thread can step in every state of every run |
| BoundedBuffer.ReplayConserves | src/thread_yt/prod_cons.c:28-43 | in every history of a stack the items added are those removed and those left |
| BoundedBuffer.BufferIsStack | src/thread_yt/prod_cons.c:28-43 | in every state of every run the completed additions and removals are a history of one stack whose contents are the first `count` entries, so that nothing is lost or made up |
| BoundedBuffer.EveryItemArrives | src/thread_yt/prod_cons.c:19-51 | in every state of every run, for every value: it was made by producers as often as it was printed by consumers or is in their hands, in the buffer, or in the hands of producers |
| BoundedBuffer.RunMovesItems | src/thread_yt/prod_cons.c:19-51 | n steps of any run complete at least (n - 6 * threads) / 7 additions and removals: no run goes on without moving items |
| WorkerQueue.NoLostWakeup | src/thread_yt/thread_pool.c:26-54 | in every state of every run with a non-empty queue a worker is awake or a submitter has yet to signal, although the signal comes after the unlock |
| WorkerQueue.HandedOutInOrder | src/thread_yt/thread_pool.c:37-54 | tasks are taken in the order of submission, each taken task is executed once or is still in one worker's hands, and those not taken are the queue |
| WorkerQueue.SubmittedAsGiven | src/thread_yt/thread_pool.c:26-32 | in every state of every run the tasks submitted and still to be submitted are those that the submitters were given, and a single submitter submits in order |
| WorkerQueue.EndedRunsAreDrained | src/thread_yt/thread_pool.c:26-54 | when no thread can step, every task has been executed as often as the submitters were given it, and the tasks of a single submitter were handed out in its order |
| WorkerQueue.RunsAreBounded | src/thread_yt/thread_pool.c:37-54 | every run is finite but for wakeups that nobody sent, with a bound on the steps |
| WorkerQueue.ArrayIsLargeEnough | src/thread_yt/thread_pool.c:14-29 | no run stores past the end of the array exactly when it has room for all tasks of the program |
| WorkerQueue.TakeFirst | src/thread_yt/thread_pool.c:46-50 | the loop on the array returns the first task and moves the others down by one, leaving everything behind them |
| FuelStation.FuelIsAccounted | src/thread_yt/thread_cv.c:11-35 | in every state of every run fuel is 60 * fills - 40 * served, never negative, and a car that sleeps while there is fuel for it has a broadcast still to come |
| FuelStation.EveryCarGetsFuel | src/thread_yt/thread_cv.c:11-35 | a run that has ended has served all cars, and none is blocked, exactly when 40 * cars <= 60 * fills; otherwise it has served as many as there is fuel for |
| FuelStation.RunsAreBounded | src/thread_yt/thread_cv.c:11-35 | every run is finite but for wakeups that nobody sent, with a bound on the steps |
| BlockChain.BlockCount | src/fs/userfs.c:262-269 | the blocks hold the size, and one block less would not |
| BlockChain.CountBlocks | src/fs/userfs.c:262-269 | the branches of the source compute that number and the rest |
| BlockChain.KeptIsSize | src/fs/userfs.c:285-309 | all bytes are kept exactly when eight does not divide the size; otherwise the last eight are lost |
| BlockChain.PackedContents | src/fs/userfs.c:255-310 | a chain whose blocks are full but for the last holds the prefix of its memory up to the last byte in use |
| BlockChain.ChainHoldsPrefix | src/fs/userfs.c:255-310 | the contents of the chain, block by block, are the prefix of the data that is kept |
| BlockChain.AllocateBlock | src/fs/userfs.c:255-310 | for every size of at least 1: a doubly linked chain from first to last block, all blocks full but the last, whose contents are the prefix of the data of the length that is returned, zeros behind it |
| FileData.FileSize | src/fs/userfs.c:54-70 | file_size is the number of bytes that the chain contains, or the error for no descriptor |
| FileData.WriteData | src/fs/userfs.c:337-346 | the file gets a new chain for at most MAX_FILE_SIZE bytes of the data |
| FileData.UfsWrite | src/fs/userfs.c:159-177 | errors for no descriptor and a read-only one change nothing, size 0 fails the assert, and else the file holds the data and the offset is the number of bytes kept |
| FileData.ReadData | src/fs/userfs.c:348-371 | the loop as written: the answer, or the abort by a NULL block or by the assert, and every byte of the buffer |
| FileData.UfsRead | src/fs/userfs.c:179-199 | errors for no descriptor and a write-only one change nothing; else the read, after which the offset is the count |
| FileData.ReadEnds | src/fs/userfs.c:354-369 | the exact offsets from which a read gets past the assert, by where it stops |
| FileData.PrefixIsRead | src/fs/userfs.c:354-368 | a read that stops before the last block, or in the first, copies the prefix of the file and leaves the rest of the buffer |
| FileData.ReadReports | src/fs/userfs.c:179-199 | what a read that ends reports: the bytes asked for as long as they lie within the blocks, and otherwise the length of the file |
| FileData.ReadInLastBlock | src/fs/userfs.c:354-368 | a read that stops in the last of several blocks puts what it reads of that block in front of its place, over the end of the block before it |
| FileData.ReadThroughLastBlock | src/fs/userfs.c:354-363 | so does a read that goes through all of several blocks |
| FileData.SingleBlockIsRead | src/fs/userfs.c:354-363 | a read that goes through a single block copies the bytes that it holds |
| FileData.ReadReportsAll | src/fs/userfs.c:179-199 | at offset 0 a read of s bytes reports s and satisfies the assert exactly when it stops before the last block or within the first |
| FileData.ReadAfterWrite | src/fs/userfs.c:348-371 | then the buffer holds exactly the first s bytes written, with zeros where fewer are kept |
| FileData.ReadBack | src/fs/userfs.c:168-199 | the exact sizes with which reading through the descriptor that wrote the file does not abort |
| Registry.FindFile | src/fs/userfs.c:78-91 | the result is a file of the list that has the name, and none is returned only if there is none |
| Registry.FindDesc | src/fs/userfs.c:93-104 | the result is a descriptor open on the file, and none is returned only if there is none |
| Registry.NullIsScanned | src/fs/userfs.c:97-99 | the loop of the source would follow a NULL slot if and only if one is free and no descriptor on the file lies below the first free one |
| Registry.FreeSlot | src/fs/userfs.c:44-49 | the first slot that is NULL, all before it taken, or the one behind the last |
| Registry.OpenKeepsInv | src/fs/userfs.c:106-157 | open keeps the registry invariant in all its branches |
| Registry.CloseKeepsInv | src/fs/userfs.c:201-231 | close keeps it, also when it frees the file |
| Registry.DeleteKeepsInv | src/fs/userfs.c:233-243 | delete keeps it |
| Registry.ChainHoldsStored | src/fs/userfs.c:337-346 | the chain that a write leaves contains exactly the bytes that the registry has as the contents of the file |
| Registry.WriteKeepsInv | src/fs/userfs.c:159-177 | write keeps it |
| Registry.RegistryInvariant | src/fs/userfs.c:106-157 | in every run from the empty system the references of each live file are the descriptors open on it, at least one, names are unique, and the assert at line 133 does not fail |
| Registry.OldDescriptorsKeepSight | src/fs/userfs.h:118-131 | whatever is opened, closed, deleted or created meanwhile, a descriptor that is not closed sees the contents of its file unchanged until something is written through a descriptor of that file |
| Registry.DeleteThenCreate | src/fs/userfs.h:118-131 | a deleted name can be created again at once; the new file is empty and is not the file of any descriptor that was open, and those see what they saw |
| RegistryMeaning.OpenExisting | src/fs/userfs.c:123-156 | opening an existing name gives a descriptor on the file of that name, in the first free slot, with the offset of the first descriptor open on it; the file keeps name and contents and counts one reference more, all other files and slots stay |
| RegistryMeaning.OpenNew | src/fs/userfs.c:112-156 | creating a free name gives a descriptor at offset 0 on a new empty file of that name with one reference, all other files and slots stay |
| RegistryMeaning.OpenFails | src/fs/userfs.c:112-131 | an open fails if and only if it is to create a name that exists or to open one that does not, with the error of each, and then nothing changes |
| RegistryMeaning.OpenAllows | src/fs/userfs.c:147-175 | by which flags a descriptor can later be written and read through |
| RegistryMeaning.CloseMeans | src/fs/userfs.c:215-231 | closing empties the slot and no other; the file is gone, from the list too, if and only if no other descriptor was open on it, and else keeps name and contents |
| RegistryMeaning.DeleteMeans | src/fs/userfs.c:233-243 | deleting succeeds if and only if a file has the name; then none has, and nothing else changes |
| RegistryMeaning.WriteMeans | src/fs/userfs.c:159-177 | when a write fails and how; else it answers with the number of bytes kept, which are the contents of the file afterwards, and nothing else but the offset changes |
| RegistryAsWritten.WrittenCloseAgrees | src/fs/userfs.c:215-231 | the close of the source does what is documented exactly when the closed descriptor is in the last slot and its file has another descriptor |
| RegistryAsWritten.WrittenCloseLeaves | src/fs/userfs.c:215-231 | what goes wrong otherwise: the closed descriptor stays in the array and the one in the last slot is lost from it though its file counts it on, and a freed file stays listed |
| RegistryAsWritten.OpensAgree | src/fs/userfs.c:144-145 | the open of the source, which takes the slot behind the last, is the documented one while no slot is NULL |
| RegistryAsWritten.WrittenCallAgrees | src/fs/userfs.c:106-243 | under that condition one call of the source gives the reply and the registry that are documented, and keeps the invariant |
| RegistryAsWritten.WrittenRunAgrees | src/fs/userfs.c:106-243 | while every close meets the condition, every run of the calls of the source is a run of the documented ones with the same files, descriptors and replies at every point, and keeps the invariant |
| Registry.Ufs.FindFileStruct | src/fs/userfs.c:78-91 | the loop along the list finds what FindFile specifies |
| Registry.Ufs.FindFiledesc | src/fs/userfs.c:93-104 | the loop over the array finds what FindDesc specifies |
| Registry.Ufs.UfsOpen | src/fs/userfs.c:106-157 | the new state of the registry and the reply are those about which the invariant is proved |
| Registry.Ufs.UfsClose | src/fs/userfs.c:215-231 | the same for close in its documented form |
| Registry.Ufs.UfsWrite | src/fs/userfs.c:159-177 | the same for write |
| Registry.Ufs.UfsDelete | src/fs/userfs.c:233-243 | the same for delete |

## Left out

- ShellParser.Parser.ParseExec: does not say what run_cmd does with a node whose fields were overwritten, nor what lies behind the structure that argv[3] and later words fall on.
- MyDup2.Stack.Push: does not model the realloc at line 43 that keeps the old size in bytes and moves the header; the array is doubled with its contents, in `WrittenDup2Impl` too.
- MyDup2.Stack.Pop: does not read the slot above the top as line 53 does; `WrittenPop` does.
- MyDup2.Dup2Impl: does not cover the calls that never return, which `Diverges` describes and `DivergesForever` proves endless.
- ShellWiring.PipelineWiring: does not cover stages before the last whose program does not start; `ShellCopies.RunsReach` does.
- Registry.FindDesc: skips NULL slots, which the loop of the source does not; see `NullIsScanned`.
- Registry.Ufs.FindFiledesc: the same test for NULL.
- Registry.OpenKeepsInv: speaks of the documented open, in the first free slot; line 144 takes the slot behind the last, see `RegistryAsWritten`.
- Registry.Ufs.UfsOpen: the documented open, likewise.
- Registry.CloseKeepsInv: speaks of the documented close; the source lowers the count and keeps a freed file listed, see `RegistryAsWritten`.
- Registry.Ufs.UfsClose: the documented close, likewise.
- Registry.RegistryInvariant: speaks of runs of the documented calls; runs of the source that close only last slots of shared files are in `WrittenRunAgrees`, and after any other close the source's own array and list no longer say what is open.
- PoolObjects.ThreadPool.ProcessTask: does not model other workers, which are in `TaskPool`; the budget of 1000000000 iterations is a parameter.
- scan_cmd, prompts, messages and exit codes: input and output; an exit of the parser is an error value.
- The three tries of execv with `/bin/` and `/usr/bin/`: whether a program starts is a parameter, and one that starts does not return.
- fork that fails, and wait: every fork succeeds, and waiting is a step that does not block, which allows more interleavings than the source has.
- The order in which children run is left open in `ShellRun`; `ShellRunner` runs each child to its end at the fork, one of the schedules of `ShellRun`.
- The memory of the parser is a sequence of argv vectors with addresses, and nodes are values: freeing does not occur in the source.
- Volatile flags and the memory model: every interleaving is sequentially consistent.
- Task functions of the pool are total and take their argument and result as numbers; that the result is copied and freed in thread_task_join is not modelled.
- Threads of the pool that cannot be created, thread_pool_join, the delete functions and thread_task_detach: wrappers around library calls, or not implemented. That deleting a joined task is safe is in `JoinIsSound`.
- A task of the pool that is pushed more than once and joined: the source never resets is_finished.
- The sleeps and printed lines of the programs in src/thread_yt.
- The capacity of 100 of the array of file descriptors, which the source does not check.
- An index that is no slot of the array of descriptors: the source reads outside its array.
- Memory that malloc leaves undefined: the block list of a file that was never written counts as empty, and the mode of a descriptor opened without a mode flag is a parameter.
- The offset of a descriptor in the registry is not moved by reads; reads are modelled in `FileData`.
- The freeing of blocks in deallocate_file.
- ufs_resize, appending and reading from an offset: not implemented in the source.
- src/array, src/shell/open_max.c, src/shell/popen.c, src/shell/shell_main.c and the other programs of src/thread_yt: too small to add anything but easy members.
