# Verified models of the remote-build system and its vendored Go tree

This project models, in Dafny, the parts of the repository whose correctness depends on unbounded
interleavings, streams, buffers or arithmetic, and proves what their documentation promises.

- **ContextTree** is `context`: immutable contexts, each with a mutable cell for error, cause, done
  channel, children set and timer. `Valid` ties every cell to the history of cancellations, and every
  operation keeps it, so the laws hold after any run of creations, cancellations and timer firings.
- **ContextRace** is the same package as a step system of goroutines and locks. It is safe and never
  stuck, and a run without unfinished operations satisfies ContextTree's invariant.
- **Pipe** (`io.Pipe`) and **Relay** (Cliant's job relay with Sarver's reverse workers) are step
  systems: one lock region or channel operation is one step, and the results hold for all runs.
- **Paths**, **RemotePaths** and **PlanSteps** are Cliant's rewriting of compiler and linker paths and
  Sarver's resolution of them, over paths as component lists; **ShellFields** is the tokeniser before it.
- **Streams**, **BufReader**, **LineScanner**, **BufWriter**, **BytesBuffer** and
  **ExitCodeFilter** are the buffers, each proved to be the plain stream or queue it stands for, for
  every way the other side chunks, shortens or fails; their errors are those that the other side reported.
- **BytesSearch** and **BytesSplit** are the searches of `bytes` with all their shortcuts, Rabin-Karp
  included, and split, join and replace; **Utf8** is the encoding they rely on.
- **HtmlEscape** is the unescaper that works in place, **WasmValues** the reference-counted table of
  JavaScript values, **FmtInteger** the integer formatter, **YCbCr** the subsampled image planes.
- **Prelude** holds shared vocabulary.

Where the code does not do what its documentation or a standard says, the model follows the code, and
lemmas state exactly when the two agree:

- Cliant passes relative inputs on unchecked, lets an absolute input become an option or a response file
  when the first name below the working directory starts like one, and does not rewrite `--pdb`
  (`RelativeInputKept`, `AbsoluteInputKept`, `PdbPrepared`).
- Sarver does not know that flags such as `-I` take a value, and can read the value as an output
  (`ValueMisread`); it trims paths and refuses directories and artifacts whose first name merely starts
  with two dots (`StepDirectoryIs`, `ArtifactFound`, `OutputAccepted`).
- The tokeniser drops empty words, and backslashes that a shell keeps in double quotes (`FieldsAreWords`).
- `bufio.Scanner` documents that a token that is too long stops scanning for good; one more Scan
  returns the contents of the buffer (`ScanAfterTooLong`).
- `mul3NonNeg` calls zero times a product beyond a word an overflow (`Mul3IsProduct`).
- Numeric HTML references depart from section 13.2.5.80 of the HTML standard in three families
  (`NumericFollowsStandard`).
- `storeValue` loses the sign of zero (`LoadStored`), and gives a BigInt bytes for which Go's Value.Type
  panics (`TypeIsKept`).
- A subsampled YCbCr image whose bounds end at coordinate zero, or less than a cell below it, has pixels
  without a chroma sample (`OffsetsInsideIffSafe`).

## Model

| member | source | states |
|---|---|---|
| ContextTree.CanceledExactly | go/src/context/context.go:540-570 | In every valid state a context has an error, and a closed done channel, exactly when it or an ancestor not cut off by WithoutCancel was canceled; a live one has exactly its live nearest cancelable descendants as children |
| ContextTree.OutcomeIsEarliest | go/src/context/context.go:282-300 | The error and cause that Err and Cause report are those of the first cancellation that reaches the context, and no earlier one does |
| ContextTree.EventReaches | go/src/context/context.go:540-570 | A cancellation gives its error and cause to exactly those live contexts that were made from its target without WithoutCancel in between |
| ContextTree.NewInherits | go/src/context/context.go:466-495 | A new context has the error and cause of the canceled context it is made under, and none otherwise |
| ContextTree.GovernsIs | go/src/context/context.go:376-390 | The contexts that a cancellation can reach are those made from its target, in any number of steps, but for those behind WithoutCancel |
| ContextTree.ValueIsInnermost | go/src/context/context.go:766-797 | A value is that of the innermost context that was made with the key, and there is none if none was |
| ContextTree.DeadlineIsInnermost | go/src/context/context.go:651-653 | The deadline is that of the innermost timer context whose cancellation would reach the context |
| ContextTree.FirstCauseStays | go/src/context/context.go:547-551 | Later cancellations never change the error or the cause of a canceled context |
| ContextTree.CauseOrder | go/src/context/context.go:249-254 | Both orders of canceling a parent and its child give the causes that the documentation of CancelCauseFunc names |
| ContextTree.GovernsLinear | go/src/context/context.go:376-390 | Of two contexts that can cancel a third, one can cancel the other: cancellation scopes are nested |
| ContextTree.SiblingsDisjoint | go/src/context/context.go:560-563 | Two children of one context share no descendant, so the recursive cancel visits every context once |
| ContextTree.KidsSplit | go/src/context/context.go:560-563 | The live contexts below one are itself and the disjoint subtrees of its children set |
| ContextTree.CancelNextKid | go/src/context/context.go:560-563 | During the loop over children the subtree of a child not yet reached is intact, and canceling it cancels exactly that subtree |
| ContextTree.CancelKeepsInv | go/src/context/context.go:540-570 | Canceling everything below a context and detaching it keeps error, cause, done channel and children set of every context in step with the history |
| ContextTree.CancelFullyKeepsInv | go/src/context/context.go:670-682 | The same for the whole of cancel(true), also for a timer context that was canceled before, and for the done channel made on the way |
| ContextTree.RegisterKeepsInv | go/src/context/context.go:466-495 | Adding a context below a live parent, below a canceled one, or below none keeps the invariant |
| ContextTree.PropagatePlan | go/src/context/context.go:466-495 | Each way through propagateCancel leads to the one state that the parent's condition calls for |
| ContextTree.CanceledIsDetached | go/src/context/context.go:548-569 | A canceled context is in no children set, so removing it again changes nothing, and its timer is stopped |
| ContextTree.Tree.CancelCtxCancel | go/src/context/context.go:540-566 | cancelCtx.cancel, a recursion over children sets that terminates, cancels every live context below the receiver and no other, and does nothing if it was canceled before |
| ContextTree.Tree.CancelKids | go/src/context/context.go:560-563 | The loop over children leaves everything strictly below the context canceled and the rest as it was |
| ContextTree.Tree.CancelSubtree | go/src/context/context.go:670-682 | The same for both kinds of canceler; a timer context also stops its timer |
| ContextTree.Tree.Done | go/src/context/context.go:442-455 | Done is made lazily, once, in the context it is promoted from; none exists where nothing can cancel |
| ContextTree.Tree.FindCancelCtx | go/src/context/context.go:766-797 | The lookup of the innermost cancelable context stops at WithoutCancel and passes values |
| ContextTree.Tree.Value | go/src/context/context.go:766-797 | A value is found from the innermost context outwards, through WithoutCancel |
| ContextTree.Tree.Err | go/src/context/context.go:457-462 | Err is the error of the first cancellation that reached the context |
| ContextTree.Tree.Cause | go/src/context/context.go:288-300 | Cause is the cause of that cancellation |
| ContextTree.Tree.ParentCancelCtx | go/src/context/context.go:376-390 | Finds the innermost cancelable context, live or canceled, unless its done channel is the shared closed one; none where nothing can cancel |
| ContextTree.Tree.RemoveChild | go/src/context/context.go:393-407 | The child leaves the children set of its registration parent; no other state changes but for a done channel made on the way |
| ContextTree.Tree.Cancel | go/src/context/context.go:540-570 | A cancel function called at any time gives every live context that it reaches its error and its cause, or the error where no cause was given, leaves all others alone, and keeps every context's state in step with the history |
| ContextTree.Tree.PropagateCancel | go/src/context/context.go:466-495 | A new context is registered with its live parent, canceled with the error and cause of a canceled one, or left alone |
| ContextTree.Tree.WithCancel | go/src/context/context.go:240-280 | Makes one new context in the state its ancestors call for, and changes nothing else |
| ContextTree.Tree.WithDeadlineCause | go/src/context/context.go:623-648 | The effective deadline is the earlier of the two; one that has passed cancels at once, with DeadlineExceeded as the cause if none was given, else the timer of a live context is armed |
| ContextTree.Tree.FireTimer | go/src/context/context.go:643-645 | A timer's callback cancels what is live below with DeadlineExceeded and its cause, or DeadlineExceeded for both; run when the context is canceled already, it changes nothing but makes the parent's done channel |
| ContextTree.LateCancel | go/src/context/context.go:670-682 | Canceling a canceled timer context again changes nothing but its parent's done channel |
| ContextRace.RunKeepsInv | go/src/context/context.go:376-682 | Every interleaving of creations, cancellations and timer set-ups by any number of goroutines, between their lock regions and loads of done channels, keeps locks, errors, causes, done channels, children sets and timers consistent |
| ContextRace.RunsAreSequential | go/src/context/context.go:540-570 | When no operation is under way, the contexts are as if the same cancellations had been made one after the other: those that canceled something in the order in which their loops ended, then those that found their target canceled |
| ContextRace.NoTimerLeft | go/src/context/context.go:636-682 | When no operation is under way no canceled context has a timer that is set, whatever raced with setting and stopping it |
| ContextRace.LiveTimerIsSet | go/src/context/context.go:636-648 | A live context has the timer that its maker asked for, or the maker is about to set it; when no operation is under way it is set |
| ContextRace.TimerStep | go/src/context/context.go:670-682 | The timer of a canceled context is always on its way to be stopped, by the goroutine that holds or held its lock or by the one that called cancel |
| ContextRace.CancelReturns | go/src/context/context.go:540-570 | When the loop of cancel has ended, every descendant that exists is canceled, whichever goroutine canceled it |
| ContextRace.SettledBelow | go/src/context/context.go:558-566 | Below a canceled context whose lock is free everything is canceled and no lock is held |
| ContextRace.NobodyBlocks | go/src/context/context.go:560-563 | Locks are taken from parent to child only, so that while goroutines are inside operations one of them can always go on |
| ContextRace.LocksExclude | go/src/context/context.go:540-566 | While one goroutine holds the lock of a context no other changes anything of it |
| ContextRace.StepsMove | go/src/context/context.go:540-682 | Every step of an operation brings it closer to its end, or is a turn of the loop of cancel that is done with one more child, timer or lock |
| ContextRace.CallsGoOn | go/src/context/context.go:540-552 | A call of cancel goes to work on a live context, and on a canceled timer context goes on to removeChild; Done leaves a channel |
| ContextRace.OperationsBegin | go/src/context/context.go:236-280 | Cancellations, creations and calls of Done may begin at any time on contexts whose lock is free |
| ContextRace.NearestCall | go/src/context/context.go:540-566 | A canceled context has its error and cause from the effective call with the nearest target above it |
| Pipe.OnceError.Store | go/src/io/pipe.go:21-28 | The first stored error is kept |
| Pipe.RunKeepsInv | go/src/io/pipe.go:50-123 | Every interleaving of reads, writes and closes keeps the invariants of lock, counts, rendezvous pair, transfer and errors |
| Pipe.ReadersGetWhatWritersSent | go/src/io/pipe.go:50-96 | The bytes readers got, in rendezvous order, are the delivered prefixes of the writes in lock order; each n is what was delivered, and a nil error means all of it |
| Pipe.NobodyStranded | go/src/io/pipe.go:57-64 | A reader that holds a slice and a writer that waits for its count are one matching pair that can go on, closed or not |
| Pipe.FirstErrorStays | go/src/io/pipe.go:67-74 | A close error, once stored, and the closed state are never undone |
| Pipe.WhyCallsFail | go/src/io/pipe.go:107-123 | A failed call reports the other end's close error, or ErrClosedPipe when its own end was closed |
| Pipe.ErrorsAreFirst | go/src/io/pipe.go:67-74 | Each end's error is what the first close of it in the run gave: nil stands for EOF at the write end and for ErrClosedPipe at the read end |
| Pipe.PlainCloseIsEOF | go/src/io/pipe.go:155-169 | After a plain Close of the writer, and none of the reader, every read that fails reports EOF and no bytes |
| Pipe.PlainCloseOfReader | go/src/io/pipe.go:134-149 | After a plain Close of the reader, and none of the writer, every write that fails reports ErrClosedPipe |
| Pipe.ReadOfClosedPipe | go/src/io/pipe.go:50-65 | A read that begins on a closed pipe returns no bytes and an error, ErrClosedPipe if the reader itself was closed |
| Pipe.WriteOfClosedPipe | go/src/io/pipe.go:76-83 | A write that begins on a closed pipe fails, with ErrClosedPipe if the writer itself was closed |
| Pipe.WriteMeetsReader | go/src/io/pipe.go:85-95 | A write succeeds only after it met a reader, also when it has nothing to write |
| Pipe.SliceFillsReader | go/src/io/pipe.go:57-60 | A read takes all that is left of the slice, or all it has room for |
| Pipe.ReadGoesOn | go/src/io/pipe.go:50-65 | A read that has not ended can go on unless the pipe is open and no write is ready |
| Pipe.WriteGoesOn | go/src/io/pipe.go:76-96 | A write that has not ended can go on unless it waits for the lock, or the pipe is open and no read is ready |
| Pipe.StepsMove | go/src/io/pipe.go:50-105 | Every step of a read brings it closer to its end, every step of a write moves it, and closing closes |
| Pipe.SendSliceTransfers | go/src/io/pipe.go:57-60 | One rendezvous adds the same bytes to what readers got and to what was sent |
| Pipe.PairStep | go/src/io/pipe.go:85-93 | Every step keeps readers with a slice and waiting writers in one matching pair |
| Relay.RelayServer.Register | Cliant/main.go:700-714 | A registered job is in the active map with an empty one-slot result channel |
| Relay.RelayServer.TryEnqueue | Cliant/main.go:716-719 | A job is queued exactly if fewer than 16 wait |
| Relay.RelayServer.Unregister | Cliant/main.go:720-732 | The job leaves the active map |
| Relay.RelayServer.Dequeue | Cliant/main.go:570-574 | The oldest queued job is taken |
| Relay.RelayServer.TrySend | Cliant/main.go:755-760 | A result is accepted exactly if the job's channel is empty |
| Relay.RelayServer.Receive | Cliant/main.go:522-523 | The waiting client gets the result that was accepted for its job |
| Relay.RelayServer.NewJob | Cliant/main.go:700-725 | A request's job is active and last in the queue, or, when 16 wait, nothing is left of it |
| Relay.RelayServer.PullJob | Cliant/main.go:557-592 | The pulling loop skips exactly the queued jobs whose request is gone, and takes the first one that is active before its deadline |
| Relay.RelayServer.CompleteJob | Cliant/main.go:747-761 | A result is stored exactly if its job is active and has none yet; otherwise nothing changes |
| Relay.RunKeepsInv | Cliant/main.go:496-761 | Over all runs of clients, cancellations and workers the queue, dispatch, completion and archive invariants hold |
| Relay.AtMostOnce | Sarver/main.go:303-331 | Each job reaches at most one worker and gets at most one completion; the queue never exceeds its bound |
| Relay.RepliesAreOwn | Cliant/main.go:512-553 | A client's reply was posted for its own job; the active map is exactly the jobs between registration and cleanup; an archive is removed once, when its request ends |
| Relay.ReplyIsPosted | Cliant/main.go:622-658 | What a client is answered with is the whole result of the one post whose completion was accepted for its job |
| Relay.NoReplyMeansCanceled | Cliant/main.go:512-553 | A request ends without a reply only if its client canceled it or the queue was full |
| Relay.SendAlwaysAccepted | Cliant/main.go:747-761 | A post that found its job active is never turned away by a full channel |
| Relay.EndedStaysEnded | Cliant/main.go:571-574 | A request that ended keeps its reply, and its job is never dispatched afterwards |
| Relay.CompleteSend | Cliant/main.go:755-757 | While a worker holds a job, nothing was ever sent for it |
| Relay.NewJobIsRun | Cliant/main.go:700-725 | An undisturbed newJob is a run of the steps that the theorems are about, with the same effect |
| Relay.PullIsRun | Cliant/main.go:557-592 | So is an undisturbed pull: the job it returns is dispatched to its worker, and nothing else changes |
| Relay.CompleteIsRun | Cliant/main.go:747-761 | So is a post: it is accepted exactly if the request is still there |
| Relay.ReceiveIsRun | Cliant/main.go:518-547 | So is the rest of handleBuild once a result waits: the request ends with exactly that result, its job is unregistered and its archive removed |
| Relay.CancelIsRun | Cliant/main.go:518-551 | And when the client is gone: it ends without a reply, unregistered, its archive removed |
| Relay.RequestGoesOn | Cliant/main.go:512-553 | A request that has not ended can go on by itself, and takes its result if there is one |
| Relay.WorkerComesBack | Cliant/main.go:570-586 | A worker that holds a job can be rid of it by at most two steps of its own |
| Relay.StepsInOrder | Cliant/main.go:512-592 | Requests and workers go through their stages in order; a worker is rid of its job before it takes another |
| Paths.WithinIsPrefix | Cliant/cmake.go:584-592 | isWithinBase is the prefix relation on clean absolute paths |
| Paths.RelResolves | Cliant/cmake.go:566-570 | The relative path that is written resolves back to the target |
| Paths.RelShift | Cliant/cmake.go:566-570 | It does not depend on what both paths have in common at the root |
| Paths.RelUsesRaw | Cliant/cmake.go:550-571 | It is spelled with two dots and components of the path it came from |
| Paths.WalkResolves | Cliant/cmake.go:555-560 | A relative path that climbs k levels above the source root resolves to the root without k levels, then its names |
| Paths.SplitJoin | Cliant/cmake.go:489 | Splitting at a character undoes joining with it |
| Paths.JoinSplit | Cliant/cmake.go:520 | Joining undoes splitting |
| RemotePaths.RewriteBuildStepForRemote | Cliant/cmake.go:391-468 | The loop, with its index into the arguments, rewrites as the recursion that the theorems are about: every argument, or none if one is refused |
| RemotePaths.TablesAgree | Cliant/cmake.go:470-486 | The client's two tables of path flags are the driver's options with a path, and it splits attached ones as the driver does |
| RemotePaths.LinkerTablesAgree | Cliant/cmake.go:523-530 | The client's and the worker's tables together are the linker's options that name a file |
| RemotePaths.AttachedLikeSeparate | Cliant/cmake.go:405-441 | A path attached to its flag is rewritten, refused and reported as the output exactly like one given after it |
| RemotePaths.OptionPathsSent | Cliant/cmake.go:405-441 | Every path after one of the driver's path options is sent rewritten, and no absolute one is passed on |
| RemotePaths.RefusedExactly | Cliant/cmake.go:404-454 | A command is refused exactly if it names a file outside the source tree where paths are rewritten, has an empty output, or ends in a path flag without its path |
| RemotePaths.OutputIsLast | Cliant/cmake.go:415-436 | The output that is reported, and that becomes the artifact asked for, is the file of the last -o in the original command |
| RemotePaths.RewriteKeepsRef | Cliant/cmake.go:550-571 | A rewritten path names, in the translated directory below any other root, the same root-relative file |
| RemotePaths.LinkerKeepsMeaning | Cliant/cmake.go:488-521 | A rewritten linker argument reads as the same options with the same files, and stays one linker argument, if each of its parts is tame |
| RemotePaths.PartKeepsMeaning | Cliant/cmake.go:492-518 | One turn of its loop keeps option and file of a part that is tame: the files of --pdb, which the client does not rewrite, can be passed on, and where the client misreads the linker's expectation it writes what reads alike |
| RemotePaths.PartLost | Cliant/cmake.go:492-518 | A part that is not tame is read differently below some other root |
| RemotePaths.RewriteLinkerParts | Cliant/cmake.go:488-521 | The loop over the comma-separated parts, which overwrites them where they are, rewrites exactly the paths among them |
| RemotePaths.HeadKeepsMeaning | Cliant/cmake.go:404-454 | One turn of the loop emits arguments that are read as the same option or input |
| RemotePaths.RewriteKeepsMeaning | Cliant/cmake.go:391-468 | The rewritten command line of tame arguments means what the original means: the same options, and the same files of the tree wherever it was unpacked |
| RemotePaths.MeaningKeptExactly | Cliant/cmake.go:391-468 | The rewritten command means what the original means, wherever the tree is unpacked, exactly when all its arguments are tame |
| RemotePaths.AbsoluteInputKept | Cliant/cmake.go:532-548 | An absolute input stays an input of the same file exactly when the first name below the working directory on the way to it, if it lies there, starts with neither a dash nor an at sign |
| RemotePaths.DashInputLost | Cliant/cmake.go:532-548 | Files in the working directory whose name starts with a dash are inputs that become options |
| RemotePaths.AtInputLost | Cliant/cmake.go:532-548 | Those whose name starts with an at sign become response files |
| RemotePaths.RelativeInputKept | Cliant/cmake.go:543-545 | A relative input, passed on as it is, names the same file below every root exactly when it does not climb above the root on its way |
| RemotePaths.PassedOnKept | Cliant/cmake.go:504-517 | A path that is passed on as it is names the same file, or none of the tree, below every root exactly when it is relative and does not climb above the root on its way |
| RemotePaths.ReentryClimbs | Cliant/cmake.go:543-545 | Inputs that leave the root and come back by its name do not |
| PlanSteps.StepDirectoryIs | Sarver/plan.go:56-63 | The worker runs a step in the directory it was meant for exactly when that has no surrounding white space and does not start with two dots, even in a name |
| PlanSteps.DirectoryIs | Cliant/cmake.go:392-395 | Cleaning the working directory before joining it to the root gives the directory that the command names |
| PlanSteps.StepRefused | Cliant/cmake.go:391-468 | A step is refused exactly if its directory is outside the tree or one of its arguments is refused |
| PlanSteps.BaseIs | Cliant/cmake.go:401 | The program is sent as what follows the last slash of its path |
| PlanSteps.TrimSpaceIs | Sarver/plan.go:176-205 | Trimming takes away exactly the Unicode white space around a path |
| PlanSteps.ArtifactFound | Sarver/plan.go:192-205 | The worker looks for the artifact where the last output lies under exactly the same condition |
| PlanSteps.OutputAccepted | Sarver/plan.go:176-190 | The worker accepts a rewritten output, as the same file, exactly when it is not the working directory and has no surrounding white space |
| PlanSteps.TwoDotsRefused | Sarver/plan.go:176-205 | Directories and artifacts whose name starts with two dots are refused, and so is an output that is the working directory |
| PlanSteps.SpaceLeadsElsewhere | Sarver/plan.go:176-205 | Directories and outputs whose name starts with a space become others |
| PlanSteps.RelShortest | Cliant/cmake.go:566-570 | No relative path that leads to the same target, however it is spelled, is shorter than the one written |
| PlanSteps.CollectPlanOutputPaths | Sarver/plan.go:116-137 | The loop collects the outputs of all arguments in order |
| PlanSteps.CollectLinkerOutputs | Sarver/plan.go:139-165 | The loop collects the outputs of one linker argument in order |
| PlanSteps.PartCollected | Sarver/plan.go:144-162 | One turn of the loop over linker parts stays in step with the linker exactly when a path that the worker does not expect does not look like an output option to it, and no output is named by white space alone |
| PlanSteps.PartsCollected | Sarver/plan.go:139-165 | On parts that all satisfy that condition the linker outputs collected are those the linker writes, in order, --pdb included |
| PlanSteps.CollectsWritten | Sarver/plan.go:116-165 | If besides no value of a flag that the worker does not know to take one is read by it as an output option, the outputs it prepares are the files that the command line says it writes, in order |
| PlanSteps.ValueMisread | Sarver/plan.go:116-137 | That condition is exact: such a value leaves every command after it well read exactly when the worker does not read it as an output option |
| PlanSteps.HiddenOutput | Sarver/plan.go:116-137 | Such values exist: a file of a name that starts with -o, which the client passes on, makes the worker prepare a file that nothing writes |
| PlanSteps.OrdinarySent | Cliant/cmake.go:566-570 | The command that is sent satisfies the condition exactly when the original does, where for a rewritten path its spelling below the working directory counts |
| PlanSteps.WorkerPreparesOutputs | Sarver/plan.go:98-114 | Under that condition on the original command, the outputs prepared are the files that the original writes in the source tree |
| PlanSteps.PdbRefused | Sarver/plan.go:176-183 | An absolute --pdb file is refused wherever the tree was unpacked |
| PlanSteps.PdbPassedOn | Cliant/cmake.go:488-521 | Both forms of --pdb reach the worker as they are, unless the second part of the longer one looks like an option that the client rewrites |
| PlanSteps.PdbCollected | Sarver/plan.go:139-165 | The worker takes the value of either form for an output |
| PlanSteps.PdbPrepared | Sarver/plan.go:176-190 | Wherever the tree was unpacked the worker prepares file f for a spelling passed on to it, exactly when without surrounding white space it is relative, not empty, and names f without leaving the root on its way |
| PlanSteps.PreparePlanStep | Sarver/plan.go:51-114 | The loop over outputs gives the directory and the outputs of the recursion that the next lemma is about, or refuses the step |
| PlanSteps.RewrittenArrives | Sarver/plan.go:176-190 | For a rewritten output that condition is: it is not the working directory, and has no surrounding white space |
| PlanSteps.OutputsMatch | Sarver/plan.go:98-165 | Outputs of the original, files it writes and spellings the worker collects go together, and a spelling arrives exactly when the output satisfies its condition |
| PlanSteps.StepArrives | Sarver/plan.go:51-114 | Client and worker together: wherever the tree was unpacked, an accepted step runs in the same directory and exactly the files it writes are prepared, exactly when the directory is a plain path and every output of the original is not the directory and has no surrounding white space when rewritten, or arrives by its own spelling when passed on; the artifact asked for is the last output |
| ShellFields.SplitPOSIXFields | Cliant/cmake.go:349-389 | The loop computes the fields of the tokeniser, or fails on an open quotation |
| ShellFields.SplitUndoesQuoting | Cliant/cmake.go:349-389 | Quoted words come back as they were, and the list is unchanged exactly when no word is empty |
| ShellFields.ShellKeepsQuoted | Cliant/cmake.go:347-389 | The shell that the tokeniser is compared with gives quoted words back as they were, empty ones included |
| ShellFields.FieldsAreWords | Cliant/cmake.go:349-389 | The same lines are refused as by a shell; otherwise the fields are the shell's words exactly when no word is empty and no backslash in double quotes stands before an ordinary character |
| ShellFields.WordsLost | Cliant/cmake.go:349-389 | A line of either kind |
| Streams.Source.Read | go/src/bufio/bufio.go:113-124 | What an io.Reader promises: some next bytes of the stream, none skipped, perhaps with an error |
| Streams.IndexByte | go/src/bytes/bytes.go:97-99 | The first position of a byte, or -1 |
| Streams.DropCRIs | go/src/bufio/scan.go:342-347 | One carriage return at the end is dropped, and nothing else |
| BufReader.Reader.Fill | go/src/bufio/bufio.go:99-127 | Reads until something comes; an error is what the last Read reported, or ErrNoProgress after a hundred that gave nothing; no pending byte is lost |
| BufReader.Reader.Peek | go/src/bufio/bufio.go:143-170 | Shows the next n bytes of the stream and consumes none; fewer exactly with an error, which is pending, reported or ErrNoProgress, or ErrBufferFull exactly for more than the buffer holds |
| BufReader.Reader.Discard | go/src/bufio/bufio.go:177-208 | Skips exactly the bytes it reports; succeeds without reading when they are buffered, and fails only with an error that was pending or came from its reads |
| BufReader.Reader.Read | go/src/bufio/bufio.go:216-263 | Hands over the next bytes of the stream, from at most one read of the source; none while bytes are buffered; an error is the pending one or that of the read |
| BufReader.Reader.ReadByte | go/src/bufio/bufio.go:267-279 | Hands over the next byte, or an error of the source, once, only when nothing is buffered; a pending error comes before any further read |
| BufReader.Reader.UnreadByte | go/src/bufio/bufio.go:286-301 | Puts the last byte read back in front of the stream, or refuses |
| BufReader.Reader.ReadSlice | go/src/bufio/bufio.go:351-390 | The line ends at its first delimiter, or has none and comes with an error: a full buffer, or one that was pending or came from the reads made |
| BufReader.Reader.ReadLine | go/src/bufio/bufio.go:408-441 | Each piece is the next part of a line; the last has no line end, and a carriage return at a full buffer is kept for the next call |
| BufReader.Reader.ReadLineSlice | go/src/net/textproto/reader.go:60-81 | The pieces put together are exactly the next line, whatever the buffer size and the chunks |
| BufReader.JoinPieces | go/src/bufio/bufio.go:408-441 | A fragment followed by the rest of the line is the line, also when its end straddles the buffer |
| BufReader.SearchResumes | go/src/bufio/bufio.go:352-378 | Bytes that were searched need not be searched again |
| BufReader.Reader.CollectFragments | go/src/bufio/bufio.go:450-472 | Full buffers and final fragment are the stream up to its first delimiter, and their total length is right |
| BufReader.Reader.ReadBytes | go/src/bufio/bufio.go:481-493 | Returns exactly the stream up to and including its first delimiter, in an array filled exactly; without one, everything before an error of the source. From a source that reports only its end it fails exactly if the delimiter is nowhere in the stream, and then returns all of it |
| BufReader.LineEnds | go/src/bufio/bufio.go:433-439 | Dropping the line end leaves the line without its newline and one carriage return |
| BufReader.LineAndEnd | go/src/bufio/bufio.go:427-439 | Between a line and what follows it is a newline, or a carriage return and a newline, and nothing else |
| LineScanner.ScanLinesIs | go/src/bufio/scan.go:355-370 | A token is the first line of the data, and it is the same with any data still to come |
| LineScanner.LinesConcat | go/src/bufio/scan.go:355-370 | The lines of a text are those of any whole lines at its start, then those of the rest |
| LineScanner.LinesOfText | go/src/bufio/scan.go:349-370 | Lines that are each ended by a newline, or by carriage return and newline, are what a text of them is scanned into |
| LineScanner.Scanner.SetErr | go/src/bufio/scan.go:257-261 | The first error other than io.EOF is kept |
| LineScanner.Scanner.Buffer | go/src/bufio/scan.go:272-278 | The limit of the buffer is set before scanning |
| LineScanner.Scanner.MakeRoom | go/src/bufio/scan.go:188-214 | Shifting and growing keep the data; the buffer starts at 4096 bytes and doubles up to its limit, and is refused room only when full of data |
| LineScanner.Scanner.ReadMore | go/src/bufio/scan.go:215-238 | Reads until there is more data or an error, which is what the last Read reported, or ErrNoProgress after 101 that gave nothing |
| LineScanner.Scanner.TryToken | go/src/bufio/scan.go:149-179 | A token is taken exactly when the data holds a line, or the last one at the end |
| LineScanner.Scanner.Scan | go/src/bufio/scan.go:139-240 | Delivers the next line of the text, or stops; unless reading failed, it stops with a token too long exactly when as many bytes as the buffer may hold are pending without a newline |
| LineScanner.ScanAll | Cliant/cmake.go:291-317 | The tokens of a scanning loop are the lines of the text that was read; it never fails on lines that fit the buffer, and every line delivered fits. It ends with an error of the source, and from a source that reports only its end the tokens are all the lines of the stream |
| LineScanner.FittingIsNotTooLarge | go/src/bufio/scan.go:197-203 | A text whose lines, with their newline, fit the limit never makes the buffer too large |
| LineScanner.ScanAfterTooLong | go/src/bufio/scan.go:24-28 | Against its documentation scanning goes on after a token was too long exactly when the buffer may hold anything: the next Scan hands over the buffer, and only the one after it stops for good |
| BufWriter.Sink.Write | go/src/bufio/bufio.go:643-646 | What an io.Writer promises: it takes a prefix, and one that obeys reports an error when it takes less |
| BufWriter.Writer.Flush | go/src/bufio/bufio.go:636-657 | Nothing accepted is lost or repeated, short writes included; it makes one write of all that waits, and its error is that of this write, or ErrShortWrite exactly when it was short without one |
| BufWriter.Writer.Write | go/src/bufio/bufio.go:677-699 | Sink and buffer hold everything accepted before, then the bytes reported; less than all only with an error, which the sink caused, and nothing after an error; what fits waits in the buffer; the loop ends |
| BufWriter.Writer.WriteByte | go/src/bufio/bufio.go:702-712 | The byte is accepted exactly without an error |
| BufWriter.Writer.WriteString | go/src/bufio/bufio.go:748-779 | The same as Write, whether or not the sink takes strings |
| Utf8.EncodeRune | go/src/unicode/utf8/utf8.go:348-385 | One to four bytes, a first byte and continuation bytes, one exactly for ASCII |
| Utf8.DecodeRune | go/src/unicode/utf8/utf8.go:157-195 | Never runs over the input; the bytes after the first are continuation bytes |
| Utf8.DecodeEncode | go/src/unicode/utf8/utf8.go:348-385 | Decoding gives back the rune that was encoded, whatever follows |
| Utf8.EncodeDecode | go/src/unicode/utf8/utf8.go:157-195 | What decodes to a rune starts with that rune's encoding; everything else is one invalid byte |
| BytesSearch.FindIs | go/src/bytes/bytes.go:1304-1305 | The reference search finds the first match, or none exists |
| BytesSearch.Index | go/src/bytes/bytes.go:1305-1390 | Index is the first match, or -1, for every length, cutover and machine |
| BytesSearch.IndexShort | go/src/bytes/bytes.go:1319-1353 | The skipping loop with its fallback finds the first match |
| BytesSearch.IndexLong | go/src/bytes/bytes.go:1355-1390 | The same with Rabin-Karp as fallback |
| BytesSearch.SkipTo | go/src/bytes/bytes.go:1330-1338 | Skipping to the next first byte passes no match |
| BytesSearch.HashStr | go/src/internal/bytealg/bytealg.go:32-45 | The hash is the polynomial of the bytes in 32 bits; fast exponentiation gives the power of the prime |
| BytesSearch.HashRolls | go/src/internal/bytealg/bytealg.go:77-80 | The 32-bit operations that move the window give the hash of the moved window |
| BytesSearch.IndexRabinKarp | go/src/internal/bytealg/bytealg.go:66-87 | The rolling hash misses no match and reports the first |
| BytesSearch.RuneIndexIsFind | go/src/bytes/bytes.go:156-187 | UTF-8 synchronises itself: in any bytes, valid or not, the encoding of a rune is found only where that rune is read |
| BytesSearch.IndexRune | go/src/bytes/bytes.go:139-215 | The first occurrence of any rune in the text read as code points; for U+FFFD the first invalid sequence |
| BytesSearch.SearchBackwards | go/src/bytes/bytes.go:161-195 | Searching by the last byte with backward comparison finds the first match |
| BytesSearch.BruteForce | go/src/bytes/bytes.go:196-213 | The fallback finds the first match from where the search gave up |
| BytesSearch.SkipToLast | go/src/bytes/bytes.go:165-171 | Skipping to the next last byte passes no match |
| BytesSplit.Count | go/src/bytes/bytes.go:57-74 | The number of non-overlapping instances; for an empty separator one more than the runes |
| BytesSplit.Explode | go/src/bytes/bytes.go:34-53 | One piece for each rune, at most n |
| BytesSplit.RuneCountIs | go/src/bytes/bytes.go:58-60 | The runes of a text are counted, not its bytes |
| BytesSplit.RunesAre | go/src/bytes/bytes.go:34-53 | The pieces are the runes of the text one by one, but for the last, which is what is left at the limit |
| BytesSplit.GenSplit | go/src/bytes/bytes.go:381-409 | The pieces between instances, at most n, each with the bytes to save, in an array of the computed size |
| BytesSplit.PieceCount | go/src/bytes/bytes.go:388-393 | There is one piece more than there are separators, unless the limit is lower |
| BytesSplit.PiecesLackSeparator | go/src/bytes/bytes.go:439 | No piece of a complete split contains the separator |
| BytesSplit.JoinUndoesSplit | go/src/bytes/bytes.go:420-447 | Joining what was split gives the text back, and so do the pieces of SplitAfter put together |
| BytesSplit.Join | go/src/bytes/bytes.go:561-591 | The pieces with separators, in an array whose computed length is filled exactly |
| BytesSplit.Replace | go/src/bytes/bytes.go:1173-1207 | The first n instances are replaced, also of an empty pattern, in an array filled exactly |
| BytesSplit.ReplaceIsSplitJoin | go/src/bytes/bytes.go:1173-1207 | Replacing n instances is splitting into n + 1 pieces and joining them with the replacement |
| BytesSplit.ReplaceLength | go/src/bytes/bytes.go:1188 | The computed length is the length of the result |
| BytesSplit.InterspersedIs | go/src/bytes/bytes.go:1191-1206 | With an empty pattern the replacement goes before each rune and after the last, as often as allowed |
| HtmlEscape.NumericFollowsStandard | go/src/html/escape.go:69-121 | A numeric reference is read as the HTML standard says exactly when it has none of three quirks |
| HtmlEscape.QuirksHappen | go/src/html/escape.go:69-121 | Each quirk occurs |
| HtmlEscape.SameCode | go/src/html/escape.go:82-105 | The code knows the digits of the standard, hexadecimal and decimal, and adds them up as the standard does |
| HtmlEscape.SameReplacement | go/src/html/escape.go:13-51 | The replacement table and the checks around it are those of section 13.2.5.80 of the HTML standard |
| HtmlEscape.LongestNameWins | go/src/html/escape.go:123-163 | As many characters as possible are consumed that match a known name, and the result is what that name stands for |
| HtmlEscape.ReferenceShrinks | go/src/html/escape.go:53-164 | No reference grows when it is replaced, given tables in which no replacement is longer than its reference |
| HtmlEscape.ReadNumber | go/src/html/escape.go:82-105 | The loop gives the number of the digits in 32-bit arithmetic, and where the reference ends |
| HtmlEscape.ReadName | go/src/html/escape.go:126-137 | The loop finds the end of the longest possible name |
| HtmlEscape.FindPrefix | go/src/html/escape.go:150-158 | The loop finds the longest entity among shorter prefixes |
| HtmlEscape.UnescapeNumeric | go/src/html/escape.go:69-121 | The part for numeric references, in place |
| HtmlEscape.UnescapeNamed | go/src/html/escape.go:123-163 | The part for named references, in place |
| HtmlEscape.UnescapeEntity | go/src/html/escape.go:53-164 | Writes what the reference stands for at dst, never past the new src, and leaves the unread text as it was |
| HtmlEscape.UnescapeString | go/src/html/escape.go:187-214 | Decoding in one buffer gives the unescaped text: nothing unread is ever overwritten |
| HtmlEscape.UnescapeUndoesEscape | go/src/html/escape.go:166-186 | Unescaping an escaped text gives the text back, for every text |
| HtmlEscape.EscapedIsPlain | go/src/html/escape.go:166-180 | An escaped text holds none of the five special characters but the ampersands of its references; text without them is left as it is |
| WasmValues.Go.constructor | go/lib/wasm/wasm_exec.js:485-503 | The initial tables |
| WasmValues.Go.LoadValue | go/lib/wasm/wasm_exec.js:134-145 | loadValue of any word |
| WasmValues.Go.StoreValue | go/lib/wasm/wasm_exec.js:147-195 | storeValue finds or makes the id, counts the reference, and writes the word |
| WasmValues.Go.FinalizeRef | go/lib/wasm/wasm_exec.js:313-323 | finalizeRef gives up one reference, and the id with the last |
| WasmValues.LoadStored | go/lib/wasm/wasm_exec.js:134-195 | Loading what was just stored gives the value, but for the sign of zero |
| WasmValues.TypeIsKept | go/src/syscall/js/js.go:265-290 | Go's Value.Type sees the JavaScript type of every stored value by its eight bytes, and panics exactly for a BigInt |
| WasmValues.StoreKeepsInv | go/lib/wasm/wasm_exec.js:147-195 | Storing keeps counts, pool and both tables consistent, with one reference more |
| WasmValues.FinalizeKeepsInv | go/lib/wasm/wasm_exec.js:313-323 | Giving up a held reference keeps them consistent |
| WasmValues.RunKeepsInv | go/lib/wasm/wasm_exec.js:134-323 | After any run each id's count is its outstanding references, live and pooled ids partition the table, and _ids inverts _values on live ids but NaN's |
| WasmValues.RunGoesOn | go/lib/wasm/wasm_exec.js:147-323 | Any value can be stored and any held reference finalized after any run |
| WasmValues.HeldReferencesLoad | go/lib/wasm/wasm_exec.js:134-145 | A held reference loads the value it was stored for despite reuse of ids; equal ids are equal values; no held id is handed out |
| FmtInteger.DigitsValue | go/src/fmt/format.go:239-272 | The digits evaluate in their base to the number |
| FmtInteger.PrintsTheNumber | go/src/fmt/format.go:197-324 | The digits printed stand for the number, leading zeros included, with a minus sign exactly for a negative one |
| FmtInteger.ReadsBack | go/src/fmt/format.go:197-324 | The whole text that is appended, for all flags, widths and precisions, reads back as the number when padding, sign and prefix are skipped |
| FmtInteger.OutputParts | go/src/fmt/format.go:217-324 | What is printed, part by part: spaces only on the side asked for and only up to the width, minus for a negative number and otherwise plus or space as asked for, the prefix of the base, zeros up to the precision or the width, the digits |
| FmtInteger.NoLeadingZero | go/src/fmt/format.go:239-272 | The digits of a number other than zero do not start with a zero |
| FmtInteger.NothingPrinted | go/src/fmt/format.go:220-228 | A zero with precision zero is nothing but its width in spaces |
| FmtInteger.TextFits | go/src/fmt/format.go:203-213 | Sign, prefixes and digits fit the 68 bytes, or the larger buffer, for every flag, width and precision |
| FmtInteger.AtLeastWidth | go/src/fmt/format.go:93-108 | The output is at least as long as the width, and exactly the longer of width and text |
| FmtInteger.ZeroPadded | go/src/fmt/format.go:229-234 | Zero padding fills the width exactly, unless there is a prefix or the number is longer |
| FmtInteger.WriteDigits | go/src/fmt/format.go:239-272 | Digits are written right to left |
| FmtInteger.WriteZeros | go/src/fmt/format.go:273-276 | Zeros are added up to the precision; the guard on the buffer's start never cuts them short |
| FmtInteger.WriteText | go/src/fmt/format.go:239-316 | Digits, zeros, prefixes and sign make up the text |
| FmtInteger.Fmt.WritePadding | go/src/fmt/format.go:66-90 | Appends n padding bytes, zeros only on the left |
| FmtInteger.Fmt.Pad | go/src/fmt/format.go:93-108 | Pads the text to the width on the side asked for |
| FmtInteger.Fmt.FormatInteger | go/src/fmt/format.go:197-316 | The text is written without leaving the buffer |
| FmtInteger.Fmt.FmtInteger | go/src/fmt/format.go:197-324 | Appends the padded text and restores the flags |
| BytesBuffer.Buffer.Truncate | go/src/bytes/buffer.go:91-101 | Keeps the first n unread bytes, or panics and keeps all |
| BytesBuffer.Buffer.TryGrowByReslice | go/src/bytes/buffer.go:115-121 | Succeeds exactly if the capacity is enough |
| BytesBuffer.Buffer.GrowSlice | go/src/bytes/buffer.go:229-252 | A new array with room, at least twice the old capacity, with the unread bytes, unless the allocation of just that size is refused |
| BytesBuffer.Buffer.GrowBy | go/src/bytes/buffer.go:126-157 | Whichever way it takes, the unread bytes stay and n bytes follow them, or it panics and they stay; it panics only if n bytes do not fit, and then because the size is beyond an int or the one allocation was refused |
| BytesBuffer.Buffer.Grow | go/src/bytes/buffer.go:164-170 | Leaves room for n more bytes unless it panics, and changes no contents |
| BytesBuffer.Buffer.Write | go/src/bytes/buffer.go:175-193 | Appends to the queue, or panics and leaves it |
| BytesBuffer.Buffer.WriteByte | go/src/bytes/buffer.go:285-293 | Appends one byte |
| BytesBuffer.Buffer.WriteRune | go/src/bytes/buffer.go:299-312 | Appends the encoding of any rune |
| BytesBuffer.Buffer.Read | go/src/bytes/buffer.go:318-334 | Takes as many bytes off the queue as fit; EOF exactly if there were none |
| BytesBuffer.Buffer.Next | go/src/bytes/buffer.go:340-352 | Takes the next n bytes, or all |
| BytesBuffer.Buffer.ReadByte | go/src/bytes/buffer.go:356-366 | Takes one byte, which can be unread |
| BytesBuffer.Buffer.ReadRune | go/src/bytes/buffer.go:373-389 | Takes one rune or one invalid byte, which can be unread |
| BytesBuffer.Buffer.UnreadByte | go/src/bytes/buffer.go:413-422 | Puts the byte before the read position back, if there is one |
| BytesBuffer.Buffer.UnreadRune | go/src/bytes/buffer.go:396-405 | Puts the bytes of the last rune back |
| BytesBuffer.Buffer.ReadBytes | go/src/bytes/buffer.go:430-450 | Takes the queue up to and including its first delimiter, or all of it at EOF |
| ExitCodeFilter.Filter.Write | go/misc/go_android_exec/main.go:241-263 | Passes on what cannot be part of an exit code, and holds the rest, as for the whole output so far |
| ExitCodeFilter.Filter.Finish | go/misc/go_android_exec/main.go:265-289 | Finds the code, or passes the rest on |
| ExitCodeFilter.MatchStartAppend | go/misc/go_android_exec/main.go:244-261 | Bytes that were passed on could never have been part of a match |
| ExitCodeFilter.FilterAll | go/misc/go_android_exec/main.go:241-289 | However the output is cut into writes, what is passed on and the code are those of the whole output |
| ExitCodeFilter.FindsAppendedCode | go/misc/go_android_exec/main.go:39-57 | Whatever a command prints, the code appended to it is found, and exactly the print is passed on |
| ExitCodeFilter.FindsExitCode | go/misc/go_android_exec/main.go:39-57 | Whatever a command prints, "exitcode=" and the decimal digits of a code after it give that code, and exactly the print is passed on |
| YCbCr.IntersectIs | go/src/image/geom.go:154-175 | The intersection contains the points of both, and is empty only if there are none |
| YCbCr.Mul3Fails | go/src/image/geom.go:287-304 | The result is -1, and not the product, exactly when an argument is negative, the first product does not fit a word, or the whole one does not fit an int |
| YCbCr.Mul3IsProduct | go/src/image/geom.go:284-304 | The documented result, -1 exactly for a negative argument or a product that does not fit, is given exactly when zero is not asked for times what does not fit a word |
| YCbCr.ZeroTimesTooMuch | go/src/image/geom.go:284-304 | Such arguments exist |
| YCbCr.Add2NonNeg | go/src/image/geom.go:308-317 | The sum of two ints, or -1 exactly when one is negative or the sum does not fit |
| YCbCr.MadeSizes | go/src/image/ycbcr.go:147-200 | If the image can be made, its planes have exactly the sizes computed |
| YCbCr.DocumentedSizes | go/src/image/ycbcr.go:47-59 | Strides and lengths of the planes are in the ratios that the type documents, where no cell is cut |
| YCbCr.MadeExactly | go/src/image/ycbcr.go:147-200 | An image can be made exactly when its width, height, rounded-up bounds and the number of its samples fit an int |
| YCbCr.LumaOffsets | go/src/image/ycbcr.go:95-97 | Every pixel has a luma offset of its own inside the plane |
| YCbCr.ChromaOffsets | go/src/image/ycbcr.go:101-116 | Chroma offsets are inside their plane, and equal exactly for pixels of one cell |
| YCbCr.OffsetsInsideIffSafe | go/src/image/ycbcr.go:101-141 | All chroma offsets of an image are inside exactly when its rectangle does not end at coordinate zero or less than a cell below it |
| YCbCr.NonNegativeIsSafe | go/src/image/ycbcr.go:101-116 | Without negative coordinates that always holds, and cells are the blocks of the subsample grid |
| YCbCr.NegativeRectangleFails | go/src/image/ycbcr.go:101-141 | A rectangle for which it fails |
| YCbCr.SubImageShares | go/src/image/ycbcr.go:120-141 | A sub-image has the parent's samples at every point of the intersection |
| YCbCr.EmptySubImage | go/src/image/ycbcr.go:120-130 | A sub-image of no pixel of the image is the zero image of the same ratio |
| YCbCr.SubImageExists | go/src/image/ycbcr.go:120-141 | Taking a sub-image of a safe image never panics |

## Left out

- `context`: custom Context types, AfterFunc and the watcher goroutine; the comparison of done channels in parentCancelCtx, which only a custom type can make fail; a nil children map as opposed to an empty one.
- ContextTree.Tree.Cancel: every operation is one step; ContextRace interleaves their lock regions.
- ContextRace.RunKeepsInv: the clock is left out; a timer that fires is a call of cancel at any time, and one that has fired or was stopped is not told from one that runs late.
- ContextRace.RunsAreSequential: the sequential order puts calls that found their target canceled last, also where one of them returned before another call began; what goroutines read in between is not related to it.
- `io.Pipe` and the relay: states are values, and one step is one lock region or channel operation; a Go program's scheduling is any order of enabled steps.
- Relay.RelayServer.PullJob: the clock is a number of turns, and the wait in a turn without a job is undisturbed; disturbed handlers are the step system.
- Relay.RunKeepsInv: job ids and archive names are taken to be distinct, failures of HTTP and JSON are steps in which a worker loses its job, and the lookups of getJob and completeJob in one handler are one step. Removal of result files and liveness after a failed post are not promised by the code.
- HTTP, multipart, JSON, zip archives, process spawning and the file system of Cliant and Sarver; ninja and `&&` parsing before the tokeniser.
- RemotePaths.MeaningKeptExactly: paths are resolved lexically with slashes, without symbolic links or other separators; an option is one of those that the client or the worker lists. Where the client has lost track of what the linker expects, a part is tame by what the client writes for it.
- PlanSteps.WorkerPreparesOutputs: under a condition on values that is exact value by value (ValueMisread, PartCollected), not for the command as a whole, where two misreadings can cancel out; the file of `-Map`, which the worker does not list, is not counted as written.
- PlanSteps.StepArrives: under the conditions of RewriteKeepsMeaning and WorkerPreparesOutputs; which compiler the worker runs is not modelled.
- ShellFields.FieldsAreWords: a shell without expansions, operators, comments and newlines.
- BufReader.Reader.Read: a source that reports bufio's own ErrBufferFull, or a negative count, is not modelled; returned slices are snapshots, their aliasing of the buffer is not.
- BufReader.Reader.ReadLineSlice: the dot reader that textproto closes first is not modelled.
- BufReader.Reader.UnreadByte: what it does after ReadLine is not related to the line returned.
- `bufio.Reader`: ReadRune, WriteTo and Reset; `bufio.Writer`: WriteRune, ReadFrom and Reset.
- LineScanner.Scanner.Scan: with ScanLines only, so the error paths that ScanLines never takes are absent, and without the guard against doubling a buffer beyond half the largest int.
- BufWriter.Writer.Write: for a sink that reports an error when it takes less than it is given; Flush and WriteByte are for any sink.
- BytesSearch.Index: assembly searches of bytealg are their contract, the first match.
- BytesSplit.Join: the panic when the total length overflows an int.
- `bytes`: Repeat, Map, Fields and the other functions around the ones modelled.
- HtmlEscape.UnescapeString: the entity tables are a parameter with the properties they are documented to have, not their contents.
- HtmlEscape.UnescapeUndoesEscape: EscapeString is modelled as replacing each byte, not as strings.Replacer does it.
- WasmValues.RunKeepsInv: ids and counts are unbounded, a memory word is either a number or a boxed id, and finalizing a reference that is not held is excluded.
- FmtInteger.Fmt.FmtInteger: the output buffer is a sequence, its reallocation is not modelled; %O is asked for in base 8 only, as all callers do.
- BytesBuffer.Buffer.UnreadByte: after Grow or an empty ReadBytes it may put back nothing or another byte; its contract says only what lies before the read position.
- `bytes.Buffer`: ReadFrom and WriteTo.
- ExitCodeFilter.Filter.Write: for a sink that accepts everything; the regular expression is the set of its matches.
- YCbCr.SubImageShares: planes are ranges of one shared array; NYCbCrA and colour conversion are absent.
- `main.py`, the terminal emulator and user interface, and the wrappers around foreign code: input, output and glue, with nothing of this kind to prove.
