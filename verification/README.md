# Verified models of the unix-internals servers and protocols

The repository is a collection of Unix demonstration programs. Several of them are state
machines or concurrent protocols whose correctness rests on an invariant that no single
function shows. This project models eight of them in Dafny and proves what they promise:

| file | models |
|---|---|
| `SelectServer.dfy` | the `select()` event loop, its slot array, read set, high-water marks and countdown |
| `PollServer.dfy` | the `poll()` event loop, as written and with the scan it intends |
| `LoopEquivalence.dfy` | both loops against each other and against one abstract turn |
| `Service.dfy` | how soon a client is served and freed, whatever the others do |
| `Connections.dfy`, `SystemCalls.dfy`, `EventLoop.dfy`, `Scan.dfy` | the kernel's side, the abstract turn, and the slot scan both loops share |
| `EpollDrain.dfy` | writer threads, pipes and the level-triggered drain loop |
| `Pipeline.dfy` | three processes, two bounded pipes and inherited descriptor tables |
| `IntrusiveList.dfy` | the intrusive circular list and its drain loop, on the heap |
| `EchoHandler.dfy` | the echo loop of the thread- and process-per-connection servers |
| `Forking.dfy` | one child per connection, and reaping under coalesced SIGCHLD |
| `Semaphore.dfy` | a non-atomic increment under a semaphore |
| `Prethreaded.dfy` | a worker pool that takes turns in `accept()` under a mutex |
| `Prelude.dfy` | bytes, options, sums |

`dafny verify dfyconfig.toml` checks everything.

## How to read it

**The environment is a parameter.** Everything the kernel decides is an argument: which
descriptors are readable, what a read returns, whether a write is short, which descriptor
`accept()` yields, which ready pipes `epoll_wait()` reports and in which order, who runs next.
Theorems therefore range over all environments. What the kernel promises is stated as a
predicate (`Allowed`, `EnvOk`, `SelectEnvOk`, `MayReturn`, `Enabled`): a read returns the next
bytes the client sent, or 0 after the client has stopped sending and everything was read, or -1
at any time; `select()` reports exactly the readable members of the read set below its bound;
`poll()` ignores negative descriptors; `accept()` returns a positive descriptor that is not open,
below FD_SETSIZE for `select.c`; reading a descriptor that is no open connection, such as the
listener, fails. The last points follow `poll()`, `read()`, `write()`, `pipe()` and `dup2()` in the
System Interfaces volume of POSIX.1-2017.

**Constants are parameters**: FD_SETSIZE, MAX_FDS, BUFSIZE, N_THREADS, N_OPS, BYTES_TO_WRITE, the
capacity of a pipe, the number of workers.

**The event loops** are classes over an array (`SelectServer.Context`, `PollServer.Context`). Each
method's contract equates the new state with a function of the old one; the lemmas are about
those functions. The target of both is `EventLoop.Turn`, a map comprehension without slots, marks
or counters. **The concurrent programs** are transition systems: `Enabled` and `Step` give each
atomic step of each thread or process, a run is any sequence of enabled steps, and results are
about every run: an invariant, a rank that bounds the length of runs, and an analysis of the
states in which no step is possible. What a client has sent, a writer has
written or a child has done is computed from the steps of a run alone (`EventLoop.InputBy`,
`Prethreaded.InputOf`, `EpollDrain.WrittenBy`, `Forking.PcAt`), so that results about it do not rest
on the state's own logs. For `poll.c` a step is taken as the server hears it: a lost listener is not
polled (`PollServer.Heard`). **The list** is modelled on the heap with a ghost sequence.
`error_exit()` is a halted state that absorbs every later step; for `select.c` and `poll.c` a
failing `fcntl()` is the same outcome as a failing `accept()`.

## Where the code differs from its comments or intention

- `servers/select.c:25`: `maxfd` is described as the largest descriptor in the read set. It is never lowered. `MaxfdIsStale` gives a run after which it is no longer in that set, `MaxfdExactly` the exact condition per turn for it to be the largest descriptor in the read set, and `MarksOverRuns` what it is in general: the largest descriptor that was ever there. That is enough for `SelectMissesNothing`.
- `servers/poll.c:93`: the scan starts at slot 0, which holds the listener. `ListenerKeptExactly` gives the exact condition under which a round keeps the listener, `ListenerOverRuns` the same for whole runs, `ListenerIsLost` a run that loses it, `LostListenerRound` what else the round loses, `LostRoundServesAll` exactly when it loses no client, `LostForGood` that the listener never comes back, `LostRoundMeaning` that the rounds after it serve all clients, and `KeptListenerRound` that otherwise the start slot makes no difference. `PollServer.Variant(1, ...)` is the intended scan.
- `servers/poll.c:70`: the search for a free slot runs to FD_SETSIZE over an array of MAX_FDS entries. `TooManyClientsExactly` shows over all runs that the array is overrun exactly when the limit exceeds its length and a client is accepted with no slot free, never with the limit at its length; `OverrunAt` that only then the message at line 83 is printed, and `OverrunIsReached` is a run that gets there. After an overrun the model stops.
- `servers/threaded.c:38`: `list_is_empty` tests for null links, but an initialised list never has any. `DrainAsWritten` shows that the drain loop then never ends, on any list, and pops the head for ever; `Drain` is the loop with emptiness tested as a self-linked head. In the program the drain is unreachable, because the accept loop before it has no exit; `AcceptThenDrain` and `AcceptThenDrainAsWritten` give it one.
- `process/redirect1.c:119`: the parent waits before it reads. `EveryRunEnds` gives the exact condition under which this is harmless, and `CompleteRun` shows that both outcomes occur.
- `async-io/epoll1.c:36`: a writer that fails returns without closing its pipe. `StuckMeans` shows that the program then waits for ever, and only then; `EpollDrain.FailureIsReached` is a run that does.
- `servers/prethreaded.c:61`: a worker whose `accept()` fails exits with the mutex locked. `MayAcceptExactly` gives the exact condition under which some continuation brings a worker into `accept()`: no `accept()` has failed and some worker has not exited. `NoAcceptAfterFailure` states what is certain after a failure, and `Prethreaded.FailureIsReached` is a run with one.

## Model

| member | source | states |
|---|---|---|
| `SelectServer.InitialValid` | servers/select.c:59-71 | the initial context satisfies the representation invariant |
| `SelectServer.Context.constructor` | servers/select.c:59-71 | the loop that clears all slots builds exactly the initial state |
| `SelectServer.Context.AddClient` | servers/select.c:73-97 | the new state: first free slot, read set, both marks, countdown; or the halt when no slot is free |
| `SelectServer.Context.ServeClient` | servers/select.c:108-123 | one service on the array and the kernel is one ServeSlot, although the buffer keeps earlier clients' bytes |
| `SelectServer.Context.ProcessReadyClients` | servers/select.c:99-126 | the in-place scan computes the eager scan of the slots |
| `SelectServer.Context.WaitAndAccept` | servers/select.c:152-172 | the state in which the scan starts, or the halt |
| `SelectServer.Context.Turn` | servers/select.c:150-176 | one iteration of the loop refines the order-free turn, keeps the invariant and ends with nready == 0 |
| `SelectServer.NeverTooManyClients` | servers/select.c:91-94 | pigeonhole: with descriptors below FD_SETSIZE a free slot always exists, so the exit is unreachable |
| `SelectServer.SelectMissesNothing` | servers/select.c:156 | although select() looks below maxfd + 1 only, every readable member of the read set is reported |
| `SelectServer.WithClientValid` | servers/select.c:73-89 | adding a fresh descriptor keeps all redundant parts in agreement |
| `SelectServer.BeforeScanReady` | servers/select.c:152-172 | when the scan starts, nready is exactly the number of ready clients, none of them the newcomer |
| `SelectServer.ProcessReadyIsProcessAll` | servers/select.c:99-126 | the scan bounded by maxi and nready equals the scan of all FD_SETSIZE slots and uses nready up |
| `SelectServer.ProcessAllValid` | servers/select.c:103-125 | the scan keeps slots, read set, marks and open connections in agreement |
| `SelectServer.RoundIsFullScan` | servers/select.c:99-126 | same slots, read set, network state and order of service as the full scan |
| `SelectServer.RoundMeaning` | servers/select.c:150-176 | a turn halts iff the abstract turn does; otherwise same connections, every ready client served exactly once and nobody else, invariant kept |
| `SelectServer.RoundKeepsNet` | servers/select.c:150-176 | every connection's echo stays what was read of its own input; no connection is lost or counted twice |
| `SelectServer.MaxfdExactly` | servers/select.c:25-26 | after a turn maxfd is in the read set iff it was there before the scan and was not closed by it |
| `SelectServer.MarksOverRuns` | servers/select.c:85-86 | over all runs maxfd is the largest descriptor that was ever in the read set, and maxi the largest slot that was ever in use |
| `SelectServer.NewcomerSlot` | servers/select.c:77-89 | a newcomer is in the first slot that was free; slots, read set and marks change by nothing else |
| `SelectServer.RoundSlots` | servers/select.c:150-176 | the slots after a turn, from those before it, and that clients are served in slot order |
| `SelectServer.InputsOverRuns` | servers/select.c:103-125 | over all runs the m-th client admitted gets back its own input, as the steps give it, and nothing else |
| `SelectServer.MaxfdIsStale` | servers/select.c:117-123 | a run of two turns after which maxfd exceeds every descriptor in the read set |
| `SelectServer.EveryRun` | servers/select.c:150-176 | over all runs: representation invariant, a slot always free, outputs are prefixes of the own inputs and complete after an end of file, accepted == open + finished |
| `Scan.FirstFree` | servers/select.c:77-89 | the slot found is the first negative one |
| `Scan.EagerIsPlain` | servers/select.c:99-126 | a scan with a sufficient countdown and mark equals the plain scan and counts down exactly the served slots |
| `Scan.CountIsCardinality` | servers/select.c:103-109 | with distinct slots, counted slots are counted descriptors |
| `Scan.HotFdsAreTheHotSet` | servers/select.c:103-109 | the service order lists every ready descriptor exactly once |
| `Scan.PlainMeaning` | servers/select.c:103-125 | the scan's effect is that of the order-free ServeAll, and it halts iff some write is short |
| `Scan.EagerKeeps` | servers/select.c:103-125 | induction principle: what each service keeps, a scan keeps, however early it stops |
| `Connections.ServeKeepsStreams` | servers/select.c:110-123 | reading and echoing keeps the echo a prefix of the own input, also when the write is short |
| `Connections.ServeKeepsSerials` | servers/select.c:110-123 | serving or closing one connection neither loses nor duplicates any |
| `Connections.ServeWrites` | servers/select.c:110-115 | a write that answers w has sent exactly the first w bytes read, none on an error |
| `Connections.ServeAllStep` | servers/select.c:105-124 | serving one descriptor and then the others equals serving the set |
| `Connections.ClientsKeepStreams` | servers/select.c:150-176 | what clients do between turns keeps every stream property |
| `EventLoop.TurnMeaning` | servers/select.c:150-176 | what the abstract turn does to each connection: the newcomer, those not readable, and those with data, end of file or an error |
| `SystemCalls.Kernel.Read` | servers/select.c:110 | a read fills a prefix of the buffer and leaves the rest as it was |
| `SystemCalls.Kernel.Write` | servers/select.c:112 | the client's echo grows by a prefix of the offered bytes, all of them if the write is complete; every other connection is untouched |
| `Service.TurnOnOne` | servers/select.c:103-124 | what one turn does to one connection, independent of all others |
| `Service.BoundedService` | servers/select.c:103-124 | a client that stopped sending L pending bytes is freed in exactly its ceil(L/BUFSIZE) + 1st ready turn, all echoed, whatever the others' reads answer |
| `Service.WorkShrinks` | servers/select.c:103-124 | a turn with someone ready and no newcomer strictly decreases pending bytes plus open clients |
| `Service.QuietTurnsAreFew` | servers/select.c:150-176 | hence such turns are bounded by the initial work |
| `LoopEquivalence.SameTurn` | servers/poll.c:139-162 | one turn of either loop has the same effect on the same connections, for the scan as written and the intended one, iff poll.c has room for a newcomer and does not serve its listener |
| `LoopEquivalence.SameRuns` | servers/poll.c:139-162 | over whole runs with the same client actions and environment: the same connections iff no such trouble came before, and then both end together |
| `LoopEquivalence.SelectRunIsHistory` | servers/select.c:150-176 | runs of select.c are histories of abstract turns |
| `LoopEquivalence.PollRunIsHistory` | servers/poll.c:139-162 | so are runs of poll.c, in either variant and with or without a listener, from any point on, except for the turn that loses the listener |
| `LoopEquivalence.SelectServesInTime` | servers/select.c:103-124 | the service bound, for any client from any point of a run of select.c; full reads are asked of this client alone |
| `LoopEquivalence.PollServesInTime` | servers/poll.c:93-114 | the same for poll.c, as written or as intended, unless the listener is lost meanwhile; before and after that loss it holds |
| `PollServer.InitialValid` | servers/poll.c:54-64 | initially slot 0 holds the listener and no connection is open |
| `PollServer.Context.constructor` | servers/poll.c:54-64 | the initialisation loop builds exactly the initial state |
| `PollServer.Context.AddClient` | servers/poll.c:66-87 | the new state: first free slot, or too many clients, or the search has left the array |
| `PollServer.Context.Poll` | servers/poll.c:142 | each entry shows what its descriptor has to report, a negative one nothing, and the result is the number of reporting entries |
| `PollServer.Context.VisitSlot` | servers/poll.c:95-113 | one iteration of the scan, on the array and the kernel |
| `PollServer.Context.ScanSlots` | servers/poll.c:93-114 | the scan loop computes the eager scan from its first slot |
| `PollServer.Context.ProcessReadyClients` | servers/poll.c:89-115 | the new state after the whole scan |
| `PollServer.Context.WaitAndAccept` | servers/poll.c:142-158 | the state in which the scan starts, or the halt |
| `PollServer.Context.Turn` | servers/poll.c:139-162 | one iteration of the loop, in either variant, keeps slots and connections in agreement |
| `PollServer.NonzeroCoversHot` | servers/poll.c:93-96 | entries with a nonzero result outnumber those that will be served |
| `PollServer.StopsBeforeScan` | servers/poll.c:142-158 | exactly when a round ends before its scan, and exactly when the array is overrun |
| `PollServer.BeforeScanShows` | servers/poll.c:142-158 | what the scan finds in the array: the answers of poll(), and a newcomer in the first slot that was free |
| `PollServer.CountIsReporting` | servers/poll.c:142 | the countdown starts with the number of descriptors that have data or any other condition to report |
| `PollServer.TooManyClientsExactly` | servers/poll.c:70-84 | over all runs the array is overrun iff the search limit exceeds its length and some turn accepted a client with no slot free |
| `PollServer.OverrunAt` | servers/poll.c:70-84 | such a turn ends the run, in the message at line 83 iff the limit equals the length |
| `PollServer.OverrunIsReached` | servers/poll.c:66-87 | a run that fills the array client by client and ends in the overrun, or in the message if the limit equals the length |
| `PollServer.ScanFromOneMeaning` | servers/poll.c:93-114 | the scan from slot 1 serves exactly the readable clients: the early exit skips none |
| `PollServer.RoundMeaning` | servers/poll.c:139-162 | for the scan as written and the intended one: under its exact condition a round is the abstract turn and keeps the listener; otherwise the process stops or slot 0 is freed |
| `PollServer.RoundSlots` | servers/poll.c:139-162 | under that condition the slots after the round, from those before it, and service in slot order |
| `PollServer.ListenerKeptExactly` | servers/poll.c:93-112 | as written, the listener stays in slot 0 iff it was not readable while another descriptor had data or any other condition |
| `PollServer.ListenerOverRuns` | servers/poll.c:93-112 | over all runs as written, slot 0 holds the listener iff no earlier turn reached its scan with a readable listener and another reporting entry |
| `PollServer.KeptListenerRound` | servers/poll.c:93-114 | then the start slot makes no difference to the whole state |
| `PollServer.LostListenerRound` | servers/poll.c:93-114 | otherwise the listener is served first and only the first k - 1 readable clients in slot order after it, k being the other descriptors with anything to report |
| `PollServer.LostRoundServesAll` | servers/poll.c:93-99 | such a round serves every readable client iff some other descriptor has a condition to report and no data |
| `PollServer.LostRoundMeaning` | servers/poll.c:93-114 | every round after it serves all readable clients, with either scan, and stops only if poll() fails or a write is short |
| `PollServer.ListenerIsLost` | servers/poll.c:93-112 | a run of two turns in which the listener is lost and the byte of the one readable client stays unread |
| `PollServer.LostForGood` | servers/poll.c:142-161 | after that no round accepts a connection or restores the listener |
| `PollServer.LostOverRuns` | servers/poll.c:139-162 | the same over any number of rounds |
| `PollServer.EagerServesPrefix` | servers/poll.c:93-99 | a scan with countdown n serves the first n of the readable entries |
| `PollServer.RoundKeepsSafe` | servers/poll.c:139-162 | both variants keep slots and connections in agreement and all stream properties, with or without a listener |
| `PollServer.EveryRun` | servers/poll.c:139-162 | over all runs of either variant; with the scan from slot 1 the listener is in slot 0 in every reachable state |
| `PollServer.InputsOverRuns` | servers/poll.c:93-114 | over all runs of either variant the m-th client admitted gets back its own input, as the steps give it, and nothing else |
| `EpollDrain.InitialInv` | async-io/epoll1.c:76-108 | the program starts in the invariant |
| `EpollDrain.WriterStepOk` | async-io/epoll1.c:43-57 | a writer's step conserves bytes and cannot falsify a reported event |
| `EpollDrain.HandleOneOk` | async-io/epoll1.c:133-149 | handling one event conserves bytes and closes only a drained, hung-up pipe |
| `EpollDrain.StepKeepsInv` | async-io/epoll1.c:30-160 | every step of every thread keeps conservation, the count of registered pipes and the truth of the pending batch |
| `EpollDrain.BytesOverRuns` | async-io/epoll1.c:43-151 | over all runs, from the actions alone: each pipe carries what its writer passed to write(), cut to what was transferred, in order; each batch of events is handled one by one to its end |
| `EpollDrain.BytesRead` | async-io/epoll1.c:133-142 | in every reachable state the bytes read are the first ones written, as many as the reads asked for |
| `EpollDrain.DrainedAtExit` | async-io/epoll1.c:109-151 | after the loop each pipe was closed exactly once and delivered its bytes in order, at least the target and less than one buffer more |
| `EpollDrain.StuckMeans` | async-io/epoll1.c:108-157 | a program that cannot go on has returned iff no writer failed; otherwise it waits for exactly the failed writers' drained pipes |
| `EpollDrain.RankDecreases` | async-io/epoll1.c:43-151 | every uninterrupted step uses up rank |
| `EpollDrain.FailureBlocksExit` | async-io/epoll1.c:36-50 | with a failed writer the loop is never left |
| `EpollDrain.FailureIsReached` | async-io/epoll1.c:35-39 | a run in which a writer fails at once and nothing can move any more |
| `EpollDrain.EveryRunDrains` | async-io/epoll1.c:30-160 | all runs, any number of writers, any interleaving: bounded, and complete runs close every pipe once and deliver, in order, what its writer passed to write() |
| `EpollDrain.HangupFirstLosesBytes` | async-io/epoll1.c:133-149 | testing EPOLLHUP before EPOLLIN would lose bytes on every event with both flags |
| `EpollDrain.BothFlagsOccur` | async-io/epoll1.c:133-149 | such events are reachable: a run of one writer that ends before the loop looks |
| `EpollDrain.Replay` | async-io/epoll1.c:60-160 | takes exactly the enabled steps of a given schedule; leaving the loop means everything was delivered |
| `EpollDrain.RunIsAfter` | async-io/epoll1.c:60-160 | the schedule of a run leads to its end |
| `Pipeline.HoldersOfAW` | process/redirect1.c:22-94 | a write end of the first pipe is held by the parent until it closes it and by the writer, never by the reader; nobody writes without a reader |
| `Pipeline.NoWriterLeft` | process/redirect1.c:113-135 | when the parent starts to read, no process holds a write end of either pipe |
| `Pipeline.StepKeepsInv` | process/redirect1.c:22-138 | every step keeps tables, control state and the bytes in both pipes in order |
| `Pipeline.BytesMoved` | process/redirect1.c:22-135 | a step that reads or writes moves exactly its n bytes, and no other step moves any |
| `Pipeline.RankDecreases` | process/redirect1.c:22-138 | every step of every process brings the end nearer |
| `Pipeline.StuckMeans` | process/redirect1.c:117-135 | a stuck system is complete iff the last output fits into a pipe; otherwise the parent is in wait() and a child faces a full pipe |
| `Pipeline.EveryRunEnds` | process/redirect1.c:113-135 | all interleavings, also with failing fork() or exec(): finite, and the exact condition for printing the whole output |
| `Pipeline.CompleteRun` | process/redirect1.c:113-135 | every run can be continued to a complete one, so with too long an output blocking does occur |
| `Pipeline.EofReachesBothReaders` | process/redirect1.c:53-94 | in every reachable state neither reader can wait for itself |
| `Pipeline.LateCloseNeverCompletes` | process/redirect1.c:53 | with the close moved behind the second fork no run completes |
| `Pipeline.Replay` | process/redirect1.c:96-138 | takes exactly the enabled steps of a given schedule; only a prefix of the expected output is printed, all of it on completion |
| `Pipeline.RunIsAfter` | process/redirect1.c:96-138 | the schedule of a run leads to its end |
| `IntrusiveList.InitializeHead` | servers/threaded.c:30-34 | makes a ring without entries |
| `IntrusiveList.IsEmpty` | servers/threaded.c:36-39 | false on every well-formed ring, with entries or without; true of a head whose links are null |
| `IntrusiveList.Push` | servers/threaded.c:41-47 | the entry becomes the first of the ring; only its neighbours' links change |
| `IntrusiveList.Pop` | servers/threaded.c:49-62 | takes the first entry and leaves its links; on a ring without entries returns the head and changes nothing |
| `IntrusiveList.PushThenPop` | servers/threaded.c:41-62 | restores every link of every remaining node |
| `IntrusiveList.PopThenPush` | servers/threaded.c:41-62 | restores every link of every node |
| `IntrusiveList.RunOps` | servers/threaded.c:30-62 | any sequence of pushes and pops refines a stack, and the list never looks empty |
| `IntrusiveList.PushesThenPops` | servers/threaded.c:41-62 | pushes followed by as many pops return the entries newest first and restore the stack |
| `IntrusiveList.Drain` | servers/threaded.c:156-160 | with the intended emptiness test every entry is joined once, newest first |
| `IntrusiveList.DrainAsWritten` | servers/threaded.c:156-160 | as written the loop is still running after any number of iterations and pops the head after the entries |
| `IntrusiveList.AcceptThenDrain` | servers/threaded.c:140-160 | n accepted threads are joined exactly once each in reverse order |
| `IntrusiveList.AcceptThenDrainAsWritten` | servers/threaded.c:140-160 | with the null test the drain is still running after any k pops, the later ones popping the head |
| `EchoHandler.EchoAllFaithful` | servers/threaded.c:103-120 | the echo is a prefix of the input, and all of it iff the loop ended at end of file |
| `EchoHandler.EchoAllExactly` | servers/threaded.c:110-116 | the loop goes on exactly while reads get data and writes take all of it; the next answer ends it in its own way |
| `EchoHandler.EchoRound` | servers/forking.c:31-37 | one read and write is one round of the echo and touches no other connection |
| `EchoHandler.EchoLoop` | servers/forking.c:27-42 | the loop with its reused buffer computes EchoAll and touches no other connection |
| `EchoHandler.HandleThreaded` | servers/threaded.c:103-120 | the whole state it leaves: closed iff the loop ended by a read, with everything echoed if that was an end of file; nothing else has changed |
| `EchoHandler.HandleOrExit` | servers/prethreaded.c:29-45 | the whole state it leaves: closed iff end of file, after a complete echo; otherwise the thread or process exits; nothing else has changed |
| `Forking.StepKeepsInv` | servers/forking.c:21-103 | every step of parent, handler and children keeps zombies announced and all descriptor tables as required |
| `Forking.ChildrenConserved` | servers/forking.c:21-25 | running + zombies + reaped == forked |
| `Forking.AllReaped` | servers/forking.c:21-25 | when all children have exited and nothing is pending, each was reaped exactly once |
| `Forking.ConnectionsAtLoopTop` | servers/forking.c:72-103 | at each loop top the parent's table is the initial one and a connection is held by its own child only, until that closes it or exits |
| `Forking.ServingChildHasNoListener` | servers/forking.c:92-95 | a serving child holds no copy of the listener |
| `Forking.EveryRun` | servers/forking.c:21-103 | over all runs: no pending signal and no handler imply no zombies; no child reaped twice or lost |
| `Forking.StateOverRuns` | servers/forking.c:21-95 | over all runs, from the actions alone: an exit leaves SIGCHLD pending until the handler starts, also during the handler; every child is where its own last step, or the waitpid() that returned it, has put it |
| `Forking.SingleWaitLeavesZombie` | servers/forking.c:24 | with one waitpid() per signal, coalesced exits leave a zombie behind |
| `Forking.ZombieStaysBehind` | servers/forking.c:24 | such a state is reachable with two clients |
| `Forking.SigchldHandler` | servers/forking.c:21-25 | leaves what the children have made of the state by themselves, with every zombie reaped and nothing else done, in one call of waitpid() more than it reaps |
| `Forking.UnreapedOthers` | servers/forking.c:21-25 | a child that takes no step while the handler runs is left alone |
| `Forking.ErrorExitHalts` | servers/forking.c:76-90 | after a failing accept() or fork() the parent takes no further step and has no descriptors |
| `Semaphore.StepKeepsInv` | sync/sem1.c:18-28 | every step keeps value + threads inside == 1 and the counter, and is one step nearer to the end |
| `Semaphore.AtMostOneInside` | sync/sem1.c:21-25 | mutual exclusion |
| `Semaphore.NoDeadlock` | sync/sem1.c:35-41 | until main has joined all threads somebody can move |
| `Semaphore.EveryRunCounts` | sync/sem1.c:18-44 | under every schedule a complete run takes exactly n * (4 * ops + 3) steps and ends with count == n * ops |
| `Semaphore.TwoPermitsLoseAnUpdate` | sync/sem1.c:32 | with initial value 2 an update can be lost |
| `Semaphore.Execute` | sync/sem1.c:30-44 | the program under an arbitrary scheduler terminates with the asserted count |
| `Prethreaded.StepKeepsInv` | servers/prethreaded.c:47-75 | every step of every worker and client keeps lock, ownership of connections and streams in order |
| `Prethreaded.AtMostOneInAccept` | servers/prethreaded.c:58-68 | at most one worker is in accept() |
| `Prethreaded.ClosedBeforeAcceptingAgain` | servers/prethreaded.c:56-72 | over all runs: before a worker accepts again, each client it accepted had stopped sending, got back all it ever sent, and was closed exactly once |
| `Prethreaded.OpenConnectionHasItsWorker` | servers/prethreaded.c:60-71 | an open connection is held by exactly the worker that accepted it |
| `Prethreaded.OpenConnectionsBounded` | servers/prethreaded.c:56-72 | never more open connections than workers |
| `Prethreaded.LockedForGood` | servers/prethreaded.c:58-64 | after a failed accept() no step locks, accepts or unlocks |
| `Prethreaded.NoAcceptAfterFailure` | servers/prethreaded.c:58-64 | the same in every continuation |
| `Prethreaded.MayAcceptExactly` | servers/prethreaded.c:56-72 | some continuation brings a worker into accept() iff no accept() has failed and some worker has not exited |
| `Prethreaded.FailureIsReached` | servers/prethreaded.c:58-64 | three steps lead to a failed accept() with the mutex locked |
| `Prethreaded.WhenMainReturns` | servers/prethreaded.c:105-112 | main returns only if all workers but at most one exited out of an echo |
| `Prethreaded.EveryRun` | servers/prethreaded.c:29-75 | over all runs, from the actions alone: the m-th accepted client has its own input and its own worker, gets back a prefix of that input, and all of it when closed, at most once |

## Left out

- PollServer.ScanFromOneMeaning: about the scan from slot 1, which the code intends; `PollServer.RoundMeaning` covers the scan from slot 0 as written, with its exact condition.
- IntrusiveList.Drain: tests a self-linked head, where `servers/threaded.c:38` tests for null links; the loop as written is `IntrusiveList.DrainAsWritten`.
- IntrusiveList.AcceptThenDrain: uses the same intended test, and leaves the accept loop after n connections, because the drain behind the endless loop of the program is never reached; with the test as written it is `IntrusiveList.AcceptThenDrainAsWritten`.
- Socket set-up, address resolution, `printf`, `inet_ntop` and error formatting (`servers/util.c`, `common/error.c`): input and output without state of their own.
- Interrupted system calls other than `epoll_wait()`, connection resets as such (a read that fails at any time stands for them), and EPOLLERR, which a read end of a pipe does not report.
- `async-io/epoll1.c:45`: `fread()` from `/dev/urandom` is assumed to return at least one byte and every transfer of a pending `write()` into its pipe at least one; otherwise no bound on runs exists. A pending `write()` fails only before its first transfer.
- `process/redirect1.c:101-111` and `dup2()` failures: the program starts with both pipes open, and `dup2()` succeeds.
- C integer widths: counters are unbounded, so wrap-around of `count` in `sync/sem1.c` or of `bytes_read` after a failing read in `process/redirect1.c:132` is not modelled.
- `servers/threaded.c:93-101`: `pthread_join()` and `free()` of a popped entry are not modelled; joining the head, which the drain loop as written comes to, has no defined behaviour in C.
- Reuse of process identifiers: children are numbered by their fork. SIGCHLD is blocked while its handler runs and `accept()` is restarted after it.
- `servers/iterative.c`, `servers/preforking.c`, `async-io/eventfd.c`, `sockets/`: smaller versions of what is modelled.
- `io/`, `stdio/`, `signals/`, `numeric/`, `data/`, `compilation/`, `perf/`, `nonlocal/`: demonstrations with fixed inputs.
