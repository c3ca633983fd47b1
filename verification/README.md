# The protocols of the MPI test suite, modelled and proved in Dafny

The suite checks an MPI library by running communication patterns of its own and comparing what arrives
with what should have arrived. For a failure to mean something, the patterns themselves must not deadlock,
must not race, and must expect the right data. This project models those patterns and proves it: the thread
framework that drives the tests, the message-passing protocols of the harder tests, and the check that decides
whether a buffer is right.

`dafny verify dfyconfig.toml` checks everything.

## How a protocol is modelled

Every protocol is a state machine over all ranks and threads at once. `Enabled` says which call, critical
section or delivery can happen next, `Apply` what it does, and a run is any sequence of such steps from the
initial state (`Runs.dfy`), so a theorem about all runs speaks about every interleaving. Rank count, thread
count, message length and type layout are arbitrary. MPI is what its standard says about the calls
used, and where the standard leaves a choice it is a parameter or a nondeterministic step: each standard
send is buffered or waits for its receive (section 3.4 of MPI-3.1), each start of an access epoch waits for the
post or not (11.5.2), a cancelled send is withdrawn or delivered (3.8.4), a probe finds a message or nothing.

For every protocol there are the same five results: an invariant that each step keeps (`StepKeeps`), what it
means for all runs (`RunsAreSafe` and its like), a bound on the length of every run (`RunsAreBounded`), that a run that
can take no further step has ended with the right data everywhere (`StuckRunsAreComplete`), and that every run can be
continued to such an end (`EveryRunEnds`). The inductions behind them are proved once, for any system with an invariant and a measure
(`Runs.SystemInvariant`, `Runs.SystemBounded`, `Runs.RunOn`). Where a test can get stuck, the last two also produce the run that does.

Parts that are sequential loops over arrays are methods that update the arrays in place: the layout of types and
standard arrays, the topology, request and displacement arrays, the checks. Their contracts give the whole new
contents as a function, and lemmas state what the code promises about that function. The fields of `tst_threads.c` are a class whose methods
are proved against the steps of the state machine.

## What holds only under a condition

The proofs show where the code does what it is meant to do; where it does not always, the exact condition is a theorem.

- `tst_thread_cleanup` ends if and only if there are no threads or some test has assigned functions before
  (`Dispatcher.StuckRunsAreComplete`): the wait loop of a dispatcher also waits for non-null functions.
- The partitioned rings get to their end if and only if there is one rank or the ratio (1, or 4 in the many-to-one test) divides the
  number of worker threads (`PartitionedRing.StuckRunsAreComplete`). Otherwise the threads past the last receive
  partition wait for a signal nobody sends, and every run can be continued into that deadlock (`PartitionedRing.DeadlockReachable`).
- The buffers of both partitioned rings come from malloc and are not filled, and messages do not carry the gaps of a type. The final
  check, which compares `values_num` elements and so one partition, passes on a rank if and only if the gaps of these elements
  happened to hold the fill byte or the type is long double, which is compared by value (`PartitionedRing.FinalCheck`). Types without gaps always pass
  (`PartitionedRing.NoGapsPass`); a short-int pair fails when malloc left anything else in its padding (`PartitionedRing.ShortIntFails`).
- The threaded ring needs two threads, the post/start ring two ranks; both are exact, and with fewer the test gets stuck (`EveryRunEnds`).
- The test table marks the many-to-one test as needing no synchronisation, "done with hash". The hash does not depend on
  `values_num`, which is the innermost driver loop, so two adjacent runs share a tag as soon as several values are given
  with `--num-values`. With three or more ranks the root can then take a message of the next run. Every run matches, whichever sends are
  buffered, if and only if there are at most two ranks, or one `values_num` and a `MPI_TAG_UB` that separates the selected types
  (`ManyToOne.DriverRunsMatch`); the smallest one, 32767, separates all of them (`HashTag.SmallestBoundTells`).
  `HashTag.NextTypeCollides` gives two tests and types of one communicator with one tag for it.
- On one communicator tests numbered below 32749 have different tags as long as their sums are less than `MPI_TAG_UB` apart
  (`HashTag.CloseSumsDiffer`). Across communicators even the sums collide (`HashTag.NextCommCollides`), which does no harm.
- A standard array of rank a of an integer type passes the check for rank b exactly when a equals b, the array has at most two elements, or
  the type saturates from the third element on (`Oracle.WrongRankPasses`).
- Both SUM tests accept every buffer: they count the elements that differ from the closed form in a local variable, record no failure and return 0, so
  their verdict agrees with their comparison if and only if every element from the third on is the expected sum (`Reductions.RunSum`). An array that was
  never reduced goes unnoticed although, on two or more ranks, the comparison finds every one of these elements wrong (`Reductions.UnreducedDiffers`). The SCAN test records a failure
  exactly when an element before its cut-off is wrong (`Reductions.RunScan`).
- The comparison of the SUM tests itself finds no difference in a correct sum as long as the type holds the closed form exactly (`Reductions.CorrectSumsPass`);
  for double, the only type they are registered for, that is up to 2^53. For an integer type the exact condition, with wrap-around, is `Reductions.SumElement`: beyond
  saturation it finds none only if the wrapped sum happens to be the clamp value, and `Reductions.SaturatedSumComesOut` is a case where it is.

## Files

| file | models |
|---|---|
| Dispatcher.dfy, ThreadFramework.dfy | tst_threads.c: the dispatcher threads, as a state machine and as a class |
| PartitionedRing.dfy | the two partitioned rings, ratio 1 and ratio 4, with leader and follower signals |
| ThreadedRing.dfy | the ring over (rank, thread) pairs told apart by tags |
| GraphExchange.dfy | the fully connected topology and the ascending MPI_Sendrecv over it |
| PostStartRing.dfy, ExposureRounds.dfy | the one-sided ring, and the rounds of post/wait against start/complete |
| ProbeAnySource.dfy | the any-source all-to-all with probes, and its attached buffer |
| CancelResolution.dfy | the cancel race and its resolution |
| ManyToOne.dfy, HashTag.dfy | unsynchronised any-source runs, and the tag that separates them |
| ReadyMode.dfy, PersistentIndex.dfy | ready sends behind a barrier; the request array of the persistent test |
| Oracle.dfy, Reductions.dfy, Scatterv.dfy | standard arrays and their check, reductions over them, scattered layouts |
| Runs.dfy, Lists.dfy, Buffers.dfy, Rings.dfy, Products.dfy, Options.dfy | shared: runs, counting, partitions, neighbours, products |

## Model

| member | source | states |
|---|---|---|
| Dispatcher.RunsAreSafe | tst_threads.c:43-132 | in every state of every run, with late threads and spurious wake-ups: all threads inside a test function execute the published command on the current test's function and env; between broadcast and barrier `working` is the number of workers that still owe worker_done; nobody sleeps on a condition that holds; in each log, entry 3k is INIT with test k's init function, 3k + 1 RUN with its run function and 3k + 2 CLEANUP with its cleanup function, on its env; a thread inside a function is at the entry of the test and phase the master is at; a finished master implies everything was run |
| Dispatcher.RunsAreBounded | tst_threads.c:53-132 | the number of steps of a run is bounded by a function of threads and tests plus twice its spurious wake-ups |
| Dispatcher.StuckRunsAreComplete | tst_threads.c:176-197 | a run with no step left but spurious wake-ups has every thread exited after exactly K tests, and `working` at -num_threads, if and only if there are no threads or K > 0 |
| Dispatcher.EveryRunEnds | tst_threads.c:176-197 | every run goes on to a state where only spurious wake-ups are left, and it is complete there exactly under that condition |
| Dispatcher.NeverFinishes | tst_threads.c:78-86 | with threads but no test ever assigned no run finishes: the wait loop never lets a dispatcher see FINALIZE |
| Dispatcher.StepKeeps | tst_threads.c:288-331 | the invariant behind the above is kept by every write of the master, critical section, call, return and wake-up |
| Dispatcher.Progress | tst_threads.c:53-60 | in every reachable state before the end some non-spurious step is possible |
| Dispatcher.PendingCanMove | tst_threads.c:78-86 | no lost wake-up: a worker that owes a worker_done is not asleep and can move |
| Dispatcher.MeasureDrops | tst_threads.c:43-132 | every ordinary step lowers the measure, a spurious wake-up raises it by at most one |
| Dispatcher.EnteredLog | tst_threads.c:101-120 | a thread that enters a function calls the running test's init function on INIT, its run function on RUN, its cleanup function on CLEANUP, with its env |
| Dispatcher.NobodyPending | tst_threads.c:53-60 | when the barrier sees `working` at zero no thread is inside a function or still has to pick the command up |
| ThreadFramework.Framework.constructor | tst_threads.c:136-171 | the fields after tst_thread_init are the initial state |
| ThreadFramework.Framework.WorkerDone | tst_threads.c:43-50 | the in-place update is the Done step: decrement, signal at zero, loop or exit after FINALIZE |
| ThreadFramework.Framework.DispatcherCheck | tst_threads.c:78-86 | the section under cmd_mutex is the Check step |
| ThreadFramework.Framework.DispatcherMove | tst_threads.c:101-128 | function entry, return and wake-up are the dispatcher's steps |
| ThreadFramework.Framework.BroadcastCmd | tst_threads.c:292-293 | the broadcast takes every waiting thread, and only those, out of the wait set |
| ThreadFramework.Framework.MasterAdvance | tst_threads.c:243-331 | assignment, command section, call, barrier and join are the master's step |
| ThreadFramework.Framework.Perform | tst_threads.c:63-331 | each action on the fields is the step of the state machine |
| ThreadFramework.RunAllTests | mpi_test_suite.c:447-450 | under any scheduler that picks possible steps, with spurious wake-ups up to some point in time, the framework runs all tests exactly once on all threads and shuts down |
| PartitionedRing.StepKeeps | threaded/tst_threaded_ring_partitioned_many_to_one.c:151-227 | every barrier, wait, signal, copy, Pready, arrival and wake-up keeps the invariant behind the results below |
| PartitionedRing.CopyPartition | threaded/tst_threaded_ring_partitioned.c:191-194 | the memcpy inside the shared buffer moves exactly the worker's partition from the receive half to the send half |
| PartitionedRing.TransferReaches | threaded/tst_threaded_ring_partitioned_many_to_one.c:160-165 | a send partition arrives at rank r + 1, modulo comm_size, without its gaps, and nothing else changes |
| PartitionedRing.LeaderSignals | threaded/tst_threaded_ring_partitioned_many_to_one.c:195-196 | a leader's signal tags are in range and name its own followers, for any ratio |
| PartitionedRing.LeaderExists | threaded/tst_threaded_ring_partitioned_many_to_one.c:143-149 | every covered send partition belongs to exactly the receive partition of its leader |
| PartitionedRing.CoveredExactly | threaded/tst_threaded_ring_partitioned_many_to_one.c:143-149 | receive partitions cover the workers up to the last multiple of the ratio, and the multiples of the ratio below that lead |
| PartitionedRing.FollowerArrived | threaded/tst_threaded_ring_partitioned_many_to_one.c:193-199 | a follower that has been signalled finds its partition arrived |
| PartitionedRing.CopyKeeps | threaded/tst_threaded_ring_partitioned_many_to_one.c:201-207 | concurrent copies never overlap: a copy leaves every other worker's partition as it was and makes its own rank 0's |
| PartitionedRing.SignalKeeps | tst_threads.c:423-433 | a signal reaches its follower whether it already sleeps or has not looked yet, and no follower is signalled twice |
| PartitionedRing.ArrivedData | threaded/tst_threaded_ring_partitioned_many_to_one.c:160-165 | however often the data has been forwarded, a partition arrives with rank 0's bytes in its fields and the receiver's own in its gaps |
| PartitionedRing.RunsAreSafe | threaded/tst_threaded_ring_partitioned_many_to_one.c:151-227 | in every state of every run each partition marked ready or arrived holds rank 0's data (gaps keep what the rank had), nobody copies before arrival, signals are in range and not lost, nobody is past a barrier of a rank before all its threads have reached it, and after Waitall the receive buffer is rank 0's send buffer in this sense |
| PartitionedRing.MergedPasses | threaded/tst_threaded_ring_partitioned_many_to_one.c:229-231 | the check of the first m elements accepts the received buffer exactly when its gaps up to there held the fill byte from the start or the type is compared by value |
| PartitionedRing.EndBuffer | threaded/tst_threaded_ring_partitioned_many_to_one.c:142-149 | at the end a rank holds rank 0's data as far as receive partitions reach and beyond them what malloc left |
| PartitionedRing.FinalCheck | threaded/tst_threaded_ring_partitioned.c:219-221 | the verdict of the test's own check at the end of every run that gets there, one rank with any worker count included |
| PartitionedRing.NoGapsPass | threaded/tst_threaded_ring_partitioned.c:219-221 | types without gaps always pass |
| PartitionedRing.ShortIntFails | tst_threads.c:468-474 | a short-int pair fails as soon as malloc left another byte in its padding |
| PartitionedRing.RunsAreBounded | threaded/tst_threaded_ring_partitioned.c:147-199 | the length of every run is bounded |
| PartitionedRing.StuckRunsAreComplete | threaded/tst_threaded_ring_partitioned_many_to_one.c:143-149 | a run that cannot go on has all threads past the last barrier if and only if there is one rank or the ratio divides the worker count, and what every rank then holds; on several ranks it is the whole of rank 0's buffer if and only if the ratio divides |
| PartitionedRing.DivisibleRunsComplete | threaded/tst_threaded_ring_partitioned.c:138-199 | when the ratio divides (always for ratio 1) this holds on any number of ranks, and every follower off rank 0 was signalled exactly once |
| PartitionedRing.UncoveredNeverOver | threaded/tst_threaded_ring_partitioned_many_to_one.c:197-199 | on several ranks without divisibility no reachable state is over |
| PartitionedRing.EveryRunEnds | threaded/tst_threaded_ring_partitioned.c:147-227 | every run goes on to a state where only spurious wake-ups are left, past the last barrier exactly in the cases above |
| PartitionedRing.DeadlockReachable | threaded/tst_threaded_ring_partitioned_many_to_one.c:197-199 | on several ranks without divisibility every run can be continued into a state where threads wait for ever |
| PartitionedRing.StuckAlone | threaded/tst_threaded_ring_partitioned_many_to_one.c:173-188 | a single rank gets through for any worker count |
| Buffers.CopyOnlyPart | threaded/tst_threaded_ring_partitioned_many_to_one.c:202-204 | after a partition copy each partition is the source's if it is the copied one and unchanged if not |
| ThreadedRing.UniqueMatch | threaded/tst_threaded_ring.c:54-65 | a receive matches exactly the message of the previous thread of the previous rank, although all share a communicator |
| ThreadedRing.OnlyOneMatch | threaded/tst_threaded_ring.c:96-103 | in every state of every run at most one message is on offer to a receive |
| ThreadedRing.RunsTakeTurns | threaded/tst_threaded_ring.c:96-103 | thread 0 receives only after its send has left, the others send only after they have received |
| ThreadedRing.StepKeeps | threaded/tst_threaded_ring.c:96-103 | each message is in flight exactly between its send and its receive, and who has received holds the predecessor's array |
| ThreadedRing.RunsAreBounded | threaded/tst_threaded_ring.c:96-103 | the length of every run is bounded |
| ThreadedRing.StuckRunsAreComplete | threaded/tst_threaded_ring.c:96-122 | under every choice of buffering a run that cannot go on has finished on all threads, with the predecessor's array and no error, if and only if there are at least two threads |
| ThreadedRing.EveryRunEnds | threaded/tst_threaded_ring.c:96-108 | every run goes on to a state where nothing more happens, the end of the test exactly with two threads |
| Rings.Wrap | threaded/tst_threaded_ring.c:81-82 | the modulo expressions for the next and the previous place are inverse to each other around the ring |
| GraphExchange.FillRow | tst_comm.c:307-315 | the inner loop appends all ranks but i in ascending order and leaves earlier rows alone |
| GraphExchange.BuildTopology | tst_comm.c:297-315 | index and edges, within n(n-1) slots, give every rank exactly its neighbours in ascending order |
| GraphExchange.AllOthers | tst_comm.c:307-315 | such a list is strictly ascending, holds exactly the ranks other than its own, and each at its slot |
| GraphExchange.StepKeeps | p2p/tst_p2p_alltoall_graph.c:79-84 | each message is buffered exactly between its send and its receive half, and received data sits in the sender's slot |
| GraphExchange.Progress | p2p/tst_p2p_alltoall_graph.c:79-84 | from any rank inside an MPI_Sendrecv, following partners down the lexicographic order reaches one that can move |
| GraphExchange.RunsAreBounded | p2p/tst_p2p_alltoall_graph.c:79-84 | the length of every run is bounded |
| GraphExchange.StuckRunsAreComplete | p2p/tst_p2p_alltoall_graph.c:79-105 | whatever is buffered, a run that cannot go on has exchanged everything, each slot passing the check for its neighbour |
| GraphExchange.EveryRunEnds | p2p/tst_p2p_alltoall_graph.c:79-105 | every run can go on until everything is exchanged |
| PostStartRing.AccessIsExposed | one-sided/tst_one_sided_simple_ring_get_post.c:106-123 | whenever an access completes its target's exposure epoch is open for this origin |
| PostStartRing.RunsAccessExposed | one-sided/tst_one_sided_simple_ring_get_post.c:102-124 | so it is for every get of every run |
| PostStartRing.CallOrder | one-sided/tst_one_sided_simple_ring_get_post.c:100-121 | rank 0 gets and then posts, the others post and then get |
| PostStartRing.StepKeeps | one-sided/tst_one_sided_simple_ring_get_post.c:102-124 | epochs stay matched around the ring and completed gets hold the predecessor's array |
| PostStartRing.RunsAreBounded | one-sided/tst_one_sided_simple_ring_get_post.c:102-124 | the length of every run is bounded |
| PostStartRing.StuckRunsAreComplete | one-sided/tst_one_sided_simple_ring_get_post.c:95-126 | whether or not starts wait, a run that cannot go on has returned everywhere with the right data if and only if there are at least two ranks |
| PostStartRing.EveryRunEnds | one-sided/tst_one_sided_simple_ring_get_post.c:95-126 | every run goes on to a state where nothing more happens: the end of the test with two ranks, a deadlock with one |
| ExposureRounds.AccessIsExposed | one-sided/tst_get_with_post.c:109-123 | though ranks drift apart, every access falls into its target's own round while its epoch is open |
| ExposureRounds.RunsAccessExposed | one-sided/tst_accumulate_with_post_min.c:89-103 | so it does in every run |
| ExposureRounds.MinOfTwo | one-sided/tst_accumulate_with_post_min.c:98-100 | the elementwise minimum of two standard arrays is the lower rank's |
| ExposureRounds.StepKeeps | one-sided/tst_accumulate_with_post_min.c:89-103 | every window always is the standard array of the least rank that has accumulated into it |
| ExposureRounds.Progress | one-sided/tst_get_with_post.c:109-123 | while anybody has rounds to go, somebody can move |
| ExposureRounds.RunsAreBounded | one-sided/tst_get_with_post.c:109-123 | the length of every run is bounded |
| ExposureRounds.StuckRunsAreComplete | one-sided/tst_get_with_post.c:109-130 | for any number of ranks a run that cannot go on has been through all rounds; gets leave each owner's array, minima rank 0's |
| ExposureRounds.EveryRunEnds | one-sided/tst_get_with_post.c:109-130 | every run can go on until all rounds are done |
| ExposureRounds.WindowsPass | one-sided/tst_accumulate_with_post_min.c:107 | those windows pass the check for rank 0 |
| ProbeAnySource.SendOrder | p2p/tst_p2p_alltoall_probe_anysource.c:120 | the cyclic loop visits every other rank exactly once, nearest first |
| ProbeAnySource.StepKeeps | p2p/tst_p2p_alltoall_probe_anysource.c:120-189 | received_num plus messages received stays comm_size - 1, and each message is in the network exactly between send and receive |
| ProbeAnySource.ReceiveTakes | p2p/tst_p2p_alltoall_probe_anysource.c:139-142 | the receive after a probe takes the very message the probe reported |
| ProbeAnySource.ProbeWillMatch | p2p/tst_p2p_alltoall_probe_anysource.c:161-163 | the drain loop never waits for a message nobody sends |
| ProbeAnySource.RunsAreSafe | p2p/tst_p2p_alltoall_probe_anysource.c:120-189 | in every state of every run the count is conserved, no status check fails, and received slots pass the check for source + rank |
| ProbeAnySource.RunsAreBounded | p2p/tst_p2p_alltoall_probe_anysource.c:120-189 | whatever the probes find, the length of every run is bounded |
| ProbeAnySource.StuckRunsAreComplete | p2p/tst_p2p_alltoall_probe_anysource.c:161-191 | a run that cannot go on has received from every other rank and left nothing in the network |
| ProbeAnySource.EveryRunEnds | p2p/tst_p2p_alltoall_probe_anysource.c:120-191 | every run can go on until it is complete |
| ProbeAnySource.BufferSuffices | p2p/tst_p2p_alltoall_probe_anysource.c:73-81 | the buffered messages of all 1 + num_threads threads of a rank fit the attached buffer at all times |
| ProbeAnySource.BufferTight | p2p/tst_p2p_alltoall_probe_anysource.c:73-81 | with every message of every thread outstanding the buffer is full up to one MPI_BSEND_OVERHEAD a thread |
| CancelResolution.StepKeeps | p2p/tst_p2p_many_to_one_isend_cancel.c:114-193 | flags, withdrawn messages and marked receives stay in agreement under every race outcome |
| CancelResolution.RunsAreSafe | p2p/tst_p2p_many_to_one_isend_cancel.c:162-193 | in every run only receives whose send was withdrawn are ever cancelled, and received means arrived |
| CancelResolution.WaitAllProgress | p2p/tst_p2p_many_to_one_isend_cancel.c:193 | each receive the final Waitall waits for can still complete or be cancelled |
| CancelResolution.RunsAreBounded | p2p/tst_p2p_many_to_one_isend_cancel.c:114-229 | the length of every run is bounded |
| CancelResolution.StuckRunsAreComplete | p2p/tst_p2p_many_to_one_isend_cancel.c:114-229 | a run that cannot go on is over everywhere; receive cancelled, gathered flag and send withdrawn are equivalent; every other receive holds its sender's array |
| CancelResolution.EveryRunEnds | p2p/tst_p2p_many_to_one_isend_cancel.c:114-229 | every run can go on until it is complete, however its races came out |
| CancelResolution.CancelFlagged | p2p/tst_p2p_many_to_one_isend_cancel.c:162-189 | the loop cancels the flagged receives and no others |
| CancelResolution.CheckRequests | p2p/tst_p2p_many_to_one_isend_cancel.c:195-229 | the check fails exactly when a flagged receive was not cancelled, and counts the errors of the uncancelled ones |
| CancelResolution.NoErrorsIn | p2p/tst_p2p_many_to_one_isend_cancel.c:227-228 | that count is zero exactly when every array received is right |
| CancelResolution.ErrorsCount | p2p/tst_p2p_many_to_one_isend_cancel.c:227-228 | another array in the place of a received one changes the count by the difference of their errors |
| CancelResolution.CompleteChecks | p2p/tst_p2p_many_to_one_isend_cancel.c:195-229 | the check of a complete run does not fail and counts no error |
| ManyToOne.ReceiptTells | p2p/tst_p2p_many_to_one.c:76-94 | whatever a receive takes, the check counts the errors of the buffer as it then is, for the source in the status |
| ManyToOne.TakesOwn | p2p/tst_p2p_many_to_one.c:74-94 | without a tag clash an any-source receive can only take the message of its own run, from a source not yet received |
| ManyToOne.RecvIsOwn | p2p/tst_p2p_many_to_one.c:81-94 | and leaves the sender's array in the reused buffer with no error |
| ManyToOne.StepKeeps | p2p/tst_p2p_many_to_one.c:59-98 | what is under way from a rank is always the uninterrupted sequence of its runs the root has not reached |
| ManyToOne.RunsAreSafe | p2p/tst_p2p_many_to_one.c:59-98 | without a clash every message of every run is received in its own run and passes; the root's buffer holds its own array until the first one |
| ManyToOne.RunsAreBounded | p2p/tst_p2p_many_to_one.c:72-98 | whatever the tags, the length of every run is bounded |
| ManyToOne.StuckRunsAreComplete | p2p/tst_p2p_many_to_one.c:72-98 | without a clash a run that cannot go on has received each rank's message exactly once in each run, with nothing left over |
| ManyToOne.EveryRunEnds | p2p/tst_p2p_many_to_one.c:72-98 | without a clash every run can go on until it is complete |
| ManyToOne.RootLoop | p2p/tst_p2p_many_to_one.c:74-94 | the root's loop fails exactly on a source that is no other rank; otherwise it counts no error and leaves the last sender's array in the reused buffer |
| ManyToOne.RunsMatchIff | p2p/tst_p2p_many_to_one.c:76-81 | every execution matches messages to their own runs if and only if no two runs with one tag can be under way together |
| ManyToOne.ClashShows | p2p/tst_p2p_many_to_one.c:76-81 | a clash has an execution in which the root takes a message of a later run |
| ManyToOne.AlwaysMatchesIff | p2p/tst_p2p_many_to_one.c:76-81 | whichever sends are buffered, every run matches if and only if there are at most two ranks or all tags differ |
| ManyToOne.DriverRunsMatch | tst_tests.c:227-233 | for the driver's runs of this test, the claim that hashing makes synchronisation unnecessary holds if and only if there are at most two ranks, or one values_num and a tst_tag_ub that separates the types |
| ManyToOne.DriverSpecAt | mpi_test_suite.c:410-423 | which type, values_num and tag each of these runs has |
| ManyToOne.SeveralValuesMismatch | mpi_test_suite.c:410-423 | with three ranks and several values_num it fails even if no send is buffered |
| HashTag.HashInRange | mpi_test_suite.c:58-63 | the tag is below tst_tag_ub and differs from comm * 65521 + type * 32749 + test by a multiple of it |
| HashTag.HashEqual | mpi_test_suite.c:58-63 | two runs share a tag exactly when tst_tag_ub divides the difference of their unreduced sums |
| HashTag.SumsTell | mpi_test_suite.c:58-63 | on one communicator, test numbers below 32749 make the unreduced sum tell both type and test |
| HashTag.CloseSumsDiffer | mpi_test_suite.c:58-63 | so such runs share a tag only if they are the same, as long as their sums are less than tst_tag_ub apart |
| HashTag.NextCommCollides | mpi_test_suite.c:58-63 | across communicators the sums themselves collide |
| HashTag.NextTypeCollides | mpi_test_suite.c:58-63 | with tst_tag_ub 32767, type + 1 and test + 18 give the same tag |
| HashTag.TypeTags | mpi_test_suite.c:58-63 | for one test on one communicator two types share a tag exactly when tst_tag_ub divides 32749 times their difference |
| HashTag.SmallestBoundTells | mpi_test_suite.c:58-63 | with tst_tag_ub 32767 two types of one test always differ in tag |
| HashTag.DriverLoop | mpi_test_suite.c:410-423 | the inner driver loops make one run per type and values_num, values_num innermost |
| HashTag.PassAt | mpi_test_suite.c:410-423 | run number k * V + l, V being the number of values_num, has type number k and values_num number l |
| HashTag.AdjacentShare | mpi_test_suite.c:410-423 | with two or more values_num the first two runs share a tag |
| HashTag.DriverTagsDistinct | mpi_test_suite.c:410-423 | the tags of a test's runs on a communicator are pairwise distinct if and only if there is one values_num and tst_tag_ub separates the types |
| ReadyMode.SourceBijection | p2p/tst_p2p_alltoall_irsend.c:89-94 | every source is named by exactly one of the reversed receives |
| ReadyMode.SendFinds | p2p/tst_p2p_alltoall_irsend.c:105-110 | every ready send finds the receive that names its sender, posted and unmatched |
| ReadyMode.RunsAreReady | p2p/tst_p2p_alltoall_irsend.c:89-115 | so it does in every interleaving, and no rank ever becomes erroneous |
| ReadyMode.StepKeeps | p2p/tst_p2p_alltoall_irsend.c:89-115 | a receive is matched exactly when the rank it names has sent |
| ReadyMode.RunsAreBounded | p2p/tst_p2p_alltoall_irsend.c:89-115 | the length of every run is bounded |
| ReadyMode.StuckRunsAreComplete | p2p/tst_p2p_alltoall_irsend.c:115-140 | a run that cannot go on is over everywhere; slot j holds the array of rank comm_size - j - 1 and its status names that rank |
| ReadyMode.EveryRunEnds | p2p/tst_p2p_alltoall_irsend.c:89-140 | every run can go on until it is complete |
| ReadyMode.FillRequests | p2p/tst_p2p_alltoall_irsend.c:89-113 | the two loops fill all 2n request entries: at 2k + 1 the receive into slot k from rank n - k - 1, at 2k the send to rank k |
| ReadyMode.ReceivesAsRequested | p2p/tst_p2p_alltoall_irsend.c:89-97 | whatever a receive of a run is matched with is what its request entry asks for |
| ReadyMode.SendsAsRequested | p2p/tst_p2p_alltoall_irsend.c:105-110 | every ready send of a run is its request entry's and takes a posted receive whose entry asks for it |
| PersistentIndex.Init | p2p/tst_p2p_alltoall_persistent.c:69-98 | the loops stay within the request array and leave each of the 2(n-1) requests at its index: the receives from lower ranks, all sends, the receives from higher ranks, in ascending order and each receive into its source's buffer |
| PersistentIndex.EveryIndexUsed | p2p/tst_p2p_alltoall_persistent.c:69-98 | every one of the first 2(n-1) indices belongs to exactly one send or one receive, and to which |
| PersistentIndex.InitSends | p2p/tst_p2p_alltoall_persistent.c:75-87 | the inner loop makes the n - 1 sends, in order, and touches no other entry |
| PersistentIndex.Check | p2p/tst_p2p_alltoall_persistent.c:126-159 | the traversal succeeds exactly when no request was cancelled and the status at each receive's index names that receive's rank, and counts the errors of all received arrays |
| PersistentIndex.StatusesMean | p2p/tst_p2p_alltoall_persistent.c:147-149 | where that status lies: at q for a rank q below the own one, at n - 2 + q above it |
| PersistentIndex.NoErrorsBelow | p2p/tst_p2p_alltoall_persistent.c:157 | the count is zero exactly when every other rank's array is right |
| PersistentIndex.ErrorsCount | p2p/tst_p2p_alltoall_persistent.c:157 | another array in the place of one changes the count by the difference of their errors |
| PersistentIndex.RunReadsWhatInitWrote | p2p/tst_p2p_alltoall_persistent.c:123-159 | statuses that report on the requests made by _init, one by one, pass the traversal of _run |
| PersistentIndex.SwappedStatusFails | p2p/tst_p2p_alltoall_persistent.c:147-149 | a status of another receive never does |
| PersistentIndex.DeliveredChecks | p2p/tst_p2p_alltoall_persistent.c:157 | delivered arrays are counted with no error |
| Oracle.BytesInjective | tst_types.c:610-651 | within the range of its type a stored value is determined by its bytes |
| Oracle.BytesValue | tst_types.c:610-651 | the stored bytes, least significant first, stand for the value modulo 256^width |
| Oracle.FieldSlice | tst_types.c:654-690 | a field's bytes in an element are those of its value: fields do not overwrite each other |
| Oracle.SameElement | tst_types.c:911-1003 | two settings give the same element exactly when all fields get the same bytes |
| Oracle.SettingFits | tst_types.c:610-651 | clamping leaves a number of the type, whose bytes are those of the field, for integer and floating types |
| Oracle.IntegerSettings | tst_types.c:610-651 | of an integer type the minimum and maximum are the ends of its range, a value is stored as it is up to the maximum and clamped above it |
| Oracle.FloatingSettings | tst_types.c:610-651 | of a floating type they are its least normal and greatest number; naturals it holds are stored as they are, 0 included in the scalar types, and all other values lie between |
| Oracle.ScalarSettings | tst_types.c:1033-1058 | two settings of a scalar give the same element exactly when they give the same number |
| Oracle.StandardAccepted | tst_types.c:1060-1128 | the check counts no error in a buffer that starts with the standard array |
| Oracle.AcceptsExactly | tst_types.c:1060-1128 | away from long double the check counts no error exactly for such buffers |
| Oracle.FieldsAccepted | tst_types.c:1053-1054 | of long double it accepts the right numbers whatever the gaps hold |
| Oracle.ReceivedIsStandard | tst_types.c:555-571 | for any gaps, receiving only the field bytes of a standard array into a fresh buffer gives the standard array |
| Oracle.ReceivedOverStandard | tst_types.c:555-571 | so does receiving over another rank's standard array |
| Oracle.ReceivedByte | tst_types.c:555-571 | byte for byte, a message brings what is no gap and leaves the gaps |
| Oracle.StandardGap | tst_types.c:911-915 | every gap byte of a standard array holds 0xa5 |
| Oracle.DeliveredPasses | tst_types.c:1060-1128 | a delivered standard array passes the check for its rank |
| Oracle.ScalarElement | tst_types.c:610-651 | element i of two ranks' arrays agrees exactly when the ranks do, i < 2, or both values saturate |
| Oracle.WrongRankErrors | tst_types.c:1060-1128 | the exact number of errors of one rank's array under another rank's check |
| Oracle.WrongRankPasses | tst_types.c:1060-1128 | when that number is zero |
| Oracle.AllocValues | tst_types.c:555-571 | a fresh buffer of n + 8 elements filled with 0xa5 |
| Oracle.SetElement | tst_types.c:911-1003 | memset and field stores leave exactly the element of the setting and touch nothing else |
| Oracle.SetStandardArray | tst_types.c:1005-1020 | the buffer afterwards is the old one with the standard array written at its place |
| Oracle.StandardWritten | tst_types.c:1005-1020 | which is to say: the array lies there and every other byte is what it was |
| Oracle.StandardElements | tst_types.c:1005-1020 | its element 0 is the minimum, element 1 the maximum, element i rank + i |
| Oracle.CmpValue | tst_types.c:1033-1058 | true exactly when the two elements differ in some byte or, for long double, in their number |
| Oracle.CheckStandardArray | tst_types.c:1060-1128 | returns exactly the number of elements that differ from the standard array |
| Reductions.StandardNumbers | tst_types.c:1005-1020 | the numbers in a standard array, limits and saturation included |
| Reductions.MaxMinOfAll | coll/tst_coll_allreduce_max.c:41-50 | in whatever order ranks are combined, MAX of all standard arrays is the last rank's, MIN rank 0's |
| Reductions.EncodedMatches | tst_types.c:1060-1128 | a buffer of numbers of a one-field type is a rank's standard array, byte for byte, exactly when the numbers are |
| Reductions.ValuesPass | tst_types.c:1060-1128 | the check of a buffer that holds numbers of the type, integer or floating, counts no error exactly for the standard numbers |
| Reductions.AllreducePasses | coll/tst_coll_allreduce_min.c:41-50 | the check of the MAX test for rank comm_size - 1 and of the MIN test for rank 0 counts no error on any correct reduction, for integer and floating types, whatever it leaves in the padding of long double |
| Reductions.TotalOrder | coll/tst_coll_allreduce_sum.c:49 | the sum does not depend on the order of the contributions |
| Reductions.TotalOfRanks | coll/tst_coll_allreduce_sum.c:62-67 | over ranks 0..n-1 the sum of clamped values equals the closed form exactly when nothing is clamped |
| Reductions.ReduceTotal | coll/tst_coll_allreduce_sum.c:49 | a reduction whose total the type holds exactly computes it, no partial sum being rounded or wrapped |
| Reductions.SumOfAll | coll/tst_coll_allreduce_sum.c:49-67 | in any order and grouping the machine's sum over all ranks is the closed form, with every partial sum exact, as long as the type holds it |
| Reductions.FenceSum | one-sided/tst_accumulate_with_fence_sum.c:83-113 | so is the window after the n - 1 accumulates, in whatever order they arrive |
| Reductions.CheckSums | coll/tst_coll_allreduce_sum.c:62-91 | the loop counts the elements from 2 on that differ, as tst_type_cmpvalue compares them, from the closed form |
| Reductions.RunSum | coll/tst_coll_allreduce_sum.c:51-97 | whatever is in the buffer no failure is recorded; that agrees with the errors counted exactly when every element from 2 on is the expected sum |
| Reductions.UnreducedDiffers | one-sided/tst_accumulate_with_fence_sum.c:97-128 | on two or more ranks an own array that was never reduced has an error in every element from 2 on, as long as the type holds the sums; none is recorded |
| Reductions.SumElement | coll/tst_coll_allreduce_sum.c:62-70 | for an integer type with wrap-around: the comparison finds an element equal exactly when the closed form does not saturate or the wrapped sum is the clamp value |
| Reductions.SaturatedTotal | coll/tst_coll_allreduce_sum.c:62-70 | what the clamped contributions add up to beyond saturation |
| Reductions.SaturatedSumComesOut | coll/tst_coll_allreduce_sum.c:62-70 | 382 ranks of unsigned char saturate and wrap to the clamp value, so that the comparison finds no difference |
| Reductions.CorrectSumsPass | tst_tests.c:693-698 | a correct reduction counts no error as long as the type holds the sums exactly |
| Reductions.ScanBeforeCutOff | coll/tst_coll_scan_sum.c:72-86 | as long as the type holds it the scan is i * (rank + 1), with no partial sum rounded or wrapped |
| Reductions.CutOffSeparates | coll/tst_coll_scan_sum.c:78-88 | every index before the cut-off expects i * (rank + 1), every index from it on is saturated |
| Reductions.FillCheck | coll/tst_coll_scan_sum.c:42-48 | the loop of _init leaves i * (rank + 1), clamped, in element i of the check buffer |
| Reductions.CheckScan | coll/tst_coll_scan_sum.c:42-100 | the test counts the elements that differ, as tst_type_cmpvalue compares them, up to the first saturated one |
| Reductions.RunScan | coll/tst_coll_scan_sum.c:72-105 | a failure is recorded exactly when some element before the cut-off is not i * (rank + 1) |
| Reductions.CorrectScanPasses | coll/tst_coll_scan_sum.c:72-100 | a correct scan counts none as far as the type holds it exactly |
| Reductions.CorrectScanCounts | coll/tst_coll_scan_sum.c:72-100 | for an integer type that is everywhere before the cut-off, so no failure is recorded |
| Scatterv.DisplClosed | coll/tst_coll_scatterv_stride.c:87-102 | the accumulated displacements are j(j-1)/2, and (j-1)(j+2)/2 with holes |
| Scatterv.Fits | coll/tst_coll_scatterv.c:45 | all blocks fit the allocation exactly, with one element to spare, two if strided |
| Scatterv.BlocksApart | coll/tst_coll_scatterv_stride.c:87-102 | blocks are disjoint, and strided ones leave a hole of one element between them |
| Scatterv.BlocksLength | coll/tst_coll_scatterv.c:87-94 | pos stays displs times the size of the type |
| Scatterv.LayOutDense | coll/tst_coll_scatterv.c:78-95 | the loop leaves counts, displacements and exactly the blocks, and the rest of the buffer as it was |
| Scatterv.LayOutStrided | coll/tst_coll_scatterv_stride.c:75-103 | the same with the minimum in every hole, and in the first element when there is no block |
| Scatterv.BlockAt | coll/tst_coll_scatterv.c:87-94 | at rank j's displacement lies its j-element standard array |
| Scatterv.HoleAt | coll/tst_coll_scatterv_stride.c:96-99 | the element after it is the minimum |
| Scatterv.EveryRootPasses | coll/tst_coll_scatterv.c:76-105 | after every root's turn every rank j holds the j-element standard array of rank j and its check counts no error |

## Left out

- The library: MPI calls are steps with the conditions the standard gives them; nothing is proved about an implementation. Timing, back-off and printing are left out, and so is the strict mode's MPI_Get_count, whose value after a cancelled receive the standard does not define.
- Memory shared between threads: the protocols are state machines over values, so aliasing of buffers between ranks and threads is not captured; only the sequential loops and `tst_threads.c` are updates in place.
- Critical sections under a mutex are single steps, except the master's command section, whose writes are separate steps because `working` is written in it without its mutex.
- Calls of tst_thread_cleanup: main never makes one; the model has the shutdown the framework offers.
- tst_thread_assign_one and tst_thread_assign_reset: execute_run and execute_cleanup set `working` to all threads, so a partial assignment cannot pass the barrier; main does not use them. tst_thread_signals_count is written under different mutexes and is not relied on.
- The busy wait in the _init of the partitioned rings for the published global buffer; runs start with the buffer in place. Accumulates and gets take effect when MPI_Win_complete returns.
- Oracle.SetElement: the type with a negative lower bound is not modelled. Floating types are any that round monotonically, hold the naturals up to a bound exactly and write a number's bytes back as they are; infinities, signed zeros and NaN, which no test sets, are not modelled. Oracle.OneByteIsFloating exhibits one such type.
- Reductions.CorrectSumsPass: beyond the naturals a floating type holds exactly (2^53 for double) the result depends on the order of rounding and nothing is claimed; the same holds for Reductions.CorrectScanPasses.
- Reductions.CheckScan: i * (rank + 1) and the closed form are unbounded integers where the source computes them in int and MPI_Aint. Integer sums wrap; that signed overflow is undefined in C is not modelled.
- ManyToOne.DriverRunsMatch: the runs of this test on one intra-communicator; the runs of other tests between them and intercommunicators are not modelled.
- PersistentIndex.Check: the communication itself, one Startall and Waitall without any blocking in between, is reduced to the statuses it leaves.
- CancelResolution.StepKeeps: the branch for LAM, which frees cancelled requests, is not modelled. The source compares the gathered flag with the receive's status in one direction only; both are proved.
- PartitionedRing.StuckRunsAreComplete: where the ratio does not divide the worker count the receive is shorter than the send; what the receive partitions cover is transferred, and an error raised by the library instead is not modelled.
- Tests under io/, dynamic/ and env/, the other collectives, name selection, command-line parsing and output, which are plumbing around library calls.
