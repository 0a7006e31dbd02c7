# Verified models of the course programs

The repository is a collection of small C, C++ and Java programs written for programming courses. This
project models the ones whose correctness is not evident from reading them, and proves what they are for:
concurrent protocols as step relations over all interleavings, and algorithms as loops over mutable state
proved against an independent statement of the result. `dafny verify dfyconfig.toml` checks everything.

## What is modelled

**Concurrent protocols.** A step is one statement of one process, and a theorem speaks about every run.

- `RingQueue`, `Mpmc`, `MpmcInvariant`, `MpmcTheorems`: the multiple-producer, multiple-consumer queue. Any
  number of threads, one mutex, two condition variables, signals sent after the mutex has been given back,
  spurious wakeups (POSIX.1-2017 `pthread_cond_wait()`), and the shutdown broadcast. `BoundedQueue` is the same
  ring updated in place.
- `SemOps`: `semop_many` and its pseudo-operation `semop_adj`, over the semantics of System V semaphores with
  `SEM_UNDO` (POSIX.1-2017 `semop()`, XSI).
- `Handoff`, `HandoffInvariant`, `HandoffTheorems`, `HandoffCompletion`: the shared-memory handoff of seminar 6.
  Either process may die between any two statements; its recorded adjustments are then applied. One receiver
  session, which finds in MEMORY, DATA and the shared segment whatever an earlier one left, one joined sender, any
  number of senders still blocked. `HandoffCompletion` is about the runs in which nothing fails.
- `SignalChannel`: the file transfer of seminar 7, one bit per signal, with its sentinel-bit byte buffers.

**Algorithms.** `PermutationRoot` (square root of a permutation), `Radix` (polynomials in an unknown radix),
`Database` (two hash tables over one pool), `Bridges` (depth-first bridge finding), `ShortestPaths` (Dijkstra),
`TreeLevels` (breadth-first search with a linked queue), `Scheduler` (windows with latencies), `Greedy`
(fewest operations to zero), `Tournament` (ordering by neighbour swaps), `Roman` (printer and reader),
`Fibonacci` (repeated squaring). `Collections` and `Modular` hold shared facts about sums and remainders.

## Where the code does not do what it is meant to

Each of these is proved as an equivalence or has a lemma with a concrete input.

- The sender of the shared-memory handoff joins with `semop_many(sem, 1, ..., semop_adj(SEMAPHORE_DATA, 2))`. The
  count is 1, so the adjustment is never read and the sender's death does not raise DATA
  (`HandoffInvariant.JoinCall`; with a count of 2 it would, `HandoffInvariant.JoinCallInFull`). A receiver whose
  sender is dead completes exactly if SND_EOF was set and V DATA done; unless a write fails, it otherwise waits in
  P DATA for ever (`HandoffTheorems.FateIsDecided`, `HandoffTheorems.StrandedForGood`). The shortest such run has ten
  steps (`HandoffTheorems.DeadSenderStrands`). A sender that fails to read leaves the receiver waiting too, and its
  SND_IOERROR is never looked at (`HandoffTheorems.ReadErrorStrands`, `HandoffTheorems.SwitchFindsChunkOrEnd`). The
  other direction works: a sender whose receiver is dead always comes to its end.
- `semop_adj(x, 0)` becomes two waits for zero, so the call can block although it asks for nothing
  (`SemOps.ExpandMeaning`, `SemOps.ZeroAdjustmentBlocks`).
- The producer/consumer program ends in every run if and only if the queue has a slot and there is a consumer,
  or all documents fit into the queue (`MpmcTheorems.StuckMeansDone`).
- The radix search is right if and only if the largest digit is no larger than the largest coefficient or some
  equation is not an identity; `0*F=0` is valid in every radix above 15 but 0 is printed
  (`Radix.FindRadix`, `Radix.ZeroOperandMisleads`).
- Dijkstra's answers are right if and only if no edge out of a reachable vertex does harm by wrapping around in 32
  bits; sums below UINT_MAX never do, and an edge of length UINT_MAX can (`ShortestPaths.Dijkstra`,
  `ShortestPaths.LongEdgeMisleads`).
- The breadth-first search looks through the null pointer of an empty tree, which `main` passes when the first number
  read is 0 (`TreeLevels.BreadthFirstSearch`).
- The greedy loop is right for every 64-bit number except the largest, for which it prints 1
  (`Greedy.CountOperations`).
- Fibonacci modulo m is right for all m with 2(m-1)^2 < 2^64, for all divisors of 2^64, and for every m as long as the
  number itself is below 2^64; for m = 2^64 - 1 the 96th number comes out wrong (`Fibonacci.FibonacciModulo`,
  `Fibonacci.WrappingShows`).
- The unbounded Fibonacci program is right for every nonnegative 32-bit index except the largest
  (`Fibonacci.FibonacciUnbounded`).

## Model

| member | source | states |
|---|---|---|
| RingQueue.StoreAppends | course2-1/__non_canonical/For575/mpmc/mpmc.c:66-76 | storing at the slot behind the queued window appends to the FIFO sequence, with wraparound, and the tail stays `used` slots behind the head |
| RingQueue.FetchDrops | course2-1/__non_canonical/For575/mpmc/mpmc.c:66-76 | stepping the head removes exactly the oldest element |
| RingQueue.BoundedQueue.constructor | course2-1/__non_canonical/For575/mpmc/mpmc.c:262-267 | a new ring represents the empty sequence |
| RingQueue.BoundedQueue.GetAndAdvance | course2-1/__non_canonical/For575/mpmc/mpmc.c:66-76 | the old pointer is returned and the new one wraps to the start of the array |
| RingQueue.BoundedQueue.Insert | course2-1/__non_canonical/For575/mpmc/mpmc.c:153-154 | the FIFO contents grow by exactly this document at the end, also when the ring becomes full |
| RingQueue.BoundedQueue.Retrieve | course2-1/__non_canonical/For575/mpmc/mpmc.c:212-213 | the oldest document is returned and the rest stay in order |
| MpmcInvariant.InvKept | course2-1/__non_canonical/For575/mpmc/mpmc.c:114-244 | every step of every thread, including a spurious wakeup, keeps the invariant: mutex ownership, the ring as the FIFO of what was inserted and not retrieved, the producers' counters, both wakeup balances and the shutdown order |
| MpmcInvariant.InvAlways | course2-1/__non_canonical/For575/mpmc/mpmc.c:246-340 | the invariant holds in every reachable state |
| MpmcInvariant.WakeupsKept | course2-1/__non_canonical/For575/mpmc/mpmc.c:136-163 | the two balances are inductive although a signal is sent after the unlock and another thread may take the document first |
| MpmcTheorems.MutualExclusion | course2-1/__non_canonical/For575/mpmc/mpmc.c:136-159 | in every run at most one thread, main with its shutdown section included, is between lock and unlock |
| MpmcTheorems.NoLostWakeup | course2-1/__non_canonical/For575/mpmc/mpmc.c:187-226 | in every run: while a consumer sleeps each queued document has a signal to come or an awake consumer, and dually for producers and free slots |
| MpmcTheorems.RetrievedInInsertionOrder | course2-1/__non_canonical/For575/mpmc/mpmc.c:141-154 | in every run the retrieved documents are a prefix of the inserted ones, at most a ring's worth is missing, and each producer's documents are inserted in `doc_id` order without gaps |
| MpmcTheorems.DeadlockFree | course2-1/__non_canonical/For575/mpmc/mpmc.c:187-226 | in every run of a configuration with a slot and a consumer, or with room for all documents: as long as main has not returned, some thread can take a step of its own |
| MpmcTheorems.StuckMeansDone | course2-1/__non_canonical/For575/mpmc/mpmc.c:305-340 | a run that can go no further has finished if and only if there is a slot and a consumer, or all documents fit into the ring |
| MpmcTheorems.DeliveredExactlyOnce | course2-1/__non_canonical/For575/mpmc/mpmc.c:305-340 | when main has returned, every document of every producer was retrieved exactly once, each producer's in order, and nothing else was |
| MpmcTheorems.WorkDrops | course2-1/__non_canonical/For575/mpmc/mpmc.c:114-244 | a measure drops with every step of a thread's own and rises by at most 4 with a spurious wakeup |
| MpmcTheorems.RunsAreBounded | course2-1/__non_canonical/For575/mpmc/mpmc.c:246-340 | so the length of any run is bounded by the configuration and the number of spurious wakeups |
| SemOps.StoreOps | course2-1/common_sem.h:141-157 | one argument adds its expansion, one or two operations, behind those already stored, which stay as they are |
| SemOps.BuildOps | course2-1/common_sem.h:134-158 | the array handed to semop() is the concatenated expansion of the first `ops_nr` arguments, in order, within the allocated size; further arguments have no effect |
| SemOps.AdjustMeaning | course2-1/common_sem.h:119-157 | a nonzero `semop_adj` never blocks, leaves every value alone and moves semadj by exactly the amount asked for; zero blocks unless the value is zero |
| SemOps.ExpandOneMeaning | course2-1/common_sem.h:141-157 | one argument does what is meant if and only if it is not a zero adjustment of a nonzero semaphore |
| SemOps.ExpandMeaning | course2-1/common_sem.h:134-161 | a call does what its first `ops_nr` arguments mean in turn, all or nothing, if and only if no zero adjustment of a semaphore that is then nonzero is reached, or they would block anyway |
| SemOps.ZeroAdjustmentBlocks | course2-1/common_sem.h:149-155 | a call that asks for an adjustment by zero can block |
| HandoffInvariant.CallMeaning | course2-1/common_sem.h:134-161 | the program's calls do what the arguments within their count mean |
| HandoffInvariant.LockOutCall | course2-1/common_sem.h:186-189 | the inverted mutex waits for zero and is left at 1 with semadj -1 |
| HandoffInvariant.SetupCall | course2-1/seminar6/receiver.c:53-71 | the receiver's set-up opens SND_MUTEX and MEMORY and arranges semadj -1 and +2 |
| HandoffInvariant.JoinCall | course2-1/seminar6/sender.c:53-63 | joining takes SND_MUTEX; with the count of 1 the adjustment of DATA is not read and semadj stays as it is |
| HandoffInvariant.JoinCallInFull | course2-1/seminar6/sender.c:53-63 | with a count of 2 the same arguments would set semadj +2 on DATA |
| HandoffInvariant.InvKept | course2-1/seminar6/receiver.c:83-150 | every statement of either process and every death keeps the session in one of six phases; while both live the buffer is with exactly one of MEMORY, DATA, sender, receiver; after the sender's death DATA holds at most what was handed over before |
| HandoffInvariant.InvAlways | course2-1/common_sem.h:182-205 | the invariant holds in every reachable state, whatever an earlier session left in MEMORY, DATA and the shared segment |
| HandoffTheorems.OutputIsPrefix | course2-1/seminar6/receiver.c:107-121 | whoever dies when: the senders still blocked and the one that joined have among them only the files the senders started with, each its own; the output is a prefix of the joined sender's file, and all of it when the receiver returns successfully; the sender returns successfully only after reading all of its file |
| HandoffTheorems.BufferIsExclusive | course2-1/seminar6/receiver.c:84-149 | while both live they are never both between their P and V |
| HandoffTheorems.WritesWholeChunks | course2-1/seminar6/receiver.c:113-121 | what is about to be written is exactly the part of the file read last, at most 23 bytes, never half-filled, never again |
| HandoffTheorems.EofTestIsReliable | course2-1/seminar6/sender.c:129-143 | the test after V DATA leaves the loop exactly when this sender met end of file |
| HandoffTheorems.OneSenderJoins | course2-1/seminar6/sender.c:53-66 | one sender at most passes SND_MUTEX in a session |
| HandoffTheorems.NeverBothBlocked | course2-1/seminar6/receiver.c:84-94 | with both alive one of them can go on |
| HandoffTheorems.LoneSenderFinishes | course2-1/seminar6/sender.c:72-144 | a sender whose receiver is dead never blocks again, reads at most one more chunk and is at most 18 steps from its exit, every step of its own bringing it nearer |
| HandoffTheorems.SwitchFindsChunkOrEnd | course2-1/seminar6/receiver.c:107-134 | in every run the receiver's switch finds SND_OK or SND_EOF; the branches for SND_IOERROR and SND_NOT_DONE are never taken |
| HandoffTheorems.LoneReceiverStops | course2-1/seminar6/receiver.c:83-150 | a receiver whose sender is dead can go on exactly as long as it is not waiting with DATA at zero, for at most six steps of its own, in which it writes at most one more chunk |
| HandoffTheorems.FateIsDecided | course2-1/seminar6/receiver.c:83-150 | once the joined sender is dead an undisturbed receiver succeeds, with the whole file written, if and only if the end of the file had been posted, gives up if and only if a write had failed, and is stranded in P DATA in every other case |
| HandoffTheorems.StrandedForGood | course2-1/seminar6/receiver.c:84-94 | a stranded receiver whose sender is dead stays there, its output unchanged, until it is killed |
| HandoffTheorems.ReadErrorStrands | course2-1/seminar6/sender.c:105-108 | a sender that leaves after a read error leaves the receiver waiting with DATA at zero |
| HandoffTheorems.DeadSenderStrands | course2-1/seminar6/sender.c:53-63 | for every file, a ten-step run after which the only step left to anybody is to kill the receiver |
| HandoffCompletion.CalmRunsAreBounded | course2-1/seminar6/sender.c:72-144 | when nobody is killed and no read or write fails, a run has at most eight steps before a sender joins, and with a joined sender at most 15 steps per byte of its file and twenty more |
| HandoffCompletion.CalmRunsComplete | course2-1/seminar6/receiver.c:83-154 | when nobody is killed and no read or write fails, a run that can go no further has written the whole file of one of the senders, the others are still blocked with theirs, and both processes have returned successfully; or there was no sender |
| SignalChannel.PullWalks | course2-1/seminar7/signal.c:92-104 | pulling yields the bits of the byte in order and reaches the bare sentinel exactly after the eighth |
| SignalChannel.PullNextStarts | course2-1/seminar7/signal.c:106-116 | the first bit of a fresh byte is its most significant and the rest follow with a sentinel |
| SignalChannel.PushWalks | course2-1/seminar7/signal.c:44-64 | pushing the bits of a byte yields that byte with the eighth and nothing before |
| SignalChannel.BitwiseContext.PushLsb | course2-1/seminar7/signal.c:44-64 | the in-place shift does what the pure codec step says |
| SignalChannel.BitwiseContext.PullBit | course2-1/seminar7/signal.c:92-104 | likewise, and `need_byte` is reported exactly at the bare sentinel |
| SignalChannel.BitwiseContext.PullNextByte | course2-1/seminar7/signal.c:106-116 | likewise for the first bit of a byte |
| SignalChannel.TransferByte | course2-1/seminar7/signal.c:44-116 | eight bits through a sending and a receiving buffer give the byte back and leave both as they started |
| SignalChannel.InvKept | course2-1/seminar7/signal.c:138-180 | every step of either loop, every failure and the parent's death handler keep the invariant tying both buffers to the number of bits transferred |
| SignalChannel.OneSignalAtATime | course2-1/seminar7/signal.c:233-282 | in every run, deaths included, at most one request or answer is outstanding and the sentinel asserts never fail |
| SignalChannel.OutputIsPrefix | course2-1/seminar7/signal.c:171-179 | in every run the output is a prefix of the file |
| SignalChannel.EndMeansComplete | course2-1/seminar7/signal.c:254-256 | once the sender has met end of file the output is the whole file and both buffers are on a byte boundary |
| SignalChannel.ExitCodes | course2-1/seminar7/signal.c:233-297 | in every run the sender ends without an error exactly if it met the end of the file, and then all of it has been written; the receiver ends with an error only after a failed write |
| SignalChannel.AnswersSpellTheFile | course2-1/seminar7/signal.c:157-169 | the answer under way is SIGUSR2 if the next bit of the file, most significant first, is 1 and SIGUSR1 if it is 0 |
| SignalChannel.NeverStuck | course2-1/seminar7/signal.c:138-282 | until both have come to their end one of them can go on |
| SignalChannel.RunsAreBounded | course2-1/seminar7/signal.c:138-282 | every run has at most 80 steps per byte and eight more |
| SignalChannel.CopiesTheFile | course2-1/seminar7/signal.c:118-297 | without failing reads or writes every run that can go no further has copied the whole file |
| PermutationRoot.MarkLoop | course1-1/eljudge/070.cpp:43-50 | the walk from an unmarked element marks exactly one whole cycle, disjoint from those before |
| PermutationRoot.FindLoops | course1-1/eljudge/070.cpp:38-58 | the loops found partition the elements into the cycles of the permutation |
| PermutationRoot.SortLoops | course1-1/eljudge/070.cpp:59 | the loops in order of length are the same loops |
| PermutationRoot.RootOddLoop | course1-1/eljudge/070.cpp:74-88 | on an odd cycle the shifted assignment is a square root and stays within the cycle |
| PermutationRoot.RootLoopPair | course1-1/eljudge/070.cpp:96-121 | on two cycles of equal length the interleaved circle is a square root |
| PermutationRoot.ImageCycle | course1-1/eljudge/070.cpp:90-130 | a root takes a cycle to a cycle of the same length and back |
| PermutationRoot.NoFixedEvenCycle | course1-1/eljudge/070.cpp:90-130 | no root takes a cycle of even length to itself |
| PermutationRoot.EvenGroup | course1-1/eljudge/070.cpp:125-137 | if any root exists the cycles of each even length are even in number |
| PermutationRoot.AddLoops | course1-1/eljudge/070.cpp:72-139 | one turn either extends the root by one odd or two even cycles or proves that no root exists |
| PermutationRoot.SquareRoot | course1-1/eljudge/070.cpp:38-144 | a printed result composed with itself is the permutation; 0 is printed only if no permutation squares to it |
| Radix.Multiply | course1-2/1-number5/base.cpp:22-33 | the in-place double loop computes the convolution |
| Radix.ProductEval | course1-2/1-number5/base.cpp:22-33 | evaluating the convolution multiplies the values |
| Radix.Add | course1-2/1-number5/base.cpp:35-50 | evaluation of the sum adds the values, whichever operand is longer |
| Radix.Subtract | course1-2/1-number5/base.cpp:52-67 | evaluation of the difference subtracts the values, with the tail negated |
| Radix.Compute | course1-2/1-number5/base.cpp:69-79 | the running power loop is evaluation |
| Radix.FindMaxCoeff | course1-2/1-number5/base.cpp:81-86 | the bound becomes the least that is no smaller than before and than every coefficient |
| Radix.ReverseMeaning | course1-2/1-number5/base.cpp:127-152 | the reversed digits are the polynomial whose value in a radix is the number written |
| Radix.DigitsAreUnique | course1-2/1-number5/base.cpp:209-226 | nonnegative coefficients below the radix are determined by the value |
| Radix.HoldsBeyondCoefficients | course1-2/1-number5/base.cpp:209-226 | beyond every coefficient an equation holds only if it is an identity, so all these radixes behave alike |
| Radix.ReadEquation | course1-2/1-number5/base.cpp:165-193 | aborts exactly at an operator other than `*` and `+` or a missing `=`; otherwise the polynomial returned vanishes in exactly the radixes in which left times right, or left plus right, has the value of the result, and both bounds are kept up to date |
| Radix.ReadEquations | course1-2/1-number5/base.cpp:201-206 | all equations are represented, with the bounds over all of them |
| Radix.IsValidRadix | course1-2/1-number5/base.cpp:210-216 | a radix is valid if and only if every equation holds in it |
| Radix.TryRadixes | course1-2/1-number5/base.cpp:208-226 | the loop finds the only valid radix in the range, -1 for several, 0 for none |
| Radix.SearchDecides | course1-2/1-number5/base.cpp:208-226 | the finite range answers the question about all radixes if and only if it reaches past a coefficient or some equation is not an identity |
| Radix.FindRadix | course1-2/1-number5/base.cpp:195-229 | the program aborts exactly at a malformed line; otherwise it prints the only number above every digit in which all lines are true, 0 if there is none, -1 if there are several, if and only if some coefficient is no smaller than every digit or some line is not true for every number |
| Radix.ZeroOperandMisleads | course1-2/1-number5/base.cpp:208-226 | `0*F=0` gives 0 although every radix is valid |
| Database.HashGetBucket | course1-1/12-seminar-datacenter/database.c:84-94 | the bucket is the key modulo the number of buckets, for negative keys too |
| Database.Store.PickSmallest | course1-1/12-seminar-datacenter/database.c:267-286 | none exactly if some bucket is empty, and then the value is not stored; otherwise the first table whose bucket is least |
| Database.Store.HashFindAdd | course1-1/12-seminar-datacenter/database.c:103-136 | a slot holding the live item of this value, or a free slot when there is no such item |
| Database.Store.HashForceAdd | course1-1/12-seminar-datacenter/database.c:138-146 | a new free slot at the end of the right bucket |
| Database.Store.AddToAllOther | course1-1/12-seminar-datacenter/database.c:291-300 | the item gets a slot in every other table |
| Database.Store.InsertItem | course1-1/12-seminar-datacenter/database.c:354-365 | a value new to the store becomes one pool item with one slot in the right bucket of each table |
| Database.Store.AddValue | course1-1/12-seminar-datacenter/database.c:342-368 | the list of values grows by one and the number printed is how often it now occurs |
| Database.SameInBoth | course1-1/12-seminar-datacenter/database.c:186-211 | deleting while scanning finds the same items as scanning without deleting |
| Database.Store.HashIterateByKey | course1-1/12-seminar-datacenter/database.c:175-214 | the number returned is how many values have the key; with `delete` exactly those are gone, and stale slots of the other table stay harmless |
| Database.Store.Run | course1-1/12-seminar-datacenter/database.c:337-440 | for every sequence of commands: adding prints how often the value is there, counting and deleting by `a`/`A` or `b`/`B` print at how many places that field has the key, deleting leaves exactly the other values as often as before, and the run stops at the first unknown word or letter |
| Database.ReferenceIsMeant | course1-1/12-seminar-datacenter/database.c:337-440 | the plain list the store is compared with does for each command word and letter what the command is for, and refuses the others |
| Bridges.ChildTest | course1-1/eljudge/090.cpp:105-108 | `fup[to] > tin[v]` holds after the child's call if and only if the edge is a bridge |
| Bridges.ChildLow | course1-1/eljudge/090.cpp:103-104 | the minimum taken over children and back edges is the earliest entry time the subtree reaches |
| Bridges.Search.constructor | course1-1/eljudge/090.cpp:496-501 | the marks before the search |
| Bridges.Search.DfsBridges | course1-1/eljudge/090.cpp:91-111 | the call enters everything reachable off the stack, leaves `fup` exact and records exactly the bridges among what it entered, each once; the parent of what it enters is the vertex whose call entered it |
| Bridges.Search.LookAt | course1-1/eljudge/090.cpp:95-109 | one neighbour: parent, back edge or child |
| Bridges.Search.FindBridges | course1-1/eljudge/090.cpp:502-505 | `bridges` ends up holding exactly the edges whose removal disconnects their endpoints, each once, as parent and child of the tree of calls; `tin` numbers all vertices in the order of entry |
| ShortestPaths.BuildGraph | course1-1/8-seminar-graph/dijkstra.cpp:46-53 | each input edge can be used in both directions and there are no others |
| ShortestPaths.PickVertex | course1-1/8-seminar-graph/dijkstra.cpp:60-69 | an unmarked vertex of least answer is found whenever one is unmarked, so the pointer is never null |
| ShortestPaths.RelaxOne | course1-1/8-seminar-graph/dijkstra.cpp:79-85 | relaxing an edge keeps marked vertices settled |
| ShortestPaths.MarkNext | course1-1/8-seminar-graph/dijkstra.cpp:59-86 | a turn settles one more vertex, or stops when nothing unmarked has been reached, or has spoiled an answer for good |
| ShortestPaths.RelaxSpoils | course1-1/8-seminar-graph/dijkstra.cpp:79-85 | an edge that wraps with harm leaves an answer below the distance, and answers only go down |
| ShortestPaths.LongEdgeMisleads | course1-1/8-seminar-graph/dijkstra.cpp:79-85 | across an edge of length UINT_MAX the answer cannot be right |
| ShortestPaths.NoOverflowIsNoHarm | course1-1/8-seminar-graph/dijkstra.cpp:79-85 | sums that stay below UINT_MAX do no harm |
| ShortestPaths.WalksAreLong | course1-1/8-seminar-graph/dijkstra.cpp:59-86 | no walk is shorter than the answer at its end or the least unmarked answer |
| ShortestPaths.Dijkstra | course1-1/8-seminar-graph/dijkstra.cpp:57-92 | for every graph: every vertex gets its distance, or UINT_MAX exactly if it is unreachable, if and only if no edge does harm by wrapping; in particular if sums stay below UINT_MAX |
| TreeLevels.ListInit | course1-1/11-seminar-tree/tree_7_breadth_first_search.c:16-19 | a list head alone is a well-formed ring |
| TreeLevels.ListInsertBefore | course1-1/11-seminar-tree/tree_7_breadth_first_search.c:29-35 | inserting before the head extends the ring at its end, linked both ways |
| TreeLevels.ListPushBack | course1-1/11-seminar-tree/tree_7_breadth_first_search.c:52-58 | the queue grows by this tree at its end |
| TreeLevels.ListRemove | course1-1/11-seminar-tree/tree_7_breadth_first_search.c:37-42 | unlinking the first queued node leaves a well-formed ring of the others |
| TreeLevels.AdvanceQueue | course1-1/11-seminar-tree/tree_7_breadth_first_search.c:182-195 | one turn takes the front off and appends its children, left first |
| TreeLevels.BreadthFirstSearch | course1-1/11-seminar-tree/tree_7_breadth_first_search.c:176-199 | the callback sees the levels printed for heights 0, 1, 2, ... in turn; no result exactly for the empty tree, whose null pointer is looked through |
| TreeLevels.VisitAll | course1-1/11-seminar-tree/tree_7_breadth_first_search.c:182-197 | the loop follows the queue and the ring is empty at the assert |
| TreeLevels.SearchIsLevelByLevel | course1-1/13-ejudjement-day-2/tree.c:49-61 | the queue order is the concatenation of what the height-filtered print yields for every height |
| TreeLevels.PrintedLeftToRight | course1-1/13-ejudjement-day-2/tree.c:49-61 | what is printed for one height are the values of that height in the order of the tree, left to right |
| TreeLevels.SearchVisitsEachOnce | course1-1/11-seminar-tree/tree_7_breadth_first_search.c:182-195 | the values visited are those of the tree, each as often as it occurs |
| Scheduler.OrderKept | course1-1/0-AMPh-olymp/taskN.cpp:65-68 | people leave a stage in the order in which they entered it |
| Scheduler.StartsWhenAWindowIsFree | course1-1/0-AMPh-olymp/taskN.cpp:28-39 | the recurrence max(a_k, d_(k-c)) + L means: start at the first moment at which fewer than c of those before are still there |
| Scheduler.WindowSet.Init | course1-1/0-AMPh-olymp/taskN.cpp:18-26 | all windows are free at the beginning |
| Scheduler.WindowSet.Serve | course1-1/0-AMPh-olymp/taskN.cpp:28-39 | taking the first window of the ordered set yields the departure of the recurrence, whatever window that is |
| Scheduler.StagesKeepOrder | course1-1/0-AMPh-olymp/taskN.cpp:65-73 | after every stage people are still in the order of arrival |
| Scheduler.StageIsFirstComeFirstServed | course1-1/0-AMPh-olymp/taskN.cpp:65-73 | in every stage everybody starts at the first moment, not before coming from the stage before, at which fewer than c of those before are still there, and leaves one latency later |
| Scheduler.CappedStages | course1-1/0-AMPh-olymp/taskN.cpp:55-57 | opening no more windows than there are people changes nobody's times |
| Scheduler.ServePerson | course1-1/0-AMPh-olymp/taskN.cpp:70-73 | putting one person through all stages at once gives the departure of the stage-by-stage schedule |
| Scheduler.LongestVisit | course1-1/0-AMPh-olymp/taskN.cpp:42-80 | the printed number is the longest stay when each of the three stages serves everybody, first come, first served, before the next is looked at |
| Greedy.Neighbours | course1-1/eljudge/026.cpp:8-23 | the least costs of neighbouring numbers differ by at most one, and an even number costs no more than its odd neighbours, 1 aside |
| Greedy.CostIsLeast | course1-1/eljudge/026.cpp:8-23 | the cost by parity is the least number of increments, decrements and halvings that reach zero, and only it is |
| Greedy.Reduce | course1-1/eljudge/026.cpp:9-21 | a turn of the loop lowers the least cost by exactly one, whichever way it goes |
| Greedy.CountOperations | course1-1/eljudge/026.cpp:5-26 | the loop ends and prints the least number of operations if and only if the number is not the largest word |
| Tournament.ReadTable | course1-1/eljudge/003.cpp:18-36 | for j < i a `+` or `-` in row i stands at (i, j), and turned round at (j, i); any other character leaves neither there |
| Tournament.LossIsWin | course1-1/eljudge/003.cpp:24-34 | one player's loss is the other's win, whatever characters were read |
| Tournament.ResultsAreRead | course1-1/eljudge/003.cpp:24-34 | player x beat player y exactly if the row of the later one has `+` for x or `-` for y |
| Tournament.CountWins | course1-1/eljudge/003.cpp:45-52 | the number of players each one beat |
| Tournament.OrderByWins | course1-1/eljudge/003.cpp:54-62 | the exchange loops leave everybody in once, players with more wins first |
| Tournament.SwapLowersByOne | course1-1/eljudge/003.cpp:69-74 | swapping neighbours of whom the first lost lowers the number of losing pairs of places by exactly one |
| Tournament.SwapUntilStable | course1-1/eljudge/003.cpp:66-76 | the loop ends after as many swaps as losing pairs disappear, with no losing neighbours left |
| Tournament.Rank | course1-1/eljudge/003.cpp:9-79 | the printed numbers name everybody once, nobody lost to the next, and if every game was decided each beat the next, by the characters read; the order comes from the order by wins by as many swaps as losing pairs disappear |
| Roman.ToRome | course1-2/1-number5/i.c:11-26 | the loop over the table writes the number place by place: thousands, hundreds, tens and ones, each digit in the letters of its place |
| Roman.WrittenByPlaces | course1-2/1-number5/i.c:28-43 | the thirteen blocks write every number, however large, as its decimal digits in the letters for one, five and ten of each place |
| Roman.WrittenIsRegular | course1-2/1-number5/i.c:28-43 | for every number only M stands four times running, D, L and V occur at most once, and only I, X and C stand before a larger letter, worth at most ten times as much |
| Roman.LettersAlternate | course1-2/1-number5/rome2arabic.c:6-20 | I counts one and each letter of IVXLCDM five or two times the one before, small letters the same |
| Roman.NeverBelowZero | course1-2/1-number5/rome2arabic.c:32-43 | for every numeral the running value is never below the last digit read, so the unsigned subtraction cannot wrap |
| Roman.Read | course1-2/1-number5/rome2arabic.c:22-49 | the right-to-left loop yields the sum of the letters, each subtracted if the next one is worth more, or aborts exactly at a character that is no digit |
| Roman.RoundTrip | course1-2/1-number5/rome2arabic.c:22-49 | reading what is printed for N >= 1, however large, gives N |
| Roman.PrintedDifferently | course1-2/1-number5/i.c:11-43 | two numbers are printed alike if and only if they are equal |
| Fibonacci.Addition | course1-1/eljudge/137.cpp:31-39 | F(p+q) = F(p)F(q+1) + F(p-1)F(q) |
| Fibonacci.LoopStandsAt | course1-1/eljudge/137.cpp:24-41 | for any arithmetic that keeps a way of standing for numbers, the loop moves the row from place q to q + p*n |
| Fibonacci.CombinedIsExact | course1-1/eljudge/137.cpp:29-39 | the 64-bit sum of two products has the right remainder if 2(m-1)^2 < 2^64 or m divides 2^64 |
| Fibonacci.FittingIsExact | course1-1/eljudge/137.cpp:24-41 | for every modulus an index whose number is below 2^64 comes out right, although the last squaring may wrap |
| Fibonacci.FibonacciModulo | course1-1/eljudge/137.cpp:11-42 | rc ends as F(n) mod m for every n if 2(m-1)^2 < 2^64 or m divides 2^64, and for every m if F(n) is below 2^64 |
| Fibonacci.WrappingShows | course1-1/eljudge/137.cpp:24-41 | for m = 2^64 - 1 the 96th number is wrong |
| Fibonacci.FibonacciUnbounded | course1-1/eljudge/009.java:9-36 | prints F(n+1) for a nonnegative index if and only if the index is not the largest 32-bit integer |

## Left out

- Fibonacci.FibonacciModulo: for a modulus with 2(m-1)^2 >= 2^64 that does not divide 2^64, and a number of 2^64 or more, it is not said which pairs (n, m) come out right; Fibonacci.WrappingShows is one that does not.
- Radix.FindRadix: coefficients and values are unbounded integers; machine overflow is not modelled.
- Radix.ReadEquation: a line arrives as its three digit strings and the characters between them; splitting the text into these is not modelled, and each number has at least one digit.
- Radix.Compute: the wrap-around of the 64-bit accumulator is not modelled.
- PermutationRoot.SortLoops: std::sort is an insertion by length; the results only use that the loops are rearranged in order of length.
- Scheduler.LongestVisit: moments are unbounded numbers.
- HandoffTheorems.OutputIsPrefix: speaks about one receiver session with one joined sender; a new receiver that starts while an old sender is alive is not modelled, because the program does not keep sessions apart there.
- Database.Store.HashForceAdd: the pool macros index the bucket's data in the same expression as the call that may reallocate it (course1-1/12-seminar-datacenter/database.c:132 and 143); C does not order the two, and the model takes the order in which the new data is indexed. The same holds for Database.Store.HashFindAdd.
- SignalChannel.CopiesTheFile: failing kill() and sigwait() calls and the sender's one-second check for a dead parent are not modelled; the death handler may end the receiver after the sender has left.
- Rates, nanosleep() and the interrupted-sleep branch that skips the "scanned" message: they do not touch the queue of course2-1/__non_canonical/For575/mpmc/mpmc.c; failures of pthread calls end that program.
- A statement of a process is one atomic step, except reading into the shared buffer, which is split so that a death can leave it half filled.
- shmget(), ftok(), fork(), semctl() failures, logging and argument parsing.
- `sigset_many(SIGUSR1, SIGTERM)` in course2-1/seminar7/signal.c:210 lacks the terminating 0 of the call at line 120; the model takes the set to be the two signals named.
- tree_add, tree_destroy and the other list operations of the tree program: the search takes any tree.
- The word game around `toRome` in course1-2/1-number5/i.c:45-105 and the colour numbers that course1-1/eljudge/070.cpp stores in `field` but never uses.
- The planarity test of course1-1/eljudge/090.cpp outside `dfs_bridges`.
- Hash-table pools are sequences that grow; memory management and pool_destroy are not modelled.
- course2-1/seminar8/task.c, the For478 programs, the SLRE library, duplicates of the programs above, floating-point tasks, Boost graphs, assembly and the small exercises.
