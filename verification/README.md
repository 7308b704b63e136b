# Core data structures and protocols of nginx, modelled and proved in Dafny

This project models the stateful core of an annotated nginx excerpt and proves what that code relies on: the
red-black tree and the event timers on top of it, the three upstream balancing policies with their shared peer
state, the thread pool's hand-over between one main thread and its workers, the 32-bit radix tree, the intrusive
queue with its sort, the pool allocator with its arrays, and the master's table of worker processes.

The code changes its data in place, and so does the model: classes hold the fields that the C structures hold, and
methods with loops do what the C functions do. Each such method is proved against a mathematical function of the old
state (`TimerQueue`, `Upstream`, `ThreadPool`, `StableSort`, `ProcessSlots`, or the maps and sequences of ghost fields),
and the properties over whole runs are proved about those functions.

`dafny verify dfyconfig.toml` checks the whole project.

## How the files hang together

| files | subject |
|---|---|
| `RbShape`, `RbTree` | what a red-black tree is; the parent-pointer tree with its sentinel, as heap objects |
| `TimerQueue`, `EventTimer` | timers as a sorted list; the tree of wrapped deadlines that refines it |
| `Upstream`, `UpstreamPeers` | the policies on sequences of peers; the peers, bitmaps and scans as they are mutated |
| `AddressHash`, `PeerHealth` | the address hash in closed form; what failures do to a peer over time |
| `SmoothWrr`, `Fairness`, `Balancer` | exact fairness of the smooth step; round robin is that step on the eligible peers; runs with many requests |
| `ThreadPool`, `TaskPool` | the pool as a state machine of atomic steps; its lists, counter and flags refine it |
| `RadixBits`, `RadixCount`, `RadixTree` | prefixes and longest matches; the preallocation's counting; the linked tree with its free list |
| `Basics` | an optional value, and the powers of two |
| `StableSort`, `Queue` | insertion sort on sequences; the circular list and its operations |
| `PoolMemory`, `Palloc`, `PoolArray` | regions, blocks and the system allocator; pools; arrays that grow in a pool |
| `ProcessSlots`, `ProcessTable` | the worker table as a value, and as an array |
| `ProcessSteps`, `MasterLoop` | the steps of the master over its table and its children; its main loop, and runs of it |

## Ideas behind the proofs

* The red-black tree carries, in ghost fields, each node's interval of positions in the in-order sequence and its black
  height. Link consistency, the order of the nodes and the black balance are then statements about one node at a time, and a
  rotation or a re-colouring touches a handful of them. The usual inductive notion of a red-black tree is recovered from this.
* Timers keep their true deadlines in ghost state. As long as the live deadlines and the clock lie in a window shorter
  than half the key range, the signed reading of a wrapped difference is the true difference, through any number of overflows.
* The smooth weighted round robin theorem comes from a ledger: after n picks a peer's current weight is n times its
  weight less W for each time it was picked, the weights always sum to zero, and none falls to -W.
* What failures do to a peer is stated over histories of releases and choices of one peer; the answers of all three policies are
  shown to be such happenings, so the laws hold of every run.
* The thread pool's counter may go negative; it equals the queue length less the workers in cond-wait. That every task
  is in exactly one place while it is active is also what makes the intrusive links safe: a list node is never on two lists.
  Destruction ends because every step but a sleeper's idle wake-up uses up work or brings the rounds nearer to their end.
* The radix tree maps each path to its node. In a tree without idle nodes the set of nodes is determined by the set of
  stored prefixes, which is why deleting a fresh prefix restores the shape.
* In the pool, comparing the end of an array with `last` of the first block identifies the array's region, since regions
  in use never share a byte. The entries of the list of large allocations lie in the pool themselves, so they are
  regions in use as well, which an array can never take for its own.
* In the process table a child and its slot are matched by pid, and pids come back. The correspondence of children and slots
  is therefore stated for the slots that have not exited; it breaks exactly when a lookup by pid ends at one that has.
* The master's loop is a state machine over the sections of a turn. Signals reach it only in sigsuspend, so that whatever was
  collected is reaped before any message is sent or process started. That order is what keeps a process told to exit from
  being started again.

## Where the source was read for its intent

The excerpt has slips of transcription. The model follows the evident intent in these places:

* `ngx_rbtree_right_rotate` (ngx_rbtree.c:325-350) does not set `x->parent` to the parent of `node`; its mirror does at line
  312. `RbTree.Tree.RightRotateAsWritten` performs the lines as they stand and proves that they never leave consistent links;
  `RbTree.Tree.RightRotate` has the missing line.
* `->p` stands for `parent` (ngx_rbtree.c:153 and 332). `ngx_rbtree_transplant` tests for the root with `parent == sentinel`,
  while the root's parent is NULL (lines 29 and 359): the model tests for NULL. `ngx_rbt_is_red(y->color)` at line 191 means `y`.
* `many` and `p` are declared twice in `ngx_http_upstream_get_least_conn_peer` (lines 102 and 123-124): one variable each.
* `ngx_array_init` (ngx_array.h:31-38) never allocates `elements`: the model starts with an array over memory of the pool.
* `ngx_alloc` (ngx_alloc.c:13-21) does not return its result: the model's allocator does.
* The start type `dd` of a restart (ngx_process_cycle.c:246) is taken for `NGX_PROCESS_RESPAWN`.

What callers owe: peer weights are at least 1; a pool's size is a multiple of the alignment and leaves room for one list
entry; array capacity and element size are at least 1; the clock and the live deadlines lie in a window shorter than half
the key range; `ngx_radix32tree_delete` is not asked for the empty prefix while the root has no children, because it follows
the root's parent (ngx_radix_tree.c:178); a fatal exit is collected for an unknown pid only while the process table is
not full, because the slot behind the last one is written then (ngx_process.c:501-506).

## Where the code does not keep what it seems to promise

Each of these has a lemma that gives a failing run or input, and others that say exactly when it does not fail:

* A slot whose respawn failed keeps its old pid. If fork answers that pid again, the exit of the new child is recorded in
  the old slot (`MasterLoop.StalePidRun`; `ProcessSteps.ReusedPid`, `MasterLoop.RunKeepsInv`).
* With such a pair of slots a process that was told to exit can be started again: its exit is recorded in the other slot, and
  a later message to reopen the logs finds it gone (`MasterLoop.LostMarkRun`, `MasterLoop.MarkedStaysMarked`). As long as
  collections find the right slots this never happens (`MasterLoop.RetiredStaysRetired`).
* The master can exit while a worker runs: a reload next to a new binary starts workers without setting `live`
  (`MasterLoop.WorkerLeftRun`; `MasterLoop.ExitLeavesWorkers` says exactly when).
* A mask with gaps does not match as a mask (`RadixBits.GapIsIgnored`, `RadixBits.MatchIsMasked`).

## Model

| member | source | states |
|---|---|---|
| RbTree.Tree.LeftRotate | ngx_src/ngx_rbtree.c:302-323 | the rotation re-links exactly the two nodes and the inner subtree, the root's parent stays null, and the in-order sequence is the same |
| RbTree.Tree.RightRotate | ngx_src/ngx_rbtree.c:325-350 | the mirror image, with the parent of the raised child set |
| RbTree.Tree.RightRotateAsWritten | ngx_src/ngx_rbtree.c:325-350 | the lines as they stand leave node and its left child each other's parents, so the links are inconsistent after every call |
| RbTree.Tree.FindLeaf | ngx_src/ngx_rbtree.c:98-149 | the descent of both inserters ends at a free child place whose position in the sequence is behind a node that does not compare greater and before one that does |
| RbTree.Tree.Insert | ngx_src/ngx_rbtree.c:22-96 | a balanced tree (root black, no red node with a red child, equal black counts, consistent parents) stays balanced, and the sequence gains exactly the new node, at such a gap |
| RbTree.Tree.InsertFixup | ngx_src/ngx_rbtree.c:40-95 | the re-balancing loop ends, with a balanced tree, from a tree whose only fault is a red node under a red parent |
| RbTree.StableInsertion | ngx_src/ngx_rbtree.c:98-117 | with the plain inserter the gap is behind every node of equal or smaller key, and a sorted sequence stays sorted |
| RbTree.Tree.Transplant | ngx_src/ngx_rbtree.c:151-167 | v takes u's place under u's parent, or as the root, and nothing else changes |
| RbTree.Tree.Detach | ngx_src/ngx_rbtree.c:169-217 | unlinking a node, with its successor moved into its place when it has two children, removes exactly it from the sequence; the tree is balanced or short of one black node in one known place |
| RbTree.Tree.DeleteFixup | ngx_src/ngx_rbtree.c:219-299 | the delete loop ends and repairs the missing black node: the tree is balanced |
| RbTree.Tree.Delete | ngx_src/ngx_rbtree.c:169-300 | exactly the given node leaves; all others keep identity and order, the tree stays balanced, and the node's links and key are cleared |
| RbTree.Tree.Min | ngx_src/ngx_rbtree.h:65-71 | the first node, in sequence order, of the subtree |
| RbTree.Tree.Next | ngx_src/ngx_rbtree.c:352-365 | the next node of the sequence, and null behind the last |
| RbTree.Tree.SeqListsNodes | ngx_src/ngx_rbtree.c:352-365 | the sequence lists every node of the tree exactly once |
| RbTree.Tree.TreeIsRedBlack | ngx_src/ngx_rbtree.c:22-350 | the linked objects form a red-black tree in the inductive sense, its in-order reading is the sequence, and 2^height is at most (n+1) squared |
| RbShape.HeightBound | ngx_src/ngx_rbtree.c:22-350 | every red-black tree with n nodes has height at most 2 log2(n+1) |
| EventTimer.SignedDifference | ngx_src/ngx_rbtree.c:119-149 | within half the range, the signed wrapped difference is the true one and the timer inserter compares true deadlines |
| EventTimer.Timers.EntriesAreArmed | ngx_src/ngx_event_timer.h:29-72 | timer_set is true exactly for the events in the tree; each is there once, in deadline order |
| EventTimer.Timers.FindTimer | ngx_src/ngx_event_timer.c:31-41 | infinite without timers, otherwise the distance to the earliest true deadline, or zero if that has passed |
| EventTimer.Timers.NoTimersLeft | ngx_src/ngx_event_timer.c:70-89 | answers OK exactly when every armed timer is cancelable |
| EventTimer.Timers.DelTimer | ngx_src/ngx_event_timer.h:29-38 | exactly this event leaves the list of armed timers |
| EventTimer.Timers.AddTimer | ngx_src/ngx_event_timer.h:40-72 | the event is armed once, behind all timers due no later; its deadline is the old one when it was armed and the new time is less than 300 ms away from that, and exactly the new time otherwise |
| EventTimer.Timers.TakeFirst | ngx_src/ngx_event_timer.c:52-65 | the earliest timer leaves the list, and its event, and no other, has timed out |
| EventTimer.Timers.ExpireTimers | ngx_src/ngx_event_timer.c:43-68 | for handlers that arm only positive delays the loop ends, and fires and leaves what `TimerQueue.Expire` says; exactly the events fired are marked timed out besides those that were |
| TimerQueue.ArmSets | ngx_src/ngx_event_timer.h:40-72 | after an arming the timer has that deadline and no other, and every other timer the deadline it had |
| TimerQueue.ArmLands | ngx_src/ngx_event_timer.h:40-72 | a timer armed anew stands behind those due no later and before those due later, which keep their order |
| TimerQueue.DisarmClears | ngx_src/ngx_event_timer.h:29-38 | disarming takes out this timer and no other |
| TimerQueue.ExpireLeavesNothingDue | ngx_src/ngx_event_timer.c:43-68 | no timer that is left is due |
| TimerQueue.ExpireFiresExactly | ngx_src/ngx_event_timer.c:43-68 | a timer due on entry fires if and only if no earlier handler took it out |
| TimerQueue.ExpireLeaves | ngx_src/ngx_event_timer.c:43-68 | a timer that was not due and that no handler that ran names is left with its deadline, and one that is left was there before or was armed by such a handler for the clock plus its delay |
| TimerQueue.ExpireFiresInOrder | ngx_src/ngx_event_timer.c:43-68 | the events fired are among those due on entry, in deadline order, equal deadlines in arming order, none twice |
| EventTimer.Timers.AdvanceClock | ngx_src/ngx_event_timer.c:31-41 | the clock may run on, over any number of overflows, while no armed timer falls out of the window behind it |
| SmoothWrr.Ledger | ngx_src/ngx_http_upstream_round_robin.c:529-553 | over n picks a current weight gains n times the weight and pays W for each time its peer was picked |
| SmoothWrr.FirstCycle | ngx_src/ngx_http_upstream_round_robin.c:489-560 | from zero weights, after W picks each peer was picked its weight times and all current weights are zero again |
| SmoothWrr.ExactFairness | ngx_src/ngx_http_upstream_round_robin.c:489-560 | every window of W picks takes peer i exactly weight_i times, the weights repeat every W picks, sum to zero and stay above -W |
| SmoothWrr.BoundedDrift | ngx_src/ngx_http_upstream_round_robin.c:489-560 | from any current weights, over any window of n picks, the count of a peer times W differs from n times its weight by no more than a bound that does not depend on n |
| Fairness.ChoiceIsSmoothStep | ngx_src/ngx_http_upstream_round_robin.c:489-560 | one choice is one smooth step on the candidates, whichever these are, as long as none of them has lost effective weight; the other peers are not touched |
| Fairness.RoundRobinIsFair | ngx_src/ngx_http_upstream_round_robin.c:489-560 | while the same peers are eligible, any window of as many requests with fresh bitmaps as their weights add up to goes to each of them exactly as often as its weight says, and to no other |
| Fairness.RoundRobinRepeats | ngx_src/ngx_http_upstream_round_robin.c:489-560 | after such a window every current weight is what it was, and none of the eligible peers' ever falls to minus the sum of their weights |
| Fairness.RoundRobinIsProportional | ngx_src/ngx_http_upstream_round_robin.c:489-560 | the same for the requests that go to an eligible peer, whatever the current weights were when the eligible set became what it is |
| UpstreamPeers.PeerData.constructor | ngx_src/ngx_http_upstream_round_robin.c:250-271 | the bitmap has the words that the larger of the group and its backups needs, and all its bits are clear |
| UpstreamPeers.PeerData.Usable | ngx_src/ngx_http_upstream_round_robin.c:507-527 | the tests of the scans pass exactly for an untried peer that is not down, not failed lately and not full |
| UpstreamPeers.PeerData.GetPeer | ngx_src/ngx_http_upstream_round_robin.c:489-560 | the peer chosen, the weights of all peers, the bitmap and the current peer are those of the round robin choice; without a candidate nothing changes |
| Upstream.HeaviestIs | ngx_src/ngx_http_upstream_round_robin.c:536-539 | the scan takes the first candidate of largest current weight, and finds none only when there is no candidate |
| UpstreamPeers.PeerData.GetRoundRobinPeer | ngx_src/ngx_http_upstream_round_robin.c:404-487 | the group answers, or else, with the bitmap cleared for them, its backups do; both groups' peers, the bitmap and the answer are determined |
| UpstreamPeers.PeerData.LeastScan | ngx_src/ngx_http_upstream_least_conn_module.c:126-168 | the first scan finds the first least loaded candidate, and whether it is tied |
| Upstream.LeastIs | ngx_src/ngx_http_upstream_least_conn_module.c:126-168 | what the first scan's answer means: least conns/weight, first of its kind, tied if and only if another has the same ratio |
| UpstreamPeers.PeerData.TieScan | ngx_src/ngx_http_upstream_least_conn_module.c:177-224 | the second scan, which starts at the first minimum and moves best as it goes, bumps every tied peer and ends on the first heaviest of them |
| UpstreamPeers.PeerData.GetLeastConnPeer | ngx_src/ngx_http_upstream_least_conn_module.c:97-278 | the group or its backups answer by the least connections choice |
| Upstream.LeastConnTakesLeast | ngx_src/ngx_http_upstream_least_conn_module.c:126-226 | that choice is a candidate of minimal conns/weight, and among equals the first with the largest updated current weight |
| Upstream.LeastConnAlone | ngx_src/ngx_http_upstream_least_conn_module.c:126-232 | without a tie no weight changes: only the check of the peer taken is renewed |
| Upstream.LeastConnOfEquals | ngx_src/ngx_http_upstream_least_conn_module.c:177-224 | among candidates that are all as loaded as each other it is the round robin choice |
| UpstreamPeers.PeerData.FreePeer | ngx_src/ngx_http_upstream_round_robin.c:563-634 | exactly the current peer changes: one connection less, and after a failure or a passed check the counts, times and effective weight that the laws of `PeerHealth` speak of; tries left |
| PeerHealth.OutAfterFailures | ngx_src/ngx_http_upstream_round_robin.c:518-596 | after max_fails failed releases with no passed check between them, whatever else happens to the peer, it is a candidate at no time up to fail_timeout after the last of them |
| PeerHealth.OnceAfterTimeout | ngx_src/ngx_http_upstream_round_robin.c:518-556 | later than that it may be chosen once: the choice renews the check, so that it is out again for fail_timeout |
| PeerHealth.MayBeTried | ngx_src/ngx_http_upstream_round_robin.c:510-527 | a peer that is not out for its failures is a candidate exactly when it is neither down nor full, and one that is out is none |
| PeerHealth.FailureCounts | ngx_src/ngx_http_upstream_round_robin.c:593-600 | a failed release adds one failure and sets both times |
| PeerHealth.SuccessDecides | ngx_src/ngx_http_upstream_round_robin.c:616-625 | a release after a success with a check open leaves no failures and the peer a candidate unless down or full; without one it leaves the failures as they were |
| PeerHealth.FailureWeighs | ngx_src/ngx_http_upstream_round_robin.c:582-617 | a failed release takes weight / max_fails off the effective weight, down to zero; a success, or a single peer, none |
| PeerHealth.RoundsRecover | ngx_src/ngx_http_upstream_round_robin.c:529-534 | over n rounds in which it is a candidate and does not fail, the effective weight grows by one a round up to the weight |
| PeerHealth.AnswerHappens | ngx_src/ngx_http_upstream_round_robin.c:489-560 | what round robin or least connections answer is, for the peer taken, a choice in the sense of these laws, and for every other peer none |
| PeerHealth.HitHappens | ngx_src/ngx_http_upstream_ip_hash_module.c:227-243 | so is a hit of the ip hash, which counts a connection, renews an old check and changes no weight |
| UpstreamPeers.IpHashData.HashOnce | ngx_src/ngx_http_upstream_ip_hash_module.c:172-174 | one pass answers (from * 113^n + the sum of addr[i] * 113^(n-1-i)) modulo 6271 |
| AddressHash.HashIs | ngx_src/ngx_http_upstream_ip_hash_module.c:172-174 | the same of the first n bytes, for any start value below 6271 |
| AddressHash.OneByteMatters | ngx_src/ngx_http_upstream_ip_hash_module.c:172-174 | two addresses of one length that differ in exactly one byte never have the same hash |
| UpstreamPeers.IpHashData.Walk | ngx_src/ngx_http_upstream_ip_hash_module.c:176-185 | the walk along the weights ends at the peer that owns the residue |
| Upstream.PeerOwnsInterval | ngx_src/ngx_http_upstream_ip_hash_module.c:176-185 | peer i is chosen exactly for the weight_i residues behind the weights in front of it |
| UpstreamPeers.IpHashData.GetIpHashPeer | ngx_src/ngx_http_upstream_ip_hash_module.c:142-246 | re-hashing goes on until a candidate is hit or more than 20 tries have failed, when round robin answers; a hit changes the one peer, its bit, the hash and the tries; which peers it goes through is `ProbeTakesFirst` |
| Upstream.ProbeTakesFirst | ngx_src/ngx_http_upstream_ip_hash_module.c:170-227 | pass j leads to the peer that owns the residue of the address hashed j times over; the first of these that is a candidate is taken, and none exactly when all tries up to the 21st have failed |
| Upstream.RoundRobinKeepsBalance | ngx_src/ngx_http_upstream_round_robin.c:501-557 | a round robin choice leaves the sum of the current weights, keeps effective weights between 0 and the weight, and touches nothing but weights and check times |
| Upstream.LeastConnKeepsBalance | ngx_src/ngx_http_upstream_least_conn_module.c:126-230 | the same for least connections |
| Upstream.ReleaseKeepsBalance | ngx_src/ngx_http_upstream_round_robin.c:582-626 | the same for a release, failed or not |
| Balancer.RoundRobinIsLegal | ngx_src/ngx_http_upstream_round_robin.c:404-453 | a round robin answer takes an untried peer below its limit, marks it, and counts one connection |
| Balancer.LeastConnIsLegal | ngx_src/ngx_http_upstream_least_conn_module.c:97-247 | so does a least connections answer |
| Balancer.IpHashIsLegal | ngx_src/ngx_http_upstream_ip_hash_module.c:170-245 | so does a hit of the ip hash |
| Balancer.PolicyIsAllowed | ngx_src/ngx_http_upstream_round_robin.c:404-487 | what round robin or least connections answer, from the group or after the switch to the backups, is an allowed step of the system |
| Balancer.IpHashIsAllowed | ngx_src/ngx_http_upstream_ip_hash_module.c:142-246 | so is what the ip hash answers, by a hit or by its fallback |
| Balancer.AskAnswers | ngx_src/ngx_http_upstream_round_robin.c:404-527 | a policy has no answer exactly when no untried peer of the list is up, not failed lately and below its limit; a single peer is not asked for failures |
| Balancer.BusyMeansNobody | ngx_src/ngx_http_upstream_round_robin.c:404-487 | a request is told busy only when its own list has no such peer and, unless it has switched before, the backups have none at all |
| Balancer.ServedIsStep | ngx_src/ngx_http_upstream_round_robin.c:404-487 | a call of the get function changes peers, bitmap and current peer of a request's data as that step changes the system |
| Balancer.HashedIsStep | ngx_src/ngx_http_upstream_ip_hash_module.c:142-246 | so does a call of the ip hash's, by a hit or as round robin |
| Balancer.FreedIsStep | ngx_src/ngx_http_upstream_round_robin.c:563-634 | and a call that releases the peer held |
| Balancer.StepKeepsInv | ngx_src/ngx_http_upstream_round_robin.c:404-634 | opening, asking (with the switch to backups), releasing and closing requests and taking peers out keep the books balanced |
| Balancer.RunsAreBalanced | ngx_src/ngx_http_upstream_round_robin.c:404-634 | in every run of any number of requests, which may ask again or end without a release: weights of each list sum to zero, effective weights stay in range, each peer's conns is the number of times it was given and not released and within a non-zero limit, and a group of several never gives one request the same peer twice |
| Balancer.GetsAreBounded | ngx_src/ngx_http_upstream_round_robin.c:404-487 | a request is given no more peers than the two lists have |
| ThreadPool.StepKeepsInv | ngx_src/ngx_thread_pool.c:156-353 | every atomic step of main thread and workers keeps the whole invariant |
| ThreadPool.CounterIsExact | ngx_src/ngx_thread_pool.c:210-298 | in every run waiting is the queue length less the workers in cond-wait, between -threads and max_queue, and the queue holds at most max_queue + threads |
| ThreadPool.NoWakeupIsLost | ngx_src/ngx_thread_pool.c:224-298 | a worker asleep without a signal means every queued task has a signalled worker; a queued task always has a worker on its way while one is left |
| ThreadPool.ActiveIsInOnePlace | ngx_src/ngx_thread_pool.c:201-353 | a task is active exactly while it is queued, running, done or drained, and then in one of these only |
| ThreadPool.PostsAreConserved | ngx_src/ngx_thread_pool.c:201-353 | tasks are taken in post order and completed in the order they finished; every accepted post is in one place or completed once |
| ThreadPool.PostIsQueued | ngx_src/ngx_thread_pool.c:201-248 | a post is accepted exactly when the task is not active and the counter is below the limit; then it is last in the queue, active and counted, and otherwise nothing changes |
| ThreadPool.DestroyStopsEveryWorker | ngx_src/ngx_thread_pool.c:156-189 | when destroy returns with every post accepted, all workers have exited, on one exit task each, and everything posted before was run and put on the done list |
| ThreadPool.DestroyEnds | ngx_src/ngx_thread_pool.c:156-189 | destruction takes a bounded number of steps (sleepers that wake to nothing apart), can go on as long as the main thread has not come back, and comes back with every worker stopped unless the queue was full for an exit task |
| ThreadPool.GivesUpWhenFull | ngx_src/ngx_thread_pool.c:165-170 | an exit task is refused exactly when the queue is full, and, where the queue has room for a task at all, only in the first round |
| ThreadPool.WorkEnds | ngx_src/ngx_thread_pool.c:251-353 | without new posts the steps that do work are bounded by a measure of what is left |
| ThreadPool.SomeoneWorks | ngx_src/ngx_thread_pool.c:251-353 | while the serving pool is not at rest, some such step is possible |
| ThreadPool.RestMeansCompleted | ngx_src/ngx_thread_pool.c:201-353 | at rest every accepted post has been completed exactly as often as it was accepted |
| TaskPool.TaskQueue.Push | ngx_src/ngx_thread_pool.c:235-237 | appending through the tail pointer adds the task at the end |
| TaskPool.TaskQueue.Pop | ngx_src/ngx_thread_pool.c:289-294 | taking the head gives the first task and leaves the rest, tail pointer included |
| TaskPool.TaskQueue.TakeAll | ngx_src/ngx_thread_pool.c:332-334 | the whole chain is handed over and the list is empty |
| TaskPool.ListsApart | ngx_src/ngx_thread_pool.c:201-353 | no task is on two of the lists, and one that is inactive or being run is on none |
| TaskPool.Pool.Post | ngx_src/ngx_thread_pool.c:201-248 | the lists, counter and flags take the machine's post step; refused exactly when the task is active or the counter is at the limit; an accepted task is the last of the queue; ids are given out in order |
| TaskPool.Pool.LockAndTake | ngx_src/ngx_thread_pool.c:272-298 | the worker's critical section is the lock step: count down, then take the first task or sleep |
| TaskPool.Pool.WakeAndTake | ngx_src/ngx_thread_pool.c:279-298 | coming out of cond-wait is the wake step |
| TaskPool.Pool.HandBack | ngx_src/ngx_thread_pool.c:311-320 | putting a task on the done list is the finish step |
| TaskPool.Pool.DrainDone | ngx_src/ngx_thread_pool.c:330-338 | the handler's first half is the drain step |
| TaskPool.Pool.CompleteNext | ngx_src/ngx_thread_pool.c:340-352 | one turn of its loop is the complete step on the first drained task, whose flags are set before its handler is called |
| TaskPool.Pool.PostExitTask | ngx_src/ngx_thread_pool.c:165-170 | a round of destroy sets the lock and posts the exit task |
| TaskPool.Pool.RunExit | ngx_src/ngx_thread_pool.c:184-189 | the exit handler clears the lock and ends its worker |
| TaskPool.Pool.EndRound | ngx_src/ngx_thread_pool.c:172-178 | once the lock is clear the exit task may be posted again |
| RadixBits.NoPrefix | ngx_src/ngx_radix_tree.c:199-217 | a lookup without a stored prefix of the key answers no value |
| RadixBits.LongestPrefix | ngx_src/ngx_radix_tree.c:199-217 | otherwise it answers the value of the longest stored prefix |
| RadixBits.MatchIsMasked | ngx_src/ngx_radix_tree.c:95-112 | for a mask without gaps a prefix matches a key exactly when the two agree under the mask |
| RadixBits.GapIsIgnored | ngx_src/ngx_radix_tree.c:95-112 | for every mask with a gap there are keys for which this fails |
| RadixTree.Tree.Find | ngx_src/ngx_radix_tree.c:199-217 | the walk answers that lookup in the prefixes stored in the tree |
| RadixTree.Tree.Insert | ngx_src/ngx_radix_tree.c:95-144 | BUSY exactly when the prefix has a value; on success exactly this prefix gains the value; BUSY and ERROR, even part-way down, change no stored prefix; only nodes on the path are added; ERROR only when free list, page and pool are all exhausted; no idle node appears |
| RadixTree.Tree.Delete | ngx_src/ngx_radix_tree.c:147-197 | OK exactly when the prefix has a value or its node is a leaf; exactly this prefix is no longer stored; only nodes on the path are removed; no idle node is left |
| RadixTree.Tree.Alloc | ngx_src/ngx_radix_tree.c:219-241 | the node handed out is neither in the tree nor free any more; none only when free list, page and pool are exhausted |
| RadixTree.Tree.Unlink | ngx_src/ngx_radix_tree.c:178-186 | the node leaves the tree for the head of the free list; tree and free nodes stay disjoint and are all nodes ever carved |
| RadixTree.Tree.NodesAreClosure | ngx_src/ngx_radix_tree.c:95-241 | without idle nodes the nodes are the root and the prefixes of the stored prefixes |
| RadixTree.Tree.InsertThenDelete | ngx_src/ngx_radix_tree.c:95-197 | inserting and then deleting a fresh non-empty prefix brings back the same nodes and stored prefixes |
| RadixTree.Tree.Preallocate | ngx_src/ngx_radix_tree.c:73-91 | the loops create a node for every path up to the given length and no other, and store nothing; they fail only when free list, page and pool are all exhausted |
| RadixCount.AddCounts | ngx_src/ngx_radix_tree.c:76-90 | adding the level's lowest bit counts through its prefixes one by one and wraps around at the end |
| Queue.InsertAfter | ngx_src/ngx_queue.h:33-40 | the ring gains the element behind the given one |
| Queue.InsertTail | ngx_src/ngx_queue.h:43-47 | the ring gains the element at the end |
| Queue.Remove | ngx_src/ngx_queue.h:57-61 | the ring loses exactly the element |
| Queue.Split | ngx_src/ngx_queue.h:64-70 | the ring falls into two, the given element first in the new one |
| Queue.Merge | ngx_src/ngx_queue.h:73-77 | the elements of the second ring go behind those of the first |
| Queue.SplitThenMerge | ngx_src/ngx_queue.h:64-77 | split and merge restore the ring |
| Queue.Middle | ngx_src/ngx_queue.c:17-31 | the element at index n/2 |
| Queue.Sort | ngx_src/ngx_queue.c:36-61 | the ring, on the same sentinel, holds the insertion-sorted sequence |
| StableSort.SortPermutes | ngx_src/ngx_queue.c:36-61 | that sequence is a permutation |
| StableSort.SortIsStable | ngx_src/ngx_queue.c:36-61 | for a comparison that is total and transitive it is sorted, and equal elements keep their order |
| PoolMemory.Block.Take | ngx_src/ngx_palloc.c:116-125 | the region taken starts at the (aligned) bump pointer, lies in the block and overlaps nothing handed out from it |
| PoolMemory.Heap.Memcpy | ngx_src/ngx_array.c:64 | the bytes of the source, as they were, are at the destination, and no other byte changes |
| Palloc.Pool.NoOverlap | ngx_src/ngx_palloc.c:84-213 | two regions in use, small or large, share no byte |
| Palloc.Pool.InBounds | ngx_src/ngx_palloc.c:14-194 | a region in use lies in a block behind the block's header, which is all of ngx_pool_t in the first one, or is a live system allocation apart from all blocks |
| Palloc.Pool.CountFailures | ngx_src/ngx_palloc.c:152-156 | after counting a failure, current stands behind exactly the blocks that have failed six times |
| Palloc.Pool.AddBlock | ngx_src/ngx_palloc.c:133-160 | a new block at the end of the chain gives its first aligned bytes; without memory nothing changes |
| Palloc.Pool.FirstRoomIs | ngx_src/ngx_palloc.c:112-125 | what the first block with room is, in numbers: from current on, the first whose aligned bump pointer plus the size does not pass its end |
| Palloc.Pool.PallocSmall | ngx_src/ngx_palloc.c:112-131 | one region apart from all in use is handed out, aligned on request: the start of the free part of the first block with room, no block and no system memory being added then, or else of a new block |
| Palloc.Pool.PallocLarge | ngx_src/ngx_palloc.c:162-194 | an aligned system allocation is handed out and listed, in one of the first five freed entries or else in one new entry, which is itself a region of the pool; nothing else comes into use; without memory for the entry it is given back and nothing changes |
| Palloc.Pool.Palloc | ngx_src/ngx_palloc.c:84-110 | what is handed out is in use, apart from all that was in use before, and no entry of the list; up to max bytes it comes from the first block with room, without a new one, whenever there is such a block; above it is a system allocation, and the list stays the same exactly when one of its first five entries was free; all that was in use still is, and besides the answer at most one new list entry comes into use, and without an answer nothing does |
| Palloc.Pool.Pfree | ngx_src/ngx_palloc.c:215-229 | frees, once, exactly the listed allocation at this address, which is out of use then; everything else stays in use; declined exactly when there is none |
| Palloc.Pool.ResetPool | ngx_src/ngx_palloc.c:65-82 | nothing is in use, all blocks remain, each with a failure count of zero, current is the first, and each remaining large allocation was freed once |
| Palloc.Pool.Destroy | ngx_src/ngx_palloc.c:51-62 | each remaining large allocation and each block is freed exactly once, and nothing else |
| Palloc.Pool.EndsAtLast | ngx_src/ngx_array.c:28-31 | a region in use that ends at the first block's bump pointer is that block's last region |
| PoolArray.Array.Push | ngx_src/ngx_array.c:35-70 | the element's address is in the buffer; a full array grows in place by one exactly when it is last in the first block and there is room, otherwise it moves to twice the capacity; the elements there were are kept byte by byte; everything else stays in use, apart, unchanged, and no list entry |
| PoolArray.Array.PushN | ngx_src/ngx_array.c:72-108 | the same for n elements, with twice the larger of n and the capacity after a move |
| PoolArray.Array.PushBeside | ngx_src/ngx_array.c:35-70 | a push to one array leaves every other array of the pool that shares no region with it valid, where it is, and with the same bytes |
| PoolArray.Array.Destroy | ngx_src/ngx_array.c:24-33 | the bump pointer goes back over the buffer, and then over the array itself, exactly when they are last; all other regions stay in use |
| PoolArray.Array.DestroyBeside | ngx_src/ngx_array.c:24-33 | and so does the end of one array for the validity of another |
| ProcessSlots.SpawnKeepsOthers | ngx_src/ngx_process.c:86-104 | a spawn overwrites no slot that has not been reaped, takes one slot at most, and only when all slots before it are taken |
| MasterLoop.RunKeepsInv | ngx_src/ngx_process.c:474-507 | in every run of the main loop the uncollected children are at every moment one to one with the running slots below ngx_last_process, if and only if each collection found a slot that had not exited |
| MasterLoop.ChildrenHaveSlots | ngx_src/ngx_process_cycle.c:150-269 | they are, and each collection finds the right slot, as long as no fork answers the pid of a slot that stays behind exited; other pids may come back |
| ProcessSteps.StepKeepsInv | ngx_src/ngx_process_cycle.c:439-641 | spawns, signals and reaps keep that correspondence, and a collection keeps it if and only if it finds a slot that has not exited |
| ProcessSteps.ReusedPid | ngx_src/ngx_process.c:474-481 | a child started with a pid that some slot still has is collected right if and only if no slot before its own has that pid |
| MasterLoop.StalePidRun | ngx_src/ngx_process_cycle.c:580-592 | a run in which it goes wrong: a failed respawn leaves its pid behind, the fork of a reload answers it, and the exit goes to the old slot |
| ProcessSlots.ReloadRetiresTheOld | ngx_src/ngx_process_cycle.c:233-240 | after a reload with all messages delivered exactly the non-detached processes from before are exiting, and the new ones are untouched |
| MasterLoop.ReloadInRun | ngx_src/ngx_process_cycle.c:233-240 | wherever a run of the loop comes to a reload, with all messages delivered: exactly the old non-detached processes are told to exit; that no flags of just started processes are left before is proved, not assumed |
| MasterLoop.RetiredStaysRetired | ngx_src/ngx_process_cycle.c:150-269 | in every run in which each collection finds the right slot, a running process told to exit is never started again: it stays so until its slot is given up |
| MasterLoop.RetiredWithoutReuse | ngx_src/ngx_process_cycle.c:150-269 | so it is in every run in which no fork answers the pid of a slot that stays behind exited |
| MasterLoop.ReloadedAreRetired | ngx_src/ngx_process_cycle.c:233-240 | so a worker running when a reload begins, and reached by its message, is told to exit and never started again |
| MasterLoop.CrashedComesBack | ngx_src/ngx_process_cycle.c:522-606 | in every run: a worker that may be respawned, was sent no message to shut down, terminate or kill, and is collected in its own slot, is started again by the next reap in that slot; the slot is given up when the exit was fatal or the master is stopping, and waits when fork fails |
| ProcessSteps.StepKeepsMark | ngx_src/ngx_process_cycle.c:439-520 | step by step, in any order: a process told to exit stays told so until its slot is given up, if and only if no message, other than to shut down, finds it gone |
| MasterLoop.MarkedStaysMarked | ngx_src/ngx_process_cycle.c:439-641 | the same over runs with any pids, in both directions |
| ProcessSteps.LostMarkReturns | ngx_src/ngx_process_cycle.c:580-605 | where such a message comes, the next reap starts the process again, if and only if its slot may be respawned and the master is not stopping |
| MasterLoop.LostMarkRun | ngx_src/ngx_process_cycle.c:500-512 | a run of the loop in which that happens, with one pid in two slots |
| MasterLoop.EventIsTruthful | ngx_src/ngx_process_cycle.c:158-249 | that without `live` there is no worker is kept by an event if and only if that is not the successful start of a worker, next to a new binary, while `live` is false |
| MasterLoop.ExitLeavesWorkers | ngx_src/ngx_process_cycle.c:158-220 | when the master exits, a worker is left running if and only if one was so started since the last reap |
| MasterLoop.ExitsAlone | ngx_src/ngx_process_cycle.c:166-167 | otherwise all children left are detached, provided each collection found the right slot |
| MasterLoop.WorkerLeftRun | ngx_src/ngx_process_cycle.c:213-220 | a run in which the master exits while worker 9 runs: change of binary, no more accepting, the old worker reaped, a reload, and quit |
| MasterLoop.SleepsServed | ngx_src/ngx_process_cycle.c:150-273 | when the master goes back to sleep, a terminating one has sent the signal to terminate or kill or held it back, a quitting one has told its workers to shut down, and otherwise no request is left but those that a failed configuration or the starts next to a new binary cut off |
| MasterLoop.FlagsFall | ngx_src/ngx_process_cycle.c:150-273 | a request goes off only by the section that serves it; terminate and quit never do |
| MasterLoop.BinaryIs | ngx_src/ngx_process_cycle.c:256-261 | the new binary is what the last start of one answered, until a reap gives up its slot |
| MasterLoop.AcceptingIs | ngx_src/ngx_process_cycle.c:213-273 | accepting is on again when the new binary has gone or workers have been started next to it, and only then |
| MasterLoop.BinaryGoneRestarts | ngx_src/ngx_process_cycle.c:608-628 | when the slot of the new binary is given up it is forgotten, and a master that stopped accepting is to restart its workers |
| ProcessTable.Table.SpawnProcess | ngx_src/ngx_process.c:86-104 | the first free slot, or the one behind the last, is taken and its flags set by kind: respawn for the two respawn kinds, just_spawn for the two just-spawn kinds, detached for a detached one; a full table or a failed fork changes nothing |
| ProcessTable.Table.GetStatus | ngx_src/ngx_process.c:474-507 | exactly the slot of this pid is marked exited, and not to be respawned after a fatal exit; for an unknown pid the fatal exit clears the flag of the slot behind the last one |
| ProcessTable.Table.SignalWorkers | ngx_src/ngx_process_cycle.c:439-520 | slot by slot: empty and detached slots stay as they are; a message to reopen that arrives changes nothing but just_spawn; any other that arrives marks the slot exiting; one that fails to be sent changes nothing; a process found gone is marked exited; a reap is asked for exactly when some was |
| ProcessSlots.MessageDoes | ngx_src/ngx_process_cycle.c:439-520 | the same of one slot and every kind of message and delivery; whose process it is and whether it is respawned never changes |
| ProcessTable.Table.Reload | ngx_src/ngx_process_cycle.c:233-240 | starting the new processes and then signalling the old ones |
| ProcessTable.Table.ReapChildren | ngx_src/ngx_process_cycle.c:522-641 | each exited slot is respawned in place, freed, or cut off when it is last; the answer is whether some child is still to be waited for; when the new binary's slot goes, it is forgotten and a master that stopped accepting is to restart |
| ProcessSlots.LiveAnswer | ngx_src/ngx_process_cycle.c:522-641 | that answer in terms of the table left behind: some process runs that is no detached one left alone |

## Left out

- `ngx_cycle.c`, configuration parsing, logging, files, sockets, resource limits and process titles: no invariant of this kind.
- Failing mutex, condition variable and spin lock calls in the thread pool; in particular the path on which `cond_signal` fails after the task was marked active.
- Machine overflow of connection counts, weights, sizes and addresses: mathematical integers. Timer keys wrap at 32 bits, one of the widths that the note at ngx_rbtree.c:126-133 speaks of; radix words are 32 bits.
- The radix tree's walking bit is an index into the 32 bits of a word, and the `tried` words are 64 bits each; the bit operations themselves are not modelled.
- `offsetof` from a node to its event is a map from nodes to events; event handlers are lists of arm and disarm operations.
- `ngx_rbtree_insert_value` and `ngx_rbtree_insert_timer_value` share one descent that is parameterised by the comparison.
- UpstreamPeers.IpHashData.HashOnce: the choice of the address bytes (three of an IPv4 address, sixteen of an IPv6 one) is given.
- Balancer.StepKeepsInv: requests ask for peers one at a time; locking between worker processes is not modelled.
- TaskPool.Pool.Post: the choice of the workers that a signal wakes is given with the call, as is the worker that performs each critical section.
- RadixTree.Tree.Insert: the pages that the pool will still grant are given with each call; the first page of `ngx_radix_tree_create` is taken as granted, and the choice of the number of bits by page size is left out.
- Palloc.Pool.Pmemalign: alignments above that of a pool block; pool cleanup handlers and `ngx_pcalloc` are left out too.
- ProcessTable.Table.GetStatus: what lies behind the full table when it is written there; channels and the failed allocation of channels are left out as well.
- MasterLoop.RunKeepsInv: `ngx_init_cycle` and `ngx_exec_new_binary` (which is not part of the excerpt) are answers given with the event; the delays of `ngx_terminate` are a free choice between holding back, terminating and killing; a pid file is not renamed.
- Fairness.RoundRobinIsFair: windows in which the set of eligible peers changes or one of them fails.
- `ngx_list`; upstream resolution and SSL sessions.
