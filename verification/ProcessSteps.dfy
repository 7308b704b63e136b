/**
 * The steps of the master over its table of processes and its children (ngx_process.c,
 * ngx_process_cycle.c): which child has which slot, and what becomes of a process that was
 * told to exit. The order in which the main loop takes them is in MasterLoop.
 */
module ProcessSteps {
  import opened ProcessSlots

  /** The table, and the children that were forked and not yet collected by waitpid. */
  datatype System = System(t: seq<Slot>, children: set<int>, stopping: bool)

  datatype Step =
    | Spawn(kind: Kind, pid: int)
    | Collect(pid: int, fatal: bool)
    | Send(signal: Signal, ds: seq<Delivery>)
    | Reap(forks: seq<int>)
    | Stop

  /** What fork may answer: failure, or a positive pid that no child has. */
  predicate NewPid(y: System, pid: int) {
    pid == NO_PID || (pid > 0 && pid !in y.children)
  }

  /** What the system may answer in a step. */
  ghost predicate Allowed(y: System, step: Step) {
    match step
    case Spawn(kind, pid) => NewPid(y, pid) && (FirstFree(y.t) >= MAX_PROCESSES ==> pid == NO_PID)
    case Collect(pid, fatal) => pid in y.children
    case Send(signal, ds) =>
      && |ds| == |y.t|
      && forall i :: 0 <= i < |ds| && ds[i].NoProcess? ==> y.t[i].pid !in y.children
    case Reap(forks) =>
      && |forks| == |y.t| && (forall i :: 0 <= i < |forks| ==> NewPid(y, forks[i]))
      && forall i, j :: 0 <= i < j < |forks| && forks[i] == forks[j] ==> forks[i] == NO_PID
    case Stop => true
  }

  /** The processes that a reap starts again. */
  function Forked(t: seq<Slot>, stopping: bool, forks: seq<int>): (r: set<int>)
    requires |forks| == |t|
  {
    set i | 0 <= i < |t| && Returns(t[i], stopping) && forks[i] != NO_PID :: forks[i]
  }

  function Next(y: System, step: Step): System
    requires step.Send? ==> |step.ds| == |y.t|
    requires step.Reap? ==> |step.forks| == |y.t|
  {
    match step
    case Spawn(kind, pid) =>
      y.(t := Spawned(y.t, kind, pid), children := if pid == NO_PID then y.children else y.children + {pid})
    case Collect(pid, fatal) => y.(t := Collected(y.t, pid, fatal), children := y.children - {pid})
    case Send(signal, ds) => y.(t := Signalled(y.t, signal, ds))
    case Reap(forks) =>
      y.(t := Reaped(y.t, y.stopping, forks), children := y.children + Forked(y.t, y.stopping, forks))
    case Stop => y.(stopping := true)
  }

  // ---- each child has its slot ------------------------------------------------------

  /** The slot stands for a process that has not been collected. */
  predicate Running(s: Slot) {
    Taken(s) && !s.exited
  }

  ghost predicate Serves(t: seq<Slot>, p: int) {
    exists i :: 0 <= i < |t| && t[i].pid == p && Running(t[i])
  }

  /** The children and the running slots correspond to each other, one to one. */
  ghost predicate Inv(y: System) {
    && |y.t| <= MAX_PROCESSES && NO_PID !in y.children
    && (forall i, j :: 0 <= i < j < |y.t| && Running(y.t[i]) && Running(y.t[j]) ==> y.t[i].pid != y.t[j].pid)
    && (forall i :: 0 <= i < |y.t| && Running(y.t[i]) ==> y.t[i].pid in y.children)
    && (forall p :: p in y.children ==> Serves(y.t, p))
  }

  lemma SpawnKeepsInv(y: System, kind: Kind, pid: int)
    requires Inv(y) && Allowed(y, Spawn(kind, pid))
    ensures Inv(Next(y, Spawn(kind, pid)))
  {
    if pid != NO_PID {
      var z := Next(y, Spawn(kind, pid));
      var k := FirstFree(y.t);
      assert z.t[k] == Fresh(kind, pid);
      forall p | p in z.children
        ensures Serves(z.t, p)
      {
        if p != pid {
          assert Serves(y.t, p);
          var i :| 0 <= i < |y.t| && y.t[i].pid == p && Running(y.t[i]);
          assert z.t[i] == y.t[i];
        }
      }
    }
  }

  lemma SendKeepsInv(y: System, signal: Signal, ds: seq<Delivery>)
    requires Inv(y) && Allowed(y, Send(signal, ds))
    ensures Inv(Next(y, Send(signal, ds)))
  {
    var z := Next(y, Send(signal, ds));
    assert forall i :: 0 <= i < |y.t| ==> z.t[i].pid == y.t[i].pid && Running(z.t[i]) == Running(y.t[i]);
    forall p | p in z.children
      ensures Serves(z.t, p)
    {
      assert Serves(y.t, p);
      var i :| 0 <= i < |y.t| && y.t[i].pid == p && Running(y.t[i]);
      assert z.t[i].pid == p && Running(z.t[i]);
    }
  }

  lemma ReapKeepsChildren(y: System, forks: seq<int>, p: int)
    requires Inv(y) && Allowed(y, Reap(forks)) && p in Next(y, Reap(forks)).children
    ensures Serves(Next(y, Reap(forks)).t, p)
  {
    var z := Next(y, Reap(forks));
    if p in y.children {
      assert Serves(y.t, p);
      var i :| 0 <= i < |y.t| && y.t[i].pid == p && Running(y.t[i]);
      assert z.t[i] == y.t[i];
    } else {
      var i :| 0 <= i < |y.t| && Returns(y.t[i], y.stopping) && forks[i] != NO_PID && forks[i] == p;
      assert z.t[i].pid == p && Running(z.t[i]);
    }
  }

  /** A slot that runs after a reap ran before it, or holds a process just forked for it. */
  lemma ReapedRunning(y: System, forks: seq<int>, i: nat)
    requires Inv(y) && Allowed(y, Reap(forks)) && i < |Next(y, Reap(forks)).t|
    ensures var z := Next(y, Reap(forks));
            Running(z.t[i]) ==>
              if Running(y.t[i]) then z.t[i] == y.t[i]
              else z.t[i].pid == forks[i] && forks[i] in z.children && forks[i] !in y.children
  {
    assert NewPid(y, forks[i]);
  }

  lemma ReapKeepsInv(y: System, forks: seq<int>)
    requires Inv(y) && Allowed(y, Reap(forks))
    ensures Inv(Next(y, Reap(forks)))
  {
    var z := Next(y, Reap(forks));
    forall i, j | 0 <= i < j < |z.t| && Running(z.t[i]) && Running(z.t[j])
      ensures z.t[i].pid != z.t[j].pid
    {
      ReapedRunning(y, forks, i);
      ReapedRunning(y, forks, j);
    }
    forall i | 0 <= i < |z.t| && Running(z.t[i])
      ensures z.t[i].pid in z.children
    {
      ReapedRunning(y, forks, i);
    }
    forall p | p in z.children
      ensures Serves(z.t, p)
    {
      ReapKeepsChildren(y, forks, p);
    }
  }

  // ---- where the lookup by pid goes wrong --------------------------------------------

  /** The slot that ngx_process_get_status finds for this pid has not been marked exited. */
  predicate FindsRunning(t: seq<Slot>, pid: int) {
    SlotOf(t, pid) < |t| && !t[SlotOf(t, pid)].exited
  }

  lemma CollectServes(y: System, pid: int, fatal: bool, p: int)
    requires Inv(y) && p in y.children && p != pid
    ensures Serves(Collected(y.t, pid, fatal), p)
  {
    assert Serves(y.t, p);
    var i :| 0 <= i < |y.t| && y.t[i].pid == p && Running(y.t[i]);
    assert Collected(y.t, pid, fatal)[i] == y.t[i];
  }

  /** When it is not, the child's own slot still counts as running afterwards. */
  lemma MissedChild(y: System, pid: int, fatal: bool)
    requires Inv(y) && pid in y.children && !FindsRunning(y.t, pid)
    ensures !Inv(Next(y, Collect(pid, fatal)))
  {
    assert Serves(y.t, pid);
    var i :| 0 <= i < |y.t| && y.t[i].pid == pid && Running(y.t[i]);
    var z := Next(y, Collect(pid, fatal));
    assert z.t[i] == y.t[i] && Running(z.t[i]) && z.t[i].pid !in z.children;
  }

  /** Collecting a child is right if and only if the slot found for its pid is not one that has exited. */
  lemma CollectKeepsInv(y: System, pid: int, fatal: bool)
    requires Inv(y) && Allowed(y, Collect(pid, fatal))
    ensures Inv(Next(y, Collect(pid, fatal))) <==> FindsRunning(y.t, pid)
  {
    if FindsRunning(y.t, pid) {
      forall p | p in y.children && p != pid
        ensures Serves(Collected(y.t, pid, fatal), p)
      {
        CollectServes(y, pid, fatal, p);
      }
    } else {
      MissedChild(y, pid, fatal);
    }
  }

  lemma StepKeepsInv(y: System, step: Step)
    requires Inv(y) && Allowed(y, step)
    ensures Inv(Next(y, step)) <==> (step.Collect? ==> FindsRunning(y.t, step.pid))
  {
    match step
    case Spawn(kind, pid) => SpawnKeepsInv(y, kind, pid);
    case Collect(pid, fatal) => CollectKeepsInv(y, pid, fatal);
    case Send(signal, ds) => SendKeepsInv(y, signal, ds);
    case Reap(forks) => ReapKeepsInv(y, forks);
    case Stop =>
  }

  // ---- when it goes right ---------------------------------------------------------------

  /** No slot of an exited process has the pid of a child. */
  ghost predicate NoneStale(y: System) {
    forall i :: 0 <= i < |y.t| && Taken(y.t[i]) && y.t[i].exited ==> y.t[i].pid !in y.children
  }

  /**
   * No fork answers the pid of a slot that stays behind exited: of a slot not yet reaped, or
   * of one whose own respawn fails in the same reap.
   */
  ghost predicate NoneReused(y: System, step: Step)
    requires Allowed(y, step)
  {
    match step
    case Spawn(kind, pid) => pid != NO_PID ==> forall k :: 0 <= k < |y.t| && Taken(y.t[k]) ==> y.t[k].pid != pid
    case Reap(forks) =>
      forall i, k :: 0 <= i < |y.t| && 0 <= k < |y.t| && Returns(y.t[i], y.stopping) && forks[i] != NO_PID ==>
        Returns(y.t[k], y.stopping) && forks[k] == NO_PID ==> y.t[k].pid != forks[i]
    case _ => true
  }

  lemma NoneStaleFinds(y: System, pid: int)
    requires Inv(y) && NoneStale(y) && pid in y.children
    ensures FindsRunning(y.t, pid)
  {
    assert Serves(y.t, pid);
    var i: nat :| i < |y.t| && y.t[i].pid == pid && Running(y.t[i]);
    SlotExists(y.t, pid, i);
  }

  lemma {:induction false} SlotExists(t: seq<Slot>, pid: int, i: nat)
    requires i < |t| && t[i].pid == pid
    ensures SlotOf(t, pid) <= i
  {
    if i == 0 {
    } else {
      SlotExists(t[1..], pid, i - 1);
    }
  }

  lemma ReapLeavesNoneStale(y: System, forks: seq<int>)
    requires Inv(y) && NoneStale(y) && Allowed(y, Reap(forks)) && NoneReused(y, Reap(forks))
    ensures NoneStale(Next(y, Reap(forks)))
  {
    var z := Next(y, Reap(forks));
    forall i | 0 <= i < |z.t| && Taken(z.t[i]) && z.t[i].exited
      ensures z.t[i].pid !in z.children
    {
      assert z.t[i] == y.t[i] && Returns(y.t[i], y.stopping) && forks[i] == NO_PID;
    }
  }

  lemma CollectLeavesNoneStale(y: System, pid: int, fatal: bool)
    requires Inv(y) && NoneStale(y) && pid in y.children
    ensures NoneStale(Next(y, Collect(pid, fatal)))
  {
    NoneStaleFinds(y, pid);
  }

  lemma SendLeavesNoneStale(y: System, signal: Signal, ds: seq<Delivery>)
    requires NoneStale(y) && Allowed(y, Send(signal, ds))
    ensures NoneStale(Next(y, Send(signal, ds)))
  {
  }

  lemma SpawnLeavesNoneStale(y: System, kind: Kind, pid: int)
    requires NoneStale(y) && Allowed(y, Spawn(kind, pid)) && NoneReused(y, Spawn(kind, pid))
    ensures NoneStale(Next(y, Spawn(kind, pid)))
  {
  }

  lemma StepLeavesNoneStale(y: System, step: Step)
    requires Inv(y) && NoneStale(y) && Allowed(y, step) && NoneReused(y, step)
    ensures NoneStale(Next(y, step))
  {
    match step
    case Spawn(kind, pid) => SpawnLeavesNoneStale(y, kind, pid);
    case Collect(pid, fatal) => CollectLeavesNoneStale(y, pid, fatal);
    case Send(signal, ds) => SendLeavesNoneStale(y, signal, ds);
    case Reap(forks) => ReapLeavesNoneStale(y, forks);
    case Stop =>
  }

  /** The next child to take a stale slot's pid is looked up right if and only if its slot comes first. */
  lemma ReusedPid(y: System, kind: Kind, pid: int, fatal: bool)
    requires Inv(y) && Allowed(y, Spawn(kind, pid)) && pid != NO_PID
    ensures var z := Next(y, Spawn(kind, pid));
            Allowed(z, Collect(pid, fatal))
            && (Inv(Next(z, Collect(pid, fatal))) <==> forall k :: 0 <= k < FirstFree(y.t) ==> y.t[k].pid != pid)
  {
    var z := Next(y, Spawn(kind, pid));
    var k := FirstFree(y.t);
    SpawnKeepsInv(y, kind, pid);
    CollectKeepsInv(z, pid, fatal);
    assert z.t[k] == Fresh(kind, pid) && forall j :: 0 <= j < k ==> z.t[j] == y.t[j];
    SlotExists(z.t, pid, k);
    if exists j :: 0 <= j < k && y.t[j].pid == pid {
      var j: nat :| j < k && y.t[j].pid == pid;
      SlotExists(z.t, pid, j);
      StaleBefore(y, pid, z.t);
    }
  }

  lemma StaleBefore(y: System, pid: int, t: seq<Slot>)
    requires Inv(y) && pid != NO_PID && pid !in y.children && SlotOf(t, pid) < FirstFree(y.t) <= |t|
    requires forall j :: 0 <= j < FirstFree(y.t) ==> t[j] == y.t[j]
    ensures t[SlotOf(t, pid)].exited
  {
    var j := SlotOf(t, pid);
    assert y.t[j].pid == pid && !Running(y.t[j]);
  }

  // ---- a process that was told to exit -----------------------------------------------------

  /** Slot i holds process p, which was told to exit. */
  predicate Marked(y: System, i: nat, p: int) {
    i < |y.t| && Taken(y.t[i]) && y.t[i].pid == p && y.t[i].exiting
  }

  predicate GivenUp(y: System, i: nat) {
    i < |y.t| ==> !Taken(y.t[i])
  }

  /** The message that takes the mark away: one, other than to shut down, that finds the process gone. */
  predicate LosesMark(y: System, step: Step, i: nat) {
    && step.Send? && i < |y.t| && i < |step.ds|
    && !y.t[i].detached && !y.t[i].justSpawn && step.signal != Shutdown && step.ds[i].NoProcess?
  }

  /** A marked process stays marked until its slot is given up, if and only if no message takes the mark away. */
  lemma StepKeepsMark(y: System, step: Step, i: nat, p: int)
    requires Marked(y, i, p) && Allowed(y, step)
    ensures Marked(Next(y, step), i, p) || GivenUp(Next(y, step), i) <==> !LosesMark(y, step, i)
  {
  }

  /** A process that lost its mark is started again by the next reap, if and only if it may be respawned at all. */
  lemma LostMarkReturns(y: System, signal: Signal, ds: seq<Delivery>, forks: seq<int>, i: nat, p: int)
    requires Marked(y, i, p) && Allowed(y, Send(signal, ds)) && LosesMark(y, Send(signal, ds), i)
    requires |forks| == |y.t| && forks[i] != NO_PID
    ensures var z := Next(Next(y, Send(signal, ds)), Reap(forks));
            (i < |z.t| && Running(z.t[i]) && z.t[i].pid == forks[i]) <==> y.t[i].respawn && !y.stopping
  {
    var z := Next(y, Send(signal, ds));
    assert Returns(z.t[i], z.stopping) <==> y.t[i].respawn && !y.stopping;
    assert z.t[i].exited;
  }
}
