/**
 * The master's table of child processes as a value: what spawning, collecting, signalling and
 * reaping do to it (ngx_process.c, ngx_process_cycle.c). A table is the sequence of the slots
 * below ngx_last_process. fork, waitpid and message delivery are answers given with each step.
 */
module ProcessSlots {

  const MAX_PROCESSES := 1024

  /** NGX_INVALID_PID, and the pid of a slot that is free. */
  const NO_PID := -1

  datatype Slot = Slot(pid: int, respawn: bool, justSpawn: bool, detached: bool, exiting: bool, exited: bool)

  /** The negative values of the respawn argument of ngx_spawn_process. */
  datatype Kind = NoRespawn | JustSpawn | Respawn | JustRespawn | Detached

  datatype Signal = Shutdown | Terminate | Reopen | Kill

  /** How a signal reached a process: by its channel, by kill, or not, and then why not. */
  datatype Delivery = ByChannel | ByKill | NoProcess | Failed

  predicate Taken(s: Slot) {
    s.pid != NO_PID
  }

  // ---- spawning -------------------------------------------------------------------

  function Fresh(kind: Kind, pid: int): Slot {
    Slot(pid, kind.Respawn? || kind.JustRespawn?, kind.JustSpawn? || kind.JustRespawn?, kind.Detached?, false, false)
  }

  /** The first free slot, or the one behind the last. */
  function FirstFree(t: seq<Slot>): (k: nat)
    ensures k <= |t| && (k < |t| ==> !Taken(t[k]))
  {
    if t == [] || !Taken(t[0]) then 0 else 1 + FirstFree(t[1..])
  }

  function Put(t: seq<Slot>, k: nat, s: Slot): (r: seq<Slot>)
    requires k <= |t|
  {
    if k < |t| then t[k := s] else t + [s]
  }

  /** A spawn that is not a respawn; pid is what fork answers, and everything can fail before it. */
  function Spawned(t: seq<Slot>, kind: Kind, pid: int): seq<Slot> {
    if FirstFree(t) == MAX_PROCESSES || pid == NO_PID then t else Put(t, FirstFree(t), Fresh(kind, pid))
  }

  // ---- collecting -------------------------------------------------------------------

  function SlotOf(t: seq<Slot>, pid: int): (k: nat)
    ensures k <= |t| && (k < |t| ==> t[k].pid == pid)
  {
    if t == [] || t[0].pid == pid then 0 else 1 + SlotOf(t[1..], pid)
  }

  /** ngx_process_get_status for one child; fatal is an exit with code 2. */
  function Collected(t: seq<Slot>, pid: int, fatal: bool): seq<Slot> {
    var k := SlotOf(t, pid);
    if k == |t| then t else t[k := t[k].(exited := true, respawn := t[k].respawn && !fatal)]
  }

  // ---- signalling -------------------------------------------------------------------

  function SignalledSlot(s: Slot, signal: Signal, d: Delivery): Slot {
    if s.detached || !Taken(s) then s
    else if s.justSpawn then s.(justSpawn := false)
    else if s.exiting && signal == Shutdown then s
    else if d == NoProcess then s.(exited := true, exiting := false)
    else if d == Failed || signal == Reopen then s
    else s.(exiting := true)
  }

  /** ngx_signal_worker_processes */
  function Signalled(t: seq<Slot>, signal: Signal, ds: seq<Delivery>): (r: seq<Slot>)
    requires |ds| == |t|
    ensures |r| == |t| && forall i :: 0 <= i < |t| ==> r[i] == SignalledSlot(t[i], signal, ds[i])
  {
    seq(|t|, i requires 0 <= i < |t| => SignalledSlot(t[i], signal, ds[i]))
  }

  /** kill found no process, so that the main loop is to reap. */
  predicate FoundGone(s: Slot, signal: Signal, d: Delivery) {
    !s.detached && Taken(s) && !s.justSpawn && !(s.exiting && signal == Shutdown) && d == NoProcess
  }

  // ---- reaping ----------------------------------------------------------------------

  /** Whether the slot's process is to be started again; stopping is ngx_terminate or ngx_quit. */
  predicate Returns(s: Slot, stopping: bool) {
    Taken(s) && s.exited && s.respawn && !s.exiting && !stopping
  }

  /** Whether the slot is given up. */
  predicate Goes(s: Slot, stopping: bool) {
    Taken(s) && s.exited && !Returns(s, stopping)
  }

  function ReapedSlot(s: Slot, stopping: bool, fork: int): Slot {
    if Returns(s, stopping) then
      if fork == NO_PID then s else s.(pid := fork, exited := false)
    else if Goes(s, stopping) then s.(pid := NO_PID)
    else s
  }

  function ReapedTo(t: seq<Slot>, stopping: bool, forks: seq<int>, n: nat): (r: seq<Slot>)
    requires |forks| == |t| && n <= |t|
    ensures |r| == |t|
    ensures forall i :: 0 <= i < |t| ==> r[i] == if i < n then ReapedSlot(t[i], stopping, forks[i]) else t[i]
  {
    seq(|t|, i requires 0 <= i < |t| => if i < n then ReapedSlot(t[i], stopping, forks[i]) else t[i])
  }

  /** ngx_reap_children: the last slot is cut off when it is given up. */
  function Reaped(t: seq<Slot>, stopping: bool, forks: seq<int>): (r: seq<Slot>)
    requires |forks| == |t|
    ensures |r| == (if t != [] && Goes(t[|t| - 1], stopping) then |t| - 1 else |t|)
    ensures forall i :: 0 <= i < |r| ==> r[i] == ReapedSlot(t[i], stopping, forks[i])
  {
    var r := ReapedTo(t, stopping, forks, |t|);
    if t != [] && Goes(t[|t| - 1], stopping) then r[..|t| - 1] else r
  }

  /** What ngx_reap_children answers: there is still a child to wait for. */
  ghost predicate StillLive(t: seq<Slot>, stopping: bool, forks: seq<int>)
    requires |forks| == |t|
  {
    exists i :: 0 <= i < |t| && LiveSlot(t[i], stopping, forks[i])
  }

  predicate LiveSlot(s: Slot, stopping: bool, fork: int) {
    if Returns(s, stopping) then fork != NO_PID
    else Taken(s) && !s.exited && (s.exiting || !s.detached)
  }

  /** The new binary's slot is given up in a reap. */
  predicate BinaryGone(t: seq<Slot>, stopping: bool, binary: int) {
    exists i :: 0 <= i < |t| && Goes(t[i], stopping) && t[i].pid == binary
  }

  /** What a message does to a slot, case by case; whose process it is and whether it is respawned never changes. */
  lemma MessageDoes(s: Slot, signal: Signal, d: Delivery)
    ensures var r := SignalledSlot(s, signal, d);
            && r.pid == s.pid && r.respawn == s.respawn && r.detached == s.detached
            && (s.pid == NO_PID || s.detached ==> r == s)
            && (s.pid != NO_PID && !s.detached ==>
                  && !r.justSpawn
                  && (s.justSpawn || (s.exiting && signal == Shutdown) || d == Failed ==> r == s.(justSpawn := false))
                  && (!s.justSpawn && d == NoProcess && !(s.exiting && signal == Shutdown) ==> r.exited && !r.exiting)
                  && (!s.justSpawn && (d == ByChannel || d == ByKill) ==>
                        if signal == Reopen then r == s else r == s.(exiting := true)))
    ensures FoundGone(s, signal, d) <==>
            s.pid != NO_PID && !s.detached && !s.justSpawn && !(s.exiting && signal == Shutdown) && d == NoProcess
  {
  }

  /**
   * The answer of a reap: afterwards some slot has a process that runs and is not a detached one
   * left alone, or that was just started again.
   */
  lemma LiveAnswer(t: seq<Slot>, stopping: bool, forks: seq<int>)
    requires |forks| == |t|
    ensures var r := Reaped(t, stopping, forks);
            StillLive(t, stopping, forks) <==>
            exists i :: 0 <= i < |r| && r[i].pid != NO_PID && !r[i].exited
                        && (r[i].exiting || !r[i].detached || t[i].exited)
  {
    var r := Reaped(t, stopping, forks);
    if StillLive(t, stopping, forks) {
      var i :| 0 <= i < |t| && LiveSlot(t[i], stopping, forks[i]);
      assert i < |r| && r[i] == ReapedSlot(t[i], stopping, forks[i]);
    }
    if i :| 0 <= i < |r| && r[i].pid != NO_PID && !r[i].exited && (r[i].exiting || !r[i].detached || t[i].exited) {
      assert LiveSlot(t[i], stopping, forks[i]);
    }
  }

  // ---- reloading ----------------------------------------------------------------------

  /** A spawn of a reload: the kind, and what fork answers. */
  datatype Start = Start(kind: Kind, pid: int)

  function Started(t: seq<Slot>, starts: seq<Start>): seq<Slot>
    decreases |starts|
  {
    if starts == [] then t
    else Started(Spawned(t, starts[0].kind, starts[0].pid), starts[1..])
  }

  /** Occupied slots are where they were, and the slots of t besides are taken just now. */
  ghost predicate JustAdded(s: seq<Slot>, t: seq<Slot>) {
    && |s| <= |t|
    && (forall i :: 0 <= i < |s| && Taken(s[i]) ==> t[i] == s[i])
    && forall i :: 0 <= i < |t| && Taken(t[i]) && (i < |s| ==> !Taken(s[i])) ==>
         t[i].justSpawn && !t[i].exiting && !t[i].detached && !t[i].exited
  }

  /** The starts one after the other from the front, and from the back. */
  lemma {:induction false} StartedLast(t: seq<Slot>, starts: seq<Start>)
    requires starts != []
    ensures var last := |starts| - 1;
            Started(t, starts) == Spawned(Started(t, starts[..last]), starts[last].kind, starts[last].pid)
    decreases |starts|
  {
    if |starts| == 1 {
      assert starts[..0] == [] && starts[1..] == [];
    } else {
      StartedLast(Spawned(t, starts[0].kind, starts[0].pid), starts[1..]);
      assert starts[1..][..|starts| - 2] == starts[..|starts| - 1][1..];
    }
  }

  lemma {:induction false} StartsAreAdded(s: seq<Slot>, t: seq<Slot>, starts: seq<Start>)
    requires JustAdded(s, t)
    requires forall i :: 0 <= i < |starts| ==> starts[i].kind.JustSpawn? || starts[i].kind.JustRespawn?
    ensures JustAdded(s, Started(t, starts))
    decreases |starts|
  {
    if starts == [] {
    } else {
      var u := Spawned(t, starts[0].kind, starts[0].pid);
      assert JustAdded(s, u);
      StartsAreAdded(s, u, starts[1..]);
    }
  }

  /**
   * A reload from a table without just-spawned flags, all messages delivered: of the
   * processes from before exactly the ones that are not detached are exiting, and the new
   * ones are neither signalled nor flagged any more.
   */
  lemma ReloadRetiresTheOld(s: seq<Slot>, starts: seq<Start>, ds: seq<Delivery>, i: nat)
    requires forall k :: 0 <= k < |s| ==> !(Taken(s[k]) && s[k].justSpawn)
    requires forall k :: 0 <= k < |starts| ==> starts[k].kind.JustSpawn? || starts[k].kind.JustRespawn?
    requires |ds| == |Started(s, starts)| && forall k :: 0 <= k < |ds| ==> ds[k].ByChannel? || ds[k].ByKill?
    requires i < |ds|
    ensures var r := Signalled(Started(s, starts), Shutdown, ds);
            if i < |s| && Taken(s[i]) then r[i] == s[i].(exiting := s[i].exiting || !s[i].detached)
            else Taken(r[i]) ==> !r[i].exiting && !r[i].justSpawn && !r[i].exited
  {
    assert JustAdded(s, s) by {
      assert forall k :: 0 <= k < |s| && Taken(s[k]) ==> s[k] == s[k];
    }
    StartsAreAdded(s, s, starts);
  }

  /** Of a reload whose message reaches this old process, whatever becomes of the other messages. */
  lemma OldIsRetired(s: seq<Slot>, starts: seq<Start>, ds: seq<Delivery>, i: nat)
    requires i < |s| && Taken(s[i]) && !s[i].exited && !s[i].justSpawn && !s[i].detached
    requires forall k :: 0 <= k < |starts| ==> starts[k].kind.JustSpawn? || starts[k].kind.JustRespawn?
    requires |ds| == |Started(s, starts)| && (i < |ds| ==> ds[i].ByChannel? || ds[i].ByKill?)
    ensures i < |ds| && Signalled(Started(s, starts), Shutdown, ds)[i] == s[i].(exiting := true)
  {
    assert JustAdded(s, s) by {
      assert forall k :: 0 <= k < |s| && Taken(s[k]) ==> s[k] == s[k];
    }
    StartsAreAdded(s, s, starts);
  }

  lemma {:induction false} TakenBefore(t: seq<Slot>, i: nat)
    requires i < FirstFree(t)
    ensures Taken(t[i])
  {
    if i == 0 {
    } else {
      TakenBefore(t[1..], i - 1);
    }
  }

  /** A spawn takes no slot away from a process that has not been reaped, and leaves no gap before the slot it takes. */
  lemma SpawnKeepsOthers(t: seq<Slot>, kind: Kind, pid: int)
    ensures var r := Spawned(t, kind, pid);
            && |t| <= |r| && (forall i :: 0 <= i < |t| && Taken(t[i]) ==> r[i] == t[i])
            && forall i :: 0 <= i < |r| && (i < |t| ==> r[i] != t[i]) ==>
                 r[i] == Fresh(kind, pid) && forall j :: 0 <= j < i ==> Taken(r[j])
  {
    forall i | 0 <= i < FirstFree(t)
      ensures Taken(t[i])
    {
      TakenBefore(t, i);
    }
  }
}
