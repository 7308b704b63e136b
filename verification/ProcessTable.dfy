/** The master's process table as an array that its loops update (ngx_process.c, ngx_process_cycle.c). */
module ProcessTable {
  import opened ProcessSlots

  class Table {
    const processes: array<Slot>
    /** ngx_last_process */
    var last: nat
    /** ngx_new_binary, ngx_noaccepting and ngx_restart */
    var newBinary: int
    var noaccepting: bool
    var restart: bool

    constructor ()
      ensures Valid() && fresh(processes) && Slots() == [] && newBinary == 0 && !noaccepting && !restart
    {
      processes := new Slot[MAX_PROCESSES](_ => Slot(0, false, false, false, false, false));
      last, newBinary, noaccepting, restart := 0, 0, false, false;
    }

    ghost predicate Valid()
      reads this
    {
      processes.Length == MAX_PROCESSES && last <= MAX_PROCESSES
    }

    ghost function Slots(): seq<Slot>
      requires Valid()
      reads this, processes
    {
      processes[..last]
    }

    /** The search of ngx_spawn_process. */
    method FindFree() returns (s: nat)
      requires Valid()
      ensures s == FirstFree(Slots())
    {
      ghost var t := Slots();
      s := 0;
      while s < last
        invariant s <= last && FirstFree(t) == s + FirstFree(t[s..])
        decreases last - s
      {
        if processes[s].pid == NO_PID {
          break;
        }
        assert t[s..][1..] == t[s + 1..];
        s := s + 1;
      }
    }

    /** ngx_spawn_process for a new slot; pid is the answer of fork, or NO_PID when anything fails. */
    method SpawnProcess(kind: Kind, pid: int) returns (answer: int)
      requires Valid()
      modifies this`last, processes
      ensures Valid() && Slots() == Spawned(old(Slots()), kind, pid)
      ensures answer == if FirstFree(old(Slots())) == MAX_PROCESSES then NO_PID else pid
      ensures answer != NO_PID ==>
                var s := processes[FirstFree(old(Slots()))];
                && s.pid == pid && !s.exiting && !s.exited && (s.detached <==> kind == Detached)
                && (s.respawn <==> kind == Respawn || kind == JustRespawn)
                && (s.justSpawn <==> kind == JustSpawn || kind == JustRespawn)
    {
      var s := FindFree();
      if s == MAX_PROCESSES {
        return NO_PID;
      }
      if pid == NO_PID {
        return NO_PID;
      }
      processes[s] := Slot(pid, false, false, false, false, false);
      match kind {
        case NoRespawn =>
        case JustSpawn => processes[s] := processes[s].(justSpawn := true);
        case Respawn => processes[s] := processes[s].(respawn := true);
        case JustRespawn => processes[s] := processes[s].(respawn := true, justSpawn := true);
        case Detached => processes[s] := processes[s].(detached := true);
      }
      if s == last {
        last := last + 1;
      }
      return pid;
    }

    /**
     * ngx_process_get_status for one child that waitpid reports. A fatal exit of a process
     * without a slot reaches for the slot behind the last, which a full table does not have.
     */
    method GetStatus(pid: int, fatal: bool)
      requires Valid() && (fatal && SlotOf(Slots(), pid) == last ==> last < MAX_PROCESSES)
      modifies processes
      ensures Slots() == Collected(old(Slots()), pid, fatal)
      ensures forall k :: last <= k < MAX_PROCESSES ==>
                processes[k] == if k == last == SlotOf(old(Slots()), pid) && fatal
                                then old(processes[k]).(respawn := false)
                                else old(processes[k])
    {
      ghost var t := Slots();
      var i := 0;
      while i < last
        invariant i <= last && SlotOf(t, pid) == i + SlotOf(t[i..], pid) && Slots() == t
        invariant forall k :: last <= k < MAX_PROCESSES ==> processes[k] == old(processes[k])
        decreases last - i
      {
        if processes[i].pid == pid {
          processes[i] := processes[i].(exited := true);
          break;
        }
        assert t[i..][1..] == t[i + 1..];
        i := i + 1;
      }
      if fatal && processes[i].respawn {
        processes[i] := processes[i].(respawn := false);
      }
    }

    /** ngx_signal_worker_processes; ds says for each slot what its delivery would come to. */
    method SignalWorkers(signal: Signal, ds: seq<Delivery>) returns (reap: bool)
      requires Valid() && |ds| == last
      modifies processes
      ensures Slots() == Signalled(old(Slots()), signal, ds)
      ensures reap <==> exists i :: 0 <= i < |ds| && FoundGone(old(Slots())[i], signal, ds[i])
      ensures forall i :: 0 <= i < last && (ds[i] == ByChannel || ds[i] == ByKill) ==>
                && (signal == Reopen ==> processes[i].(justSpawn := old(processes[i].justSpawn)) == old(processes[i]))
                && (signal != Reopen
                    && old(processes[i].pid != NO_PID && !processes[i].detached && !processes[i].justSpawn) ==>
                      processes[i] == old(processes[i]).(exiting := true))
    {
      ghost var t := Slots();
      reap := false;
      for i := 0 to last
        invariant forall k :: 0 <= k < last ==>
                    processes[k] == if k < i then SignalledSlot(t[k], signal, ds[k]) else t[k]
        invariant reap <==> exists k :: 0 <= k < i && FoundGone(t[k], signal, ds[k])
      {
        var gone := SignalOne(i, signal, ds[i]);
        reap := reap || gone;
      }
    }

    method SignalOne(i: nat, signal: Signal, d: Delivery) returns (gone: bool)
      requires Valid() && i < last
      modifies processes
      ensures processes[i] == SignalledSlot(old(processes[i]), signal, d)
      ensures forall k :: 0 <= k < processes.Length && k != i ==> processes[k] == old(processes[k])
      ensures gone == FoundGone(old(processes[i]), signal, d)
    {
      gone := false;
      if processes[i].detached || processes[i].pid == NO_PID {
        return;
      }
      if processes[i].justSpawn {
        processes[i] := processes[i].(justSpawn := false);
        return;
      }
      if processes[i].exiting && signal == Shutdown {
        return;
      }
      if signal != Kill && d == ByChannel {
        if signal != Reopen {
          processes[i] := processes[i].(exiting := true);
        }
        return;
      }
      if d == NoProcess {
        processes[i] := processes[i].(exited := true, exiting := false);
        return true;
      }
      if d == Failed {
        return;
      }
      if signal != Reopen {
        processes[i] := processes[i].(exiting := true);
      }
    }

    /** The reload of ngx_master_process_cycle: the new processes are started, then the old ones told to quit. */
    method Reload(starts: seq<Start>, ds: seq<Delivery>) returns (reap: bool)
      requires Valid() && |ds| == |Started(Slots(), starts)|
      modifies this`last, processes
      ensures Valid() && Slots() == Signalled(Started(old(Slots()), starts), Shutdown, ds)
      ensures reap <==> exists i :: 0 <= i < |ds| && FoundGone(Started(old(Slots()), starts)[i], Shutdown, ds[i])
    {
      ghost var t := Slots();
      assert starts[0..] == starts;
      for i := 0 to |starts|
        invariant Valid() && Started(Slots(), starts[i..]) == Started(t, starts)
      {
        assert starts[i..][1..] == starts[i + 1..];
        var pid := SpawnProcess(starts[i].kind, starts[i].pid);
      }
      reap := SignalWorkers(Shutdown, ds);
    }

    /**
     * ngx_reap_children; stopping is ngx_terminate or ngx_quit, forks[i] the answer to a respawn in
     * slot i. When the new binary's slot is given up, a master that stopped accepting is to restart.
     */
    method ReapChildren(stopping: bool, forks: seq<int>) returns (live: bool)
      requires Valid() && |forks| == last
      modifies this, processes
      ensures Valid() && Slots() == Reaped(old(Slots()), stopping, forks)
      ensures live <==> StillLive(old(Slots()), stopping, forks)
      ensures var gone := BinaryGone(old(Slots()), stopping, old(newBinary));
              && newBinary == (if gone then 0 else old(newBinary)) && noaccepting == (old(noaccepting) && !gone)
              && restart == (old(restart) || (gone && old(noaccepting)))
    {
      ghost var t, b, n, r := Slots(), newBinary, noaccepting, restart;
      live := false;
      var i := 0;
      while i < last
        invariant Reaping(t, stopping, forks, i, live) && Replacing(t, stopping, i, b, n, r)
        decreases |t| - i
      {
        live := ReapOne(i, live, stopping, forks[i], t, forks, b, n, r);
        i := i + 1;
      }
      assert t[..|t|] == t;
    }

    /** The loop has dealt with the first i slots. */
    ghost predicate Reaping(t: seq<Slot>, stopping: bool, forks: seq<int>, i: nat, live: bool)
      reads this, processes
    {
      && Valid() && |forks| == |t| && i <= |t|
      && last == (if i == |t| && t != [] && Goes(t[i - 1], stopping) then |t| - 1 else |t|)
      && (forall k :: 0 <= k < last ==> processes[k] == if k < i then ReapedSlot(t[k], stopping, forks[k]) else t[k])
      && (live <==> exists k :: 0 <= k < i && LiveSlot(t[k], stopping, forks[k]))
    }

    /** What it has done about the new binary, after b, n and r were the values before it. */
    ghost predicate Replacing(t: seq<Slot>, stopping: bool, i: nat, b: int, n: bool, r: bool)
      requires i <= |t|
      reads this
    {
      var gone := BinaryGone(t[..i], stopping, b);
      newBinary == (if gone then 0 else b) && noaccepting == (n && !gone) && restart == (r || (gone && n))
    }

    static lemma GoneTo(t: seq<Slot>, stopping: bool, i: nat, b: int)
      requires i < |t|
      ensures BinaryGone(t[..i + 1], stopping, b) <==>
              BinaryGone(t[..i], stopping, b) || (Goes(t[i], stopping) && t[i].pid == b)
    {
      assert forall k :: 0 <= k < i ==> t[..i + 1][k] == t[..i][k];
      assert t[..i + 1][i] == t[i];
    }

    /** One slot of the loop. */
    method ReapOne(i: nat, live0: bool, stopping: bool, fork: int, ghost t: seq<Slot>, ghost forks: seq<int>,
                   ghost b: int, ghost n: bool, ghost r: bool)
      returns (live: bool)
      requires i < last && Reaping(t, stopping, forks, i, live0) && fork == forks[i]
      requires Replacing(t, stopping, i, b, n, r)
      modifies this, processes
      ensures Reaping(t, stopping, forks, i + 1, live) && Replacing(t, stopping, i + 1, b, n, r)
    {
      GoneTo(t, stopping, i, b);
      live := live0;
      if processes[i].pid == NO_PID {
        return;
      }
      if processes[i].exited {
        if processes[i].respawn && !processes[i].exiting && !stopping {
          if fork == NO_PID {
            return;
          }
          processes[i] := processes[i].(pid := fork, exited := false);
          live := true;
          return;
        }
        NoteBinary(processes[i].pid);
        if i == last - 1 {
          last := last - 1;
        } else {
          processes[i] := processes[i].(pid := NO_PID);
        }
      } else if processes[i].exiting || !processes[i].detached {
        live := true;
      }
    }

    /** A process that goes may be the new binary. */
    method NoteBinary(pid: int)
      modifies this`newBinary, this`noaccepting, this`restart
      ensures if pid == old(newBinary)
              then newBinary == 0 && !noaccepting && restart == (old(restart) || old(noaccepting))
              else newBinary == old(newBinary) && noaccepting == old(noaccepting) && restart == old(restart)
    {
      if pid == newBinary {
        newBinary := 0;
        if noaccepting {
          restart := true;
          noaccepting := false;
        }
      }
    }
  }
}
