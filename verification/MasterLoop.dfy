/**
 * The main loop of the master (ngx_master_process_cycle) over its table of processes. Signals
 * reach the master only in sigsuspend, where the handler of SIGCHLD collects children; each
 * turn then reaps, tests for its exit, and works through the requests in a fixed order.
 */
module MasterLoop {
  import opened Basics
  import opened ProcessSlots
  import opened ProcessSteps

  /** The requests that signals make; a request to change the binary is ignored while one runs. */
  datatype Request = ToQuit | ToTerminate | ToReconfigure | ToReopen | ToChangeBinary | ToStopAccepting

  /** The variables ngx_reap, ngx_terminate and so on. */
  datatype Flags = Flags(
    reap: bool, terminate: bool, quit: bool, reconfigure: bool, restart: bool,
    reopen: bool, changeBinary: bool, noaccept: bool)

  /** What processes are started for: the loop itself, a reload next to a new binary, a reload, a restart. */
  datatype Why = Startup | Beside | Reload | Restart

  /** Where the loop is; next is the section of the turn that follows a message. */
  datatype Place =
    | Asleep
    | Reaping
    | Terminating
    | Signalling(signal: Signal, next: nat)
    | Reconfiguring
    | Starting(kinds: seq<Kind>, why: Why)
    | Restarting
    | ChangingBinary
    | Exited

  /** binary is ngx_new_binary: none, a failed start of one, or its pid. */
  datatype Master = Master(
    y: System, live: bool, binary: int, noaccepting: bool, flags: Flags, at: Place)

  const NO_BINARY := 0

  datatype Event =
    | Arrive(r: Request)
    | Child(pid: int, fatal: bool)
    | Wake
    | ReapAll(forks: seq<int>)
    | Message(signal: Signal, ds: seq<Delivery>)
    | HoldBack
    | Configured(kinds: seq<Kind>)
    | NotConfigured
    | Restarted(kinds: seq<Kind>)
    | Fork(pid: int)
    | Exec(pid: int)

  // ---- the loop ------------------------------------------------------------------------------

  function Raised(f: Flags, r: Request): (g: Flags)
    ensures g.reap == f.reap && g.restart == f.restart
    ensures g.terminate == (f.terminate || r.ToTerminate?) && g.quit == (f.quit || r.ToQuit?)
    ensures g.reconfigure == (f.reconfigure || r.ToReconfigure?) && g.reopen == (f.reopen || r.ToReopen?)
    ensures g.changeBinary == (f.changeBinary || r.ToChangeBinary?) && g.noaccept == (f.noaccept || r.ToStopAccepting?)
  {
    match r
    case ToQuit => f.(quit := true)
    case ToTerminate => f.(terminate := true)
    case ToReconfigure => f.(reconfigure := true)
    case ToReopen => f.(reopen := true)
    case ToChangeBinary => f.(changeBinary := true)
    case ToStopAccepting => f.(noaccept := true)
  }

  /** The kinds of workers and cache processes for a start from nothing, and for a reload. */
  ghost predicate Plain(kinds: seq<Kind>) {
    forall i :: 0 <= i < |kinds| ==> kinds[i].Respawn? || kinds[i].NoRespawn?
  }

  ghost predicate Just(kinds: seq<Kind>) {
    forall i :: 0 <= i < |kinds| ==> kinds[i].JustRespawn? || kinds[i].JustSpawn?
  }

  /** What no test or choice of a section changes; two requests go with the choice of the message they ask for. */
  predicate Same(m: Master, r: Master) {
    && r.y == m.y && r.binary == m.binary && r.flags.reap == m.flags.reap
    && r.flags.terminate == m.flags.terminate && r.flags.quit == m.flags.quit
    && r.flags.reconfigure == m.flags.reconfigure && r.flags.restart == m.flags.restart
    && r.flags.changeBinary == m.flags.changeBinary
    && (r.flags.reopen == m.flags.reopen || (r.at.Signalling? && r.at.signal == Signal.Reopen))
    && (r.flags.noaccept == m.flags.noaccept || (r.noaccepting && r.at.Signalling? && r.at.signal == Shutdown))
  }

  /** The turn goes on at the first section from n on that has something to do, or is over. */
  function Resumed(m: Master, n: nat): (r: Master)
    ensures Same(m, r) && r.live == m.live
    ensures r.at.Asleep? || r.at.Reconfiguring? || r.at.Restarting? || r.at.ChangingBinary?
            || (r.at.Signalling? && r.at.next > 1)
  {
    if n <= 0 && m.flags.reconfigure then m.(at := Reconfiguring)
    else if n <= 1 && m.flags.restart then m.(at := Restarting)
    else if n <= 2 && m.flags.reopen then
      m.(flags := m.flags.(reopen := false), at := Signalling(Signal.Reopen, 3))
    else if n <= 3 && m.flags.changeBinary then m.(at := ChangingBinary)
    else if n <= 4 && m.flags.noaccept then
      m.(flags := m.flags.(noaccept := false), noaccepting := true, at := Signalling(Shutdown, 5))
    else m.(at := Asleep)
  }

  /** The turn from the test for the exit on. */
  function Tested(m: Master): (r: Master)
    ensures Same(m, r) && r.live == m.live
    ensures !r.at.Starting? && !r.at.Reaping? && (r.at.Signalling? ==> r.at.next > 1)
    ensures r.at == Exited <==> !m.live && (m.flags.terminate || m.flags.quit)
  {
    if !m.live && (m.flags.terminate || m.flags.quit) then m.(at := Exited)
    else if m.flags.terminate then m.(at := Terminating)
    else if m.flags.quit then m.(at := Signalling(Shutdown, 5))
    else Resumed(m, 0)
  }

  /** Processes of these kinds are still to be started; after the last the turn goes on. */
  function Begun(m: Master, kinds: seq<Kind>, why: Why): (r: Master)
    ensures Same(m, r)
    ensures kinds != [] ==> r == m.(at := Starting(kinds, why))
    ensures kinds == [] && why == Reload ==> r.at == Signalling(Shutdown, 1) && r.live
    ensures kinds == [] && why == Restart ==> r.live
    ensures kinds == [] && (why == Startup || why == Beside) ==> r.at == Asleep && r.live == m.live
    ensures kinds == [] && why != Reload ==>
              !r.at.Starting? && !r.at.Reaping? && !r.at.Exited? && (r.at.Signalling? ==> r.at.next > 1)
  {
    if kinds != [] then m.(at := Starting(kinds, why))
    else
      match why
      case Startup => m.(at := Asleep)
      case Beside => m.(noaccepting := false, at := Asleep)
      case Reload => m.(live := true, at := Signalling(Shutdown, 1))
      case Restart => Resumed(m.(live := true), 2)
  }

  function Initial(kinds: seq<Kind>): Master {
    Begun(Master(System([], {}, false), true, NO_BINARY, false,
                 Flags(false, false, false, false, false, false, false, false), Asleep), kinds, Startup)
  }

  /** What the event does to the table and the children. */
  function Done(m: Master, e: Event): Option<Step> {
    match e
    case Arrive(r) => if r.ToQuit? || r.ToTerminate? then Some(Stop) else None
    case Child(pid, fatal) => Some(Collect(pid, fatal))
    case ReapAll(forks) => Some(Reap(forks))
    case Message(signal, ds) => Some(Send(signal, ds))
    case Fork(pid) => if m.at.Starting? && m.at.kinds != [] then Some(Spawn(m.at.kinds[0], pid)) else None
    case Exec(pid) => Some(Spawn(Detached, pid))
    case _ => None
  }

  ghost predicate Possible(m: Master, e: Event) {
    && (Done(m, e).Some? ==> Allowed(m.y, Done(m, e).value))
    && match e
       case Arrive(r) => m.at == Asleep && (r.ToChangeBinary? ==> m.binary <= 0)
       case Child(pid, fatal) => m.at == Asleep
       case Wake => m.at == Asleep
       case ReapAll(forks) => m.at == Reaping
       case Message(signal, ds) =>
         if m.at.Signalling? then signal == m.at.signal
         else m.at == Terminating && (signal == Signal.Terminate || signal == Kill)
       case HoldBack => m.at == Terminating
       case Configured(kinds) => m.at == Reconfiguring && if m.binary != NO_BINARY then Plain(kinds) else Just(kinds)
       case NotConfigured => m.at == Reconfiguring && m.binary == NO_BINARY
       case Restarted(kinds) => m.at == Restarting && Plain(kinds)
       case Fork(pid) => m.at.Starting? && m.at.kinds != []
       case Exec(pid) => m.at == ChangingBinary
  }

  ghost predicate Finds(t: seq<Slot>, signal: Signal, ds: seq<Delivery>)
    requires |ds| == |t|
  {
    exists i :: 0 <= i < |t| && FoundGone(t[i], signal, ds[i])
  }

  ghost function Turned(m: Master, e: Event): Master
    requires Possible(m, e)
  {
    var n := if Done(m, e).Some? then m.(y := Next(m.y, Done(m, e).value)) else m;
    match e
    case Arrive(r) => n.(flags := Raised(m.flags, r))
    case Child(pid, fatal) => n.(flags := m.flags.(reap := true))
    case Wake => if m.flags.reap then n.(at := Reaping) else Tested(n)
    case ReapAll(forks) =>
      var gone := BinaryGone(m.y.t, m.y.stopping, m.binary);
      Tested(n.(live := StillLive(m.y.t, m.y.stopping, forks),
                binary := if gone then NO_BINARY else m.binary,
                noaccepting := m.noaccepting && !gone,
                flags := m.flags.(reap := false, restart := m.flags.restart || (gone && m.noaccepting))))
    case Message(signal, ds) =>
      var n1 := n.(flags := m.flags.(reap := m.flags.reap || Finds(m.y.t, signal, ds)));
      if m.at == Terminating then n1.(at := Asleep) else Resumed(n1, m.at.next)
    case HoldBack => n.(at := Asleep)
    case Configured(kinds) =>
      Begun(n.(flags := m.flags.(reconfigure := false)), kinds, if m.binary != NO_BINARY then Beside else Reload)
    case NotConfigured => n.(flags := m.flags.(reconfigure := false), at := Asleep)
    case Restarted(kinds) => Begun(n.(flags := m.flags.(restart := false)), kinds, Restart)
    case Fork(pid) => Begun(n, m.at.kinds[1..], m.at.why)
    case Exec(pid) => Resumed(n.(flags := m.flags.(changeBinary := false), binary := pid), 4)
  }

  /** Event k takes the loop from moment k to the next. */
  ghost predicate Moves(run: seq<Master>, events: seq<Event>, k: nat)
    requires k < |events| && |run| == |events| + 1
  {
    Possible(run[k], events[k]) && run[k + 1] == Turned(run[k], events[k])
  }

  ghost predicate IsRun(run: seq<Master>, events: seq<Event>) {
    && |run| == |events| + 1
    && (exists kinds :: Plain(kinds) && run[0] == Initial(kinds))
    && forall k: nat {:trigger Moves(run, events, k)} :: k < |events| ==> Moves(run, events, k)
  }

  /** An event does to table and children what it says. */
  lemma TurnedSystem(m: Master, e: Event)
    requires Possible(m, e)
    ensures Turned(m, e).y == if Done(m, e).Some? then Next(m.y, Done(m, e).value) else m.y
  {
  }

  // ---- each child has its slot --------------------------------------------------------------

  /** The collections before moment k all found slots of processes that had not exited. */
  ghost predicate AllFound(run: seq<Master>, events: seq<Event>, k: nat)
    requires k <= |events| && |run| == |events| + 1
  {
    forall l :: 0 <= l < k && events[l].Child? ==> FindsRunning(run[l].y.t, events[l].pid)
  }

  ghost predicate AllKept(run: seq<Master>, k: nat)
    requires k < |run|
  {
    forall l :: 0 <= l <= k ==> Inv(run[l].y)
  }

  lemma EventKeepsInv(m: Master, e: Event)
    requires Inv(m.y) && Possible(m, e)
    ensures Inv(Turned(m, e).y) <==> (e.Child? ==> FindsRunning(m.y.t, e.pid))
  {
    TurnedSystem(m, e);
    if Done(m, e).Some? {
      StepKeepsInv(m.y, Done(m, e).value);
    }
  }

  /**
   * In every run the children are at every moment one to one with the running slots below
   * ngx_last_process, if and only if each collection found a slot that had not exited.
   */
  lemma {:induction false} RunKeepsInv(run: seq<Master>, events: seq<Event>, k: nat)
    requires IsRun(run, events) && k <= |events|
    ensures AllKept(run, k) <==> AllFound(run, events, k)
  {
    if k == 0 {
    } else {
      RunKeepsInv(run, events, k - 1);
      assert Moves(run, events, k - 1);
      if Inv(run[k - 1].y) {
        EventKeepsInv(run[k - 1], events[k - 1]);
      }
    }
  }

  /** No fork before moment k answered the pid of a slot that stays behind exited. */
  ghost predicate NoPidReused(run: seq<Master>, events: seq<Event>, k: nat)
    requires IsRun(run, events) && k <= |events|
  {
    forall l: nat {:trigger Moves(run, events, l)} :: l < k ==>
      Moves(run, events, l)
      && (Done(run[l], events[l]).Some? ==> NoneReused(run[l].y, Done(run[l], events[l]).value))
  }

  /** As long as no fork answers such a pid, every collection finds the right slot. */
  lemma {:induction false} ChildrenHaveSlots(run: seq<Master>, events: seq<Event>, k: nat)
    requires IsRun(run, events) && k <= |events| && NoPidReused(run, events, k)
    ensures AllKept(run, k) && AllFound(run, events, k) && NoneStale(run[k].y)
  {
    if k == 0 {
    } else {
      ChildrenHaveSlots(run, events, k - 1);
      var m, e := run[k - 1], events[k - 1];
      assert Moves(run, events, k - 1);
      if e.Child? {
        NoneStaleFinds(m.y, e.pid);
      }
      EventKeepsInv(m, e);
      TurnedSystem(m, e);
      if Done(m, e).Some? {
        StepLeavesNoneStale(m.y, Done(m, e).value);
      }
    }
  }

  // ---- a process that was told to exit --------------------------------------------------------

  /** Slot i holds process p, which was told to exit; once it is collected, the next thing done to it is the reap. */
  predicate Retiring(m: Master, i: nat, p: int) {
    && Marked(m.y, i, p)
    && (m.y.t[i].exited ==> m.flags.reap && (m.at == Asleep || m.at == Reaping))
  }

  lemma MessageKeepsRetiring(m: Master, signal: Signal, ds: seq<Delivery>, i: nat, p: int)
    requires Inv(m.y) && Possible(m, Message(signal, ds)) && Retiring(m, i, p)
    ensures Retiring(Turned(m, Message(signal, ds)), i, p)
  {
    assert Running(m.y.t[i]) && m.y.t[i].pid in m.y.children;
  }

  lemma ReapEndsRetiring(m: Master, forks: seq<int>, i: nat, p: int)
    requires Possible(m, ReapAll(forks)) && Retiring(m, i, p)
    ensures var z := Turned(m, ReapAll(forks)).y;
            if m.y.t[i].exited then GivenUp(z, i) else i < |z.t| && z.t[i] == m.y.t[i]
  {
    TurnedSystem(m, ReapAll(forks));
  }

  lemma StartKeepsRetiring(m: Master, e: Event, i: nat, p: int)
    requires Possible(m, e) && (e.Fork? || e.Exec?) && Retiring(m, i, p)
    ensures Retiring(Turned(m, e), i, p)
  {
    TurnedSystem(m, e);
    SpawnKeepsOthers(m.y.t, Done(m, e).value.kind, e.pid);
  }

  lemma EventKeepsRetiring(m: Master, e: Event, i: nat, p: int)
    requires Inv(m.y) && Possible(m, e) && Retiring(m, i, p)
    ensures Retiring(Turned(m, e), i, p) || GivenUp(Turned(m, e).y, i)
  {
    if e.Message? {
      MessageKeepsRetiring(m, e.signal, e.ds, i, p);
    } else if e.ReapAll? {
      ReapEndsRetiring(m, e.forks, i, p);
    } else if e.Fork? || e.Exec? {
      StartKeepsRetiring(m, e, i, p);
    } else {
      TurnedSystem(m, e);
    }
  }

  /** From moment a to moment k process p is marked, or else it is until its slot is given up. */
  ghost predicate StaysMarked(run: seq<Master>, a: nat, k: nat, i: nat, p: int)
    requires a <= k < |run|
    decreases k - a
  {
    Marked(run[a].y, i, p) && (a < k ==> GivenUp(run[a + 1].y, i) || StaysMarked(run, a + 1, k, i, p))
  }

  lemma {:induction false} RetiringStays(run: seq<Master>, events: seq<Event>, a: nat, k: nat, i: nat, p: int)
    requires IsRun(run, events) && a <= k <= |events| && AllKept(run, k) && Retiring(run[a], i, p)
    ensures StaysMarked(run, a, k, i, p)
    decreases k - a
  {
    if a == k {
    } else {
      assert Moves(run, events, a);
      EventKeepsRetiring(run[a], events[a], i, p);
      if !GivenUp(run[a + 1].y, i) {
        RetiringStays(run, events, a + 1, k, i, p);
      }
    }
  }

  /**
   * In every run in which each collection finds the right slot, a running process that was
   * told to exit is never started again: it stays marked until its slot is given up.
   */
  lemma RetiredStaysRetired(run: seq<Master>, events: seq<Event>, a: nat, k: nat, i: nat, p: int)
    requires IsRun(run, events) && a <= k <= |events| && AllFound(run, events, k)
    requires Marked(run[a].y, i, p) && Running(run[a].y.t[i])
    ensures StaysMarked(run, a, k, i, p)
  {
    RunKeepsInv(run, events, k);
    RetiringStays(run, events, a, k, i, p);
  }

  /** So in every run in which no fork answers the pid of a slot that stays behind exited. */
  lemma RetiredWithoutReuse(run: seq<Master>, events: seq<Event>, a: nat, k: nat, i: nat, p: int)
    requires IsRun(run, events) && a <= k <= |events| && NoPidReused(run, events, k)
    requires Marked(run[a].y, i, p) && Running(run[a].y.t[i])
    ensures StaysMarked(run, a, k, i, p)
  {
    ChildrenHaveSlots(run, events, k);
    RetiringStays(run, events, a, k, i, p);
  }

  /** From moment a to moment k no message takes the mark away before the slot is given up. */
  ghost predicate NoneLoses(run: seq<Master>, events: seq<Event>, a: nat, k: nat, i: nat)
    requires a <= k <= |events| && |run| == |events| + 1
    decreases k - a
  {
    a < k ==>
      && !(Done(run[a], events[a]).Some? && LosesMark(run[a].y, Done(run[a], events[a]).value, i))
      && (GivenUp(run[a + 1].y, i) || NoneLoses(run, events, a + 1, k, i))
  }

  lemma EventKeepsMark(m: Master, e: Event, i: nat, p: int)
    requires Possible(m, e) && Marked(m.y, i, p)
    ensures var n := Turned(m, e);
            Marked(n.y, i, p) || GivenUp(n.y, i) <==>
            !(Done(m, e).Some? && LosesMark(m.y, Done(m, e).value, i))
  {
    TurnedSystem(m, e);
    if Done(m, e).Some? {
      StepKeepsMark(m.y, Done(m, e).value, i, p);
    }
  }

  /** In any run whatever it stays marked, if and only if no message other than to shut down finds it gone. */
  lemma {:induction false} MarkedStaysMarked(run: seq<Master>, events: seq<Event>, a: nat, k: nat, i: nat, p: int)
    requires IsRun(run, events) && a <= k <= |events| && Marked(run[a].y, i, p)
    ensures StaysMarked(run, a, k, i, p) <==> NoneLoses(run, events, a, k, i)
    decreases k - a
  {
    if a == k {
    } else {
      assert Moves(run, events, a);
      EventKeepsMark(run[a], events[a], i, p);
      if Marked(run[a + 1].y, i, p) {
        MarkedStaysMarked(run, events, a + 1, k, i, p);
      }
    }
  }

  // ---- a worker that crashes ----------------------------------------------------------------------

  /** Slot i holds the running process p, which is to be respawned and was not told to exit. */
  predicate Loyal(m: Master, i: nat, p: int) {
    i < |m.y.t| && Taken(m.y.t[i]) && m.y.t[i].pid == p && m.y.t[i].respawn && !m.y.t[i].exiting && !m.y.t[i].exited
  }

  /**
   * The event neither tells slot i to exit nor collects its process; a message that finds it just
   * started only clears that flag.
   */
  predicate LeavesAlone(m: Master, e: Event, i: nat, p: int) {
    && (e.Message? && e.signal != Signal.Reopen ==> i < |m.y.t| && m.y.t[i].justSpawn)
    && (e.Child? ==> e.pid != p)
  }

  lemma EventKeepsLoyal(m: Master, e: Event, i: nat, p: int)
    requires Inv(m.y) && Possible(m, e) && Loyal(m, i, p) && LeavesAlone(m, e, i, p)
    ensures Loyal(Turned(m, e), i, p)
  {
    TurnedSystem(m, e);
    if e.Message? {
      assert Running(m.y.t[i]) && p in m.y.children;
    } else if e.Fork? || e.Exec? {
      SpawnKeepsOthers(m.y.t, Done(m, e).value.kind, e.pid);
    }
  }

  /** Its exit has been recorded in slot i, and the reap is to come. */
  predicate Dismissed(m: Master, i: nat, p: int, fatal: bool) {
    && i < |m.y.t| && Taken(m.y.t[i]) && m.y.t[i].pid == p && p !in m.y.children
    && m.y.t[i].exited && !m.y.t[i].exiting && m.y.t[i].respawn == !fatal
    && m.flags.reap && (m.at == Asleep || m.at == Reaping)
  }

  lemma CollectDismisses(m: Master, i: nat, p: int, fatal: bool)
    requires Possible(m, Child(p, fatal)) && Loyal(m, i, p) && SlotOf(m.y.t, p) == i
    ensures Dismissed(Turned(m, Child(p, fatal)), i, p, fatal)
  {
  }

  lemma EventKeepsDismissed(m: Master, e: Event, i: nat, p: int, fatal: bool)
    requires Possible(m, e) && Dismissed(m, i, p, fatal) && !e.ReapAll?
    ensures Dismissed(Turned(m, e), i, p, fatal)
  {
  }

  /**
   * What becomes of it in the reap: after a fatal exit, or when the master is stopping, the slot
   * is given up; otherwise it has the process that fork answers, or waits for the next reap.
   */
  lemma ReapDecides(m: Master, forks: seq<int>, i: nat, p: int, fatal: bool)
    requires Possible(m, ReapAll(forks)) && Dismissed(m, i, p, fatal)
    ensures var z := Turned(m, ReapAll(forks)).y;
            if fatal || m.y.stopping then GivenUp(z, i)
            else
              && i < |z.t|
              && z.t[i] == if forks[i] == NO_PID then m.y.t[i] else m.y.t[i].(pid := forks[i], exited := false)
  {
    TurnedSystem(m, ReapAll(forks));
  }

  lemma {:induction false} LoyalStays(run: seq<Master>, events: seq<Event>, a: nat, c: nat, i: nat, p: int)
    requires IsRun(run, events) && a <= c <= |events| && AllKept(run, c) && Loyal(run[a], i, p)
    requires forall l :: a <= l < c ==> LeavesAlone(run[l], events[l], i, p)
    ensures Loyal(run[c], i, p)
  {
    if a == c {
    } else {
      LoyalStays(run, events, a, c - 1, i, p);
      assert Moves(run, events, c - 1);
      EventKeepsLoyal(run[c - 1], events[c - 1], i, p);
    }
  }

  lemma {:induction false} DismissedStays(
      run: seq<Master>, events: seq<Event>, b: nat, r: nat, i: nat, p: int, fatal: bool)
    requires IsRun(run, events) && b <= r <= |events| && Dismissed(run[b], i, p, fatal)
    requires forall l :: b <= l < r ==> !events[l].ReapAll?
    ensures Dismissed(run[r], i, p, fatal)
  {
    if b == r {
    } else {
      DismissedStays(run, events, b, r - 1, i, p, fatal);
      assert Moves(run, events, r - 1);
      EventKeepsDismissed(run[r - 1], events[r - 1], i, p, fatal);
    }
  }

  /**
   * The other half of RetiredStaysRetired: a worker to be respawned that no message told to
   * exit, and whose exit, event c, is recorded in its own slot, is started again by the next
   * reap, event r, in the same slot and as before; but its slot is given up when the exit was
   * fatal or the master is stopping, and waits for another reap when fork fails.
   */
  lemma CrashedComesBack(
      run: seq<Master>, events: seq<Event>, a: nat, c: nat, r: nat, i: nat, p: int, fatal: bool)
    requires IsRun(run, events) && a <= c < r < |events| && AllFound(run, events, c) && Loyal(run[a], i, p)
    requires forall l :: a <= l < c ==> LeavesAlone(run[l], events[l], i, p)
    requires events[c] == Child(p, fatal) && SlotOf(run[c].y.t, p) == i
    requires events[r].ReapAll? && forall l :: c < l < r ==> !events[l].ReapAll?
    ensures |events[r].forks| == |run[r].y.t| && i < |run[r].y.t|
    ensures var fork, z := events[r].forks[i], run[r + 1].y;
            if fatal || run[r].y.stopping then GivenUp(z, i)
            else if fork == NO_PID then i < |z.t| && z.t[i] == run[r].y.t[i] && z.t[i].exited
            else Loyal(run[r + 1], i, fork)
  {
    RunKeepsInv(run, events, c);
    LoyalStays(run, events, a, c, i, p);
    assert Moves(run, events, c);
    CollectDismisses(run[c], i, p, fatal);
    DismissedStays(run, events, c + 1, r, i, p, fatal);
    assert Moves(run, events, r);
    ReapDecides(run[r], events[r].forks, i, p, fatal);
  }

  // ---- every request is served ---------------------------------------------------------------------

  /** A request that is on in m and off in r went for what it asks for. */
  predicate Falls(m: Master, e: Event, r: Master) {
    && (m.flags.terminate ==> r.flags.terminate) && (m.flags.quit ==> r.flags.quit)
    && (m.flags.reap && !r.flags.reap ==> e.ReapAll?)
    && (m.flags.reconfigure && !r.flags.reconfigure ==> e.Configured? || e.NotConfigured?)
    && (m.flags.restart && !r.flags.restart ==> e.Restarted?)
    && (m.flags.reopen && !r.flags.reopen ==> r.at.Signalling? && r.at.signal == Signal.Reopen)
    && (m.flags.changeBinary && !r.flags.changeBinary ==> e.Exec?)
    && (m.flags.noaccept && !r.flags.noaccept ==> r.noaccepting && r.at.Signalling? && r.at.signal == Shutdown)
  }

  lemma MessageFalls(m: Master, signal: Signal, ds: seq<Delivery>)
    requires Possible(m, Message(signal, ds))
    ensures Falls(m, Message(signal, ds), Turned(m, Message(signal, ds)))
  {
  }

  lemma ReapFalls(m: Master, forks: seq<int>)
    requires Possible(m, ReapAll(forks))
    ensures Falls(m, ReapAll(forks), Turned(m, ReapAll(forks)))
  {
  }

  lemma WakeFalls(m: Master)
    requires Possible(m, Wake)
    ensures Falls(m, Wake, Turned(m, Wake))
  {
  }

  lemma StartFalls(m: Master, e: Event)
    requires Possible(m, e) && (e.Configured? || e.Restarted? || e.Fork?)
    ensures Falls(m, e, Turned(m, e))
  {
  }

  lemma ExecFalls(m: Master, pid: int)
    requires Possible(m, Exec(pid))
    ensures Falls(m, Exec(pid), Turned(m, Exec(pid)))
  {
  }

  /** A request is off only by what it asks for. */
  lemma FlagsFall(m: Master, e: Event)
    requires Possible(m, e)
    ensures var n := Turned(m, e);
            && (m.flags.terminate ==> n.flags.terminate) && (m.flags.quit ==> n.flags.quit)
            && (m.flags.reap && !n.flags.reap ==> e.ReapAll?)
            && (m.flags.reconfigure && !n.flags.reconfigure ==> e.Configured? || e.NotConfigured?)
            && (m.flags.restart && !n.flags.restart ==> e.Restarted?)
            && (m.flags.reopen && !n.flags.reopen ==> n.at.Signalling? && n.at.signal == Signal.Reopen)
            && (m.flags.changeBinary && !n.flags.changeBinary ==> e.Exec?)
            && (m.flags.noaccept && !n.flags.noaccept ==>
                  n.noaccepting && n.at.Signalling? && n.at.signal == Shutdown)
  {
    match e
    case Arrive(r) =>
    case Child(pid, fatal) =>
    case Wake => WakeFalls(m);
    case ReapAll(forks) => ReapFalls(m, forks);
    case Message(signal, ds) => MessageFalls(m, signal, ds);
    case HoldBack =>
    case NotConfigured =>
    case Exec(pid) => ExecFalls(m, pid);
    case _ => StartFalls(m, e);
  }

  /** No request of a section before n is left; a stop goes before all of them. */
  predicate DoneTo(m: Master, n: nat) {
    && !m.flags.terminate && !m.flags.quit && (n > 0 ==> !m.flags.reconfigure) && (n > 1 ==> !m.flags.restart)
    && (n > 2 ==> !m.flags.reopen) && (n > 3 ==> !m.flags.changeBinary) && (n > 4 ==> !m.flags.noaccept)
  }

  /** The loop is where its requests have brought it. */
  predicate SectionsDone(m: Master) {
    match m.at
    case Asleep => true
    case Reaping => true
    case Exited => true
    case Terminating => m.flags.terminate
    case Signalling(signal, next) =>
      if m.flags.quit then !m.flags.terminate && m.at == Signalling(Shutdown, 5) else DoneTo(m, next)
    case Reconfiguring => DoneTo(m, 0)
    case Starting(kinds, why) =>
      && !m.flags.terminate && !m.flags.quit
      && (why == Reload ==> DoneTo(m, 1)) && (why == Restart ==> DoneTo(m, 2))
    case Restarting => DoneTo(m, 1)
    case ChangingBinary => DoneTo(m, 3)
  }

  lemma ResumedSections(m: Master, n: nat)
    requires DoneTo(m, n)
    ensures SectionsDone(Resumed(m, n)) && (Resumed(m, n).at == Asleep ==> DoneTo(Resumed(m, n), 5))
  {
  }

  lemma TestedSections(m: Master)
    ensures SectionsDone(Tested(m))
    ensures Tested(m).at == Asleep ==> DoneTo(Tested(m), 5)
  {
    if !m.flags.terminate && !m.flags.quit {
      ResumedSections(m, 0);
    }
  }

  lemma BegunSections(m: Master, kinds: seq<Kind>, why: Why)
    requires !m.flags.terminate && !m.flags.quit
    requires (why == Reload ==> DoneTo(m, 1)) && (why == Restart ==> DoneTo(m, 2))
    ensures var r := Begun(m, kinds, why);
            SectionsDone(r) && (r.at == Asleep && why != Startup && why != Beside ==> DoneTo(r, 5))
  {
    if kinds == [] && why == Restart {
      ResumedSections(m.(live := true), 2);
    }
  }

  /** After the event the loop has nothing left to do. */
  predicate Served(m: Master, e: Event, n: Master) {
    if m.flags.terminate then e.HoldBack? || (e.Message? && (e.signal == Signal.Terminate || e.signal == Kill))
    else if m.flags.quit then e.Message? && e.signal == Shutdown
    else
      || e.NotConfigured?
      || (e.Configured? && m.binary != NO_BINARY)
      || (e.Fork? && m.at.Starting? && (m.at.why == Startup || m.at.why == Beside))
      || !(n.flags.reconfigure || n.flags.restart || n.flags.reopen || n.flags.changeBinary || n.flags.noaccept)
  }

  lemma ReapSections(m: Master, forks: seq<int>)
    requires Possible(m, ReapAll(forks))
    ensures var n := Turned(m, ReapAll(forks)); SectionsDone(n) && (n.at == Asleep ==> Served(m, ReapAll(forks), n))
  {
    var gone := BinaryGone(m.y.t, m.y.stopping, m.binary);
    TestedSections(m.(y := Next(m.y, Reap(forks)), live := StillLive(m.y.t, m.y.stopping, forks),
                      binary := if gone then NO_BINARY else m.binary, noaccepting := m.noaccepting && !gone,
                      flags := m.flags.(reap := false, restart := m.flags.restart || (gone && m.noaccepting))));
  }

  lemma MessageSections(m: Master, signal: Signal, ds: seq<Delivery>)
    requires SectionsDone(m) && Possible(m, Message(signal, ds))
    ensures var n := Turned(m, Message(signal, ds));
            SectionsDone(n) && (n.at == Asleep ==> Served(m, Message(signal, ds), n))
  {
    var n1 := m.(y := Next(m.y, Send(signal, ds)),
                 flags := m.flags.(reap := m.flags.reap || Finds(m.y.t, signal, ds)));
    if m.at != Terminating && !m.flags.quit {
      ResumedSections(n1, m.at.next);
    }
  }

  lemma StartSections(m: Master, e: Event)
    requires SectionsDone(m) && Possible(m, e) && (e.Configured? || e.Restarted? || e.Fork? || e.Exec?)
    ensures SectionsDone(Turned(m, e)) && (Turned(m, e).at == Asleep ==> Served(m, e, Turned(m, e)))
  {
    match e
    case Configured(kinds) =>
      var why := if m.binary != NO_BINARY then Beside else Reload;
      BegunSections(m.(flags := m.flags.(reconfigure := false)), kinds, why);
    case Restarted(kinds) => BegunSections(m.(flags := m.flags.(restart := false)), kinds, Restart);
    case Fork(pid) => BegunSections(m.(y := Next(m.y, Spawn(m.at.kinds[0], pid))), m.at.kinds[1..], m.at.why);
    case Exec(pid) =>
      var y := Next(m.y, Spawn(Detached, pid));
      ResumedSections(m.(y := y, flags := m.flags.(changeBinary := false), binary := pid), 4);
  }

  lemma EventKeepsSections(m: Master, e: Event)
    requires SectionsDone(m) && Possible(m, e)
    ensures SectionsDone(Turned(m, e))
    ensures m.at != Asleep && Turned(m, e).at == Asleep ==> Served(m, e, Turned(m, e))
  {
    match e
    case Arrive(r) =>
    case Child(pid, fatal) =>
    case Wake => TestedSections(m);
    case ReapAll(forks) => ReapSections(m, forks);
    case Message(signal, ds) => MessageSections(m, signal, ds);
    case HoldBack =>
    case NotConfigured =>
    case _ => StartSections(m, e);
  }

  lemma {:induction false} RunKeepsSections(run: seq<Master>, events: seq<Event>, k: nat)
    requires IsRun(run, events) && k <= |events|
    ensures SectionsDone(run[k])
  {
    if k == 0 {
    } else {
      RunKeepsSections(run, events, k - 1);
      assert Moves(run, events, k - 1);
      EventKeepsSections(run[k - 1], events[k - 1]);
    }
  }

  /**
   * The loop does not go back to sleep before it has done what it was asked for. A terminating
   * master has sent the signal to terminate or to kill, or held it back; a quitting one has told
   * its workers to shut down; and otherwise no request is left, unless the turn was cut short
   * by a configuration that failed, or by starts that are followed by nothing.
   */
  lemma SleepsServed(run: seq<Master>, events: seq<Event>, k: nat)
    requires IsRun(run, events) && k < |events| && run[k].at != Asleep && run[k + 1].at == Asleep
    ensures var f, g, e := run[k].flags, run[k + 1].flags, events[k];
            if f.terminate then e.HoldBack? || (e.Message? && (e.signal == Signal.Terminate || e.signal == Kill))
            else if f.quit then e.Message? && e.signal == Shutdown
            else
              || e.NotConfigured?
              || (e.Configured? && run[k].binary != NO_BINARY)
              || (e.Fork? && run[k].at.Starting? && (run[k].at.why == Startup || run[k].at.why == Beside))
              || !(g.reconfigure || g.restart || g.reopen || g.changeBinary || g.noaccept)
  {
    RunKeepsSections(run, events, k);
    assert Moves(run, events, k);
    EventKeepsSections(run[k], events[k]);
  }

  /** The new binary is what the last start of one answered, failed or not, until a reap gives up its slot. */
  lemma BinaryIs(m: Master, e: Event)
    requires Possible(m, e)
    ensures var n := Turned(m, e);
            if e.Exec? then n.binary == e.pid
            else if e.ReapAll? && (exists i :: 0 <= i < |m.y.t| && m.y.t[i].pid == m.binary && m.binary != NO_PID
                                               && m.y.t[i].exited
                                               && (!m.y.t[i].respawn || m.y.t[i].exiting || m.y.stopping))
            then n.binary == 0
            else n.binary == m.binary
  {
    if e.ReapAll? {
      assert BinaryGone(m.y.t, m.y.stopping, m.binary) <==>
             exists i :: 0 <= i < |m.y.t| && Goes(m.y.t[i], m.y.stopping) && m.y.t[i].pid == m.binary;
    }
  }

  /** Accepting is on again when the new binary has gone or workers have been started next to it, and only then. */
  lemma AcceptingIs(m: Master, e: Event)
    requires Possible(m, e) && m.noaccepting
    ensures var n := Turned(m, e);
            !n.noaccepting ==>
              || (e.ReapAll? && n.binary == 0) || (e.Configured? && m.binary != 0)
              || (e.Fork? && m.at.why == Beside)
    ensures e.Fork? && m.at.why == Beside && Turned(m, e).at == Asleep ==> !Turned(m, e).noaccepting
    ensures e.Configured? && m.binary != 0 && Turned(m, e).at == Asleep ==> !Turned(m, e).noaccepting
  {
  }

  /** When the new binary goes, a master that stopped accepting is to start its workers again. */
  lemma BinaryGoneRestarts(m: Master, forks: seq<int>, i: nat)
    requires Possible(m, ReapAll(forks)) && i < |m.y.t| && m.y.t[i].pid == m.binary != NO_PID
    requires m.y.t[i].exited && (!m.y.t[i].respawn || m.y.t[i].exiting || m.y.stopping)
    ensures var n := Turned(m, ReapAll(forks));
            n.binary == 0 && (m.noaccepting ==> n.flags.restart) && (!m.flags.noaccept ==> !n.noaccepting)
  {
    assert BinaryGone(m.y.t, m.y.stopping, m.binary);
  }

  // ---- the reload as a part of a run -----------------------------------------------------------

  /** What holds of the loop's own variables at every moment. */
  ghost predicate Proper(m: Master) {
    && (m.y.stopping <==> m.flags.terminate || m.flags.quit)
    && (m.at == Exited ==> !m.live && m.y.stopping)
    && ProperStart(m)
  }

  ghost predicate ProperStart(m: Master) {
    m.at.Starting? ==>
      && m.at.kinds != [] && (if m.at.why == Reload then Just(m.at.kinds) else Plain(m.at.kinds))
      && (m.at.why == Startup ==> m.live) && (m.at.why == Beside ==> m.binary != NO_BINARY)
  }

  /** Between starting the new processes and the message to the old ones the new are marked as just started. */
  predicate Midway(at: Place) {
    (at.Starting? && at.why == Reload) || (at.Signalling? && at.next <= 1)
  }

  ghost predicate NoneJustStarted(t: seq<Slot>) {
    forall i :: 0 <= i < |t| && Taken(t[i]) ==> !t[i].justSpawn
  }

  ghost predicate JustStartedOk(m: Master) {
    && FlagOk(m.y.t)
    && (m.at.Signalling? && m.at.next <= 1 ==> m.at == Signalling(Shutdown, 1))
    && (!Midway(m.at) ==> NoneJustStarted(m.y.t))
  }

  lemma StoppingIsAsked(m: Master, e: Event)
    requires Possible(m, e)
    ensures var n := Turned(m, e);
            if e.Arrive? then
              n.y.stopping == (m.y.stopping || e.r.ToTerminate? || e.r.ToQuit?)
              && n.flags.terminate == (m.flags.terminate || e.r.ToTerminate?)
              && n.flags.quit == (m.flags.quit || e.r.ToQuit?)
            else n.y.stopping == m.y.stopping && n.flags.terminate == m.flags.terminate && n.flags.quit == m.flags.quit
  {
  }

  lemma EventKeepsProper(m: Master, e: Event)
    requires Proper(m) && Possible(m, e)
    ensures Proper(Turned(m, e))
  {
    StoppingIsAsked(m, e);
    if e.Fork? || e.Configured? || e.Restarted? {
      StartsAreProper(m, e);
    }
  }

  lemma StartsAreProper(m: Master, e: Event)
    requires Proper(m) && Possible(m, e) && (e.Fork? || e.Configured? || e.Restarted?)
    ensures ProperStart(Turned(m, e)) && Turned(m, e).at != Exited
  {
  }

  ghost predicate FlagOk(t: seq<Slot>) {
    forall i :: 0 <= i < |t| && Taken(t[i]) && t[i].justSpawn ==> !t[i].detached
  }

  /** What the steps do to the flags of just started processes. */
  lemma StepKeepsFlags(y: System, step: Step)
    requires Allowed(y, step) && FlagOk(y.t)
    ensures FlagOk(Next(y, step).t) && (step.Send? ==> NoneJustStarted(Next(y, step).t))
    ensures NoneJustStarted(y.t) && !(step.Spawn? && (step.kind.JustSpawn? || step.kind.JustRespawn?)) ==>
              NoneJustStarted(Next(y, step).t)
  {
  }

  lemma EventKeepsJustStarted(m: Master, e: Event)
    requires Proper(m) && JustStartedOk(m) && Possible(m, e)
    ensures JustStartedOk(Turned(m, e))
  {
    TurnedSystem(m, e);
    if Done(m, e).Some? {
      StepKeepsFlags(m.y, Done(m, e).value);
    }
  }

  lemma {:induction false} RunIsProper(run: seq<Master>, events: seq<Event>, k: nat)
    requires IsRun(run, events) && k <= |events|
    ensures Proper(run[k]) && JustStartedOk(run[k])
  {
    if k == 0 {
    } else {
      RunIsProper(run, events, k - 1);
      assert Moves(run, events, k - 1);
      EventKeepsProper(run[k - 1], events[k - 1]);
      EventKeepsJustStarted(run[k - 1], events[k - 1]);
    }
  }

  function PidOf(e: Event): int {
    if e.Fork? then e.pid else NO_PID
  }

  /** The starts of kinds with the answers of fork from event a on. */
  function StartsFrom(events: seq<Event>, a: nat, kinds: seq<Kind>): (s: seq<Start>)
    requires a + |kinds| <= |events|
    ensures |s| == |kinds|
  {
    seq(|kinds|, j requires 0 <= j < |kinds| => Start(kinds[j], PidOf(events[a + j])))
  }

  /** Moment a begins a reload with these kinds. */
  ghost predicate Reloads(run: seq<Master>, events: seq<Event>, a: nat, kinds: seq<Kind>) {
    && IsRun(run, events) && a < |events|
    && run[a].at == Reconfiguring && run[a].binary == NO_BINARY && events[a] == Configured(kinds)
  }

  lemma ReloadStartOne(m: Master, e: Event, kinds: seq<Kind>, n: nat)
    requires n < |kinds| && m.at == Starting(kinds[n..], Reload) && Possible(m, e)
    ensures e.Fork? && Turned(m, e).y.t == Spawned(m.y.t, kinds[n], e.pid)
    ensures Turned(m, e).at == if n + 1 < |kinds| then Starting(kinds[n + 1..], Reload) else Signalling(Shutdown, 1)
  {
    assert kinds[n..][1..] == kinds[n + 1..];
  }

  lemma {:induction false} ReloadStarts(run: seq<Master>, events: seq<Event>, a: nat, kinds: seq<Kind>, n: nat)
    requires Reloads(run, events, a, kinds) && n <= |kinds| && a + 1 + n <= |events|
    ensures HasStarted(run, events, a, kinds, n)
  {
    if n == 0 {
      assert Moves(run, events, a);
      assert kinds[0..] == kinds;
    } else {
      ReloadStarts(run, events, a, kinds, n - 1);
      assert Moves(run, events, a + n);
      StartedOneMore(run, events, a, kinds, n);
    }
  }

  lemma StartedOneMore(run: seq<Master>, events: seq<Event>, a: nat, kinds: seq<Kind>, n: nat)
    requires 0 < n <= |kinds| && a + 1 + n <= |events| && |run| == |events| + 1
    requires HasStarted(run, events, a, kinds, n - 1) && Moves(run, events, a + n)
    ensures HasStarted(run, events, a, kinds, n)
  {
    ReloadStartOne(run[a + n], events[a + n], kinds, n - 1);
    OneMoreStart(run[a].y.t, events, a + 1, kinds, n);
  }

  /** The reload begun at moment a has made its first n starts. */
  ghost predicate HasStarted(run: seq<Master>, events: seq<Event>, a: nat, kinds: seq<Kind>, n: nat)
    requires n <= |kinds| && a + 1 + n <= |events| && |run| == |events| + 1
  {
    var m := run[a + 1 + n];
    && m.at == (if n < |kinds| then Starting(kinds[n..], Reload) else Signalling(Shutdown, 1))
    && m.y.t == Started(run[a].y.t, StartsFrom(events, a + 1, kinds[..n]))
  }

  lemma OneMoreStart(t: seq<Slot>, events: seq<Event>, a: nat, kinds: seq<Kind>, n: nat)
    requires 0 < n <= |kinds| && a + n <= |events| && events[a + n - 1].Fork?
    ensures Started(t, StartsFrom(events, a, kinds[..n])) ==
            Spawned(Started(t, StartsFrom(events, a, kinds[..n - 1])), kinds[n - 1], events[a + n - 1].pid)
  {
    var starts := StartsFrom(events, a, kinds[..n]);
    StartedLast(t, starts);
    assert starts[..n - 1] == StartsFrom(events, a, kinds[..n - 1]);
    assert starts[n - 1] == Start(kinds[n - 1], PidOf(events[a + n - 1]));
  }

  /** After a reload in a run, the table is the one that the reload makes of the table before. */
  lemma AfterReload(run: seq<Master>, events: seq<Event>, a: nat, kinds: seq<Kind>)
    requires Reloads(run, events, a, kinds) && a + 1 + |kinds| < |events|
    ensures var b, t := a + 1 + |kinds|, Started(run[a].y.t, StartsFrom(events, a + 1, kinds));
            && events[b].Message? && |events[b].ds| == |t|
            && run[b + 1].y.t == Signalled(t, Shutdown, events[b].ds)
  {
    var n := |kinds|;
    ReloadStarts(run, events, a, kinds, n);
    assert kinds[..n] == kinds;
    assert Moves(run, events, a + 1 + n);
  }

  /**
   * Wherever in a run a reload begins, and its messages are all delivered: of the processes
   * from before exactly the ones that are not detached are told to exit, and the new ones are
   * neither signalled nor flagged any more.
   */
  lemma ReloadInRun(run: seq<Master>, events: seq<Event>, a: nat, kinds: seq<Kind>, i: nat)
    requires Reloads(run, events, a, kinds) && a + 1 + |kinds| < |events|
    requires var e := events[a + 1 + |kinds|];
             e.Message? && i < |e.ds| && forall k :: 0 <= k < |e.ds| ==> e.ds[k].ByChannel? || e.ds[k].ByKill?
    ensures var s, t := run[a].y.t, run[a + 2 + |kinds|].y.t;
            && i < |t|
            && if i < |s| && Taken(s[i]) then t[i] == s[i].(exiting := s[i].exiting || !s[i].detached)
               else Taken(t[i]) ==> !t[i].exiting && !t[i].justSpawn && !t[i].exited
  {
    RunIsProper(run, events, a);
    assert Moves(run, events, a);
    AfterReload(run, events, a, kinds);
    ReloadRetiresTheOld(run[a].y.t, StartsFrom(events, a + 1, kinds), events[a + 1 + |kinds|].ds, i);
  }

  /** What the message of a reload does to an old process that it reaches. */
  lemma ReloadMarks(run: seq<Master>, events: seq<Event>, a: nat, kinds: seq<Kind>, i: nat)
    requires Reloads(run, events, a, kinds) && a + 1 + |kinds| < |events|
    requires i < |run[a].y.t| && Worker(run[a].y.t[i])
    requires var e := events[a + 1 + |kinds|];
             e.Message? && i < |e.ds| ==> e.ds[i].ByChannel? || e.ds[i].ByKill?
    ensures var s, t := run[a].y.t, run[a + 2 + |kinds|].y.t;
            i < |t| && t[i] == s[i].(exiting := true)
  {
    RunIsProper(run, events, a);
    assert Moves(run, events, a);
    AfterReload(run, events, a, kinds);
    OldIsRetired(run[a].y.t, StartsFrom(events, a + 1, kinds), events[a + 1 + |kinds|].ds, i);
  }

  /**
   * A worker that was running when a reload began, and that its message reaches, is told to
   * exit and never started again, in every run in which each collection finds the right slot.
   */
  lemma ReloadedAreRetired(run: seq<Master>, events: seq<Event>, a: nat, kinds: seq<Kind>, i: nat, k: nat)
    requires Reloads(run, events, a, kinds) && a + 2 + |kinds| <= k <= |events| && AllFound(run, events, k)
    requires i < |run[a].y.t| && Worker(run[a].y.t[i])
    requires var e := events[a + 1 + |kinds|];
             e.Message? && i < |e.ds| ==> e.ds[i].ByChannel? || e.ds[i].ByKill?
    ensures StaysMarked(run, a + 2 + |kinds|, k, i, run[a].y.t[i].pid)
  {
    ReloadMarks(run, events, a, kinds, i);
    RetiredStaysRetired(run, events, a + 2 + |kinds|, k, i, run[a].y.t[i].pid);
  }

  // ---- when the master exits -------------------------------------------------------------------

  predicate Worker(s: Slot) {
    Running(s) && !s.detached
  }

  ghost predicate HasWorker(t: seq<Slot>) {
    exists i :: 0 <= i < |t| && Worker(t[i])
  }

  /** Without live there is no worker, except in the course of a reload or restart, which sets it. */
  ghost predicate Truthful(m: Master) {
    m.live || !HasWorker(m.y.t) || (m.at.Starting? && (m.at.why == Reload || m.at.why == Restart))
  }

  /** A worker is started next to a new binary while live is false. */
  predicate Unnoticed(m: Master, e: Event) {
    e.Fork? && e.pid != NO_PID && m.at.Starting? && m.at.why == Beside && m.binary != NO_BINARY && !m.live
  }

  lemma ReapIsTruthful(m: Master, forks: seq<int>)
    requires Possible(m, ReapAll(forks))
    ensures Truthful(Turned(m, ReapAll(forks)))
  {
    var z := Next(m.y, Reap(forks));
    if i :| 0 <= i < |z.t| && Worker(z.t[i]) {
      assert LiveSlot(m.y.t[i], m.y.stopping, forks[i]);
    }
  }

  /** No worker comes into being but by a start of one, or in a reap. */
  lemma WorkersComeFrom(m: Master, e: Event)
    requires Possible(m, e) && !e.ReapAll? && !e.Fork? && HasWorker(Turned(m, e).y.t)
    ensures HasWorker(m.y.t)
  {
    TurnedSystem(m, e);
    var z := Turned(m, e).y;
    var i :| 0 <= i < |z.t| && Worker(z.t[i]);
    assert i < |m.y.t| && Worker(m.y.t[i]);
  }

  lemma StartIsTruthful(m: Master, pid: int)
    requires Truthful(m) && Proper(m) && Possible(m, Fork(pid))
    ensures Truthful(Turned(m, Fork(pid))) <==> !Unnoticed(m, Fork(pid))
  {
    TurnedSystem(m, Fork(pid));
    var z := Turned(m, Fork(pid)).y;
    if pid != NO_PID {
      assert Worker(z.t[FirstFree(m.y.t)]);
    } else {
      assert z.t == m.y.t;
    }
  }

  /** That live tells the truth is kept by an event if and only if that starts no worker unnoticed. */
  lemma EventIsTruthful(m: Master, e: Event)
    requires Truthful(m) && Proper(m) && Possible(m, e)
    ensures Truthful(Turned(m, e)) <==> !Unnoticed(m, e)
  {
    if e.ReapAll? {
      ReapIsTruthful(m, e.forks);
    } else if e.Fork? {
      StartIsTruthful(m, e.pid);
    } else if HasWorker(Turned(m, e).y.t) {
      WorkersComeFrom(m, e);
    }
  }

  /** Since the last reap before moment k a worker was started unnoticed. */
  ghost predicate Hidden(run: seq<Master>, events: seq<Event>, k: nat)
    requires k <= |events| && |run| == |events| + 1
  {
    k > 0 && !events[k - 1].ReapAll? && (Unnoticed(run[k - 1], events[k - 1]) || Hidden(run, events, k - 1))
  }

  lemma {:induction false} TruthfulOrHidden(run: seq<Master>, events: seq<Event>, k: nat)
    requires IsRun(run, events) && k <= |events|
    ensures Truthful(run[k]) || Hidden(run, events, k)
  {
    if k == 0 {
    } else {
      var m, e := run[k - 1], events[k - 1];
      TruthfulOrHidden(run, events, k - 1);
      RunIsProper(run, events, k - 1);
      assert Moves(run, events, k - 1);
      if e.ReapAll? {
        ReapIsTruthful(m, e.forks);
      } else if Truthful(m) {
        EventIsTruthful(m, e);
      }
    }
  }

  /** A worker goes only by being collected or found gone, and then a reap is asked for. */
  lemma WorkerStays(m: Master, e: Event)
    requires Possible(m, e) && !e.ReapAll? && HasWorker(m.y.t)
    ensures HasWorker(Turned(m, e).y.t) || Turned(m, e).flags.reap
  {
    TurnedSystem(m, e);
    var i :| 0 <= i < |m.y.t| && Worker(m.y.t[i]);
    var z := Turned(m, e).y;
    if e.Fork? || e.Exec? {
      assert z.t[i] == m.y.t[i];
    } else if e.Message? {
      assert FoundGone(m.y.t[i], e.signal, e.ds[i]) || Worker(z.t[i]);
    } else if !e.Child? {
      assert z.t[i] == m.y.t[i];
    }
  }

  lemma {:induction false} HiddenShows(run: seq<Master>, events: seq<Event>, k: nat)
    requires IsRun(run, events) && k <= |events| && Hidden(run, events, k)
    ensures HasWorker(run[k].y.t) || run[k].flags.reap
  {
    var m, e := run[k - 1], events[k - 1];
    RunIsProper(run, events, k - 1);
    assert Moves(run, events, k - 1);
    if Unnoticed(m, e) {
      TurnedSystem(m, e);
      assert Worker(run[k].y.t[FirstFree(m.y.t)]);
    } else {
      HiddenShows(run, events, k - 1);
      if HasWorker(m.y.t) {
        WorkerStays(m, e);
      } else {
        assert run[k].flags.reap;
      }
    }
  }

  /** The exit test comes right after a reap, or after waking with no reap to do. */
  lemma ExitHasReaped(m: Master, e: Event)
    requires Possible(m, e) && Turned(m, e).at == Exited
    ensures e.ReapAll? || (e.Wake? && !Turned(m, e).flags.reap)
  {
  }

  /**
   * When the master exits, a worker is left running if and only if, since the last reap, one
   * was started next to a new binary while live was false.
   */
  lemma ExitLeavesWorkers(run: seq<Master>, events: seq<Event>)
    requires IsRun(run, events) && run[|events|].at == Exited
    ensures HasWorker(run[|events|].y.t) <==> Hidden(run, events, |events|)
  {
    var k := |events|;
    TruthfulOrHidden(run, events, k);
    RunIsProper(run, events, k);
    assert Moves(run, events, k - 1);
    ExitHasReaped(run[k - 1], events[k - 1]);
    if Hidden(run, events, k) {
      HiddenShows(run, events, k);
    }
  }

  /** Otherwise, and if each collection found the right slot, all children left are detached processes. */
  lemma ExitsAlone(run: seq<Master>, events: seq<Event>, p: int)
    requires IsRun(run, events) && run[|events|].at == Exited && AllFound(run, events, |events|)
    requires !Hidden(run, events, |events|) && p in run[|events|].y.children
    ensures var t := run[|events|].y.t; exists i :: 0 <= i < |t| && t[i].pid == p && Running(t[i]) && t[i].detached
  {
    var y := run[|events|].y;
    RunKeepsInv(run, events, |events|);
    ExitLeavesWorkers(run, events);
    assert Serves(y.t, p);
    var i :| 0 <= i < |y.t| && y.t[i].pid == p && Running(y.t[i]);
    assert !Worker(y.t[i]);
  }

  // ---- runs in which it goes wrong ----------------------------------------------------------------

  const CLEAR := Flags(false, false, false, false, false, false, false, false)

  /** The master asleep with this table and these children. */
  function Sleeping(t: seq<Slot>, children: set<int>, live: bool): Master {
    Master(System(t, children, false), live, NO_BINARY, false, CLEAR, Asleep)
  }

  function Last(run: seq<Master>): Master
    requires run != []
  {
    run[|run| - 1]
  }

  lemma Extend(run: seq<Master>, events: seq<Event>, e: Event) returns (longer: seq<Master>, more: seq<Event>)
    requires IsRun(run, events) && Possible(Last(run), e)
    ensures IsRun(longer, more) && longer == run + [Turned(Last(run), e)] && more == events + [e]
  {
    longer, more := run + [Turned(Last(run), e)], events + [e];
    assert longer[0] == run[0];
    forall k: nat | k < |more|
      ensures Moves(longer, more, k)
    {
      if k < |events| {
        assert Moves(run, events, k);
      }
    }
  }

  /** A request arrives, and the loop takes it up. */
  lemma Requested(run: seq<Master>, events: seq<Event>, r: Request) returns (longer: seq<Master>, more: seq<Event>)
    requires IsRun(run, events) && Last(run).at == Asleep && Last(run).flags == CLEAR && !Last(run).y.stopping
    requires !r.ToQuit? && !r.ToTerminate? && (r.ToChangeBinary? ==> Last(run).binary <= 0)
    ensures IsRun(longer, more) && |more| == |events| + 2 && run <= longer
    ensures Last(longer) == Resumed(Last(run).(flags := Raised(CLEAR, r)), 0)
  {
    longer, more := Extend(run, events, Arrive(r));
    longer, more := Extend(longer, more, Wake);
  }

  /** The loop sleeps with process 7 in slot 0. */
  lemma OneStarted() returns (run: seq<Master>, events: seq<Event>)
    ensures IsRun(run, events) && Last(run) == Sleeping([Fresh(Respawn, 7)], {7}, true) && |events| == 1
  {
    assert Plain([Respawn]) && [Respawn][1..] == [];
    run, events := [Initial([Respawn])], [];
    run, events := Extend(run, events, Fork(7));
    assert Spawned([], Respawn, 7) == [Fresh(Respawn, 7)];
  }

  /** It exits, and fork fails when it is to be started again. */
  lemma OneStale() returns (run: seq<Master>, events: seq<Event>)
    ensures IsRun(run, events) && |events| == 4
    ensures Last(run) == Sleeping([Fresh(Respawn, 7).(exited := true)], {}, false)
  {
    var s := Fresh(Respawn, 7);
    run, events := OneStarted();
    run, events := Extend(run, events, Child(7, false));
    assert Last(run).y.t == [s.(exited := true)];
    run, events := Extend(run, events, Wake);
    StaleReap(Last(run), s.(exited := true));
    run, events := Extend(run, events, ReapAll([NO_PID]));
  }

  lemma StaleReap(m: Master, s: Slot)
    requires m.at == Reaping && m.y == System([s], {}, false) && s == Fresh(Respawn, 7).(exited := true)
    requires m.binary == NO_BINARY && m.flags == CLEAR.(reap := true) && !m.noaccepting
    ensures Possible(m, ReapAll([NO_PID])) && Turned(m, ReapAll([NO_PID])) == Sleeping([s], {}, false)
  {
    assert Forked([s], false, [NO_PID]) == {};
    assert Reaped([s], false, [NO_PID]) == [s];
    assert !StillLive([s], false, [NO_PID]);
  }

  /** The old slot and the one that a reload has put process 7 into, both after the message of the reload. */
  function StaleAndNew(): seq<Slot> {
    [Fresh(Respawn, 7).(exited := true, exiting := true), Fresh(Respawn, 7)]
  }

  lemma OneConfigured() returns (run: seq<Master>, events: seq<Event>)
    ensures IsRun(run, events) && |events| == 7
    ensures Last(run) == Sleeping([Fresh(Respawn, 7).(exited := true)], {}, false)
                         .(at := Starting([JustRespawn], Reload))
  {
    run, events := OneStale();
    run, events := Requested(run, events, ToReconfigure);
    run, events := Extend(run, events, Configured([JustRespawn]));
  }

  lemma OneReloaded() returns (run: seq<Master>, events: seq<Event>)
    ensures IsRun(run, events) && |events| == 9 && Last(run) == Sleeping(StaleAndNew(), {7}, true)
  {
    var s := Fresh(Respawn, 7).(exited := true);
    run, events := OneConfigured();
    StaleStart(Last(run), s);
    run, events := Extend(run, events, Fork(7));
    var ds := [ByKill, ByKill];
    assert Signalled([s, Fresh(JustRespawn, 7)], Shutdown, ds) == StaleAndNew();
    run, events := Extend(run, events, Message(Shutdown, ds));
  }

  lemma StaleStart(m: Master, s: Slot)
    requires m.at == Starting([JustRespawn], Reload) && m.y == System([s], {}, false) && Taken(s)
    ensures Possible(m, Fork(7))
    ensures Turned(m, Fork(7)) ==
            m.(y := System([s, Fresh(JustRespawn, 7)], {7}, false), live := true, at := Signalling(Shutdown, 1))
  {
    assert [JustRespawn][1..] == [];
    assert FirstFree([s]) == 1;
    assert Spawned([s], JustRespawn, 7) == [s, Fresh(JustRespawn, 7)];
  }

  /**
   * A run in which a lookup by pid goes wrong: a respawn fails and leaves its pid behind, the
   * next fork, in a reload, answers that pid, and the exit of the new process is recorded in
   * the old slot.
   */
  lemma StalePidRun() returns (run: seq<Master>, events: seq<Event>)
    ensures IsRun(run, events) && |events| == 10
    ensures Inv(run[9].y) && !Inv(run[10].y)
  {
    run, events := OneReloaded();
    var before := Last(run);
    assert before.y.t[1].pid == 7;
    assert Serves(before.y.t, 7);
    assert SlotOf(before.y.t, 7) == 0;
    EventKeepsInv(before, Child(7, false));
    run, events := Extend(run, events, Child(7, false));
  }

  /** Both slots are told to exit. */
  lemma BothMarked() returns (run: seq<Master>, events: seq<Event>)
    ensures IsRun(run, events) && |events| == 12 && Inv(Last(run).y)
    ensures Last(run) == Sleeping(MarkedTwice(), {7}, true).(noaccepting := true)
  {
    run, events := OneReloaded();
    run, events := Requested(run, events, ToStopAccepting);
    var ds := [ByKill, ByChannel];
    assert Signalled(StaleAndNew(), Shutdown, ds) == MarkedTwice();
    run, events := Extend(run, events, Message(Shutdown, ds));
    assert Serves(Last(run).y.t, 7) by {
      assert Last(run).y.t[1].pid == 7;
    }
  }

  function MarkedTwice(): seq<Slot> {
    [Fresh(Respawn, 7).(exited := true, exiting := true), Fresh(Respawn, 7).(exiting := true)]
  }

  /** The exit of process 7 goes to the old slot, which the reap gives up; the other is left marked. */
  lemma LostCollection() returns (run: seq<Master>, events: seq<Event>)
    ensures IsRun(run, events) && |events| == 15
    ensures Inv(run[12].y) && run[12].y.t == MarkedTwice()
    ensures Last(run) == Sleeping([GivenUpSlot(), Fresh(Respawn, 7).(exiting := true)], {}, true).(noaccepting := true)
  {
    run, events := BothMarked();
    assert SlotOf(MarkedTwice(), 7) == 0;
    run, events := Extend(run, events, Child(7, false));
    assert Last(run).y.t == MarkedTwice();
    run, events := Extend(run, events, Wake);
    MarkedReap(Last(run));
    run, events := Extend(run, events, ReapAll([NO_PID, NO_PID]));
  }

  function GivenUpSlot(): Slot {
    Fresh(Respawn, 7).(pid := NO_PID, exited := true, exiting := true)
  }

  lemma MarkedReap(m: Master)
    requires m.at == Reaping && m.y == System(MarkedTwice(), {}, false) && m.binary == NO_BINARY && m.noaccepting
    requires m.flags == CLEAR.(reap := true)
    ensures Possible(m, ReapAll([NO_PID, NO_PID]))
    ensures Turned(m, ReapAll([NO_PID, NO_PID])) ==
            Sleeping([GivenUpSlot(), Fresh(Respawn, 7).(exiting := true)], {}, true).(noaccepting := true)
  {
    var t, forks := MarkedTwice(), [NO_PID, NO_PID];
    assert Forked(t, false, forks) == {};
    assert Reaped(t, false, forks) == [GivenUpSlot(), Fresh(Respawn, 7).(exiting := true)];
    assert LiveSlot(t[1], false, forks[1]);
  }

  /** A message to reopen the logs finds process 7 gone and takes the mark away. */
  lemma LostMessage() returns (run: seq<Master>, events: seq<Event>)
    ensures IsRun(run, events) && |events| == 18
    ensures Inv(run[12].y) && run[12].y.t == MarkedTwice()
    ensures Last(run) == Sleeping([GivenUpSlot(), Fresh(Respawn, 7).(exited := true)], {}, true)
                         .(noaccepting := true, flags := CLEAR.(reap := true))
  {
    var t, ds := [GivenUpSlot(), Fresh(Respawn, 7).(exiting := true)], [Failed, NoProcess];
    run, events := LostCollection();
    run, events := Requested(run, events, ToReopen);
    assert Signalled(t, Signal.Reopen, ds) == [GivenUpSlot(), Fresh(Respawn, 7).(exited := true)];
    assert FoundGone(t[1], Signal.Reopen, ds[1]);
    run, events := Extend(run, events, Message(Signal.Reopen, ds));
  }

  /**
   * A run in which a process told to exit is started again: with its pid in two slots its exit
   * is recorded in the other one, and then a message to reopen the logs finds it gone.
   */
  lemma LostMarkRun() returns (run: seq<Master>, events: seq<Event>)
    ensures IsRun(run, events) && |events| == 20
    ensures Inv(run[12].y) && Marked(run[12].y, 1, 7) && Running(run[12].y.t[1])
    ensures |run[20].y.t| == 2 && run[20].y.t[1] == Fresh(Respawn, 8)
  {
    run, events := LostMessage();
    run, events := Extend(run, events, Wake);
    var t := [GivenUpSlot(), Fresh(Respawn, 7).(exited := true)];
    assert Reaped(t, false, [NO_PID, 8]) == [GivenUpSlot(), Fresh(Respawn, 8)];
    run, events := Extend(run, events, ReapAll([NO_PID, 8]));
  }

  /** A new binary runs as process 8. */
  lemma BinaryStarted() returns (run: seq<Master>, events: seq<Event>)
    ensures IsRun(run, events) && |events| == 4
    ensures Last(run) == Sleeping([Fresh(Respawn, 7), Fresh(Detached, 8)], {7, 8}, true).(binary := 8)
  {
    run, events := OneStarted();
    run, events := Requested(run, events, ToChangeBinary);
    assert Spawned([Fresh(Respawn, 7)], Detached, 8) == [Fresh(Respawn, 7), Fresh(Detached, 8)];
    run, events := Extend(run, events, Exec(8));
  }

  /** Worker 7 has been told to exit. */
  lemma WorkerStopped() returns (run: seq<Master>, events: seq<Event>)
    ensures IsRun(run, events) && |events| == 7
    ensures Last(run) == Sleeping([Fresh(Respawn, 7).(exiting := true), Fresh(Detached, 8)], {7, 8}, true)
                         .(binary := 8, noaccepting := true)
  {
    run, events := BinaryStarted();
    run, events := Requested(run, events, ToStopAccepting);
    var t, ds := [Fresh(Respawn, 7), Fresh(Detached, 8)], [ByChannel, Failed];
    assert Signalled(t, Shutdown, ds) == [Fresh(Respawn, 7).(exiting := true), Fresh(Detached, 8)];
    assert !Finds(t, Shutdown, ds);
    run, events := Extend(run, events, Message(Shutdown, ds));
  }

  /** The worker exits, and the reap finds nobody to wait for. */
  lemma WorkerGone() returns (run: seq<Master>, events: seq<Event>)
    ensures IsRun(run, events) && |events| == 10
    ensures Last(run) == Sleeping([GivenUpSlot(), Fresh(Detached, 8)], {8}, false).(binary := 8, noaccepting := true)
  {
    run, events := WorkerStopped();
    run, events := Extend(run, events, Child(7, false));
    var t := [Fresh(Respawn, 7).(exiting := true, exited := true), Fresh(Detached, 8)];
    assert Last(run).y == System(t, {8}, false);
    run, events := Extend(run, events, Wake);
    assert Forked(t, false, [NO_PID, NO_PID]) == {};
    assert Reaped(t, false, [NO_PID, NO_PID]) == [GivenUpSlot(), Fresh(Detached, 8)];
    assert !BinaryGone(t, false, 8) && !StillLive(t, false, [NO_PID, NO_PID]);
    run, events := Extend(run, events, ReapAll([NO_PID, NO_PID]));
  }

  /** A reload next to the new binary starts worker 9, and live stays false. */
  lemma BesideStarted() returns (run: seq<Master>, events: seq<Event>)
    ensures IsRun(run, events) && |events| == 14
    ensures Last(run) == Sleeping([Fresh(Respawn, 9), Fresh(Detached, 8)], {8, 9}, false).(binary := 8)
  {
    run, events := WorkerGone();
    run, events := Requested(run, events, ToReconfigure);
    run, events := Extend(run, events, Configured([Respawn]));
    BesideStart(Last(run));
    run, events := Extend(run, events, Fork(9));
  }

  lemma BesideStart(m: Master)
    requires m == Sleeping([GivenUpSlot(), Fresh(Detached, 8)], {8}, false)
                  .(binary := 8, noaccepting := true, at := Starting([Respawn], Beside))
    ensures Possible(m, Fork(9))
    ensures Turned(m, Fork(9)) == Sleeping([Fresh(Respawn, 9), Fresh(Detached, 8)], {8, 9}, false).(binary := 8)
  {
    assert [Respawn][1..] == [];
    assert Spawned([GivenUpSlot(), Fresh(Detached, 8)], Respawn, 9) == [Fresh(Respawn, 9), Fresh(Detached, 8)];
  }

  /**
   * A run in which the master exits while a worker runs: the old worker has gone, live is
   * false, a reload next to the new binary starts worker 9, and then the master is told to quit.
   */
  lemma WorkerLeftRun() returns (run: seq<Master>, events: seq<Event>)
    ensures IsRun(run, events) && |events| == 16 && run[16].at == Exited
    ensures |run[16].y.t| == 2 && run[16].y.t[0] == Fresh(Respawn, 9) && 9 in run[16].y.children
  {
    run, events := BesideStarted();
    run, events := Extend(run, events, Arrive(ToQuit));
    run, events := Extend(run, events, Wake);
  }
}
