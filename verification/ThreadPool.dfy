/**
 * The thread pool (ngx_thread_pool.c) as atomic steps between lock acquisitions: one main
 * thread that posts, drains and destroys, and workers that take, run and hand back tasks.
 * Lock and condition variable calls succeed; waking one sleeper may wake more, and a
 * sleeper may wake unasked.
 */
module ThreadPool {

  /** Where a worker is: about to lock, in cond-wait, in a handler, or gone. */
  datatype Worker<T> = Idle | Parked(signalled: bool) | Running(task: T) | Exited

  /** The main thread: in its event loop, in ngx_thread_pool_destroy, or back from it. */
  datatype Main = Serving | Destroying(round: nat, posted: bool) | Destroyed | GaveUp

  datatype Machine<T> = Machine(
    maxQueue: int, exitTask: T,
    queue: seq<T>, waiting: int, workers: seq<Worker<T>>,
    done: seq<T>, drained: seq<T>, active: set<T>, lock: bool, main: Main,
    // what has happened so far
    posted: seq<T>, taken: seq<T>, finished: seq<T>, completed: seq<T>)

  datatype Step<T> =
    | Post(task: T, woken: set<nat>)
    | Lock(w: nat)
    | Wake(w: nat)
    | Finish(w: nat)
    | Drain
    | Complete
    | Destroy
    | PostExit(woken: set<nat>)
    | Exit(w: nat)
    | NextRound

  // ---- counting workers ----------------------------------------------------------

  datatype Kind = Waiting | Asleep | Woken | Ready | Busy | Gone

  predicate Is<T>(k: Kind, w: Worker<T>) {
    match k
    case Waiting => w.Parked?
    case Asleep => w.Parked? && !w.signalled
    case Woken => w.Parked? && w.signalled
    case Ready => w.Idle?
    case Busy => w.Running?
    case Gone => w.Exited?
  }

  function One<T>(k: Kind, w: Worker<T>): nat {
    if Is(k, w) then 1 else 0
  }

  function Tally<T>(ws: seq<Worker<T>>, k: Kind): nat {
    if ws == [] then 0 else One(k, ws[0]) + Tally(ws[1..], k)
  }

  predicate Holds<T(==)>(w: Worker<T>, t: T) {
    w.Running? && w.task == t
  }

  /** How many workers have the task in their hands. */
  function InHands<T(==)>(ws: seq<Worker<T>>, t: T): nat {
    if ws == [] then 0 else (if Holds(ws[0], t) then 1 else 0) + InHands(ws[1..], t)
  }

  /** The workers after some sleepers are signalled. */
  function Signal<T>(ws: seq<Worker<T>>, woken: set<nat>): (r: seq<Worker<T>>)
    ensures |r| == |ws|
    ensures forall i :: 0 <= i < |ws| ==> r[i] == if i in woken && Is(Asleep, ws[i]) then Parked(true) else ws[i]
  {
    seq(|ws|, i requires 0 <= i < |ws| => if i in woken && Is(Asleep, ws[i]) then Parked(true) else ws[i])
  }

  // ---- the steps -------------------------------------------------------------------

  /** pthread_cond_signal wakes at least one sleeper, if there is any. */
  ghost predicate Wakes<T>(ws: seq<Worker<T>>, woken: set<nat>) {
    (exists i: nat :: i < |ws| && Is(Asleep, ws[i])) ==> exists i: nat :: i < |ws| && Is(Asleep, ws[i]) && i in woken
  }

  ghost predicate Allowed<T(!new)>(m: Machine<T>, s: Step<T>) {
    match s
    case Post(t, woken) => m.main == Serving && t != m.exitTask && Wakes(m.workers, woken)
    case Lock(w) => w < |m.workers| && m.workers[w].Idle?
    case Wake(w) => w < |m.workers| && m.workers[w].Parked?
    case Finish(w) => w < |m.workers| && m.workers[w].Running? && m.workers[w].task != m.exitTask
    case Drain => m.main == Serving && m.drained == []
    case Complete => m.main == Serving && m.drained != []
    case Destroy => m.main == Serving && m.drained == []
    case PostExit(woken) =>
      && m.main.Destroying? && !m.main.posted && m.main.round < |m.workers| && Wakes(m.workers, woken)
    case Exit(w) => w < |m.workers| && m.workers[w].Running? && m.workers[w].task == m.exitTask
    case NextRound =>
      && m.main.Destroying?
      && if m.main.posted then !m.lock else m.main.round == |m.workers|
  }

  /** When ngx_thread_task_post answers NGX_OK. */
  predicate Accepts<T(==)>(m: Machine<T>, t: T) {
    t !in m.active && m.waiting < m.maxQueue
  }

  /** ngx_thread_task_post: nothing changes when it answers NGX_ERROR. */
  function Posted<T(==)>(m: Machine<T>, t: T, woken: set<nat>): Machine<T> {
    if !Accepts(m, t) then m
    else m.(active := m.active + {t}, workers := Signal(m.workers, woken),
            queue := m.queue + [t], waiting := m.waiting + 1, posted := m.posted + [t])
  }

  /** The loop around cond-wait in ngx_thread_pool_cycle: sleep (again), or take the first task. */
  function TakeOrPark<T>(m: Machine<T>, w: nat): Machine<T>
    requires w < |m.workers|
  {
    if m.queue == [] then m.(workers := m.workers[w := Parked(false)])
    else m.(workers := m.workers[w := Running(m.queue[0])], queue := m.queue[1..], taken := m.taken + [m.queue[0]])
  }

  ghost function Next<T(!new)>(m: Machine<T>, s: Step<T>): Machine<T>
    requires Allowed(m, s)
  {
    match s
    case Post(t, woken) => Posted(m, t, woken)
    case Lock(w) => TakeOrPark(m.(waiting := m.waiting - 1), w)
    case Wake(w) => TakeOrPark(m, w)
    case Finish(w) =>
      var t := m.workers[w].task;
      m.(workers := m.workers[w := Idle], done := m.done + [t], finished := m.finished + [t])
    case Drain => m.(drained := m.done, done := [])
    case Complete =>
      m.(drained := m.drained[1..], active := m.active - {m.drained[0]}, completed := m.completed + [m.drained[0]])
    case Destroy => m.(main := Destroying(0, false))
    case PostExit(woken) =>
      if !Accepts(m, m.exitTask) then m.(main := GaveUp, lock := true)
      else Posted(m, m.exitTask, woken).(main := m.main.(posted := true), lock := true)
    case Exit(w) => m.(workers := m.workers[w := Exited], lock := false)
    case NextRound =>
      if m.main.posted then m.(main := Destroying(m.main.round + 1, false), active := m.active - {m.exitTask})
      else m.(main := Destroyed)
  }

  /** The state after ngx_thread_pool_init. */
  function Start<T>(threads: nat, maxQueue: int, exitTask: T): Machine<T> {
    Machine(maxQueue, exitTask, [], 0, seq(threads, _ => Idle), [], [], {}, false, Serving, [], [], [], [])
  }

  // ---- the invariant ---------------------------------------------------------------

  /** In how many places the task is: queued, in a worker's hands, done, or drained. */
  ghost function Places<T>(m: Machine<T>, t: T): nat {
    multiset(m.queue)[t] + InHands(m.workers, t) + multiset(m.done)[t] + multiset(m.drained)[t]
  }

  /** The counter is exact while the lock is free. */
  ghost predicate Counter<T>(m: Machine<T>) {
    m.waiting == |m.queue| - Tally(m.workers, Waiting) && m.waiting <= m.maxQueue
  }

  /** As long as somebody sleeps unsignalled, every queued task has a signalled worker. */
  ghost predicate NoLostWakeup<T>(m: Machine<T>) {
    Tally(m.workers, Asleep) > 0 ==> |m.queue| <= Tally(m.workers, Woken)
  }

  /** A task is active exactly while it is held, in one place. */
  ghost predicate Placed<T(!new)>(m: Machine<T>) {
    forall t {:trigger Places(m, t)} :: t != m.exitTask ==> Places(m, t) == if t in m.active then 1 else 0
  }

  ghost predicate Fifo<T>(m: Machine<T>) {
    && m.posted == m.taken + m.queue
    && m.finished == m.completed + m.drained + m.done
  }

  /** Each time a task was taken is a worker that has it, a time it finished, or a worker that exited on it. */
  ghost function Spent<T>(m: Machine<T>, t: T): nat {
    multiset(m.finished)[t] + InHands(m.workers, t) + if t == m.exitTask then Tally(m.workers, Gone) else 0
  }

  ghost predicate Conserved<T(!new)>(m: Machine<T>) {
    forall t {:trigger Spent(m, t)} :: multiset(m.taken)[t] == Spent(m, t)
  }

  /** The exit task is the last thing posted. */
  ghost predicate Last<T>(m: Machine<T>) {
    m.queue != [] ==> m.queue[|m.queue| - 1] == m.exitTask
  }

  ghost predicate Shutdown<T>(m: Machine<T>) {
    && (m.main != Serving ==> m.drained == [])
    && m.exitTask !in m.finished
    && match m.main
       case Serving => Places(m, m.exitTask) == 0 && Tally(m.workers, Gone) == 0 && m.exitTask !in m.active
       case Destroying(round, false) =>
         && Places(m, m.exitTask) == 0 && Tally(m.workers, Gone) == round && m.exitTask !in m.active
         && (round > 0 ==> m.queue == [])
       case Destroying(round, true) =>
         && Places(m, m.exitTask) == (if m.lock then 1 else 0)
         && Tally(m.workers, Gone) == (if m.lock then round else round + 1)
         && m.exitTask in m.active && round < |m.workers| && Last(m)
       case Destroyed => Tally(m.workers, Gone) == |m.workers| && m.queue == [] && Places(m, m.exitTask) == 0
       case GaveUp => Places(m, m.exitTask) == 0
  }

  ghost predicate Inv<T(!new)>(m: Machine<T>) {
    m.workers != [] && Counter(m) && NoLostWakeup(m) && Placed(m) && Fifo(m) && Conserved(m) && Shutdown(m)
  }

  // ---- counting lemmas ---------------------------------------------------------------

  lemma {:induction false} TallyUpdate<T>(ws: seq<Worker<T>>, i: nat, w: Worker<T>, k: Kind)
    requires i < |ws|
    ensures Tally(ws[i := w], k) == Tally(ws, k) - One(k, ws[i]) + One(k, w)
  {
    if i == 0 {
      assert ws[i := w][1..] == ws[1..];
    } else {
      TallyUpdate(ws[1..], i - 1, w, k);
      assert ws[i := w][1..] == ws[1..][i - 1 := w];
    }
  }

  lemma {:induction false} InHandsUpdate<T>(ws: seq<Worker<T>>, i: nat, w: Worker<T>, t: T)
    requires i < |ws|
    ensures InHands(ws[i := w], t) ==
            InHands(ws, t) - (if Holds(ws[i], t) then 1 else 0) + (if Holds(w, t) then 1 else 0)
  {
    if i == 0 {
      assert ws[i := w][1..] == ws[1..];
    } else {
      InHandsUpdate(ws[1..], i - 1, w, t);
      assert ws[i := w][1..] == ws[1..][i - 1 := w];
    }
  }

  /** A positive count has a witness. */
  lemma {:induction false} SomeWorker<T>(ws: seq<Worker<T>>, k: Kind) returns (i: nat)
    requires Tally(ws, k) > 0
    ensures i < |ws| && Is(k, ws[i])
  {
    if Is(k, ws[0]) {
      i := 0;
    } else {
      i := SomeWorker(ws[1..], k);
      i := i + 1;
    }
  }

  lemma {:induction false} TallySum<T>(ws: seq<Worker<T>>)
    ensures Tally(ws, Ready) + Tally(ws, Busy) + Tally(ws, Asleep) + Tally(ws, Woken) + Tally(ws, Gone) == |ws|
    ensures Tally(ws, Waiting) == Tally(ws, Asleep) + Tally(ws, Woken)
  {
    if ws == [] {
    } else {
      TallySum(ws[1..]);
    }
  }

  /** From ws to us some sleepers were signalled. */
  ghost predicate Roused<T>(ws: seq<Worker<T>>, us: seq<Worker<T>>) {
    && |us| == |ws|
    && forall i :: 0 <= i < |ws| ==> us[i] == ws[i] || (Is(Asleep, ws[i]) && us[i] == Parked(true))
  }

  lemma {:induction false} RousedTally<T>(ws: seq<Worker<T>>, us: seq<Worker<T>>)
    requires Roused(ws, us)
    ensures Tally(us, Waiting) == Tally(ws, Waiting) && Tally(us, Gone) == Tally(ws, Gone)
    ensures Tally(us, Ready) == Tally(ws, Ready) && Tally(us, Busy) == Tally(ws, Busy)
    ensures Tally(us, Woken) >= Tally(ws, Woken)
  {
    if ws == [] {
    } else {
      RousedTally(ws[1..], us[1..]);
    }
  }

  lemma {:induction false} RousedInHands<T>(ws: seq<Worker<T>>, us: seq<Worker<T>>, t: T)
    requires Roused(ws, us)
    ensures InHands(us, t) == InHands(ws, t)
  {
    if ws == [] {
    } else {
      RousedInHands(ws[1..], us[1..], t);
    }
  }

  lemma {:induction false} RousedMore<T>(ws: seq<Worker<T>>, us: seq<Worker<T>>, i: nat)
    requires Roused(ws, us) && i < |ws| && Is(Asleep, ws[i]) && Is(Woken, us[i])
    ensures Tally(us, Woken) > Tally(ws, Woken)
  {
    if i == 0 {
      RousedTally(ws[1..], us[1..]);
    } else {
      RousedMore(ws[1..], us[1..], i - 1);
    }
  }

  // ---- posting -------------------------------------------------------------------------

  lemma PostCounts<T(!new)>(m: Machine<T>, t: T, woken: set<nat>)
    requires Counter(m) && NoLostWakeup(m) && Fifo(m) && Accepts(m, t) && Wakes(m.workers, woken)
    ensures Counter(Posted(m, t, woken)) && NoLostWakeup(Posted(m, t, woken)) && Fifo(Posted(m, t, woken))
    ensures Tally(Posted(m, t, woken).workers, Gone) == Tally(m.workers, Gone)
  {
    var us := Signal(m.workers, woken);
    RousedTally(m.workers, us);
    TallySum(m.workers);
    TallySum(us);
    if Tally(us, Asleep) > 0 {
      var i := SomeWorker(m.workers, Asleep);
      var j: nat :| j < |m.workers| && Is(Asleep, m.workers[j]) && j in woken;
      RousedMore(m.workers, us, j);
    }
  }

  lemma PostPlaces<T>(m: Machine<T>, t: T, woken: set<nat>, u: T)
    requires Accepts(m, t)
    ensures Places(Posted(m, t, woken), u) == Places(m, u) + if u == t then 1 else 0
  {
    RousedInHands(m.workers, Signal(m.workers, woken), u);
  }

  lemma PostSpends<T>(m: Machine<T>, t: T, woken: set<nat>, u: T)
    ensures Spent(Posted(m, t, woken), u) == Spent(m, u)
  {
    RousedInHands(m.workers, Signal(m.workers, woken), u);
    RousedTally(m.workers, Signal(m.workers, woken));
  }

  /** What an accepted post keeps, whoever posts. */
  lemma PostKeeps<T(!new)>(m: Machine<T>, t: T, woken: set<nat>)
    requires Inv(m) && Accepts(m, t) && Wakes(m.workers, woken)
    ensures var n := Posted(m, t, woken);
            Counter(n) && NoLostWakeup(n) && Placed(n) && Fifo(n) && Conserved(n)
  {
    var n := Posted(m, t, woken);
    PostCounts(m, t, woken);
    forall u {:trigger Places(n, u)} | u != m.exitTask
      ensures Places(n, u) == if u in n.active then 1 else 0
    {
      PostPlaces(m, t, woken, u);
    }
    forall u {:trigger Spent(n, u)}
      ensures multiset(n.taken)[u] == Spent(n, u)
    {
      PostSpends(m, t, woken, u);
    }
  }

  /**
   * A post is accepted exactly when the task is not active and the queue is not full; then it is
   * the last in the queue, active and counted, and otherwise nothing happens.
   */
  lemma PostIsQueued<T(!new)>(m: Machine<T>, t: T, woken: set<nat>)
    requires Allowed(m, Post(t, woken))
    ensures var n := Next(m, Post(t, woken));
            if t in m.active || m.waiting >= m.maxQueue then n == m
            else
              && n.queue == m.queue + [t] && n.posted == m.posted + [t]
              && n.active == m.active + {t} && n.waiting == m.waiting + 1
              && n.done == m.done && n.drained == m.drained && n.taken == m.taken && n.completed == m.completed
  {
  }

  lemma PostKeepsInv<T(!new)>(m: Machine<T>, t: T, woken: set<nat>)
    requires Inv(m) && Allowed(m, Post(t, woken))
    ensures Inv(Next(m, Post(t, woken)))
  {
    if Accepts(m, t) {
      PostKeeps(m, t, woken);
      PostCounts(m, t, woken);
      PostPlaces(m, t, woken, m.exitTask);
    }
  }

  lemma PostExitKeepsInv<T(!new)>(m: Machine<T>, woken: set<nat>)
    requires Inv(m) && Allowed(m, PostExit(woken))
    ensures Inv(Next(m, PostExit(woken)))
  {
    var n := Next(m, PostExit(woken));
    if Accepts(m, m.exitTask) {
      PostKeeps(m, m.exitTask, woken);
      PostCounts(m, m.exitTask, woken);
      PostPlaces(m, m.exitTask, woken, m.exitTask);
      SameBooks(Posted(m, m.exitTask, woken), n);
    } else {
      SameBooks(m, n);
    }
  }

  /** Only the main thread's own state, or the lock, or the exit task's flag, is different. */
  lemma SameBooks<T(!new)>(m: Machine<T>, n: Machine<T>)
    requires Counter(m) && NoLostWakeup(m) && Placed(m) && Fifo(m) && Conserved(m)
    requires exists main, lock, active :: n == m.(main := main, lock := lock, active := active)
    requires m.active - {m.exitTask} == n.active - {m.exitTask}
    ensures Counter(n) && NoLostWakeup(n) && Placed(n) && Fifo(n) && Conserved(n)
    ensures Places(n, m.exitTask) == Places(m, m.exitTask)
  {
    forall u {:trigger Places(n, u)} | u != m.exitTask
      ensures Places(n, u) == if u in n.active then 1 else 0
    {
      assert Places(n, u) == Places(m, u);
      assert u in m.active <==> u in m.active - {m.exitTask};
      assert u in n.active <==> u in n.active - {m.exitTask};
    }
    forall u {:trigger Spent(n, u)}
      ensures multiset(n.taken)[u] == Spent(n, u)
    {
      assert Spent(n, u) == Spent(m, u);
    }
  }

  // ---- taking ----------------------------------------------------------------------------

  /** How taking a task or going to sleep moves the counts; before is the state with the counter already adjusted. */
  lemma TakeCounts<T(!new)>(m: Machine<T>, w: nat)
    requires w < |m.workers| && (m.workers[w].Idle? || m.workers[w].Parked?)
    requires Fifo(m) && NoLostWakeup(m)
    ensures var n := TakeOrPark(m, w);
            && |n.queue| - Tally(n.workers, Waiting) == |m.queue| - Tally(m.workers, Waiting) - One(Ready, m.workers[w])
            && Fifo(n) && NoLostWakeup(n) && Tally(n.workers, Gone) == Tally(m.workers, Gone)
  {
    var v := if m.queue == [] then Parked(false) else Running(m.queue[0]);
    TallyUpdate(m.workers, w, v, Waiting);
    TallyUpdate(m.workers, w, v, Asleep);
    TallyUpdate(m.workers, w, v, Woken);
    TallyUpdate(m.workers, w, v, Gone);
    if m.queue != [] {
      assert m.queue == [m.queue[0]] + m.queue[1..];
    }
  }

  lemma TakePlaces<T>(m: Machine<T>, w: nat, u: T)
    requires w < |m.workers| && (m.workers[w].Idle? || m.workers[w].Parked?)
    ensures Places(TakeOrPark(m, w), u) == Places(m, u)
  {
    var v := if m.queue == [] then Parked(false) else Running(m.queue[0]);
    InHandsUpdate(m.workers, w, v, u);
    if m.queue != [] {
      assert m.queue == [m.queue[0]] + m.queue[1..];
    }
  }

  lemma TakeSpends<T>(m: Machine<T>, w: nat, u: T)
    requires w < |m.workers| && (m.workers[w].Idle? || m.workers[w].Parked?)
    ensures var n := TakeOrPark(m, w);
            Spent(n, u) - multiset(n.taken)[u] == Spent(m, u) - multiset(m.taken)[u]
  {
    var v := if m.queue == [] then Parked(false) else Running(m.queue[0]);
    InHandsUpdate(m.workers, w, v, u);
    TallyUpdate(m.workers, w, v, Gone);
  }

  lemma TakePlaced<T(!new)>(m: Machine<T>, w: nat)
    requires w < |m.workers| && (m.workers[w].Idle? || m.workers[w].Parked?)
    requires Placed(m)
    ensures Placed(TakeOrPark(m, w))
  {
    var n := TakeOrPark(m, w);
    forall u {:trigger Places(n, u)} | u != m.exitTask
      ensures Places(n, u) == if u in n.active then 1 else 0
    {
      TakePlaces(m, w, u);
    }
  }

  lemma TakeConserves<T(!new)>(m: Machine<T>, w: nat)
    requires w < |m.workers| && (m.workers[w].Idle? || m.workers[w].Parked?)
    requires Conserved(m)
    ensures Conserved(TakeOrPark(m, w))
  {
    var n := TakeOrPark(m, w);
    forall u {:trigger Spent(n, u)}
      ensures multiset(n.taken)[u] == Spent(n, u)
    {
      TakeSpends(m, w, u);
      assert multiset(m.taken)[u] == Spent(m, u);
    }
  }

  lemma TakeKeepsInv<T(!new)>(m: Machine<T>, w: nat, waiting: int)
    requires Inv(m) && w < |m.workers| && (m.workers[w].Idle? || m.workers[w].Parked?)
    requires waiting == m.waiting - One(Ready, m.workers[w])
    ensures Inv(TakeOrPark(m.(waiting := waiting), w))
  {
    var n := m.(waiting := waiting);
    SameCounts(m, n);
    TakeCounts(n, w);
    TakePlaced(n, w);
    TakeConserves(n, w);
    TakePlaces(n, w, n.exitTask);
    assert Places(n, n.exitTask) == Places(m, m.exitTask);
  }

  lemma SameCounts<T(!new)>(m: Machine<T>, n: Machine<T>)
    requires Placed(m) && Conserved(m) && n == m.(waiting := n.waiting)
    ensures Placed(n) && Conserved(n)
  {
    forall u {:trigger Places(n, u)}
      ensures Places(n, u) == Places(m, u)
    {
    }
    forall u {:trigger Spent(n, u)}
      ensures Spent(n, u) == Spent(m, u)
    {
    }
  }

  // ---- handing back ------------------------------------------------------------------------

  lemma FinishPlaces<T(!new)>(m: Machine<T>, w: nat, u: T)
    requires Allowed(m, Finish(w))
    ensures var n := Next(m, Finish(w));
            && Places(n, u) == Places(m, u)
            && (multiset(m.taken)[u] == Spent(m, u) && Tally(n.workers, Gone) == Tally(m.workers, Gone) ==>
                  multiset(n.taken)[u] == Spent(n, u))
  {
    InHandsUpdate(m.workers, w, Idle, u);
  }

  lemma FinishKeepsInv<T(!new)>(m: Machine<T>, w: nat)
    requires Inv(m) && Allowed(m, Finish(w))
    ensures Inv(Next(m, Finish(w)))
  {
    var n := Next(m, Finish(w));
    FinishCounts(m, w);
    FinishPlaces(m, w, m.exitTask);
    forall u {:trigger Places(n, u)} | u != m.exitTask
      ensures Places(n, u) == if u in n.active then 1 else 0
    {
      FinishPlaces(m, w, u);
      assert Places(m, u) == if u in m.active then 1 else 0;
    }
    forall u {:trigger Spent(n, u)}
      ensures multiset(n.taken)[u] == Spent(n, u)
    {
      FinishPlaces(m, w, u);
      assert Spent(m, u) == multiset(m.taken)[u];
    }
  }

  lemma FinishCounts<T(!new)>(m: Machine<T>, w: nat)
    requires Counter(m) && NoLostWakeup(m) && Fifo(m) && Allowed(m, Finish(w))
    ensures var n := Next(m, Finish(w));
            Counter(n) && NoLostWakeup(n) && Fifo(n) && Tally(n.workers, Gone) == Tally(m.workers, Gone)
  {
    TallyUpdate(m.workers, w, Idle, Waiting);
    TallyUpdate(m.workers, w, Idle, Asleep);
    TallyUpdate(m.workers, w, Idle, Woken);
    TallyUpdate(m.workers, w, Idle, Gone);
  }

  lemma ExitCounts<T(!new)>(m: Machine<T>, w: nat)
    requires Counter(m) && NoLostWakeup(m) && Fifo(m) && Allowed(m, Exit(w))
    ensures var n := Next(m, Exit(w));
            Counter(n) && NoLostWakeup(n) && Fifo(n) && Tally(n.workers, Gone) == Tally(m.workers, Gone) + 1
  {
    TallyUpdate(m.workers, w, Exited, Waiting);
    TallyUpdate(m.workers, w, Exited, Asleep);
    TallyUpdate(m.workers, w, Exited, Woken);
    TallyUpdate(m.workers, w, Exited, Gone);
  }

  lemma {:induction false} HeldIsInHands<T>(ws: seq<Worker<T>>, w: nat, t: T)
    requires w < |ws| && Holds(ws[w], t)
    ensures InHands(ws, t) > 0
  {
    if w == 0 {
    } else {
      HeldIsInHands(ws[1..], w - 1, t);
    }
  }

  lemma LastIsQueued<T>(m: Machine<T>)
    requires Last(m)
    ensures m.queue != [] ==> multiset(m.queue)[m.exitTask] > 0
  {
    if m.queue != [] {
      assert m.queue[|m.queue| - 1] in multiset(m.queue);
    }
  }

  lemma ExitKeepsInv<T(!new)>(m: Machine<T>, w: nat)
    requires Inv(m) && Allowed(m, Exit(w))
    ensures Inv(Next(m, Exit(w)))
  {
    var n := Next(m, Exit(w));
    ExitCounts(m, w);
    HeldIsInHands(m.workers, w, m.exitTask);
    forall u {:trigger Places(n, u)}
      ensures Places(n, u) == Places(m, u) - if u == m.exitTask then 1 else 0
    {
      InHandsUpdate(m.workers, w, Exited, u);
    }
    forall u {:trigger Spent(n, u)}
      ensures multiset(n.taken)[u] == Spent(n, u)
    {
      InHandsUpdate(m.workers, w, Exited, u);
      assert Spent(m, u) == multiset(m.taken)[u];
    }
    LastIsQueued(m);
  }

  // ---- the main thread ------------------------------------------------------------------------

  lemma DrainKeepsInv<T(!new)>(m: Machine<T>)
    requires Inv(m) && Allowed(m, Drain)
    ensures Inv(Next(m, Drain))
  {
    var n := Next(m, Drain);
    forall u {:trigger Places(n, u)}
      ensures Places(n, u) == Places(m, u)
    {
    }
    forall u {:trigger Spent(n, u)}
      ensures multiset(n.taken)[u] == Spent(n, u)
    {
      assert Spent(n, u) == Spent(m, u);
    }
  }

  lemma CompletePlaces<T(!new)>(m: Machine<T>, u: T)
    requires Allowed(m, Complete)
    ensures Places(Next(m, Complete), u) == Places(m, u) - if u == m.drained[0] then 1 else 0
  {
    assert m.drained == [m.drained[0]] + m.drained[1..];
  }

  lemma CompleteBooks<T(!new)>(m: Machine<T>)
    requires Fifo(m) && Conserved(m) && Allowed(m, Complete)
    ensures Fifo(Next(m, Complete)) && Conserved(Next(m, Complete)) && m.drained[0] in m.finished
  {
    var n := Next(m, Complete);
    assert m.drained == [m.drained[0]] + n.drained;
    forall u {:trigger Spent(n, u)}
      ensures multiset(n.taken)[u] == Spent(n, u)
    {
      assert Spent(n, u) == Spent(m, u);
    }
  }

  lemma CompletePlaced<T(!new)>(m: Machine<T>)
    requires Placed(m) && Allowed(m, Complete)
    ensures Placed(Next(m, Complete))
  {
    var n := Next(m, Complete);
    forall u {:trigger Places(n, u)} | u != m.exitTask
      ensures Places(n, u) == if u in n.active then 1 else 0
    {
      CompletePlaces(m, u);
    }
  }

  lemma CompleteKeepsInv<T(!new)>(m: Machine<T>)
    requires Inv(m) && Allowed(m, Complete)
    ensures Inv(Next(m, Complete))
  {
    CompleteBooks(m);
    CompletePlaced(m);
    CompletePlaces(m, m.exitTask);
  }

  lemma MainKeepsInv<T(!new)>(m: Machine<T>, s: Step<T>)
    requires Inv(m) && Allowed(m, s) && (s.Destroy? || s.NextRound?)
    ensures Inv(Next(m, s))
  {
    var n := Next(m, s);
    SameBooks(m, n);
  }

  lemma StepKeepsInv<T(!new)>(m: Machine<T>, s: Step<T>)
    requires Inv(m) && Allowed(m, s)
    ensures Inv(Next(m, s))
  {
    match s
    case Post(t, woken) => PostKeepsInv(m, t, woken);
    case Lock(w) => TakeKeepsInv(m, w, m.waiting - 1);
    case Wake(w) =>
      assert m.(waiting := m.waiting) == m;
      TakeKeepsInv(m, w, m.waiting);
    case Finish(w) => FinishKeepsInv(m, w);
    case Drain => DrainKeepsInv(m);
    case Complete => CompleteKeepsInv(m);
    case Destroy => MainKeepsInv(m, s);
    case PostExit(woken) => PostExitKeepsInv(m, woken);
    case Exit(w) => ExitKeepsInv(m, w);
    case NextRound => MainKeepsInv(m, s);
  }

  // ---- whole runs ---------------------------------------------------------------------------------

  ghost predicate Goes<T(!new)>(m: Machine<T>, s: Step<T>, n: Machine<T>) {
    Allowed(m, s) && n == Next(m, s)
  }

  ghost predicate IsRun<T(!new)>(run: seq<Machine<T>>, steps: seq<Step<T>>, threads: nat) {
    && |run| == |steps| + 1 && threads > 0 && run[0].maxQueue >= 0
    && run[0] == Start(threads, run[0].maxQueue, run[0].exitTask)
    && forall i :: 0 <= i < |steps| ==> Goes(run[i], steps[i], run[i + 1])
  }

  lemma NextKeepsSize<T(!new)>(m: Machine<T>, s: Step<T>)
    requires Allowed(m, s)
    ensures var n := Next(m, s); |n.workers| == |m.workers| && n.exitTask == m.exitTask
  {
  }

  lemma {:induction false} AllIdle<T>(ws: seq<Worker<T>>, t: T)
    requires forall i :: 0 <= i < |ws| ==> ws[i].Idle?
    ensures InHands(ws, t) == 0 && Tally(ws, Waiting) == 0 && Tally(ws, Asleep) == 0 && Tally(ws, Gone) == 0
  {
    if ws == [] {
    } else {
      AllIdle(ws[1..], t);
    }
  }

  lemma StartInv<T(!new)>(threads: nat, maxQueue: int, exitTask: T)
    requires threads > 0 && maxQueue >= 0
    ensures Inv(Start(threads, maxQueue, exitTask))
  {
    var m := Start(threads, maxQueue, exitTask);
    forall u
      ensures Places(m, u) == 0 && Spent(m, u) == 0
    {
      AllIdle(m.workers, u);
    }
    AllIdle(m.workers, exitTask);
    assert Places(m, exitTask) == 0;
  }

  lemma {:induction false} RunKeepsInv<T(!new)>(run: seq<Machine<T>>, steps: seq<Step<T>>, threads: nat, i: nat)
    requires IsRun(run, steps, threads) && i <= |steps|
    ensures Inv(run[i]) && |run[i].workers| == threads && run[i].exitTask == run[0].exitTask
  {
    if i == 0 {
      StartInv(threads, run[0].maxQueue, run[0].exitTask);
    } else {
      RunKeepsInv(run, steps, threads, i - 1);
      assert Goes(run[i - 1], steps[i - 1], run[i]);
      StepKeepsInv(run[i - 1], steps[i - 1]);
      NextKeepsSize(run[i - 1], steps[i - 1]);
    }
  }

  /**
   * At every moment of every run the counter is the queue length minus the workers in
   * cond-wait, which bounds it and the queue.
   */
  lemma CounterIsExact<T(!new)>(run: seq<Machine<T>>, steps: seq<Step<T>>, threads: nat, i: nat)
    requires IsRun(run, steps, threads) && i <= |steps|
    ensures var m := run[i];
            && m.waiting == |m.queue| - Tally(m.workers, Waiting)
            && -1 * threads <= m.waiting <= m.maxQueue && |m.queue| <= m.maxQueue + threads
  {
    RunKeepsInv(run, steps, threads, i);
    TallySum(run[i].workers);
  }

  /**
   * No wake-up is lost: while a task is queued and some worker has not exited, some worker
   * is about to take a task, is running one, or is signalled; and a worker left asleep
   * without a signal means that every queued task has a signalled worker of its own.
   */
  lemma NoWakeupIsLost<T(!new)>(run: seq<Machine<T>>, steps: seq<Step<T>>, threads: nat, i: nat)
    requires IsRun(run, steps, threads) && i <= |steps|
    ensures var m := run[i];
            && (Tally(m.workers, Asleep) == 0 || |m.queue| <= Tally(m.workers, Woken))
            && (m.queue != [] && Tally(m.workers, Gone) < threads ==>
                  Tally(m.workers, Ready) + Tally(m.workers, Busy) + Tally(m.workers, Woken) > 0)
  {
    RunKeepsInv(run, steps, threads, i);
    TallySum(run[i].workers);
  }

  /** An ordinary task is active exactly while it is in one, and only one, place. */
  lemma ActiveIsInOnePlace<T(!new)>(run: seq<Machine<T>>, steps: seq<Step<T>>, threads: nat, i: nat, t: T)
    requires IsRun(run, steps, threads) && i <= |steps| && t != run[0].exitTask
    ensures Places(run[i], t) == if t in run[i].active then 1 else 0
  {
    RunKeepsInv(run, steps, threads, i);
  }

  /**
   * Tasks are taken in the order in which they were posted, tasks are completed in the order
   * in which their handlers finished, and every accepted post of a task is accounted for
   * once: queued, running, done, drained or completed.
   */
  lemma PostsAreConserved<T(!new)>(run: seq<Machine<T>>, steps: seq<Step<T>>, threads: nat, i: nat, t: T)
    requires IsRun(run, steps, threads) && i <= |steps| && t != run[0].exitTask
    ensures var m := run[i];
            && m.taken <= m.posted && m.completed <= m.finished
            && multiset(m.posted)[t] == Places(m, t) + multiset(m.completed)[t]
  {
    RunKeepsInv(run, steps, threads, i);
    var m := run[i];
    assert multiset(m.taken)[t] == Spent(m, t);
  }

  /**
   * When ngx_thread_pool_destroy has come back with every post accepted, all workers have
   * exited, each on an exit task of its own, and everything posted before has been run and
   * put on the done list.
   */
  lemma DestroyStopsEveryWorker<T(!new)>(run: seq<Machine<T>>, steps: seq<Step<T>>, threads: nat, i: nat)
    requires IsRun(run, steps, threads) && i <= |steps| && run[i].main == Destroyed
    ensures var m := run[i];
            && |m.workers| == threads && (forall w :: 0 <= w < threads ==> m.workers[w] == Exited)
            && m.queue == [] && multiset(m.taken)[m.exitTask] == threads
            && forall t :: t != m.exitTask ==> multiset(m.posted)[t] == multiset(m.finished)[t]
  {
    RunKeepsInv(run, steps, threads, i);
    var m := run[i];
    AllGone(m.workers, m.exitTask);
    assert multiset(m.taken)[m.exitTask] == Spent(m, m.exitTask);
    assert m.posted == m.taken;
    forall t | t != m.exitTask
      ensures multiset(m.posted)[t] == multiset(m.finished)[t]
    {
      AllGone(m.workers, t);
      assert multiset(m.taken)[t] == Spent(m, t);
    }
  }

  lemma {:induction false} AllGone<T>(ws: seq<Worker<T>>, t: T)
    requires Tally(ws, Gone) == |ws|
    ensures InHands(ws, t) == 0 && forall i :: 0 <= i < |ws| ==> ws[i] == Exited
  {
    if ws == [] {
    } else {
      TallySum(ws[1..]);
      AllGone(ws[1..], t);
    }
  }

  // ---- work comes to an end ------------------------------------------------------------------------

  /** The steps that get work done: no new posts, no sleeper waking up to nothing. */
  ghost predicate Works<T>(m: Machine<T>, s: Step<T>) {
    && (s.Lock? || s.Wake? || s.Finish? || s.Drain? || s.Complete?)
    && (s.Wake? && m.queue == [] ==> s.w < |m.workers| && Is(Woken, m.workers[s.w]))
    && (s.Drain? ==> m.done != [])
  }

  ghost function WorkLeft<T>(m: Machine<T>): nat {
    5 * |m.queue| + 4 * Tally(m.workers, Busy) + 2 * |m.done| + |m.drained|
    + Tally(m.workers, Ready) + Tally(m.workers, Woken)
  }

  lemma WorkShrinks<T(!new)>(m: Machine<T>, s: Step<T>)
    requires Allowed(m, s) && Works(m, s)
    ensures WorkLeft(Next(m, s)) < WorkLeft(m)
  {
    if s.Lock? || s.Wake? || s.Finish? {
      var v := Next(m, s).workers[s.w];
      assert Next(m, s).workers == m.workers[s.w := v];
      TallyUpdate(m.workers, s.w, v, Busy);
      TallyUpdate(m.workers, s.w, v, Ready);
      TallyUpdate(m.workers, s.w, v, Woken);
    }
  }

  /** Every list is empty and every worker sleeps. */
  ghost predicate AtRest<T>(m: Machine<T>) {
    m.queue == [] && m.done == [] && m.drained == [] && Tally(m.workers, Asleep) == |m.workers|
  }

  /** While the pool serves and is not at rest, some step gets work done. */
  lemma SomeoneWorks<T(!new)>(m: Machine<T>) returns (s: Step<T>)
    requires Inv(m) && m.main == Serving && !AtRest(m)
    ensures Allowed(m, s) && Works(m, s)
  {
    TallySum(m.workers);
    if m.drained != [] {
      s := Complete;
    } else if m.done != [] {
      s := Drain;
    } else if Tally(m.workers, Ready) > 0 {
      var w := SomeWorker(m.workers, Ready);
      s := Lock(w);
    } else if Tally(m.workers, Woken) > 0 {
      var w := SomeWorker(m.workers, Woken);
      s := Wake(w);
    } else {
      var w := SomeWorker(m.workers, Busy);
      NoExitTask(m, w);
      s := Finish(w);
    }
  }

  lemma NoExitTask<T(!new)>(m: Machine<T>, w: nat)
    requires Inv(m) && m.main == Serving && w < |m.workers| && m.workers[w].Running?
    ensures m.workers[w].task != m.exitTask
  {
    assert Places(m, m.exitTask) == 0;
    if Holds(m.workers[w], m.exitTask) {
      HeldIsInHands(m.workers, w, m.exitTask);
    }
  }

  /** At rest, each accepted post has been completed once. */
  lemma RestMeansCompleted<T(!new)>(m: Machine<T>, t: T)
    requires Inv(m) && m.main == Serving && AtRest(m)
    ensures multiset(m.posted)[t] == multiset(m.completed)[t]
  {
    TallySum(m.workers);
    NobodyBusy(m.workers, t);
    assert multiset(m.taken)[t] == Spent(m, t);
  }

  lemma {:induction false} NobodyBusy<T>(ws: seq<Worker<T>>, t: T)
    requires Tally(ws, Busy) == 0
    ensures InHands(ws, t) == 0
  {
    if ws == [] {
    } else {
      NobodyBusy(ws[1..], t);
    }
  }

  /** Without new posts the work comes to an end: a run of n such steps used up n units of work. */
  lemma {:induction false} WorkEnds<T(!new)>(run: seq<Machine<T>>, steps: seq<Step<T>>)
    requires |run| == |steps| + 1
    requires forall i :: 0 <= i < |steps| ==> Goes(run[i], steps[i], run[i + 1]) && Works(run[i], steps[i])
    ensures |steps| <= WorkLeft(run[0])
  {
    if steps == [] {
    } else {
      assert Goes(run[0], steps[0], run[1]);
      WorkShrinks(run[0], steps[0]);
      forall i | 0 <= i < |steps[1..]|
        ensures Goes(run[1..][i], steps[1..][i], run[1..][i + 1]) && Works(run[1..][i], steps[1..][i])
      {
        assert Goes(run[i + 1], steps[i + 1], run[i + 2]);
      }
      WorkEnds(run[1..], steps[1..]);
    }
  }

  // ---- destruction comes to an end -----------------------------------------------------------------

  /** A sleeper wakes unasked, finds nothing and sleeps again. */
  ghost predicate Idles<T>(m: Machine<T>, s: Step<T>) {
    s.Wake? && m.queue == [] && s.w < |m.workers| && Is(Asleep, m.workers[s.w])
  }

  /** What k rounds can cost: each posts one task and may wake every one of n workers. */
  ghost function Rounds(n: nat, k: int): nat
    decreases k
  {
    if k <= 0 then 0 else Rounds(n, k - 1) + n + 8
  }

  ghost function DestroyLeft<T>(m: Machine<T>): nat {
    WorkLeft(m) +
    match m.main
    case Destroying(round, false) => Rounds(|m.workers|, |m.workers| - round) + 1
    case Destroying(round, true) => Rounds(|m.workers|, |m.workers| - (round + 1)) + 2
    case _ => 0
  }

  lemma ExitTaskCosts<T(!new)>(m: Machine<T>, woken: set<nat>)
    requires Accepts(m, m.exitTask)
    ensures WorkLeft(Posted(m, m.exitTask, woken)) <= WorkLeft(m) + 5 + |m.workers|
  {
    var us := Signal(m.workers, woken);
    RousedTally(m.workers, us);
    TallySum(us);
  }

  lemma ExitShrinks<T(!new)>(m: Machine<T>, w: nat)
    requires Allowed(m, Exit(w))
    ensures WorkLeft(Next(m, Exit(w))) < WorkLeft(m)
  {
    TallyUpdate(m.workers, w, Exited, Busy);
    TallyUpdate(m.workers, w, Exited, Ready);
    TallyUpdate(m.workers, w, Exited, Woken);
  }

  /** Whatever happens during destruction brings it nearer to its end, or is a sleeper that wakes to nothing. */
  lemma DestroyShrinks<T(!new)>(m: Machine<T>, s: Step<T>)
    requires Inv(m) && m.main.Destroying? && Allowed(m, s)
    ensures if Idles(m, s) then Next(m, s) == m else DestroyLeft(Next(m, s)) < DestroyLeft(m)
  {
    if s.PostExit? {
      if Accepts(m, m.exitTask) {
        ExitTaskCosts(m, s.woken);
      }
    } else if s.Exit? {
      ExitShrinks(m, s.w);
    } else if !s.NextRound? && !Idles(m, s) {
      WorkShrinks(m, s);
    } else if Idles(m, s) {
      assert m.workers[s.w := Parked(false)] == m.workers;
    }
  }

  lemma RoundInRange<T(!new)>(m: Machine<T>)
    requires Inv(m) && m.main.Destroying?
    ensures m.main.round <= |m.workers|
  {
    TallySum(m.workers);
  }

  /** As long as the main thread is in ngx_thread_pool_destroy, it or some worker can go on. */
  lemma DestroyGoesOn<T(!new)>(m: Machine<T>) returns (s: Step<T>)
    requires Inv(m) && m.main.Destroying?
    ensures Allowed(m, s) && !Idles(m, s)
  {
    RoundInRange(m);
    if m.main.posted && m.lock {
      s := WorkerGoesOn(m);
    } else if m.main.posted || m.main.round == |m.workers| {
      s := NextRound;
    } else {
      s := PostExit(set i: nat | i < |m.workers| && Is(Asleep, m.workers[i]));
    }
  }

  /** While the exit task is out, some worker can take a task or has one. */
  lemma WorkerGoesOn<T(!new)>(m: Machine<T>) returns (s: Step<T>)
    requires Inv(m) && m.main.Destroying? && m.main.posted && m.lock
    ensures Allowed(m, s) && !Idles(m, s)
  {
    TallySum(m.workers);
    if Tally(m.workers, Busy) > 0 {
      var w := SomeWorker(m.workers, Busy);
      s := if m.workers[w].task == m.exitTask then Exit(w) else Finish(w);
    } else if Tally(m.workers, Ready) > 0 {
      var w := SomeWorker(m.workers, Ready);
      s := Lock(w);
    } else {
      ExitTaskIsQueued(m);
      var w := SomeWorker(m.workers, Woken);
      s := Wake(w);
    }
  }

  lemma ExitTaskIsQueued<T(!new)>(m: Machine<T>)
    requires Inv(m) && m.main.Destroying? && m.main.posted && m.lock && Tally(m.workers, Busy) == 0
    ensures m.queue != []
  {
    NobodyBusy(m.workers, m.exitTask);
    assert m.exitTask in m.done ==> m.exitTask in m.finished;
    assert Places(m, m.exitTask) == 1;
  }

  /** Steps of destruction one after the other, without those of sleepers that wake to nothing. */
  ghost predicate Destroys<T(!new)>(run: seq<Machine<T>>, steps: seq<Step<T>>) {
    && |run| == |steps| + 1
    && forall i :: 0 <= i < |steps| ==>
         run[i].main.Destroying? && Goes(run[i], steps[i], run[i + 1]) && !Idles(run[i], steps[i])
  }

  lemma {:induction false} DestroyIsBounded<T(!new)>(run: seq<Machine<T>>, steps: seq<Step<T>>)
    requires Destroys(run, steps) && Inv(run[0])
    ensures |steps| <= DestroyLeft(run[0]) && Inv(run[|steps|])
  {
    if steps == [] {
    } else {
      assert Goes(run[0], steps[0], run[1]);
      DestroyShrinks(run[0], steps[0]);
      StepKeepsInv(run[0], steps[0]);
      forall i | 0 <= i < |steps[1..]|
        ensures run[1..][i].main.Destroying? && Goes(run[1..][i], steps[1..][i], run[1..][i + 1])
        ensures !Idles(run[1..][i], steps[1..][i])
      {
        assert Goes(run[i + 1], steps[i + 1], run[i + 2]);
      }
      DestroyIsBounded(run[1..], steps[1..]);
    }
  }

  /** An exit task is refused exactly when the queue is full, which can only be in the first round. */
  lemma GivesUpWhenFull<T(!new)>(m: Machine<T>, woken: set<nat>)
    requires Inv(m) && Allowed(m, PostExit(woken))
    ensures Next(m, PostExit(woken)).main == GaveUp <==> m.waiting >= m.maxQueue
    ensures m.waiting >= m.maxQueue > 0 ==> m.main.round == 0
  {
  }

  /**
   * Destruction comes to an end: its steps are bounded, and can be continued as long as the
   * main thread has not come back. It comes back with every worker stopped (see
   * DestroyStopsEveryWorker), unless the queue was full when an exit task was to be posted.
   */
  lemma DestroyEnds<T(!new)>(run: seq<Machine<T>>, steps: seq<Step<T>>)
    requires Destroys(run, steps) && Inv(run[0]) && run[0].main.Destroying?
    ensures |steps| <= DestroyLeft(run[0])
    ensures var m := run[|steps|];
            if m.main.Destroying? then exists s :: Allowed(m, s) && !Idles(m, s)
            else m.main == Destroyed
                 || (m.main == GaveUp && steps != [] && Refused(run[|steps| - 1], steps[|steps| - 1]))
  {
    DestroyIsBounded(run, steps);
    var m := run[|steps|];
    if m.main.Destroying? {
      var s := DestroyGoesOn(m);
    } else {
      var k := |steps| - 1;
      assert Goes(run[k], steps[k], m);
      DestroyIsBounded(run[..k + 1], steps[..k]);
      if steps[k].PostExit? {
        GivesUpWhenFull(run[k], steps[k].woken);
      }
    }
  }

  /** The queue is full for an exit task. */
  ghost predicate Refused<T>(m: Machine<T>, s: Step<T>) {
    && s.PostExit? && m.waiting >= m.maxQueue
    && (m.maxQueue > 0 ==> m.main.Destroying? && m.main.round == 0)
  }
}
