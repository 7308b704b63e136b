/**
 * The pool's data as it is mutated (ngx_thread_pool.c): task objects on intrusive lists with
 * a tail pointer, the counter and the active flags. Each method is one critical section and
 * is proved to be the step of ThreadPool that it is named after.
 */
module TaskPool {
  import opened ThreadPool

  class Task {
    var next: Task?
    var id: nat
    var active: bool
    var complete: bool
    ghost const address: nat

    constructor (ghost address: nat)
      ensures next == null && !active && !complete && this.address == address
    {
      next, id, active, complete := null, 0, false, false;
      this.address := address;
    }
  }

  ghost function Addresses(s: seq<Task>): seq<nat> {
    seq(|s|, i requires 0 <= i < |s| => s[i].address)
  }

  function After(s: seq<Task>, i: nat): Task? {
    if i + 1 < |s| then s[i + 1] else null
  }

  /** s is a chain of next pointers that ends with null. */
  ghost predicate Linked(s: seq<Task>)
    reads s
  {
    forall i: nat {:trigger After(s, i)} :: i < |s| ==> s[i].next == After(s, i)
  }

  lemma LinkedTail(s: seq<Task>)
    requires Linked(s) && s != []
    ensures Linked(s[1..]) && s[0].next == Head(s[1..])
  {
    assert s[0].next == After(s, 0);
    forall i: nat | i < |s[1..]|
      ensures s[1..][i].next == After(s[1..], i)
    {
      assert s[i + 1].next == After(s, i + 1);
    }
  }

  function Head(s: seq<Task>): Task? {
    if s == [] then null else s[0]
  }

  /** ngx_thread_pool_queue_t; last is null while the tail pointer is the address of first. */
  class TaskQueue {
    var first: Task?
    var last: Task?
    ghost var items: seq<Task>

    ghost predicate Valid()
      reads this, items
    {
      Linked(items) && first == Head(items) && last == if items == [] then null else items[|items| - 1]
    }

    constructor ()
      ensures Valid() && items == []
    {
      first, last, items := null, null, [];
    }

    /** The task goes behind the last one. */
    method Push(task: Task)
      requires Valid() && task !in items && task.next == null
      modifies this, items`next
      ensures Valid() && items == old(items) + [task]
    {
      ghost var was := items;
      if last == null {
        first := task;
      } else {
        last.next := task;
      }
      last := task;
      items := items + [task];
      forall i: nat | i < |items|
        ensures items[i].next == After(items, i)
      {
        assert i < |was| ==> old(was[i].next) == After(was, i);
        assert was != [] ==> old(was[|was| - 1].next) == After(was, |was| - 1);
      }
    }

    method Pop() returns (task: Task)
      requires Valid() && items != []
      modifies this
      ensures Valid() && old(items) == [task] + items
    {
      LinkedTail(items);
      task := first;
      first := task.next;
      if first == null {
        last := null;
      }
      items := items[1..];
    }

    method TakeAll() returns (task: Task?)
      requires Valid()
      modifies this
      ensures Valid() && items == [] && task == Head(old(items))
    {
      task := first;
      first := null;
      last := null;
      items := [];
    }
  }

  /** The lists of the machine share no task. */
  lemma ListsApart<T(!new)>(m: Machine<T>, t: T)
    requires Inv(m)
    ensures t in m.queue ==> t !in m.done && t !in m.drained
    ensures t in m.done ==> t !in m.drained
    ensures t !in m.active || InHands(m.workers, t) > 0 ==> t !in m.queue && t !in m.done && t !in m.drained
  {
    assert t != m.exitTask ==> Places(m, t) == if t in m.active then 1 else 0;
    assert Places(m, m.exitTask) <= 1;
  }

  lemma Addressed(s: seq<Task>, t: Task)
    ensures t in s ==> t.address in Addresses(s)
  {
    if t in s {
      var i :| 0 <= i < |s| && s[i] == t;
      assert Addresses(s)[i] == t.address;
    }
  }

  class Pool {
    const maxQueue: int
    const queue: TaskQueue
    const done: TaskQueue
    const exitTask: Task
    var waiting: int
    /** What ngx_thread_pool_destroy spins on. */
    var lock: bool
    var taskId: nat
    /** The loop variable of ngx_thread_pool_handler, and the chain behind it. */
    var current: Task?
    ghost var chain: seq<Task>
    /** The tasks in use, which their addresses tell apart, and the machine that they make up. */
    ghost var tasks: set<Task>
    ghost var free: nat
    ghost var m: Machine<nat>

    ghost predicate Lists()
      reads this, queue, queue.items, done, done.items, chain
    {
      && queue != done && queue.Valid() && done.Valid()
      && Linked(chain) && current == Head(chain)
    }

    ghost predicate Abstracts()
      reads this, queue, done
    {
      && Addresses(queue.items) == m.queue && Addresses(done.items) == m.done && Addresses(chain) == m.drained
      && waiting == m.waiting && maxQueue == m.maxQueue && exitTask.address == m.exitTask && lock == m.lock
    }

    ghost predicate Known()
      reads this, queue, done
    {
      && exitTask in tasks
      && (forall t :: t in queue.items ==> t in tasks)
      && (forall t :: t in done.items ==> t in tasks)
      && (forall t :: t in chain ==> t in tasks)
      && (forall t :: t in tasks ==> t.address < free) && (forall a :: a in m.active ==> a < free)
      && (forall t, u :: t in tasks && u in tasks && t.address == u.address ==> t == u)
    }

    ghost predicate Flags()
      reads this, tasks
    {
      forall t :: t in tasks ==> t.active == (t.address in m.active)
    }

    /** The data are what the machine says. */
    ghost predicate Represents()
      reads this, queue, queue.items, done, done.items, chain, tasks
    {
      Lists() && Abstracts() && Known() && Flags()
    }

    ghost predicate Valid()
      reads this, queue, queue.items, done, done.items, chain, tasks
    {
      Represents() && Inv(m)
    }

    constructor (threads: nat, maxQueue: int)
      requires threads > 0 && maxQueue >= 0
      ensures Valid() && m == Start(threads, maxQueue, exitTask.address)
    {
      this.maxQueue := maxQueue;
      queue := new TaskQueue();
      done := new TaskQueue();
      var exit := new Task(0);
      exitTask := exit;
      waiting, lock, taskId, current := 0, false, 0, null;
      chain, tasks, free := [], {exit}, 1;
      new;
      m := Start(threads, maxQueue, 0);
      StartInv(threads, maxQueue, m.exitTask);
      assert Inv(m);
    }

    /** ngx_thread_task_alloc */
    method Alloc() returns (task: Task)
      requires Valid()
      modifies `tasks, `free
      ensures Valid() && m == old(m) && fresh(task) && tasks == old(tasks) + {task}
      ensures task.address !in m.active
    {
      task := new Task(free);
      Register(task);
    }

    ghost method Register(task: Task)
      requires Represents() && task.address == free && !task.active
      modifies `tasks, `free
      ensures Represents() && tasks == old(tasks) + {task} && task.address !in m.active
    {
      tasks := tasks + {task};
      free := free + 1;
    }

    // ---- the lists are apart ----------------------------------------------------

    /** The task is on no list. */
    ghost predicate Off(t: Task)
      reads this, queue, done
    {
      t !in queue.items && t !in done.items && t !in chain
    }

    /** The lists share no task. */
    ghost predicate Apart()
      reads this, queue, done
    {
      && (forall t :: t in queue.items ==> t !in done.items && t !in chain)
      && (forall t :: t in done.items ==> t !in chain)
    }

    /** A task that is not active, or is in a worker's hands, is on no list. */
    lemma OnNoList(t: Task)
      requires Abstracts() && Inv(m)
      requires t.address !in m.active || InHands(m.workers, t.address) > 0
      ensures Off(t)
    {
      ListsApart(m, t.address);
      Addressed(queue.items, t);
      Addressed(done.items, t);
      Addressed(chain, t);
    }

    lemma ReadyToPost(t: Task)
      requires Valid()
      ensures Accepts(m, t.address) ==> Apart() && Off(t)
    {
      if Accepts(m, t.address) {
        OnNoList(t);
        NoShare();
      }
    }

    lemma NoShare()
      requires Abstracts() && Inv(m)
      ensures Apart()
    {
      forall t | t in queue.items || t in done.items
        ensures t in queue.items ==> t !in done.items && t !in chain
        ensures t in done.items ==> t !in chain
      {
        ListsApart(m, t.address);
        Addressed(queue.items, t);
        Addressed(done.items, t);
        Addressed(chain, t);
      }
    }

    /** A chain none of whose tasks changed is still a chain. */
    twostate lemma SameChain(new s: seq<Task>)
      requires old(allocated(s)) && (forall t :: t in s ==> t.next == old(t.next))
      requires old(Linked(s))
      ensures Linked(s)
    {
      forall i: nat | i < |s|
        ensures s[i].next == After(s, i)
      {
        assert old(s[i].next) == After(s, i);
      }
    }

    // ---- the critical sections ---------------------------------------------------

    /** The list work of ngx_thread_task_post. */
    method Enqueue(task: Task)
      requires Lists() && Apart() && Off(task)
      modifies this`waiting, this`taskId, queue, queue.items`next, task`next, task`id, task`active
      ensures Lists() && queue.items == old(queue.items) + [task]
      ensures waiting == old(waiting) + 1 && task.active && task.id == old(taskId) && taskId == old(taskId) + 1
    {
      task.active := true;
      task.id := taskId;
      taskId := taskId + 1;
      task.next := null;
      SameChain(queue.items);
      queue.Push(task);
      waiting := waiting + 1;
      SameChain(done.items);
      SameChain(chain);
    }

    /** What an accepted post changes. */
    method Accept(task: Task, ghost woken: set<nat>)
      requires Represents() && Apart() && Off(task) && task in tasks && Accepts(m, task.address)
      modifies this`waiting, this`taskId, this`m, queue, queue.items`next, task`next, task`id, task`active
      ensures Represents() && m == Posted(old(m), task.address, woken)
      ensures task.id == old(taskId) && taskId == old(taskId) + 1
      ensures queue.items == old(queue.items) + [task] && task.active && waiting == old(waiting) + 1
    {
      ghost var was := Addresses(queue.items);
      Enqueue(task);
      assert Addresses(queue.items) == was + [task.address];
      m := Posted(m, task.address, woken);
    }

    /** ngx_thread_task_post; false is NGX_ERROR. */
    method PostTask(task: Task, ghost woken: set<nat>) returns (ok: bool)
      requires Represents() && task in tasks && (Accepts(m, task.address) ==> Apart() && Off(task))
      modifies this`waiting, this`taskId, this`m, queue, queue.items`next, task`next, task`id, task`active
      ensures ok == Accepts(old(m), task.address)
      ensures Represents() && m == Posted(old(m), task.address, woken)
      ensures ok ==> queue.items == old(queue.items) + [task] && task.active && waiting == old(waiting) + 1
      ensures if ok then task.id == old(taskId) && taskId == old(taskId) + 1 else taskId == old(taskId)
    {
      if task.active {
        return false;
      }
      if waiting >= maxQueue {
        return false;
      }
      Accept(task, woken);
      return true;
    }

    /** A post from the event loop. */
    method Post(task: Task, ghost woken: set<nat>) returns (ok: bool)
      requires Valid() && task in tasks && Allowed(m, ThreadPool.Post(task.address, woken))
      modifies this`waiting, this`taskId, this`m, queue, queue.items`next, task`next, task`id, task`active
      ensures Valid() && m == Next(old(m), ThreadPool.Post(task.address, woken))
      ensures ok == (!old(task.active) && old(waiting) < maxQueue)
      ensures ok ==> queue.items == old(queue.items) + [task] && task.active && waiting == old(waiting) + 1
      ensures if ok then task.id == old(taskId) && taskId == old(taskId) + 1 else taskId == old(taskId)
    {
      PostKeepsInv(m, task.address, woken);
      ReadyToPost(task);
      ok := PostTask(task, woken);
    }

    /** The loop around cond-wait for worker w, the lock being held: null means that it sleeps. */
    method TakeFirst(ghost w: nat) returns (task: Task?)
      requires Represents() && w < |m.workers|
      modifies this`m, queue
      ensures Represents() && m == TakeOrPark(old(m), w)
      ensures task == null <==> old(m).queue == []
      ensures task != null ==> task in tasks && m.workers[w] == Running(task.address)
    {
      if queue.first == null {
        assert queue.items == [];
        m := TakeOrPark(m, w);
        return null;
      }
      var t := queue.Pop();
      task := t;
      m := TakeOrPark(m, w);
    }

    /** A worker comes for its next task. */
    method LockAndTake(ghost w: nat) returns (task: Task?)
      requires Valid() && Allowed(m, Lock(w))
      modifies this`m, this`waiting, queue
      ensures Valid() && m == Next(old(m), Lock(w)) && (task == null <==> old(m).queue == [])
      ensures task != null ==> task in tasks && m.workers[w] == Running(task.address)
    {
      StepKeepsInv(m, Lock(w));
      CountDown();
      task := TakeFirst(w);
      assert m == Next(old(m), Lock(w));
    }

    method CountDown()
      requires Represents()
      modifies this`m, this`waiting
      ensures Represents() && m == old(m).(waiting := old(m).waiting - 1)
    {
      waiting := waiting - 1;
      m := m.(waiting := m.waiting - 1);
    }

    /** A worker comes out of cond-wait. */
    method WakeAndTake(ghost w: nat) returns (task: Task?)
      requires Valid() && Allowed(m, Wake(w))
      modifies this`m, queue
      ensures Valid() && m == Next(old(m), Wake(w)) && (task == null <==> old(m).queue == [])
      ensures task != null ==> task in tasks && m.workers[w] == Running(task.address)
    {
      StepKeepsInv(m, Wake(w));
      task := TakeFirst(w);
    }

    /** A worker puts the task that it has run on the done list. */
    method HandBack(ghost w: nat, task: Task)
      requires Valid() && Allowed(m, Finish(w)) && task in tasks && m.workers[w] == Running(task.address)
      modifies this`m, done, done.items`next, task`next
      ensures Valid() && m == Next(old(m), Finish(w))
    {
      StepKeepsInv(m, Finish(w));
      HeldIsInHands(m.workers, w, task.address);
      OnNoList(task);
      NoShare();
      PutBack(w, task);
    }

    method PutBack(ghost w: nat, task: Task)
      requires Represents() && Apart() && Off(task) && task in tasks
      requires Allowed(m, Finish(w)) && m.workers[w] == Running(task.address)
      modifies this`m, done, done.items`next, task`next
      ensures Represents() && m == Next(old(m), Finish(w))
    {
      ghost var was := Addresses(done.items);
      AppendDone(task);
      assert Addresses(done.items) == was + [task.address];
      m := Next(m, Finish(w));
    }

    method AppendDone(task: Task)
      requires Lists() && Apart() && Off(task)
      modifies done, done.items`next, task`next
      ensures Lists() && done.items == old(done.items) + [task]
    {
      task.next := null;
      SameChain(done.items);
      done.Push(task);
      SameChain(queue.items);
      SameChain(chain);
    }

    /** ngx_thread_pool_handler takes the whole done list. */
    method DrainDone()
      requires Valid() && Allowed(m, Drain)
      modifies this`m, this`current, this`chain, done
      ensures Valid() && m == Next(old(m), Drain)
    {
      StepKeepsInv(m, Drain);
      chain := done.items;
      current := done.TakeAll();
      m := Next(m, Drain);
    }

    /** One turn of its loop: the task whose event handler is to be called. */
    method CompleteNext() returns (task: Task)
      requires Valid() && Allowed(m, Complete)
      modifies this`m, this`current, this`chain, chain`active, chain`complete
      ensures Valid() && m == Next(old(m), Complete)
      ensures task.address == old(m).drained[0] && !task.active && task.complete
    {
      StepKeepsInv(m, Complete);
      task := CompleteHead();
    }

    method CompleteHead() returns (task: Task)
      requires Represents() && Allowed(m, Complete)
      modifies this`m, this`current, this`chain, chain`active, chain`complete
      ensures Represents() && m == Next(old(m), Complete)
      ensures task.address == old(m).drained[0] && !task.active && task.complete
    {
      task := Advance();
      m := Next(m, Complete);
    }

    method Advance() returns (task: Task)
      requires Lists() && Known() && Flags() && chain != []
      modifies this`current, this`chain, chain`active, chain`complete
      ensures Lists() && task in tasks && old(chain) == [task] + chain
      ensures Addresses(chain) == Addresses(old(chain))[1..]
      ensures !task.active && task.complete
      ensures forall t :: t in tasks && t.address != task.address ==> t.active == (t.address in m.active)
    {
      LinkedTail(chain);
      task := current;
      current := current.next;
      chain := chain[1..];
      task.complete := true;
      task.active := false;
      SameChain(queue.items);
      SameChain(done.items);
      SameChain(old(chain));
      LinkedTail(old(chain));
    }

    // ---- ngx_thread_pool_destroy ---------------------------------------------------

    /** A round of its loop begins: the exit task is posted. */
    method PostExitTask(ghost woken: set<nat>) returns (ok: bool)
      requires Valid() && Allowed(m, PostExit(woken))
      modifies this`waiting, this`taskId, this`m, this`lock, queue, queue.items`next
      modifies exitTask`next, exitTask`id, exitTask`active
      ensures Valid() && m == Next(old(m), PostExit(woken))
      ensures ok == (!old(exitTask.active) && old(waiting) < maxQueue)
    {
      StepKeepsInv(m, PostExit(woken));
      ReadyToPost(exitTask);
      ok := StartRound(woken);
    }

    method StartRound(ghost woken: set<nat>) returns (ok: bool)
      requires Represents() && Allowed(m, PostExit(woken))
      requires Accepts(m, exitTask.address) ==> Apart() && Off(exitTask)
      modifies this`waiting, this`taskId, this`m, this`lock, queue, queue.items`next
      modifies exitTask`next, exitTask`id, exitTask`active
      ensures Represents() && m == Next(old(m), PostExit(woken)) && ok == Accepts(old(m), exitTask.address)
    {
      SetLock(if Accepts(m, exitTask.address) then m.main.(posted := true) else GaveUp);
      ok := PostTask(exitTask, woken);
    }

    method SetLock(ghost main: Main)
      requires Represents()
      modifies this`m, this`lock
      ensures Represents() && m == old(m).(lock := true, main := main)
    {
      lock := true;
      m := m.(lock := true, main := main);
    }

    /** ngx_thread_pool_exit_handler in worker w. */
    method RunExit(ghost w: nat)
      requires Valid() && Allowed(m, Exit(w))
      modifies this`m, this`lock
      ensures Valid() && m == Next(old(m), Exit(w))
    {
      StepKeepsInv(m, Exit(w));
      lock := false;
      m := Next(m, Exit(w));
    }

    /** The round ends once the lock has been cleared. */
    method EndRound()
      requires Valid() && Allowed(m, NextRound) && m.main.posted
      modifies this`m, exitTask`active
      ensures Valid() && m == Next(old(m), NextRound)
    {
      StepKeepsInv(m, NextRound);
      ClearExit();
    }

    method ClearExit()
      requires Represents() && Allowed(m, NextRound) && m.main.posted
      modifies this`m, exitTask`active
      ensures Represents() && m == Next(old(m), NextRound)
    {
      exitTask.active := false;
      m := Next(m, NextRound);
      SameChain(queue.items);
      SameChain(done.items);
      SameChain(chain);
    }
  }
}
