/** Event timers: a red-black tree of wrapped deadlines (ngx_event_timer.c, ngx_event_timer.h). */
module EventTimer {
  import opened RbTree
  import Q = TimerQueue

  const INFINITE := WORD - 1

  /** The signed reading of a word, as the cast to ngx_msec_int_t gives it. */
  function Signed(word: int): int {
    if word % WORD < HALF then word % WORD else word % WORD - WORD
  }

  /** Over less than half the word range, wrapped subtraction recovers the true difference. */
  lemma SignedDifference(a: int, b: int)
    requires -HALF < a - b < HALF
    ensures Signed(a % WORD - b % WORD) == a - b
    ensures GoesLeft(ByTimer, a % WORD, b % WORD) <==> a < b
  {
    assert (a % WORD - b % WORD) % WORD == (a - b) % WORD;
  }

  lemma WrappedSum(a: int, b: int)
    ensures (a % WORD + b) % WORD == (a + b) % WORD
  {
  }

  class Event {
    const timer: Node
    const cancelable: bool
    var timerSet: bool
    var timedout: bool
    ghost var deadline: int

    constructor (cancelable: bool)
      ensures fresh(timer) && !timerSet && !timedout && this.cancelable == cancelable
    {
      timer := new Node(0);
      this.cancelable := cancelable;
      timerSet, timedout, deadline := false, false, 0;
    }
  }

  class Timers {
    const tree: Tree
    const owner: map<Node, Event>
    ghost const behind: int
    ghost const ahead: int
    var now: int
    ghost var clock: int

    /**
     * The event a node is embedded in; each node of the map sits inside its own event.
     * True deadlines stay within [clock - behind, clock + ahead], less than half the word range.
     */
    ghost predicate Owned() {
      && behind >= 0 && ahead >= 0 && behind + ahead < HALF && tree.inserter == ByTimer
      && (forall n :: n in owner ==> owner[n].timer == n && n != tree.sentinel)
    }

    ghost predicate Known(ev: Event) {
      ev.timer in owner && owner[ev.timer] == ev
    }

    /** The nodes of s with their events' true deadlines. */
    ghost function EntriesOf(s: seq<Node>): (es: seq<Q.Entry<Event>>)
      requires forall n :: n in s ==> n in owner
      reads owner.Values`deadline
      ensures |es| == |s| && forall i :: 0 <= i < |s| ==> es[i] == Q.Entry(owner[s[i]], owner[s[i]].deadline)
    {
      if s == [] then [] else [Q.Entry(owner[s[0]], owner[s[0]].deadline)] + EntriesOf(s[1..])
    }

    ghost predicate Filed(n: Node)
      requires n in owner
      reads tree`Nodes, n`key, owner.Values`timerSet, owner.Values`deadline, this`clock
    {
      && (owner[n].timerSet <==> n in tree.Nodes)
      && (n in tree.Nodes ==> n.key == owner[n].deadline % WORD && -behind <= owner[n].deadline - clock <= ahead)
    }

    ghost predicate Valid()
      reads this, tree, tree.Nodes, tree.sentinel, owner.Keys, owner.Values`timerSet, owner.Values`deadline
    {
      && Owned() && now == clock % WORD
      && tree.Balanced() && tree.Nodes <= owner.Keys
      && (forall n {:trigger Filed(n)} :: n in owner ==> Filed(n))
      && (forall n :: n in tree.Seq ==> n in owner) && Q.Ordered(EntriesOf(tree.Seq))
    }

    /** The armed timers in firing order: the abstract value of the tree. */
    ghost function Entries(): (es: seq<Q.Entry<Event>>)
      requires Valid()
      reads this, tree, tree.Nodes, tree.sentinel, owner.Keys, owner.Values`timerSet, owner.Values`deadline
    {
      EntriesOf(tree.Seq)
    }

    /** ngx_event_timer_init, for events none of which is armed. */
    constructor (sentinel: Node, owner: map<Node, Event>, ghost behind: int, ghost ahead: int, now: int,
                 ghost clock: int)
      requires !sentinel.red && sentinel.bh == 0 && sentinel.lo == sentinel.hi
      requires behind >= 0 && ahead >= 0 && behind + ahead < HALF && now == clock % WORD
      requires forall n :: n in owner ==> owner[n].timer == n && n != sentinel && !owner[n].timerSet
      ensures Valid() && Entries() == [] && this.owner == owner && this.clock == clock && fresh(tree)
      ensures tree.sentinel == sentinel && this.behind == behind && this.ahead == ahead
    {
      tree := new Tree(sentinel, ByTimer);
      this.owner, this.now, this.clock := owner, now, clock;
      this.behind, this.ahead := behind, ahead;
    }

    /** Each armed event is listed once, and exactly the armed events are. */
    lemma EntriesAreArmed()
      requires Valid()
      ensures Q.Distinct(Entries()) && Q.Ordered(Entries())
      ensures forall ev :: Known(ev) ==> (Q.Has(Entries(), ev) <==> ev.timerSet)
    {
      tree.SeqListsNodes();
      forall ev | Known(ev)
        ensures Q.Has(Entries(), ev) <==> ev.timerSet
      {
        assert Filed(ev.timer);
        if ev.timerSet {
          var i :| 0 <= i < |tree.Seq| && tree.Seq[i] == ev.timer;
          assert Entries()[i].who == ev;
        }
      }
    }

    /** ngx_event_find_timer */
    method FindTimer() returns (timer: int)
      requires Valid()
      ensures timer == (if Entries() == [] then INFINITE
                        else if Entries()[0].at > clock then Entries()[0].at - clock else 0)
    {
      if tree.root == tree.sentinel {
        return INFINITE;
      }
      assert tree.UpOk(tree.root);
      var node := tree.Min(tree.root);
      assert Filed(node);
      SignedDifference(owner[node].deadline, clock);
      timer := Signed(node.key - now);
      timer := if timer > 0 then timer else 0;
    }

    /** ngx_event_no_timers_left */
    method NoTimersLeft() returns (ok: bool)
      requires Valid()
      ensures ok <==> forall i :: 0 <= i < |Entries()| ==> Entries()[i].who.cancelable
    {
      if tree.root == tree.sentinel {
        return true;
      }
      assert tree.UpOk(tree.root);
      var node: Node? := tree.Min(tree.root);
      ghost var i := 0;
      while node != null
        invariant 0 <= i <= |tree.Seq|
        invariant node == (if i < |tree.Seq| then tree.Seq[i] else null)
        invariant forall j :: 0 <= j < i ==> Entries()[j].who.cancelable
        decreases |tree.Seq| - i
      {
        var ev := owner[node];
        if !ev.cancelable {
          assert !Entries()[i].who.cancelable;
          return false;
        }
        node := tree.Next(node);
        i := i + 1;
      }
      return true;
    }

    twostate lemma Refiled(new ev: Event)
      requires ev.timer in owner && owner[ev.timer] == ev && old(Valid()) && clock == old(clock)
      requires tree.Nodes == (if ev.timerSet then old(tree.Nodes) + {ev.timer} else old(tree.Nodes) - {ev.timer})
      requires ev.timerSet ==> ev.timer.key == ev.deadline % WORD && -behind <= ev.deadline - clock <= ahead
      requires forall n :: n in tree.Nodes && n != ev.timer ==> n.key == old(n.key)
      requires forall n :: n in owner && n != ev.timer ==>
                 owner[n].timerSet == old(owner[n].timerSet) && owner[n].deadline == old(owner[n].deadline)
      ensures forall n {:trigger Filed(n)} :: n in owner ==> Filed(n)
    {
      forall n | n in owner
        ensures Filed(n)
      {
        assert old(Filed(n));
      }
    }

    static lemma CutAt<T>(a: seq<T>, b: seq<T>, p: nat)
      requires p < |a| == |b| + 1 && forall i :: 0 <= i < |b| ==> b[i] == a[if i < p then i else i + 1]
      ensures b == a[..p] + a[p + 1..]
    {
    }

    static lemma PutAt<T>(a: seq<T>, b: seq<T>, e: T, k: nat)
      requires k <= |a| && |b| == |a| + 1 && b[k] == e
      requires forall i :: 0 <= i < |b| && i != k ==> b[i] == a[if i < k then i else i - 1]
      ensures b == a[..k] + [e] + a[k..]
    {
    }

    twostate lemma EntriesCut(new p: int)
      requires old(forall n :: n in tree.Seq ==> n in owner)
      requires 0 <= p < |old(tree.Seq)| && tree.Seq == old(tree.Seq)[..p] + old(tree.Seq)[p + 1..]
      requires forall n :: n in owner ==> owner[n].deadline == old(owner[n].deadline)
      ensures forall n :: n in tree.Seq ==> n in owner
      ensures EntriesOf(tree.Seq) == old(EntriesOf(tree.Seq))[..p] + old(EntriesOf(tree.Seq))[p + 1..]
    {
      var was := old(tree.Seq);
      assert forall i :: 0 <= i < |tree.Seq| ==> tree.Seq[i] == was[if i < p then i else i + 1];
      CutAt(old(EntriesOf(tree.Seq)), EntriesOf(tree.Seq), p);
    }

    /** A list without the node at p has the entries of the rest. */
    twostate lemma RemovedEntries(new ev: Event, p: int)
      requires Owned() && Known(ev)
      requires old(forall n :: n in tree.Seq ==> n in owner)
      requires 0 <= p < |old(tree.Seq)| && old(tree.Seq)[p] == ev.timer
      requires old(Q.Distinct(EntriesOf(tree.Seq)) && Q.Ordered(EntriesOf(tree.Seq)))
      requires tree.Seq == old(tree.Seq)[..p] + old(tree.Seq)[p + 1..]
      requires forall n :: n in owner ==> owner[n].deadline == old(owner[n].deadline)
      ensures forall n :: n in tree.Seq ==> n in owner
      ensures EntriesOf(tree.Seq) == Q.Remove(old(EntriesOf(tree.Seq)), ev) && Q.Ordered(EntriesOf(tree.Seq))
    {
      var es := old(EntriesOf(tree.Seq));
      EntriesCut(p);
      Q.RemoveAt(es, p);
      Q.RemoveKeeps(es, ev);
    }

    /** ngx_event_del_timer */
    method DelTimer(ev: Event)
      requires Valid() && Known(ev) && ev.timerSet
      modifies tree, tree.Nodes, tree.sentinel, ev`timerSet
      ensures Valid() && !ev.timerSet && Entries() == Q.Remove(old(Entries()), ev)
      ensures tree.Nodes == old(tree.Nodes) - {ev.timer}
    {
      assert Filed(ev.timer);
      EntriesAreArmed();
      ghost var p := ev.timer.pos;
      tree.Delete(ev.timer);
      ev.timerSet := false;
      Refiled(ev);
      RemovedEntries(ev, p);
    }

    /** k is behind every entry that is not later than d. */
    ghost predicate PlacedAt(es: seq<Q.Entry<Event>>, k: int, d: int) {
      0 <= k <= |es| && forall i :: 0 <= i < |es| ==> (i < k <==> es[i].at <= d)
    }

    /** The wrapped comparison puts a node where its true deadline belongs. */
    lemma GapIsPlace(k: int, key: int, d: int)
      requires Valid() && key == d % WORD && -behind <= d - clock <= ahead
      requires tree.Gap(tree.Seq, k, key)
      ensures PlacedAt(Entries(), k, d)
    {
      var es := Entries();
      if k > 0 {
        assert Filed(tree.Seq[k - 1]);
        SignedDifference(d, es[k - 1].at);
      }
      if k < |es| {
        assert Filed(tree.Seq[k]);
        SignedDifference(d, es[k].at);
      }
      assert forall i :: 0 <= i < k ==> es[i].at <= es[k - 1].at;
      assert forall i :: k <= i < |es| ==> es[k].at <= es[i].at;
    }

    lemma EveryGapIsPlace(key: int, d: int)
      requires Valid() && key == d % WORD && -behind <= d - clock <= ahead
      ensures forall k {:trigger tree.Gap(tree.Seq, k, key)} :: tree.Gap(tree.Seq, k, key) ==> PlacedAt(Entries(), k, d)
    {
      forall k | tree.Gap(tree.Seq, k, key)
        ensures PlacedAt(Entries(), k, d)
      {
        GapIsPlace(k, key, d);
      }
    }

    twostate lemma EntriesPut(new ev: Event, new k: int)
      requires Known(ev) && ev.timer !in old(tree.Seq)
      requires old(forall n :: n in tree.Seq ==> n in owner)
      requires 0 <= k <= |old(tree.Seq)| && tree.Seq == old(tree.Seq)[..k] + [ev.timer] + old(tree.Seq)[k..]
      requires forall n :: n in owner && n != ev.timer ==> owner[n].deadline == old(owner[n].deadline)
      ensures forall n :: n in tree.Seq ==> n in owner
      ensures var es := old(EntriesOf(tree.Seq)); EntriesOf(tree.Seq) == es[..k] + [Q.Entry(ev, ev.deadline)] + es[k..]
    {
      var was := old(tree.Seq);
      assert forall i :: 0 <= i < |tree.Seq| && i != k ==> tree.Seq[i] == was[if i < k then i else i - 1];
      PutAt(old(EntriesOf(tree.Seq)), EntriesOf(tree.Seq), Q.Entry(ev, ev.deadline), k);
    }

    /** A list with the node put in at k has the entries with the event inserted. */
    twostate lemma InsertedEntries(new ev: Event, k: int)
      requires Owned() && Known(ev) && ev.timer !in old(tree.Seq)
      requires old(forall n :: n in tree.Seq ==> n in owner)
      requires old(Q.Distinct(EntriesOf(tree.Seq)) && Q.Ordered(EntriesOf(tree.Seq)))
      requires PlacedAt(old(EntriesOf(tree.Seq)), k, ev.deadline)
      requires tree.Seq == old(tree.Seq)[..k] + [ev.timer] + old(tree.Seq)[k..]
      requires forall n :: n in owner && n != ev.timer ==> owner[n].deadline == old(owner[n].deadline)
      ensures forall n :: n in tree.Seq ==> n in owner
      ensures EntriesOf(tree.Seq) == Q.Insert(old(EntriesOf(tree.Seq)), Q.Entry(ev, ev.deadline))
      ensures Q.Ordered(EntriesOf(tree.Seq))
    {
      var es := old(EntriesOf(tree.Seq));
      var e := Q.Entry(ev, ev.deadline);
      EntriesPut(ev, k);
      Q.InsertAt(es, e, k);
      Q.InsertKeeps(es, e);
    }

    method PlaceNode(ev: Event, key: int, ghost d: int) returns (ghost k: int)
      requires Valid() && Known(ev) && !ev.timerSet && key == d % WORD && -behind <= d - clock <= ahead
      modifies tree, tree.Nodes, ev.timer
      ensures tree.Balanced() && tree.Nodes == old(tree.Nodes) + {ev.timer}
      ensures old(PlacedAt(Entries(), k, d))
      ensures tree.Seq == old(tree.Seq)[..k] + [ev.timer] + old(tree.Seq)[k..]
      ensures ev.timer.key == key && forall n :: n in old(tree.Nodes) ==> n.key == old(n.key)
    {
      assert Filed(ev.timer);
      EveryGapIsPlace(key, d);
      ev.timer.key := key;
      k := tree.Insert(ev.timer);
      assert old(tree.Gap(tree.Seq, k, key));
    }

    lemma Unlisted(ev: Event)
      requires Valid() && Known(ev) && !ev.timerSet
      ensures ev.timer !in tree.Seq && ev.timer !in tree.Nodes && Q.Distinct(Entries())
    {
      assert Filed(ev.timer);
      EntriesAreArmed();
      tree.SeqListsNodes();
    }

    twostate lemma Filing(new ev: Event, k: int)
      requires old(Valid()) && ev.timer in owner && owner[ev.timer] == ev && !old(ev.timerSet)
      requires tree.Balanced() && tree.Nodes == old(tree.Nodes) + {ev.timer} && ev.timerSet
      requires PlacedAt(old(Entries()), k, ev.deadline)
      requires tree.Seq == old(tree.Seq)[..k] + [ev.timer] + old(tree.Seq)[k..]
      requires ev.timer.key == ev.deadline % WORD && -behind <= ev.deadline - clock <= ahead
      requires clock == old(clock) && now == old(now)
      requires forall n :: n in tree.Nodes && n != ev.timer ==> n.key == old(n.key)
      requires forall n :: n in owner && n != ev.timer ==>
                 owner[n].timerSet == old(owner[n].timerSet) && owner[n].deadline == old(owner[n].deadline)
      requires ev.timer !in old(tree.Seq) && old(Q.Distinct(EntriesOf(tree.Seq)))
      ensures Valid() && Entries() == Q.Insert(old(Entries()), Q.Entry(ev, ev.deadline))
    {
      Refiled(ev);
      InsertedEntries(ev, k);
    }

    /** The second half of ngx_event_add_timer: the event is not in the tree. */
    method FileTimer(ev: Event, key: int, ghost d: int)
      requires Valid() && Known(ev) && !ev.timerSet && key == d % WORD && -behind <= d - clock <= ahead
      modifies tree, tree.Nodes, ev.timer, ev`timerSet, ev`deadline
      ensures Valid() && ev.timerSet && ev.deadline == d && Entries() == Q.Insert(old(Entries()), Q.Entry(ev, d))
      ensures tree.Nodes == old(tree.Nodes) + {ev.timer}
    {
      Unlisted(ev);
      ghost var k := PlaceNode(ev, key, d);
      ev.deadline := d;
      ev.timerSet := true;
      Filing(ev, k);
    }

    lemma ArmedDeadline(ev: Event)
      requires Valid() && Known(ev) && ev.timerSet
      ensures Q.Has(Entries(), ev) && Q.DeadlineOf(Entries(), ev) == ev.deadline
      ensures ev.timer.key == ev.deadline % WORD && -behind <= ev.deadline - clock <= ahead
    {
      assert Filed(ev.timer);
      EntriesAreArmed();
      var i :| 0 <= i < |Entries()| && Entries()[i].who == ev;
      Q.DeadlineIs(Entries(), i);
    }

    /** The test of ngx_event_add_timer for keeping the previous timer value. */
    method IsNear(ev: Event, key: int, ghost d: int) returns (near: bool)
      requires Valid() && Known(ev) && ev.timerSet && key == d % WORD && -behind <= d - clock <= ahead
      ensures Q.Has(Entries(), ev) && near == Q.Near(d, Q.DeadlineOf(Entries(), ev))
      ensures Q.DeadlineOf(Entries(), ev) == ev.deadline && ev.timer in tree.Nodes
    {
      assert Filed(ev.timer);
      ArmedDeadline(ev);
      SignedDifference(d, ev.deadline);
      var diff := Signed(key - ev.timer.key);
      near := (if diff < 0 then -diff else diff) < Q.LAZY_DELAY;
    }

    lemma NotListed(ev: Event)
      requires Valid() && Known(ev) && !ev.timerSet
      ensures !Q.Has(Entries(), ev) && Q.Remove(Entries(), ev) == Entries()
    {
      EntriesAreArmed();
      Q.RemoveAbsent(Entries(), ev);
    }

    method Rearm(ev: Event, key: int, ghost d: int)
      requires Valid() && Known(ev) && ev.timerSet && ev.timer in tree.Nodes
      requires key == d % WORD && -behind <= d - clock <= ahead
      modifies tree, tree.Nodes, tree.sentinel, ev`timerSet, ev`deadline
      ensures Valid() && ev.timerSet && ev.deadline == d && tree.Nodes == old(tree.Nodes)
      ensures Entries() == Q.Insert(Q.Remove(old(Entries()), ev), Q.Entry(ev, d))
    {
      DelTimer(ev);
      FileTimer(ev, key, d);
    }

    /** ngx_event_add_timer for an event whose timer is set: a value near the old one is not filed anew. */
    method AddAgain(ev: Event, key: int, ghost d: int)
      requires Valid() && Known(ev) && ev.timerSet && key == d % WORD && -behind <= d - clock <= ahead
      modifies tree, tree.Nodes, tree.sentinel, ev`timerSet, ev`deadline
      ensures Valid() && ev.timerSet && Entries() == Q.Armed(old(Entries()), ev, d)
      ensures ev.deadline == if -300 < d - old(ev.deadline) < 300 then old(ev.deadline) else d
      ensures tree.Nodes == old(tree.Nodes) && ev.timer in tree.Nodes
    {
      var near := IsNear(ev, key, d);
      if !near {
        Rearm(ev, key, d);
      }
    }

    method AddFirst(ev: Event, key: int, ghost d: int)
      requires Valid() && Known(ev) && !ev.timerSet && key == d % WORD && -behind <= d - clock <= ahead
      modifies tree, tree.Nodes, ev.timer, ev`timerSet, ev`deadline
      ensures Valid() && ev.timerSet && Entries() == Q.Armed(old(Entries()), ev, d)
      ensures ev.deadline == d && tree.Nodes == old(tree.Nodes) + {ev.timer}
    {
      NotListed(ev);
      FileTimer(ev, key, d);
    }

    /** ngx_event_add_timer */
    method AddTimer(ev: Event, timer: int)
      requires Valid() && Known(ev) && 0 <= timer <= ahead
      modifies tree, tree.Nodes, tree.sentinel, ev.timer, ev`timerSet, ev`deadline
      ensures Valid() && ev.timerSet && Entries() == Q.Armed(old(Entries()), ev, clock + timer)
      ensures ev.deadline == if old(ev.timerSet) && -300 < clock + timer - old(ev.deadline) < 300 then old(ev.deadline)
                             else clock + timer
      ensures tree.Nodes == old(tree.Nodes) + {ev.timer}
    {
      var key := (now + timer) % WORD;
      WrappedSum(clock, timer);
      if ev.timerSet {
        AddAgain(ev, key, clock + timer);
      } else {
        AddFirst(ev, key, clock + timer);
      }
    }

    /** Each operation names an event of this table; delays are positive and in the window. */
    ghost predicate Allowed(ops: seq<Q.Op<Event>>) {
      forall i :: 0 <= i < |ops| ==> Known(ops[i].who) && (ops[i].Arm? ==> 0 < ops[i].delay <= ahead)
    }

    method Perform(op: Q.Op<Event>)
      requires Valid() && Known(op.who) && (op.Arm? ==> 0 < op.delay <= ahead)
      modifies tree, tree.sentinel, owner.Keys, owner.Values`timerSet, owner.Values`deadline
      ensures Valid() && Entries() == Q.Step(old(Entries()), op, clock)
    {
      var ev := op.who;
      assert ev.timer in owner.Keys && ev in owner.Values;
      if op.Arm? {
        AddTimer(ev, op.delay);
      } else if ev.timerSet {
        DelTimer(ev);
      } else {
        NotListed(ev);
      }
    }

    method RunHandler(ops: seq<Q.Op<Event>>)
      requires Valid() && Allowed(ops)
      modifies tree, tree.sentinel, owner.Keys, owner.Values`timerSet, owner.Values`deadline
      ensures Valid() && Entries() == Q.Steps(old(Entries()), ops, clock)
    {
      var i := 0;
      while i < |ops|
        invariant 0 <= i <= |ops| && Valid()
        invariant Q.Steps(Entries(), ops[i..], clock) == Q.Steps(old(Entries()), ops, clock)
      {
        Perform(ops[i]);
        i := i + 1;
      }
    }

    /** The timers of the events that are marked. */
    ghost function TimedOut(): set<Node>
      reads owner.Values`timedout
    {
      set n | n in owner && owner[n].timedout
    }

    static ghost function TimersOf(evs: seq<Event>): (ns: set<Node>) {
      set ev | ev in evs :: ev.timer
    }

    /** The earliest timer leaves the tree and its event is marked, as in the loop of ngx_event_expire_timers. */
    method TakeFirst(node: Node) returns (ev: Event)
      requires Valid() && tree.Seq != [] && node == tree.Seq[0] && node in tree.Nodes
      modifies tree, tree.Nodes, tree.sentinel, owner.Values`timerSet, owner.Values`timedout
      ensures Valid() && ev == old(Entries())[0].who && Entries() == old(Entries())[1..] && Known(ev)
      ensures TimedOut() == old(TimedOut()) + {ev.timer}
    {
      ev := FirstEvent(node);
      DelTimer(ev);
      MarkTimedOut(ev);
    }

    method FirstEvent(node: Node) returns (ev: Event)
      requires Valid() && tree.Seq != [] && node == tree.Seq[0] && node in tree.Nodes
      ensures ev == Entries()[0].who && Known(ev) && ev.timerSet && ev in owner.Values && ev.timer in owner.Keys
      ensures Q.Remove(Entries(), ev) == Entries()[1..]
    {
      ev := owner[node];
      assert ev in owner.Values && Filed(node) && Entries()[0].who == ev;
      EntriesAreArmed();
      Q.RemoveAt(Entries(), 0);
    }

    method MarkTimedOut(ev: Event)
      requires Valid() && Known(ev)
      modifies ev`timedout
      ensures Valid() && Entries() == old(Entries()) && TimedOut() == old(TimedOut()) + {ev.timer}
    {
      ev.timedout := true;
    }

    /**
     * The events in fired and those still to fire, and what is left then, add up to the given end;
     * was had timed out before.
     */
    ghost predicate Expiring(script: nat -> seq<Q.Op<Event>>, fired: seq<Event>,
                             end: (seq<Event>, seq<Q.Entry<Event>>), was: set<Node>)
      reads this, tree, tree.Nodes, tree.sentinel, owner.Keys, owner.Values`timerSet, owner.Values`deadline
      reads owner.Values`timedout
    {
      && Valid() && TimedOut() == was + TimersOf(fired)
      && Q.Distinct(Entries()) && Q.Ordered(Entries()) && Q.Tame(script)
      && fired + Q.Expire(Entries(), script, |fired|, clock).0 == end.0
      && Q.Expire(Entries(), script, |fired|, clock).1 == end.1
    }

    /** ngx_event_expire_timers; the handler of the i-th event fired performs script(i). */
    method ExpireTimers(script: nat -> seq<Q.Op<Event>>) returns (fired: seq<Event>)
      requires Valid() && forall j {:trigger script(j)} :: Allowed(script(j))
      modifies tree, tree.sentinel, owner.Keys, owner.Values`timerSet, owner.Values`deadline, owner.Values`timedout
      ensures Valid() && old(Q.Distinct(Entries()) && Q.Ordered(Entries())) && Q.Tame(script)
      ensures fired == Q.Expire(old(Entries()), script, 0, clock).0
      ensures Entries() == Q.Expire(old(Entries()), script, 0, clock).1
      ensures TimedOut() == old(TimedOut()) + TimersOf(fired)
    {
      EntriesAreArmed();
      fired := ExpireLoop(script, Q.Expire(Entries(), script, 0, clock), TimedOut());
    }

    method ExpireLoop(script: nat -> seq<Q.Op<Event>>, ghost end: (seq<Event>, seq<Q.Entry<Event>>),
                      ghost was: set<Node>)
      returns (fired: seq<Event>)
      requires Expiring(script, [], end, was) && forall j {:trigger script(j)} :: Allowed(script(j))
      modifies tree, tree.sentinel, owner.Keys, owner.Values`timerSet, owner.Values`deadline, owner.Values`timedout
      ensures Expiring(script, fired, end, was) && end == (fired, Entries())
    {
      fired := [];
      var more := true;
      while more
        invariant Expiring(script, fired, end, was)
        invariant !more ==> end == (fired, Entries())
        decreases |Q.Due(Entries(), clock)|, more
      {
        fired, more := ExpireRound(script, fired, end, was);
      }
    }

    /** The body of the loop: stop, or fire the earliest timer. */
    method ExpireRound(script: nat -> seq<Q.Op<Event>>, before: seq<Event>,
                       ghost end: (seq<Event>, seq<Q.Entry<Event>>), ghost was: set<Node>)
      returns (fired: seq<Event>, more: bool)
      requires Expiring(script, before, end, was) && Allowed(script(|before|))
      modifies tree, tree.sentinel, owner.Keys, owner.Values`timerSet, owner.Values`deadline, owner.Values`timedout
      ensures Expiring(script, fired, end, was)
      ensures if more then |Q.Due(Entries(), clock)| < |Q.Due(old(Entries()), clock)|
              else Entries() == old(Entries()) && end == (fired, Entries())
    {
      var node := FirstDue();
      if node == null {
        Q.ExpireUnfolds(Entries(), script, |before|, clock);
        assert before + [] == before;
        return before, false;
      }
      fired := ExpireFirst(node, script, before, end, was);
      more := true;
    }

    /** The earliest timer if it is due, otherwise null. */
    method FirstDue() returns (node: Node?)
      requires Valid()
      ensures node == null ==> Entries() == [] || Entries()[0].at > clock
      ensures node != null ==>
                tree.Seq != [] && node == tree.Seq[0] && node in tree.Nodes && Entries()[0].at <= clock
    {
      if tree.root == tree.sentinel {
        assert Entries() == [];
        return null;
      }
      node := First();
      if Signed(node.key - now) > 0 {
        return null;
      }
    }

    /** The earliest timer fires and its handler runs. */
    method Fire(node: Node, ops: seq<Q.Op<Event>>) returns (ev: Event)
      requires Valid() && tree.Seq != [] && node == tree.Seq[0] && node in tree.Nodes && Allowed(ops)
      modifies tree, tree.sentinel, owner.Keys, owner.Values`timerSet, owner.Values`deadline, owner.Values`timedout
      ensures Valid() && ev == old(Entries())[0].who && Entries() == Q.Steps(old(Entries())[1..], ops, clock)
      ensures TimedOut() == old(TimedOut()) + {ev.timer}
    {
      ev := TakeFirst(node);
      RunHandler(ops);
    }

    method ExpireFirst(node: Node, script: nat -> seq<Q.Op<Event>>, fired: seq<Event>,
                       ghost end: (seq<Event>, seq<Q.Entry<Event>>), ghost was: set<Node>)
      returns (after: seq<Event>)
      requires tree.Seq != [] && node == tree.Seq[0] && node in tree.Nodes
      requires Expiring(script, fired, end, was) && Entries()[0].at <= clock && Allowed(script(|fired|))
      modifies tree, tree.sentinel, owner.Keys, owner.Values`timerSet, owner.Values`deadline, owner.Values`timedout
      ensures Expiring(script, after, end, was) && |Q.Due(Entries(), clock)| < |Q.Due(old(Entries()), clock)|
    {
      Q.FiringIsARound(Entries(), script, fired, clock);
      var ev := Fire(node, script(|fired|));
      after := fired + [ev];
      assert TimersOf(after) == TimersOf(fired) + {ev.timer};
    }

    method First() returns (node: Node)
      requires Valid() && tree.root != tree.sentinel
      ensures tree.Seq != [] && node == tree.Seq[0] && node in tree.Nodes
      ensures Signed(node.key - now) == Entries()[0].at - clock
    {
      assert tree.UpOk(tree.root);
      node := tree.Min(tree.root);
      assert Filed(node);
      SignedDifference(owner[node].deadline, clock);
    }

    lemma WindowHolds(low: int)
      requires Valid() && forall i :: 0 <= i < |Entries()| ==> Entries()[i].at >= low
      ensures forall n :: n in tree.Nodes ==> owner[n].deadline >= low
    {
      tree.SeqListsNodes();
      forall n | n in tree.Nodes
        ensures owner[n].deadline >= low
      {
        var i :| 0 <= i < |tree.Seq| && tree.Seq[i] == n;
        assert Entries()[i].at == owner[n].deadline;
      }
    }

    /** ngx_current_msec moves on, as long as no armed timer falls out of the window behind it. */
    method AdvanceClock(ms: nat)
      requires Valid() && forall i :: 0 <= i < |Entries()| ==> Entries()[i].at >= clock + ms - behind
      modifies this`now, this`clock
      ensures Valid() && clock == old(clock) + ms && Entries() == old(Entries())
    {
      WrappedSum(clock, ms);
      WindowHolds(clock + ms - behind);
      now := (now + ms) % WORD;
      clock := clock + ms;
      forall n | n in owner
        ensures Filed(n)
      {
        assert old(Filed(n));
      }
    }
  }
}
