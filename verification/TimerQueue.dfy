/** Event timers as a list of deadlines: what arming, disarming and expiring mean. */
module TimerQueue {

  const LAZY_DELAY := 300

  datatype Entry<T> = Entry(who: T, at: int)

  /** What an event handler may do to the timers. */
  datatype Op<T> = Arm(who: T, delay: int) | Disarm(who: T)

  ghost predicate Ordered<T>(s: seq<Entry<T>>) {
    forall i, j :: 0 <= i < j < |s| ==> s[i].at <= s[j].at
  }

  ghost predicate Distinct<T>(s: seq<Entry<T>>) {
    forall i, j :: 0 <= i < j < |s| ==> s[i].who != s[j].who
  }

  predicate Has<T(==)>(s: seq<Entry<T>>, who: T) {
    exists i :: 0 <= i < |s| && s[i].who == who
  }

  /** Behind everything that is not later. */
  function Insert<T>(s: seq<Entry<T>>, e: Entry<T>): seq<Entry<T>> {
    if s == [] || e.at < s[0].at then [e] + s else [s[0]] + Insert(s[1..], e)
  }

  function Remove<T(==)>(s: seq<Entry<T>>, who: T): seq<Entry<T>> {
    if s == [] then [] else (if s[0].who == who then [] else [s[0]]) + Remove(s[1..], who)
  }

  /** An armed timer is left alone when the new deadline is close to the old one. */
  predicate Near(a: int, b: int) {
    -LAZY_DELAY < a - b < LAZY_DELAY
  }

  function DeadlineOf<T(==)>(s: seq<Entry<T>>, who: T): int
    requires Has(s, who)
  {
    if s[0].who == who then s[0].at else DeadlineOf(s[1..], who)
  }

  function Armed<T(==)>(s: seq<Entry<T>>, who: T, at: int): seq<Entry<T>> {
    if Has(s, who) && Near(at, DeadlineOf(s, who)) then s
    else Insert(Remove(s, who), Entry(who, at))
  }

  function Step<T(==)>(s: seq<Entry<T>>, op: Op<T>, clock: int): seq<Entry<T>> {
    match op
    case Arm(who, delay) => Armed(s, who, clock + delay)
    case Disarm(who) => Remove(s, who)
  }

  function Steps<T(==)>(s: seq<Entry<T>>, ops: seq<Op<T>>, clock: int): seq<Entry<T>>
    decreases |ops|
  {
    if ops == [] then s else Steps(Step(s, ops[0], clock), ops[1..], clock)
  }

  /** The timers that are due, in order. */
  function Due<T>(s: seq<Entry<T>>, clock: int): seq<Entry<T>> {
    if s == [] then []
    else (if s[0].at <= clock then [s[0]] else []) + Due(s[1..], clock)
  }

  predicate Forward<T>(ops: seq<Op<T>>) {
    forall i :: 0 <= i < |ops| && ops[i].Arm? ==> ops[i].delay > 0
  }

  // ---- pending timers under one operation ---------------------------------

  lemma {:induction false} DueOfInsert<T>(s: seq<Entry<T>>, e: Entry<T>, clock: int)
    requires e.at > clock
    ensures Due(Insert(s, e), clock) == Due(s, clock)
  {
    if s == [] || e.at < s[0].at {
      assert ([e] + s)[1..] == s;
    } else {
      assert ([s[0]] + Insert(s[1..], e))[1..] == Insert(s[1..], e);
      DueOfInsert(s[1..], e, clock);
    }
  }

  lemma {:induction false} DueOfRemove<T>(s: seq<Entry<T>>, who: T, clock: int)
    ensures Due(Remove(s, who), clock) == Remove(Due(s, clock), who)
  {
    if s == [] {
    } else {
      DueOfRemove(s[1..], who, clock);
      var t := Remove(s[1..], who);
      assert ([s[0]] + t)[1..] == t;
      var d := Due(s[1..], clock);
      assert ([s[0]] + d)[1..] == d;
      assert [] + t == t && [] + d == d;
    }
  }

  // ---- order and distinctness are kept ------------------------------------

  lemma {:induction false} InsertAt<T>(s: seq<Entry<T>>, e: Entry<T>, k: nat)
    requires k <= |s|
    requires forall i :: 0 <= i < |s| ==> (i < k <==> s[i].at <= e.at)
    ensures Insert(s, e) == s[..k] + [e] + s[k..]
  {
    if k == 0 {
    } else {
      InsertAt(s[1..], e, k - 1);
      assert s[..k] + [e] + s[k..] == [s[0]] + (s[1..][..k - 1] + [e] + s[1..][k - 1..]);
    }
  }

  lemma {:induction false} PlaceIn<T>(s: seq<Entry<T>>, e: Entry<T>) returns (k: nat)
    requires Ordered(s)
    ensures k <= |s| && forall i :: 0 <= i < |s| ==> (i < k <==> s[i].at <= e.at)
  {
    k := 0;
    while k < |s| && s[k].at <= e.at
      invariant 0 <= k <= |s| && forall i :: 0 <= i < k ==> s[i].at <= e.at
    {
      k := k + 1;
    }
  }

  lemma {:induction false} RemoveAt<T>(s: seq<Entry<T>>, p: nat)
    requires p < |s| && Distinct(s)
    ensures Remove(s, s[p].who) == s[..p] + s[p + 1..]
  {
    if p == 0 {
      RemoveAbsent(s[1..], s[0].who);
    } else {
      RemoveAt(s[1..], p - 1);
      assert s[..p] + s[p + 1..] == [s[0]] + (s[1..][..p - 1] + s[1..][p..]);
    }
  }

  lemma {:induction false} RemoveAbsent<T>(s: seq<Entry<T>>, who: T)
    requires !Has(s, who)
    ensures Remove(s, who) == s
  {
    if s == [] {
    } else {
      RemoveAbsent(s[1..], who);
    }
  }

  lemma RemoveKeeps<T>(s: seq<Entry<T>>, who: T)
    requires Distinct(s) && Ordered(s)
    ensures Distinct(Remove(s, who)) && Ordered(Remove(s, who)) && !Has(Remove(s, who), who)
  {
    if Has(s, who) {
      var p :| 0 <= p < |s| && s[p].who == who;
      RemoveAt(s, p);
    } else {
      RemoveAbsent(s, who);
    }
  }

  lemma InsertKeeps<T>(s: seq<Entry<T>>, e: Entry<T>)
    requires Distinct(s) && Ordered(s) && !Has(s, e.who)
    ensures Distinct(Insert(s, e)) && Ordered(Insert(s, e))
  {
    var k := PlaceIn(s, e);
    InsertAt(s, e, k);
    var t := s[..k] + [e] + s[k..];
    forall i, j | 0 <= i < j < |t|
      ensures t[i].at <= t[j].at && t[i].who != t[j].who
    {
      assert i != k ==> t[i] == s[if i < k then i else i - 1];
      assert j != k ==> t[j] == s[if j < k then j else j - 1];
    }
  }

  lemma StepKeeps<T>(s: seq<Entry<T>>, op: Op<T>, clock: int)
    requires Distinct(s) && Ordered(s)
    ensures Distinct(Step(s, op, clock)) && Ordered(Step(s, op, clock))
  {
    RemoveKeeps(s, op.who);
    if op.Arm? {
      InsertKeeps(Remove(s, op.who), Entry(op.who, clock + op.delay));
    }
  }

  lemma {:induction false} StepsKeep<T>(s: seq<Entry<T>>, ops: seq<Op<T>>, clock: int)
    requires Distinct(s) && Ordered(s)
    ensures Distinct(Steps(s, ops, clock)) && Ordered(Steps(s, ops, clock))
    decreases |ops|
  {
    if ops == [] {
    } else {
      StepKeeps(s, ops[0], clock);
      StepsKeep(Step(s, ops[0], clock), ops[1..], clock);
    }
  }

  // ---- what one operation does to the deadlines ---------------------------

  /** The entries of s by name: w is in s with this deadline. */
  lemma DeadlineMeans<T>(s: seq<Entry<T>>, w: T, at: int)
    requires Distinct(s)
    ensures Has(s, w) && DeadlineOf(s, w) == at <==> Entry(w, at) in s
  {
    if Has(s, w) {
      var p :| 0 <= p < |s| && s[p].who == w;
      DeadlineIs(s, p);
      assert s[p] in s;
    }
  }

  lemma {:induction false} RemoveMeans<T>(s: seq<Entry<T>>, who: T, e: Entry<T>)
    ensures e in Remove(s, who) <==> e in s && e.who != who
  {
    if s == [] {
    } else {
      RemoveMeans(s[1..], who, e);
      assert e in s <==> e == s[0] || e in s[1..];
    }
  }

  lemma {:induction false} InsertMeans<T>(s: seq<Entry<T>>, e: Entry<T>, d: Entry<T>)
    ensures d in Insert(s, e) <==> d == e || d in s
  {
    if s == [] || e.at < s[0].at {
    } else {
      InsertMeans(s[1..], e, d);
      assert d in s <==> d == s[0] || d in s[1..];
    }
  }

  /**
   * Arming leaves the timer at its old deadline when the new one is less than 300 ms away from
   * that, and otherwise at the new one; no other timer is touched.
   */
  lemma ArmSets<T>(s: seq<Entry<T>>, who: T, delay: int, clock: int, w: T, at: int)
    requires Distinct(s) && Ordered(s)
    ensures var lazy := Has(s, who) && -300 < clock + delay - DeadlineOf(s, who) < 300;
            Entry(w, at) in Step(s, Arm(who, delay), clock) <==>
            if w != who then Entry(w, at) in s
            else at == if lazy then DeadlineOf(s, who) else clock + delay
  {
    var e := Entry(w, at);
    if Has(s, who) && Near(clock + delay, DeadlineOf(s, who)) {
      DeadlineMeans(s, w, at);
    } else {
      ArmMoves(s, who, clock + delay, e);
    }
  }

  lemma ArmMoves<T>(s: seq<Entry<T>>, who: T, at: int, e: Entry<T>)
    ensures e in Insert(Remove(s, who), Entry(who, at)) <==> e == Entry(who, at) || (e in s && e.who != who)
  {
    RemoveMeans(s, who, e);
    InsertMeans(Remove(s, who), Entry(who, at), e);
  }

  /** Disarming takes this timer out and touches no other. */
  lemma DisarmClears<T>(s: seq<Entry<T>>, who: T, clock: int, e: Entry<T>)
    requires Distinct(s) && Ordered(s)
    ensures e in Step(s, Disarm(who), clock) <==> e in s && e.who != who
  {
    RemoveMeans(s, who, e);
  }

  /** A timer armed anew stands behind those due no later and before those due later, which keep their order. */
  lemma ArmLands<T>(s: seq<Entry<T>>, who: T, delay: int, clock: int) returns (k: nat)
    requires Distinct(s) && Ordered(s)
    requires Has(s, who) ==> clock + delay <= DeadlineOf(s, who) - 300 || DeadlineOf(s, who) + 300 <= clock + delay
    ensures var rest, e := Step(s, Disarm(who), clock), Entry(who, clock + delay);
            && k <= |rest| && Step(s, Arm(who, delay), clock) == rest[..k] + [e] + rest[k..]
            && forall i :: 0 <= i < |rest| ==> (i < k <==> rest[i].at <= e.at)
  {
    var e := Entry(who, clock + delay);
    RemoveKeeps(s, who);
    k := PlaceIn(Remove(s, who), e);
    InsertAt(Remove(s, who), e, k);
  }

  // ---- which pending timers survive a handler -----------------------------

  /** The operation takes a pending timer out: a disarm, or a re-arm to a far deadline. */
  predicate Kills<T(==)>(op: Op<T>, e: Entry<T>, clock: int) {
    op.who == e.who && (op.Arm? ==> !Near(clock + op.delay, e.at))
  }

  predicate Killed<T(==)>(e: Entry<T>, ops: seq<Op<T>>, clock: int) {
    exists i :: 0 <= i < |ops| && Kills(ops[i], e, clock)
  }

  function Spared<T(==)>(d: seq<Entry<T>>, ops: seq<Op<T>>, clock: int): seq<Entry<T>> {
    if d == [] then []
    else (if Killed(d[0], ops, clock) then [] else [d[0]]) + Spared(d[1..], ops, clock)
  }

  lemma {:induction false} DeadlineIs<T>(s: seq<Entry<T>>, p: nat)
    requires p < |s| && Distinct(s)
    ensures Has(s, s[p].who) && DeadlineOf(s, s[p].who) == s[p].at
  {
    if p == 0 {
    } else {
      DeadlineIs(s[1..], p - 1);
      assert s[0].who != s[p].who;
    }
  }

  lemma {:induction false} DueMembers<T>(s: seq<Entry<T>>, clock: int)
    ensures forall e :: e in Due(s, clock) <==> e in s && e.at <= clock
  {
    if s == [] {
    } else {
      DueMembers(s[1..], clock);
      assert s == [s[0]] + s[1..];
    }
  }

  lemma {:induction false} SparedAll<T>(d: seq<Entry<T>>, ops: seq<Op<T>>, clock: int)
    requires forall e :: e in d ==> !Killed(e, ops, clock)
    ensures Spared(d, ops, clock) == d
  {
    if d == [] {
    } else {
      assert d[0] in d && forall e :: e in d[1..] ==> e in d;
      SparedAll(d[1..], ops, clock);
    }
  }

  lemma {:induction false} SparedIsRemove<T>(d: seq<Entry<T>>, op: Op<T>, clock: int)
    requires forall e :: e in d && e.who == op.who ==> Kills(op, e, clock)
    ensures Spared(d, [op], clock) == Remove(d, op.who)
  {
    if d == [] {
    } else {
      assert d[0] in d && forall e :: e in d[1..] ==> e in d;
      assert Killed(d[0], [op], clock) <==> Kills([op][0], d[0], clock);
      SparedIsRemove(d[1..], op, clock);
    }
  }

  lemma {:induction false} SparedTwice<T>(d: seq<Entry<T>>, op: Op<T>, ops: seq<Op<T>>, clock: int)
    ensures Spared(Spared(d, [op], clock), ops, clock) == Spared(d, [op] + ops, clock)
  {
    if d == [] {
    } else {
      var e := d[0];
      assert Killed(e, [op], clock) <==> Kills([op][0], e, clock);
      assert Killed(e, [op] + ops, clock) <==> Kills(op, e, clock) || Killed(e, ops, clock) by {
        var all := [op] + ops;
        assert all[0] == op && forall i :: 0 <= i < |ops| ==> all[i + 1] == ops[i];
        if Killed(e, ops, clock) {
          var i :| 0 <= i < |ops| && Kills(ops[i], e, clock);
          assert Kills(all[i + 1], e, clock);
        }
      }
      SparedTwice(d[1..], op, ops, clock);
      var t := Spared(d[1..], [op], clock);
      assert ([e] + t)[1..] == t && [] + t == t;
    }
  }

  lemma DueOfStep<T>(s: seq<Entry<T>>, op: Op<T>, clock: int)
    requires Distinct(s) && Ordered(s) && (op.Arm? ==> op.delay > 0)
    ensures Due(Step(s, op, clock), clock) == Spared(Due(s, clock), [op], clock)
  {
    var d := Due(s, clock);
    DueMembers(s, clock);
    forall e | e in d && e.who == op.who
      ensures Has(s, op.who) && DeadlineOf(s, op.who) == e.at
    {
      var p :| 0 <= p < |s| && s[p] == e;
      DeadlineIs(s, p);
    }
    if op.Arm? && Has(s, op.who) && Near(clock + op.delay, DeadlineOf(s, op.who)) {
      SparedAll(d, [op], clock);
    } else {
      SparedIsRemove(d, op, clock);
      DueOfRemove(s, op.who, clock);
      if op.Arm? {
        DueOfInsert(Remove(s, op.who), Entry(op.who, clock + op.delay), clock);
      }
    }
  }

  /** After a handler has run, the pending timers are those it did not take out, in the same order. */
  lemma {:induction false} DueOfSteps<T>(s: seq<Entry<T>>, ops: seq<Op<T>>, clock: int)
    requires Distinct(s) && Ordered(s) && Forward(ops)
    ensures Due(Steps(s, ops, clock), clock) == Spared(Due(s, clock), ops, clock)
    decreases |ops|
  {
    if ops == [] {
      SparedAll(Due(s, clock), ops, clock);
    } else {
      StepKeeps(s, ops[0], clock);
      DueOfStep(s, ops[0], clock);
      DueOfSteps(Step(s, ops[0], clock), ops[1..], clock);
      SparedTwice(Due(s, clock), ops[0], ops[1..], clock);
      assert [ops[0]] + ops[1..] == ops;
    }
  }

  // ---- expiring -----------------------------------------------------------

  ghost predicate Tame<T>(script: nat -> seq<Op<T>>) {
    forall j {:trigger script(j)} :: Forward(script(j))
  }

  lemma {:induction false} SparedIsShorter<T>(d: seq<Entry<T>>, ops: seq<Op<T>>, clock: int)
    ensures |Spared(d, ops, clock)| <= |d|
  {
    if d == [] {
    } else {
      SparedIsShorter(d[1..], ops, clock);
    }
  }

  lemma {:induction false} OrderedDue<T>(s: seq<Entry<T>>, clock: int)
    requires Ordered(s)
    ensures Due(s, clock) == [] <==> s == [] || s[0].at > clock
    ensures Due(s, clock) != [] ==> s[0].at <= clock && Due(s, clock) == [s[0]] + Due(s[1..], clock)
  {
    if s == [] || s[0].at <= clock {
    } else {
      OrderedDue(s[1..], clock);
      assert s[1..] != [] ==> s[1].at >= s[0].at;
    }
  }

  /** Fire the earliest due timer, let its handler run, go on; handler i runs script(i). */
  ghost function Expire<T>(s: seq<Entry<T>>, script: nat -> seq<Op<T>>, i: nat, clock: int): (seq<T>, seq<Entry<T>>)
    requires Distinct(s) && Ordered(s) && Tame(script)
    decreases |Due(s, clock)|
  {
    if s == [] || s[0].at > clock then ([], s)
    else
      var s1 := Steps(s[1..], script(i), clock);
      StepsKeep(s[1..], script(i), clock);
      DueOfSteps(s[1..], script(i), clock);
      SparedIsShorter(Due(s[1..], clock), script(i), clock);
      var r := Expire(s1, script, i + 1, clock);
      ([s[0].who] + r.0, r.1)
  }

  lemma ExpireUnfolds<T>(s: seq<Entry<T>>, script: nat -> seq<Op<T>>, i: nat, clock: int)
    requires Distinct(s) && Ordered(s) && Tame(script)
    ensures s == [] || s[0].at > clock ==> Expire(s, script, i, clock) == ([], s)
    ensures s != [] && s[0].at <= clock ==>
              var s1 := Steps(s[1..], script(i), clock);
              && Distinct(s1) && Ordered(s1)
              && Expire(s, script, i, clock).0 == [s[0].who] + Expire(s1, script, i + 1, clock).0
              && Expire(s, script, i, clock).1 == Expire(s1, script, i + 1, clock).1
  {
    if s != [] {
      StepsKeep(s[1..], script(i), clock);
    }
  }

  lemma FewerDue<T>(before: seq<Entry<T>>, ops: seq<Op<T>>, clock: int)
    requires Distinct(before) && Ordered(before) && Forward(ops) && before != [] && before[0].at <= clock
    ensures |Due(Steps(before[1..], ops, clock), clock)| < |Due(before, clock)|
  {
    OrderedDue(before, clock);
    DueOfSteps(before[1..], ops, clock);
    SparedIsShorter(Due(before[1..], clock), ops, clock);
  }

  lemma Regroup<T>(a: seq<T>, x: T, b: seq<T>)
    ensures a + [x] + b == a + ([x] + b)
  {
  }

  /** One round of the loop: the first timer has fired and its handler has run. */
  ghost predicate OneFired<T>(s: seq<Entry<T>>, after: seq<Entry<T>>, script: nat -> seq<Op<T>>, fired: seq<T>,
                              next: seq<T>, clock: int)
    requires Distinct(s) && Ordered(s) && Tame(script)
  {
    && Distinct(after) && Ordered(after) && |Due(after, clock)| < |Due(s, clock)|
    && next + Expire(after, script, |next|, clock).0 == fired + Expire(s, script, |fired|, clock).0
    && Expire(after, script, |next|, clock).1 == Expire(s, script, |fired|, clock).1
  }

  lemma FiringIsARound<T>(s: seq<Entry<T>>, script: nat -> seq<Op<T>>, fired: seq<T>, clock: int)
    requires Distinct(s) && Ordered(s) && Tame(script) && s != [] && s[0].at <= clock
    ensures OneFired(s, Steps(s[1..], script(|fired|), clock), script, fired, fired + [s[0].who], clock)
  {
    var after := Steps(s[1..], script(|fired|), clock);
    ExpireUnfolds(s, script, |fired|, clock);
    FewerDue(s, script(|fired|), clock);
    Regroup(fired, s[0].who, Expire(after, script, |fired| + 1, clock).0);
  }

  /** The timers of d that are not taken out by a handler that runs before their turn. */
  function Fired<T(==)>(d: seq<Entry<T>>, script: nat -> seq<Op<T>>, i: nat, clock: int): seq<T>
    decreases |d|
  {
    if d == [] then []
    else
      SparedIsShorter(d[1..], script(i), clock);
      [d[0].who] + Fired(Spared(d[1..], script(i), clock), script, i + 1, clock)
  }

  /** Expiring leaves nothing due, and fires by the pending list alone. */
  lemma {:induction false} ExpireFires<T>(s: seq<Entry<T>>, script: nat -> seq<Op<T>>, i: nat, clock: int)
    requires Distinct(s) && Ordered(s) && Tame(script)
    ensures Expire(s, script, i, clock).0 == Fired(Due(s, clock), script, i, clock)
    ensures Due(Expire(s, script, i, clock).1, clock) == []
    decreases |Due(s, clock)|
  {
    OrderedDue(s, clock);
    if s == [] || s[0].at > clock {
    } else {
      var s1 := Steps(s[1..], script(i), clock);
      StepsKeep(s[1..], script(i), clock);
      DueOfSteps(s[1..], script(i), clock);
      SparedIsShorter(Due(s[1..], clock), script(i), clock);
      ExpireFires(s1, script, i + 1, clock);
      assert Due(s, clock)[1..] == Due(s[1..], clock);
    }
  }

  /** Handler j ran, e had not been fired by then, and the handler took e out. */
  ghost predicate TakenOutBy<T>(e: Entry<T>, fired: seq<T>, script: nat -> seq<Op<T>>, i: nat, j: nat, clock: int) {
    j < |fired| && e.who !in fired[..j + 1] && Killed(e, script(i + j), clock)
  }

  ghost predicate TakenOut<T>(e: Entry<T>, fired: seq<T>, script: nat -> seq<Op<T>>, i: nat, clock: int) {
    exists j: nat :: TakenOutBy(e, fired, script, i, j, clock)
  }

  lemma {:induction false} SparedMembers<T>(d: seq<Entry<T>>, ops: seq<Op<T>>, clock: int)
    ensures forall e :: e in Spared(d, ops, clock) <==> e in d && !Killed(e, ops, clock)
  {
    if d == [] {
    } else {
      SparedMembers(d[1..], ops, clock);
      assert d == [d[0]] + d[1..];
    }
  }

  lemma {:induction false} SparedFrom<T>(d: seq<Entry<T>>, ops: seq<Op<T>>, clock: int, i: nat)
    requires i < |Spared(d, ops, clock)|
    ensures exists p :: 0 <= p < |d| && d[p] == Spared(d, ops, clock)[i]
  {
    if Killed(d[0], ops, clock) {
      SparedFrom(d[1..], ops, clock, i);
      var p :| 0 <= p < |d[1..]| && d[1..][p] == Spared(d[1..], ops, clock)[i];
      assert d[p + 1] == Spared(d, ops, clock)[i];
    } else if i > 0 {
      SparedFrom(d[1..], ops, clock, i - 1);
      var p :| 0 <= p < |d[1..]| && d[1..][p] == Spared(d[1..], ops, clock)[i - 1];
      assert d[p + 1] == Spared(d, ops, clock)[i];
    }
  }

  lemma {:induction false} SparedDistinct<T>(d: seq<Entry<T>>, ops: seq<Op<T>>, clock: int)
    requires Distinct(d)
    ensures Distinct(Spared(d, ops, clock))
  {
    if d == [] {
    } else {
      var rest := d[1..];
      SparedDistinct(rest, ops, clock);
      var t := Spared(rest, ops, clock);
      forall i | 0 <= i < |t|
        ensures t[i].who != d[0].who
      {
        SparedFrom(rest, ops, clock, i);
      }
    }
  }

  lemma {:induction false} FiredFrom<T>(d: seq<Entry<T>>, script: nat -> seq<Op<T>>, i: nat, clock: int, who: T)
    requires who in Fired(d, script, i, clock)
    ensures Has(d, who)
    decreases |d|
  {
    if d[0].who == who {
    } else {
      SparedIsShorter(d[1..], script(i), clock);
      var rest := Spared(d[1..], script(i), clock);
      FiredFrom(rest, script, i + 1, clock, who);
      var p :| 0 <= p < |rest| && rest[p].who == who;
      SparedMembers(d[1..], script(i), clock);
      assert rest[p] in d[1..];
    }
  }

  lemma KilledNotFired<T>(d: seq<Entry<T>>, script: nat -> seq<Op<T>>, i: nat, clock: int, e: Entry<T>)
    requires Distinct(d) && e in d && Killed(e, script(i), clock)
    ensures e.who !in Fired(Spared(d, script(i), clock), script, i + 1, clock)
  {
    var rest := Spared(d, script(i), clock);
    SparedMembers(d, script(i), clock);
    forall p | 0 <= p < |rest|
      ensures rest[p].who != e.who
    {
      SparedFrom(d, script(i), clock, p);
      assert rest[p] in rest;
    }
    if e.who in Fired(rest, script, i + 1, clock) {
      FiredFrom(rest, script, i + 1, clock, e.who);
    }
  }

  /** A pending timer is fired if and only if no handler that ran before its turn took it out. */
  lemma {:induction false} FiredExactly<T>(d: seq<Entry<T>>, script: nat -> seq<Op<T>>, i: nat, clock: int, e: Entry<T>)
    requires Distinct(d) && e in d
    ensures e.who in Fired(d, script, i, clock) <==> !TakenOut(e, Fired(d, script, i, clock), script, i, clock)
    decreases |d|
  {
    var fired := Fired(d, script, i, clock);
    SparedIsShorter(d[1..], script(i), clock);
    var rest := Spared(d[1..], script(i), clock);
    var later := Fired(rest, script, i + 1, clock);
    assert fired == [d[0].who] + later;
    if e == d[0] {
      forall j: nat
        ensures !TakenOutBy(e, fired, script, i, j, clock)
      {
        assert j < |fired| ==> fired[..j + 1][0] == e.who;
      }
    } else {
      assert e.who != d[0].who && e in d[1..];
      SparedMembers(d[1..], script(i), clock);
      SparedDistinct(d[1..], script(i), clock);
      if Killed(e, script(i), clock) {
        KilledNotFired(d[1..], script, i, clock, e);
        assert TakenOutBy(e, fired, script, i, 0, clock);
      } else {
        FiredExactly(rest, script, i + 1, clock, e);
        TakenOutLater(e, d[0].who, later, script, i, clock);
      }
    }
  }

  lemma TakenOutShift<T>(e: Entry<T>, first: T, later: seq<T>, script: nat -> seq<Op<T>>, i: nat, j: nat, clock: int)
    requires e.who != first
    ensures TakenOutBy(e, [first] + later, script, i, j + 1, clock) <==> TakenOutBy(e, later, script, i + 1, j, clock)
  {
    assert i + (j + 1) == i + 1 + j;
    if j < |later| {
      assert ([first] + later)[..j + 2] == [first] + later[..j + 1];
    }
  }

  lemma TakenOutLater<T>(e: Entry<T>, first: T, later: seq<T>, script: nat -> seq<Op<T>>, i: nat, clock: int)
    requires e.who != first && !Killed(e, script(i), clock)
    ensures TakenOut(e, [first] + later, script, i, clock) <==> TakenOut(e, later, script, i + 1, clock)
  {
    var fired := [first] + later;
    if TakenOut(e, fired, script, i, clock) {
      var j: nat :| TakenOutBy(e, fired, script, i, j, clock);
      TakenOutShift(e, first, later, script, i, j - 1, clock);
    }
    if TakenOut(e, later, script, i + 1, clock) {
      var j: nat :| TakenOutBy(e, later, script, i + 1, j, clock);
      TakenOutShift(e, first, later, script, i, j, clock);
    }
  }

  /** The members of d named in keep, in d's order. */
  function Select<T(==)>(d: seq<Entry<T>>, keep: seq<T>): seq<T> {
    if d == [] then []
    else (if d[0].who in keep then [d[0].who] else []) + Select(d[1..], keep)
  }

  lemma {:induction false} SelectSpared<T>(d: seq<Entry<T>>, ops: seq<Op<T>>, clock: int, keep: seq<T>, more: seq<T>)
    requires forall p :: 0 <= p < |d| ==> (d[p].who in more <==> d[p].who in keep && !Killed(d[p], ops, clock))
    ensures Select(d, more) == Select(Spared(d, ops, clock), keep)
  {
    if d == [] {
    } else {
      SelectSpared(d[1..], ops, clock, keep, more);
      assert d[0].who in more <==> d[0].who in keep && !Killed(d[0], ops, clock);
      var t := Spared(d[1..], ops, clock);
      assert ([d[0]] + t)[1..] == t && [] + t == t;
    }
  }

  /** Timers fire in list order: by deadline, equal deadlines in the order of arming. */
  lemma {:induction false} FiredInOrder<T>(d: seq<Entry<T>>, script: nat -> seq<Op<T>>, i: nat, clock: int)
    requires Distinct(d)
    ensures Fired(d, script, i, clock) == Select(d, Fired(d, script, i, clock))
    decreases |d|
  {
    if d == [] {
    } else {
      var rest := Spared(d[1..], script(i), clock);
      SparedIsShorter(d[1..], script(i), clock);
      SparedDistinct(d[1..], script(i), clock);
      FiredInOrder(rest, script, i + 1, clock);
      var later := Fired(rest, script, i + 1, clock);
      forall p | 0 <= p < |d[1..]|
        ensures d[1..][p].who in [d[0].who] + later <==> d[1..][p].who in later && !Killed(d[1..][p], script(i), clock)
      {
        if Killed(d[1..][p], script(i), clock) {
          KilledNotFired(d[1..], script, i, clock, d[1..][p]);
        }
      }
      SelectSpared(d[1..], script(i), clock, later, [d[0].who] + later);
    }
  }

  // What expiring does, for every handler script that arms strictly positive delays.

  /** Nothing due is left behind. */
  lemma ExpireLeavesNothingDue<T>(s: seq<Entry<T>>, script: nat -> seq<Op<T>>, clock: int)
    requires Distinct(s) && Ordered(s) && Tame(script)
    ensures var left := Expire(s, script, 0, clock).1; forall i :: 0 <= i < |left| ==> left[i].at > clock
  {
    ExpireFires(s, script, 0, clock);
    NoneDue(Expire(s, script, 0, clock).1, clock);
  }

  lemma {:induction false} NoneDue<T>(s: seq<Entry<T>>, clock: int)
    requires Due(s, clock) == []
    ensures forall i :: 0 <= i < |s| ==> s[i].at > clock
  {
    if s == [] {
    } else {
      NoneDue(s[1..], clock);
      assert forall i :: 0 < i < |s| ==> s[i] == s[1..][i - 1];
    }
  }

  /** A timer due on entry is fired if and only if no handler that ran before its turn took it out. */
  lemma ExpireFiresExactly<T>(s: seq<Entry<T>>, script: nat -> seq<Op<T>>, clock: int, e: Entry<T>)
    requires Distinct(s) && Ordered(s) && Tame(script) && e in s && e.at <= clock
    ensures var fired := Expire(s, script, 0, clock).0;
            e.who in fired <==> !TakenOut(e, fired, script, 0, clock)
  {
    ExpireFires(s, script, 0, clock);
    DueMembers(s, clock);
    DueDistinct(s, clock);
    FiredExactly(Due(s, clock), script, 0, clock, e);
  }

  /** Only timers due on entry are fired, by deadline and then in the order of arming. */
  lemma ExpireFiresInOrder<T>(s: seq<Entry<T>>, script: nat -> seq<Op<T>>, clock: int)
    requires Distinct(s) && Ordered(s) && Tame(script)
    ensures var fired := Expire(s, script, 0, clock).0; fired == Select(Due(s, clock), fired)
  {
    ExpireFires(s, script, 0, clock);
    DueDistinct(s, clock);
    FiredInOrder(Due(s, clock), script, 0, clock);
  }

  lemma {:induction false} DueDistinct<T>(s: seq<Entry<T>>, clock: int)
    requires Distinct(s)
    ensures Distinct(Due(s, clock))
  {
    if s == [] {
    } else {
      DueDistinct(s[1..], clock);
      var t := Due(s[1..], clock);
      forall i | 0 <= i < |t|
        ensures t[i].who != s[0].who
      {
        DueFrom(s[1..], clock, i);
      }
    }
  }

  lemma {:induction false} DueFrom<T>(s: seq<Entry<T>>, clock: int, i: nat)
    requires i < |Due(s, clock)|
    ensures exists p :: 0 <= p < |s| && s[p] == Due(s, clock)[i]
  {
    if s[0].at > clock {
      DueFrom(s[1..], clock, i);
      var p :| 0 <= p < |s[1..]| && s[1..][p] == Due(s[1..], clock)[i];
      assert s[p + 1] == Due(s, clock)[i];
    } else if i > 0 {
      DueFrom(s[1..], clock, i - 1);
      var p :| 0 <= p < |s[1..]| && s[1..][p] == Due(s[1..], clock)[i - 1];
      assert s[p + 1] == Due(s, clock)[i];
    }
  }

  predicate Names<T(==)>(ops: seq<Op<T>>, w: T) {
    exists k :: 0 <= k < |ops| && ops[k].who == w
  }

  /** One of the operations arms the entry's timer for its deadline. */
  predicate Arms<T(==)>(ops: seq<Op<T>>, e: Entry<T>, clock: int) {
    exists k :: 0 <= k < |ops| && ops[k] == Arm(e.who, e.at - clock)
  }

  /** Handler j ran, and it names the event. */
  ghost predicate NamedBy<T>(w: T, fired: seq<T>, script: nat -> seq<Op<T>>, i: nat, j: nat) {
    j < |fired| && Names(script(i + j), w)
  }

  ghost predicate ArmedBy<T>(e: Entry<T>, fired: seq<T>, script: nat -> seq<Op<T>>, i: nat, j: nat, clock: int) {
    j < |fired| && Arms(script(i + j), e, clock)
  }

  lemma {:induction false} StepsLeave<T>(s: seq<Entry<T>>, ops: seq<Op<T>>, clock: int, e: Entry<T>)
    requires Distinct(s) && Ordered(s)
    ensures !Names(ops, e.who) ==> (e in Steps(s, ops, clock) <==> e in s)
    ensures e in Steps(s, ops, clock) ==> e in s || Arms(ops, e, clock)
    decreases |ops|
  {
    if ops == [] {
    } else {
      var op, s1 := ops[0], Step(s, ops[0], clock);
      StepKeeps(s, op, clock);
      StepsLeave(s1, ops[1..], clock, e);
      if op.Arm? {
        ArmSets(s, op.who, op.delay, clock, e.who, e.at);
        DeadlineMeans(s, e.who, e.at);
      } else {
        DisarmClears(s, op.who, clock, e);
      }
      assert forall k :: 0 <= k < |ops[1..]| ==> ops[1..][k] == ops[k + 1];
    }
  }

  lemma NamedShift<T>(e: Entry<T>, first: T, later: seq<T>, script: nat -> seq<Op<T>>, i: nat, j: nat, clock: int)
    ensures NamedBy(e.who, [first] + later, script, i, j + 1) <==> NamedBy(e.who, later, script, i + 1, j)
    ensures ArmedBy(e, [first] + later, script, i, j + 1, clock) <==> ArmedBy(e, later, script, i + 1, j, clock)
  {
    assert i + (j + 1) == i + 1 + j;
  }

  /**
   * A timer that was not due and that no handler that ran names is still there, with its
   * deadline; and a timer that is there was there before, or was armed by such a handler for
   * clock plus its delay.
   */
  lemma {:induction false} ExpireLeaves<T>(s: seq<Entry<T>>, script: nat -> seq<Op<T>>, i: nat, clock: int, e: Entry<T>)
    requires Distinct(s) && Ordered(s) && Tame(script)
    ensures var (fired, left) := Expire(s, script, i, clock);
            && (e in s && e.at > clock && (forall j: nat :: !NamedBy(e.who, fired, script, i, j)) ==> e in left)
            && (e in left ==> e in s || exists j: nat :: ArmedBy(e, fired, script, i, j, clock))
    decreases |Due(s, clock)|
  {
    ExpireUnfolds(s, script, i, clock);
    if s == [] || s[0].at > clock {
    } else {
      var s1 := Steps(s[1..], script(i), clock);
      var (later, left) := Expire(s1, script, i + 1, clock);
      FewerDue(s, script(i), clock);
      ExpireLeaves(s1, script, i + 1, clock, e);
      StepsLeave(s[1..], script(i), clock, e);
      assert s == [s[0]] + s[1..];
      assert i + 0 == i;
      var fired := [s[0].who] + later;
      assert NamedBy(e.who, fired, script, i, 0) <==> Names(script(i), e.who);
      assert ArmedBy(e, fired, script, i, 0, clock) <==> Arms(script(i), e, clock);
      forall j: nat
          {:trigger NamedBy(e.who, later, script, i + 1, j)}
          {:trigger ArmedBy(e, later, script, i + 1, j, clock)}
        ensures NamedBy(e.who, later, script, i + 1, j) ==> NamedBy(e.who, fired, script, i, j + 1)
        ensures ArmedBy(e, later, script, i + 1, j, clock) ==> ArmedBy(e, fired, script, i, j + 1, clock)
      {
        NamedShift(e, s[0].who, later, script, i, j, clock);
      }
    }
  }
}
