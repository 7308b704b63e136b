/**
 * Whole runs of load balancing: any number of requests, each choosing and releasing peers by
 * any of the three policies, in any order and at any times.
 */
module Balancer {
  import opened Basics
  import opened Upstream
  import opened UpstreamPeers

  /** One group's peers after request data words was used to ask it. */
  ghost predicate Legal(single: bool, s: seq<Peer>, words: seq<Word>, now: int, a: Answer)
    requires 0 < |s| <= |words| * WORD_BITS
  {
    && |a.peers| == |s| && |a.words| == |words|
    && WeightSum(a.peers) == WeightSum(s) && (EffectiveInRange(s) ==> EffectiveInRange(a.peers))
    && (forall j :: 0 <= j < |s| ==> SameStanding(if a.taken == Some(j) then Taken(s[j]) else s[j], a.peers[j]))
    && match a.taken
       case None => a.words == words
       case Some(i) =>
         && i < |s| && !s[i].down && !(s[i].maxConns != 0 && s[i].conns >= s[i].maxConns)
         && (if single then a.words == words else !Tried(words, i) && a.words == Marked(words, i))
  }

  lemma TakeIsLegal(s: seq<Peer>, words: seq<Word>, now: int, r: (Option<nat>, seq<Peer>))
    requires 0 < |s| <= |words| * WORD_BITS && KeepsBalance(s, r.1)
    requires r.0.Some? ==> r.0.value < |s| && Candidates(s, words, now)[r.0.value]
    ensures Legal(false, s, words, now, Take(r, words))
  {
    if r.0.Some? {
      WeightSumUpdate(r.1, r.0.value, Taken(r.1[r.0.value]));
    }
  }

  lemma RoundRobinIsLegal(single: bool, s: seq<Peer>, words: seq<Word>, now: int)
    requires 0 < |s| <= |words| * WORD_BITS
    ensures Legal(single, s, words, now, AskRoundRobin(single, s, words, now))
  {
    if single {
      WeightSumUpdate(s, 0, Taken(s[0]));
    } else {
      var c := Candidates(s, words, now);
      RoundRobinKeepsBalance(s, c, now);
      TakeIsLegal(s, words, now, RoundRobin(s, c, now));
    }
  }

  lemma LeastConnIsLegal(single: bool, s: seq<Peer>, words: seq<Word>, now: int)
    requires 0 < |s| <= |words| * WORD_BITS && Weighted(s)
    ensures Legal(single, s, words, now, AskLeastConn(single, s, words, now))
  {
    if single {
      RoundRobinIsLegal(single, s, words, now);
    } else {
      var c := Candidates(s, words, now);
      LeastConnKeepsBalance(s, c, now);
      LeastConnTakesLeast(s, c, now);
      TakeIsLegal(s, words, now, LeastConn(s, c, now));
    }
  }

  /** The answer of a successful probe of the ip hash policy. */
  lemma IpHashIsLegal(s: seq<Peer>, words: seq<Word>, now: int, addr: seq<nat>, hash: nat, tries: nat)
    requires 0 < |s| <= |words| * WORD_BITS && TotalWeight(s) > 0 && tries <= MAX_TRIES
    ensures var r := Probe(s, Candidates(s, words, now), addr, hash, tries);
            r.found.Some? ==>
              Legal(false, s, words, now,
                    Answer(r.found, s[r.found.value := Taken(Settled(s[r.found.value], 0, now))],
                           Marked(words, r.found.value)))
  {
    var r := Probe(s, Candidates(s, words, now), addr, hash, tries);
    if r.found.Some? {
      WeightSumUpdate(s, r.found.value, Taken(Settled(s[r.found.value], 0, now)));
    }
  }

  /**
   * A policy has no answer only when there is nobody to give: no untried peer that is not down,
   * not failed lately and below its limit; the peer of a single group is not asked for failures.
   */
  lemma AskAnswers(policy: Policy, single: bool, s: seq<Peer>, words: seq<Word>, now: int)
    requires 0 < |s| <= |words| * WORD_BITS && Weighted(s)
    ensures Ask(policy, single, s, words, now).taken.Some? <==>
            if single then !s[0].down && (s[0].maxConns == 0 || s[0].conns < s[0].maxConns)
            else exists i: nat :: i < |s| && !Tried(words, i) && MayServe(s[i], now)
  {
    var c := Candidates(s, words, now);
    HeaviestIs(BumpTo(s, c, |s|), c, |s|);
    LeastConnTakesLeast(s, c, now);
    if !single {
      if exists i: nat :: i < |s| && !Tried(words, i) && MayServe(s[i], now) {
        var i: nat :| i < |s| && !Tried(words, i) && MayServe(s[i], now);
        assert c[i];
      }
      if Ask(policy, single, s, words, now).taken.Some? {
        var b := Ask(policy, single, s, words, now).taken.value;
        assert c[b] && !Tried(words, b) && MayServe(s[b], now);
      }
    }
  }

  /** Neither down, nor full, nor failed so often and so lately that it is to be left alone. */
  predicate MayServe(p: Peer, now: int) {
    && !p.down && (p.maxConns == 0 || p.conns < p.maxConns)
    && (p.maxFails == 0 || p.fails < p.maxFails || now - p.checked > p.failTimeout)
  }

  // ---- the system ---------------------------------------------------------------

  /**
   * A request: which list it is on, its bitmap, the peer it holds, the peers it was given from
   * that list, and how many it was given before it switched to that list.
   */
  datatype Request = Request(inBackup: bool, words: seq<Word>, held: Option<nat>, given: seq<nat>, before: nat)

  /** lost are the connections whose request asked again, or ended, without a release: the list and the peer. */
  datatype System = System(
    single: bool, main: seq<Peer>, backup: seq<Peer>, requests: map<nat, Request>, lost: multiset<(bool, nat)>) {
    function Group(inBackup: bool): seq<Peer> {
      if inBackup then backup else main
    }

    function WithGroup(inBackup: bool, s: seq<Peer>): System {
      if inBackup then this.(backup := s) else this.(main := s)
    }

    predicate Alone(inBackup: bool) {
      single && !inBackup
    }
  }

  datatype Step =
    | Open(id: nat, words: seq<Word>)
    | Get(id: nat, now: int, first: Answer, second: Option<Answer>)
    | Free(id: nat, failed: bool, now: int)
    | Close(id: nat)
    | SetDown(inBackup: bool, i: nat, down: bool)

  /** The peers and bitmap after the request is answered from its list. */
  function Given(y: System, id: nat, a: Answer): System
    requires id in y.requests
  {
    var q := y.requests[id];
    var q' := q.(words := a.words, held := a.taken,
                 given := if a.taken.Some? then q.given + [a.taken.value] else q.given);
    y.WithGroup(q.inBackup, a.peers).(requests := y.requests[id := q'])
  }

  /** The request moves to the backup list with a cleared bitmap. */
  function Switched(y: System, id: nat): System
    requires id in y.requests && |y.backup| <= |y.requests[id].words| * WORD_BITS
  {
    var q := y.requests[id];
    y.(requests := y.requests[id := Request(true, Cleared(q.words, |y.backup|), q.held, [], |q.given|)])
  }

  /** The request gives up the peer that it holds, which is not released. */
  function Dropped(y: System, id: nat): System
    requires id in y.requests
  {
    var q := y.requests[id];
    if q.held == None then y
    else y.(requests := y.requests[id := q.(held := None)], lost := y.lost + multiset{(q.inBackup, q.held.value)})
  }

  ghost predicate Sized(y: System, words: seq<Word>) {
    |y.main| <= |words| * WORD_BITS && |y.backup| <= |words| * WORD_BITS
  }

  ghost predicate Allowed(y: System, step: Step) {
    match step
    case Open(id, words) => id !in y.requests && Sized(y, words) && (forall i: nat :: i < |y.main| ==> !Tried(words, i))
    case Get(id, now, first, second) =>
      && id in y.requests && Sized(y, y.requests[id].words)
      && var q := y.requests[id];
         && 0 < |y.Group(q.inBackup)|
         && Legal(y.Alone(q.inBackup), y.Group(q.inBackup), q.words, now, first)
         && (second.Some? <==> first.taken == None && !q.inBackup && y.backup != [])
         && (second.Some? ==> Legal(false, y.backup, Cleared(first.words, |y.backup|), now, second.value))
    case Free(id, failed, now) => id in y.requests && y.requests[id].held.Some?
    case Close(id) => id in y.requests
    case SetDown(inBackup, i, down) => i < |y.Group(inBackup)|
  }

  /** The first answer, or when there is a second one, the switch and that. */
  function Answered(y: System, id: nat, first: Answer, second: Option<Answer>): System
    requires id in y.requests && |y.backup| <= |first.words| * WORD_BITS
    requires y.requests[id].inBackup ==> second == None
  {
    var y1 := Given(y, id, first);
    if second == None then y1 else Given(Switched(y1, id), id, second.value)
  }

  ghost function Next(y: System, step: Step): System
    requires Inv(y) && Allowed(y, step)
  {
    match step
    case Open(id, words) => y.(requests := y.requests[id := Request(false, words, None, [], 0)])
    case Get(id, now, first, second) =>
      Answered(Dropped(y, id), id, first, second)
    case Free(id, failed, now) =>
      var q := y.requests[id];
      var s := y.Group(q.inBackup);
      var r := s[q.held.value := Released(s[q.held.value], y.Alone(q.inBackup), failed, now)];
      y.WithGroup(q.inBackup, r).(requests := y.requests[id := q.(held := None)])
    case Close(id) => Dropped(y, id).(requests := Dropped(y, id).requests - {id})
    case SetDown(inBackup, i, down) =>
      var s := y.Group(inBackup);
      y.WithGroup(inBackup, s[i := s[i].(down := down)])
  }

  // ---- the invariant --------------------------------------------------------------

  function Holders(requests: map<nat, Request>, inBackup: bool, i: nat): set<nat> {
    set id | id in requests && requests[id].inBackup == inBackup && requests[id].held == Some(i)
  }

  /** Peer i of a list serves exactly the requests that hold it and those lost, and no more than it may. */
  ghost predicate Counted(y: System, inBackup: bool, i: nat)
    requires i < |y.Group(inBackup)|
  {
    var p := y.Group(inBackup)[i];
    && p.conns == |Holders(y.requests, inBackup, i)| + y.lost[(inBackup, i)]
    && (p.maxConns > 0 ==> p.conns <= p.maxConns)
  }

  ghost predicate ListOk(y: System, inBackup: bool) {
    var s := y.Group(inBackup);
    && Weighted(s) && EffectiveInRange(s) && WeightSum(s) == 0
    && (forall i :: 0 <= i < |s| ==> s[i].maxFails >= 0 && s[i].maxConns >= 0)
    && (forall i: nat :: i < |s| ==> Counted(y, inBackup, i))
  }

  /** The bitmap is large enough for both lists, and a list of several peers gives no peer twice. */
  ghost predicate RequestOk(y: System, q: Request) {
    && Sized(y, q.words) && (q.inBackup ==> y.backup != [])
    && (q.held.Some? ==> q.held.value < |y.Group(q.inBackup)|)
    && (forall k :: 0 <= k < |q.given| ==> q.given[k] < |y.Group(q.inBackup)|)
    && q.before <= (if q.inBackup then |y.main| else 0)
    && (!y.Alone(q.inBackup) ==>
          && (forall k :: 0 <= k < |q.given| ==> Tried(q.words, q.given[k]))
          && (forall k, l :: 0 <= k < l < |q.given| ==> q.given[k] != q.given[l]))
  }

  ghost predicate Inv(y: System) {
    && 0 < |y.main| && (y.single ==> |y.main| == 1 && y.backup == [])
    && ListOk(y, false) && ListOk(y, true)
    && forall id :: id in y.requests ==> RequestOk(y, y.requests[id])
  }

  // ---- every step keeps it ----------------------------------------------------------

  /** Replacing one request moves it between the holders of the peers, and nothing else. */
  lemma HoldersUpdate(requests: map<nat, Request>, id: nat, q: Request, inBackup: bool, i: nat)
    ensures Holders(requests[id := q], inBackup, i) ==
            (if q.inBackup == inBackup && q.held == Some(i) then Holders(requests, inBackup, i) + {id}
             else Holders(requests, inBackup, i) - {id})
  {
  }

  lemma HoldersRemove(requests: map<nat, Request>, id: nat, inBackup: bool, i: nat)
    requires id in requests && requests[id].held == None
    ensures Holders(requests - {id}, inBackup, i) == Holders(requests, inBackup, i)
  {
  }

  /** Same peers, same holders: the list is as good as before. */
  lemma SameList(y: System, z: System, inBackup: bool)
    requires ListOk(y, inBackup) && z.Group(inBackup) == y.Group(inBackup) && z.lost == y.lost
    requires forall i: nat :: i < |y.Group(inBackup)| ==>
               Holders(z.requests, inBackup, i) == Holders(y.requests, inBackup, i)
    ensures ListOk(z, inBackup)
  {
    forall i: nat | i < |z.Group(inBackup)|
      ensures Counted(z, inBackup, i)
    {
      assert Counted(y, inBackup, i);
    }
  }

  lemma GivenCounts(y: System, id: nat, now: int, a: Answer, i: nat)
    requires id in y.requests && y.requests[id].held == None && Sized(y, y.requests[id].words)
    requires var q := y.requests[id]; 0 < |y.Group(q.inBackup)| && ListOk(y, q.inBackup)
    requires var q := y.requests[id]; Legal(y.Alone(q.inBackup), y.Group(q.inBackup), q.words, now, a)
    requires i < |y.Group(y.requests[id].inBackup)|
    ensures Counted(Given(y, id, a), y.requests[id].inBackup, i)
  {
    var q := y.requests[id];
    var z := Given(y, id, a);
    assert Counted(y, q.inBackup, i);
    HoldersUpdate(y.requests, id, z.requests[id], q.inBackup, i);
    assert id !in Holders(y.requests, q.inBackup, i);
    assert Holders(y.requests, q.inBackup, i) - {id} == Holders(y.requests, q.inBackup, i);
  }

  lemma GivenListOk(y: System, id: nat, now: int, a: Answer)
    requires id in y.requests && y.requests[id].held == None && Sized(y, y.requests[id].words)
    requires var q := y.requests[id]; 0 < |y.Group(q.inBackup)| && ListOk(y, q.inBackup)
    requires var q := y.requests[id]; Legal(y.Alone(q.inBackup), y.Group(q.inBackup), q.words, now, a)
    ensures ListOk(Given(y, id, a), y.requests[id].inBackup)
  {
    forall i: nat | i < |y.Group(y.requests[id].inBackup)|
      ensures Counted(Given(y, id, a), y.requests[id].inBackup, i)
    {
      GivenCounts(y, id, now, a, i);
    }
  }

  lemma GivenOtherList(y: System, id: nat, a: Answer, inBackup: bool)
    requires id in y.requests && y.requests[id].held == None && y.requests[id].inBackup != inBackup
    requires ListOk(y, inBackup)
    ensures ListOk(Given(y, id, a), inBackup)
  {
    var z := Given(y, id, a);
    forall i: nat | i < |y.Group(inBackup)|
      ensures Holders(z.requests, inBackup, i) == Holders(y.requests, inBackup, i)
    {
      HoldersUpdate(y.requests, id, z.requests[id], inBackup, i);
    }
    SameList(y, z, inBackup);
  }

  lemma GivenRequestOk(y: System, id: nat, now: int, a: Answer)
    requires id in y.requests && y.requests[id].held == None && RequestOk(y, y.requests[id])
    requires var q := y.requests[id]; 0 < |y.Group(q.inBackup)|
    requires var q := y.requests[id]; Legal(y.Alone(q.inBackup), y.Group(q.inBackup), q.words, now, a)
    ensures RequestOk(Given(y, id, a), Given(y, id, a).requests[id])
  {
    var q := y.requests[id];
    var z := Given(y, id, a);
    var q' := z.requests[id];
    if a.taken.Some? && !y.Alone(q.inBackup) {
      forall k | 0 <= k < |q'.given|
        ensures Tried(q'.words, q'.given[k])
      {
        assert k < |q.given| ==> Tried(q.words, q.given[k]);
      }
      forall k, l | 0 <= k < l < |q'.given|
        ensures q'.given[k] != q'.given[l]
      {
        assert Tried(q.words, q.given[k]);
      }
    }
  }

  /** A request that a step does not touch stays as good while the lists keep their lengths. */
  lemma SameRequest(y: System, z: System, q: Request)
    requires RequestOk(y, q) && z.single == y.single
    requires |z.main| == |y.main| && |z.backup| == |y.backup|
    ensures RequestOk(z, q)
  {
  }

  lemma GivenKeepsInv(y: System, id: nat, now: int, a: Answer)
    requires Inv(y) && id in y.requests && y.requests[id].held == None
    requires var q := y.requests[id]; 0 < |y.Group(q.inBackup)|
    requires var q := y.requests[id]; Legal(y.Alone(q.inBackup), y.Group(q.inBackup), q.words, now, a)
    ensures Inv(Given(y, id, a))
  {
    var z := Given(y, id, a);
    var b := y.requests[id].inBackup;
    GivenListOk(y, id, now, a);
    GivenOtherList(y, id, a, !b);
    GivenRequestOk(y, id, now, a);
    GivenOtherRequests(y, id, a);
  }

  lemma GivenOtherRequests(y: System, id: nat, a: Answer)
    requires id in y.requests && |a.peers| == |y.Group(y.requests[id].inBackup)|
    requires forall r :: r in y.requests ==> RequestOk(y, y.requests[r])
    ensures forall r :: r in y.requests && r != id ==> RequestOk(Given(y, id, a), y.requests[r])
  {
    var z := Given(y, id, a);
    forall r | r in y.requests && r != id
      ensures RequestOk(z, y.requests[r])
    {
      SameRequest(y, z, y.requests[r]);
    }
  }

  /** Different numbers below n are no more than n. */
  lemma {:induction false} Pigeonhole(s: seq<nat>, n: nat)
    requires forall k :: 0 <= k < |s| ==> s[k] < n
    requires forall k, l :: 0 <= k < l < |s| ==> s[k] != s[l]
    ensures |s| <= n
    decreases n
  {
    if s == [] {
    } else {
      assert s[0] < n;
      if k :| 0 <= k < |s| && s[k] == n - 1 {
        Pigeonhole(s[..k] + s[k + 1..], n - 1);
      } else {
        Pigeonhole(s, n - 1);
      }
    }
  }

  lemma SwitchedKeepsInv(y: System, id: nat)
    requires Inv(y) && id in y.requests && y.requests[id].held == None && y.backup != [] && !y.requests[id].inBackup
    ensures |y.backup| <= |y.requests[id].words| * WORD_BITS && Inv(Switched(y, id))
  {
    assert RequestOk(y, y.requests[id]);
    Pigeonhole(y.requests[id].given, |y.main|);
    var z := Switched(y, id);
    forall b: bool, i: nat | i < |y.Group(b)|
      ensures Holders(z.requests, b, i) == Holders(y.requests, b, i)
    {
      HoldersUpdate(y.requests, id, z.requests[id], b, i);
    }
    SameList(y, z, false);
    SameList(y, z, true);
    forall r | r in z.requests
      ensures RequestOk(z, z.requests[r])
    {
      assert RequestOk(y, y.requests[r]);
    }
  }

  lemma FreeCounts(y: System, id: nat, p: Peer, i: nat)
    requires Inv(y) && id in y.requests && y.requests[id].held.Some?
    requires var q := y.requests[id];
             && q.held.value < |y.Group(q.inBackup)| && i < |y.Group(q.inBackup)|
             && p.conns == y.Group(q.inBackup)[q.held.value].conns - 1
             && p.maxConns == y.Group(q.inBackup)[q.held.value].maxConns
    ensures var q := y.requests[id];
            var z := y.WithGroup(q.inBackup, y.Group(q.inBackup)[q.held.value := p]);
            Counted(z.(requests := y.requests[id := q.(held := None)]), q.inBackup, i)
  {
    var q := y.requests[id];
    assert Counted(y, q.inBackup, i);
    HoldersUpdate(y.requests, id, q.(held := None), q.inBackup, i);
    if i == q.held.value {
      assert id in Holders(y.requests, q.inBackup, i);
    } else {
      assert id !in Holders(y.requests, q.inBackup, i);
      assert Holders(y.requests, q.inBackup, i) - {id} == Holders(y.requests, q.inBackup, i);
    }
  }

  lemma FreeListOk(y: System, id: nat, failed: bool, now: int)
    requires Inv(y) && id in y.requests && y.requests[id].held.Some?
    ensures ListOk(Next(y, Free(id, failed, now)), y.requests[id].inBackup)
  {
    var q := y.requests[id];
    assert RequestOk(y, q);
    var s := y.Group(q.inBackup);
    var k := q.held.value;
    ReleaseKeepsBalance(s, k, y.Alone(q.inBackup), failed, now);
    forall i: nat | i < |s|
      ensures Counted(Next(y, Free(id, failed, now)), q.inBackup, i)
    {
      FreeCounts(y, id, Released(s[k], y.Alone(q.inBackup), failed, now), i);
    }
  }

  lemma FreeOtherList(y: System, id: nat, failed: bool, now: int, b: bool)
    requires Inv(y) && id in y.requests && y.requests[id].held.Some? && b != y.requests[id].inBackup
    ensures ListOk(Next(y, Free(id, failed, now)), b)
  {
    assert RequestOk(y, y.requests[id]);
    var z := Next(y, Free(id, failed, now));
    forall i: nat | i < |y.Group(b)|
      ensures Holders(z.requests, b, i) == Holders(y.requests, b, i)
    {
      HoldersUpdate(y.requests, id, z.requests[id], b, i);
    }
    SameList(y, z, b);
  }

  lemma FreeKeepsInv(y: System, id: nat, failed: bool, now: int)
    requires Inv(y) && id in y.requests && y.requests[id].held.Some?
    ensures Inv(Next(y, Free(id, failed, now)))
  {
    assert RequestOk(y, y.requests[id]);
    FreeListOk(y, id, failed, now);
    FreeOtherList(y, id, failed, now, !y.requests[id].inBackup);
    var z := Next(y, Free(id, failed, now));
    forall r | r in z.requests
      ensures RequestOk(z, z.requests[r])
    {
      assert RequestOk(y, y.requests[r]);
    }
  }

  /** A request that asks again, or ends, without a release leaves its connection counted. */
  lemma DroppedKeepsInv(y: System, id: nat)
    requires Inv(y) && id in y.requests
    ensures Inv(Dropped(y, id)) && Dropped(y, id).requests[id].held == None
  {
    var z := Dropped(y, id);
    forall b: bool
      ensures ListOk(z, b)
    {
      DroppedListOk(y, id, b);
    }
    forall r | r in z.requests
      ensures RequestOk(z, z.requests[r])
    {
      assert RequestOk(y, y.requests[r]);
    }
  }

  lemma DroppedListOk(y: System, id: nat, b: bool)
    requires id in y.requests && ListOk(y, b)
    ensures ListOk(Dropped(y, id), b)
  {
    var q, z := y.requests[id], Dropped(y, id);
    forall i: nat | i < |y.Group(b)|
      ensures Counted(z, b, i)
    {
      assert Counted(y, b, i);
      HoldersUpdate(y.requests, id, q.(held := None), b, i);
      if q.held == Some(i) && q.inBackup == b {
        assert id in Holders(y.requests, b, i);
      } else if q.held.Some? {
        assert id !in Holders(y.requests, b, i);
        assert Holders(y.requests, b, i) - {id} == Holders(y.requests, b, i);
      }
    }
  }

  lemma AnsweredKeepsInv(y: System, id: nat, now: int, first: Answer, second: Option<Answer>)
    requires Inv(y) && Allowed(y, Get(id, now, first, second)) && y.requests[id].held == None
    ensures Inv(Answered(y, id, first, second))
  {
    GivenKeepsInv(y, id, now, first);
    if second.Some? {
      var y1 := Given(y, id, first);
      assert y1.requests[id].held == None && y1.backup == y.backup;
      SwitchedKeepsInv(y1, id);
      GivenKeepsInv(Switched(y1, id), id, now, second.value);
    }
  }

  lemma GetKeepsInv(y: System, id: nat, now: int, first: Answer, second: Option<Answer>)
    requires Inv(y) && Allowed(y, Get(id, now, first, second))
    ensures Inv(Next(y, Get(id, now, first, second)))
  {
    DroppedKeepsInv(y, id);
    AnsweredKeepsInv(Dropped(y, id), id, now, first, second);
  }

  lemma OpenKeepsInv(y: System, id: nat, words: seq<Word>)
    requires Inv(y) && Allowed(y, Open(id, words))
    ensures Inv(Next(y, Open(id, words)))
  {
    var z := Next(y, Open(id, words));
    forall b: bool, i: nat | i < |y.Group(b)|
      ensures Holders(z.requests, b, i) == Holders(y.requests, b, i)
    {
      HoldersUpdate(y.requests, id, z.requests[id], b, i);
    }
    SameList(y, z, false);
    SameList(y, z, true);
    forall r | r in z.requests
      ensures RequestOk(z, z.requests[r])
    {
      assert r != id ==> RequestOk(y, y.requests[r]);
    }
  }

  lemma CloseKeepsInv(y: System, id: nat)
    requires Inv(y) && Allowed(y, Close(id))
    ensures Inv(Next(y, Close(id)))
  {
    DroppedKeepsInv(y, id);
    CloseUnheld(Dropped(y, id), id);
  }

  lemma CloseUnheld(y: System, id: nat)
    requires Inv(y) && id in y.requests && y.requests[id].held == None
    ensures Inv(y.(requests := y.requests - {id}))
  {
    var z := y.(requests := y.requests - {id});
    forall b: bool, i: nat | i < |y.Group(b)|
      ensures Holders(z.requests, b, i) == Holders(y.requests, b, i)
    {
      HoldersRemove(y.requests, id, b, i);
    }
    SameList(y, z, false);
    SameList(y, z, true);
    forall r | r in z.requests
      ensures RequestOk(z, z.requests[r])
    {
      assert RequestOk(y, y.requests[r]);
    }
  }

  lemma SetDownListOk(y: System, inBackup: bool, i: nat, down: bool)
    requires Inv(y) && Allowed(y, SetDown(inBackup, i, down))
    ensures ListOk(Next(y, SetDown(inBackup, i, down)), inBackup)
  {
    var s := y.Group(inBackup);
    WeightSumUpdate(s, i, s[i].(down := down));
    forall j: nat | j < |s|
      ensures Counted(Next(y, SetDown(inBackup, i, down)), inBackup, j)
    {
      assert Counted(y, inBackup, j);
    }
  }

  lemma SetDownKeepsInv(y: System, inBackup: bool, i: nat, down: bool)
    requires Inv(y) && Allowed(y, SetDown(inBackup, i, down))
    ensures Inv(Next(y, SetDown(inBackup, i, down)))
  {
    var z := Next(y, SetDown(inBackup, i, down));
    SetDownListOk(y, inBackup, i, down);
    SameList(y, z, !inBackup);
    forall r | r in z.requests
      ensures RequestOk(z, z.requests[r])
    {
      SameRequest(y, z, y.requests[r]);
    }
  }

  lemma StepKeepsInv(y: System, step: Step)
    requires Inv(y) && Allowed(y, step)
    ensures Inv(Next(y, step))
  {
    match step
    case Open(id, words) => OpenKeepsInv(y, id, words);
    case Get(id, now, first, second) => GetKeepsInv(y, id, now, first, second);
    case Free(id, failed, now) => FreeKeepsInv(y, id, failed, now);
    case Close(id) => CloseKeepsInv(y, id);
    case SetDown(inBackup, i, down) => SetDownKeepsInv(y, inBackup, i, down);
  }

  /** A freshly configured upstream. */
  ghost predicate Fresh(s: seq<Peer>) {
    forall i :: 0 <= i < |s| ==>
      && s[i].weight >= 1 && s[i].effectiveWeight == s[i].weight && s[i].currentWeight == 0
      && s[i].conns == 0 && s[i].maxConns >= 0 && s[i].maxFails >= 0
  }

  lemma {:induction false} FreshBalance(s: seq<Peer>)
    requires Fresh(s)
    ensures WeightSum(s) == 0
  {
    if s == [] {
    } else {
      FreshBalance(s[1..]);
    }
  }

  lemma InitInv(y: System)
    requires Fresh(y.main) && Fresh(y.backup) && y.requests == map[] && y.lost == multiset{} && 0 < |y.main|
    requires y.single ==> |y.main| == 1 && y.backup == []
    ensures Inv(y)
  {
    FreshBalance(y.main);
    FreshBalance(y.backup);
    forall b: bool, i: nat | i < |y.Group(b)|
      ensures Counted(y, b, i)
    {
      assert Holders(y.requests, b, i) == {};
    }
  }

  ghost predicate IsRun(run: seq<System>, steps: seq<Step>) {
    && |run| == |steps| + 1
    && Fresh(run[0].main) && Fresh(run[0].backup) && 0 < |run[0].main|
    && run[0].requests == map[] && run[0].lost == multiset{}
    && (run[0].single ==> |run[0].main| == 1 && run[0].backup == [])
    && forall t :: 0 <= t < |steps| ==> Goes(run[t], steps[t], run[t + 1])
  }

  /** From a state that keeps the invariant a step is allowed and leads where Next says. */
  ghost predicate Goes(y: System, step: Step, z: System) {
    Inv(y) ==> Allowed(y, step) && z == Next(y, step)
  }

  lemma {:induction false} RunKeepsInv(run: seq<System>, steps: seq<Step>, t: nat)
    requires IsRun(run, steps) && t <= |steps|
    ensures Inv(run[t])
  {
    if t == 0 {
      InitInv(run[0]);
    } else {
      RunKeepsInv(run, steps, t - 1);
      assert Goes(run[t - 1], steps[t - 1], run[t]);
      StepKeepsInv(run[t - 1], steps[t - 1]);
    }
  }

  /**
   * At every moment of every run: the current weights of each list sum to zero, effective
   * weights stay between 0 and the weight, each peer's connections are those given and not
   * released, by a request that holds it or held it, and never exceed its limit, and a request
   * on a list of several peers was never given one of them twice.
   */
  lemma RunsAreBalanced(run: seq<System>, steps: seq<Step>, t: nat, inBackup: bool, i: nat)
    requires IsRun(run, steps) && t <= |steps| && i < |run[t].Group(inBackup)|
    ensures WeightSum(run[t].Group(inBackup)) == 0
    ensures var p := run[t].Group(inBackup)[i];
            && 0 <= p.effectiveWeight <= p.weight
            && p.conns == |Holders(run[t].requests, inBackup, i)| + run[t].lost[(inBackup, i)]
            && (p.maxConns > 0 ==> p.conns <= p.maxConns)
    ensures forall id :: id in run[t].requests && !run[t].Alone(run[t].requests[id].inBackup) ==>
              forall k, l :: 0 <= k < l < |run[t].requests[id].given| ==>
                run[t].requests[id].given[k] != run[t].requests[id].given[l]
  {
    RunKeepsInv(run, steps, t);
    assert ListOk(run[t], inBackup);
    assert Counted(run[t], inBackup, i);
    forall id | id in run[t].requests
      ensures RequestOk(run[t], run[t].requests[id])
    {
    }
  }

  /** In every run a request is given no more peers than there are, over both lists. */
  lemma GetsAreBounded(run: seq<System>, steps: seq<Step>, t: nat, id: nat)
    requires IsRun(run, steps) && t <= |steps| && id in run[t].requests && !run[t].single
    ensures var y, q := run[t], run[t].requests[id];
            q.before + |q.given| <= |y.main| + if q.inBackup then |y.backup| else 0
  {
    RunKeepsInv(run, steps, t);
    var y, q := run[t], run[t].requests[id];
    assert RequestOk(y, q);
    Pigeonhole(q.given, |y.Group(q.inBackup)|);
  }

  // ---- the policies' own answers ------------------------------------------------------

  /** The request can ask its list. */
  ghost predicate Asking(y: System, id: nat) {
    Inv(y) && id in y.requests
  }

  lemma AskingHasPeers(y: System, id: nat)
    requires Asking(y, id)
    ensures var q := y.requests[id];
            0 < |y.Group(q.inBackup)| && Sized(y, q.words) && Weighted(y.Group(q.inBackup)) && Weighted(y.backup)
  {
    assert RequestOk(y, y.requests[id]);
    assert ListOk(y, y.requests[id].inBackup) && ListOk(y, true);
  }

  /** What its own list answers. */
  ghost function FirstAnswer(y: System, id: nat, policy: Policy, now: int): (a: Answer)
    requires Asking(y, id)
    ensures |y.main| <= |a.words| * WORD_BITS && |y.backup| <= |a.words| * WORD_BITS
  {
    AskingHasPeers(y, id);
    var q := y.requests[id];
    Ask(policy, y.Alone(q.inBackup), y.Group(q.inBackup), q.words, now)
  }

  /** The request asks its list by the policy, and the backup list when that has nobody. */
  ghost function GetBy(y: System, id: nat, policy: Policy, now: int): Step
    requires Asking(y, id)
  {
    var q, a := y.requests[id], FirstAnswer(y, id, policy, now);
    if a.taken.Some? || q.inBackup || y.backup == [] then Get(id, now, a, None)
    else Get(id, now, a, Some(Ask(policy, false, y.backup, Cleared(a.words, |y.backup|), now)))
  }

  lemma AskIsLegal(policy: Policy, single: bool, s: seq<Peer>, words: seq<Word>, now: int)
    requires 0 < |s| <= |words| * WORD_BITS && Weighted(s)
    ensures Legal(single, s, words, now, Ask(policy, single, s, words, now))
  {
    if policy.ByRoundRobin? {
      RoundRobinIsLegal(single, s, words, now);
    } else {
      LeastConnIsLegal(single, s, words, now);
    }
  }

  /** What round robin and least connections answer, with the switch to the backups, is a step of the system. */
  lemma PolicyIsAllowed(y: System, id: nat, policy: Policy, now: int)
    requires Asking(y, id)
    ensures Allowed(y, GetBy(y, id, policy, now))
  {
    AskingHasPeers(y, id);
    var q := y.requests[id];
    AskIsLegal(policy, y.Alone(q.inBackup), y.Group(q.inBackup), q.words, now);
    var a := Ask(policy, y.Alone(q.inBackup), y.Group(q.inBackup), q.words, now);
    if y.backup != [] {
      AskIsLegal(policy, false, y.backup, Cleared(a.words, |y.backup|), now);
    }
  }

  /**
   * A request of a group of several peers gets none only when neither its own list has an untried
   * peer that may serve, nor, unless it has switched before, the backups have one at all.
   */
  lemma BusyMeansNobody(y: System, id: nat, policy: Policy, now: int)
    requires Asking(y, id) && !y.single
    ensures var e, q := GetBy(y, id, policy, now), y.requests[id];
            (if e.second.Some? then e.second.value else e.first).taken == None ==>
              && (forall i: nat :: i < |y.Group(q.inBackup)| && i < |q.words| * WORD_BITS && !Tried(q.words, i) ==>
                    !MayServe(y.Group(q.inBackup)[i], now))
              && (!q.inBackup ==> forall i :: 0 <= i < |y.backup| ==> !MayServe(y.backup[i], now))
  {
    AskingHasPeers(y, id);
    var q, a := y.requests[id], FirstAnswer(y, id, policy, now);
    AskAnswers(policy, false, y.Group(q.inBackup), q.words, now);
    if y.backup != [] {
      AskAnswers(policy, false, y.backup, Cleared(a.words, |y.backup|), now);
      assert forall i: nat :: i < |y.backup| ==> !Tried(Cleared(a.words, |y.backup|), i);
    }
  }

  /** That step in full: the lists, and the request's list, bitmap and peer. */
  lemma PolicyStep(y: System, id: nat, policy: Policy, now: int)
    requires Asking(y, id)
    ensures Allowed(y, GetBy(y, id, policy, now))
    ensures var q, z, a := y.requests[id], Next(y, GetBy(y, id, policy, now)), FirstAnswer(y, id, policy, now);
            && id in z.requests && z.single == y.single
            && if a.taken.Some? || q.inBackup || y.backup == [] then
                 && z.Group(q.inBackup) == a.peers && z.Group(!q.inBackup) == y.Group(!q.inBackup)
                 && z.requests[id].(given := [], before := 0) == Request(q.inBackup, a.words, a.taken, [], 0)
               else
                 var b := Ask(policy, false, y.backup, Cleared(a.words, |y.backup|), now);
                 && z.main == a.peers && z.backup == b.peers
                 && z.requests[id].(given := [], before := 0) == Request(true, b.words, b.taken, [], 0)
  {
    PolicyIsAllowed(y, id, policy, now);
  }

  lemma {:induction false} WeightedTotal(s: seq<Peer>)
    requires Weighted(s)
    ensures TotalWeight(s) >= |s|
  {
    if s == [] {
    } else {
      WeightedTotal(s[1..]);
    }
  }

  /** The ip hash policy: a probe that hits, or else round robin. */
  ghost function GetByIpHash(y: System, id: nat, addr: seq<nat>, hash: nat, tries: nat, now: int): Step
    requires Asking(y, id)
  {
    AskingHasPeers(y, id);
    var q := y.requests[id];
    var s := y.Group(q.inBackup);
    WeightedTotal(s);
    if tries > MAX_TRIES || y.Alone(q.inBackup) then GetBy(y, id, ByRoundRobin, now)
    else
      var r := Probe(s, Candidates(s, q.words, now), addr, hash, tries);
      if r.found == None then GetBy(y, id, ByRoundRobin, now)
      else
        var k := r.found.value;
        Get(id, now, Answer(r.found, s[k := Taken(Settled(s[k], 0, now))], Marked(q.words, k)), None)
  }

  /** What the ip hash policy answers is a step of the system. */
  lemma IpHashIsAllowed(y: System, id: nat, addr: seq<nat>, hash: nat, tries: nat, now: int)
    requires Asking(y, id)
    ensures Allowed(y, GetByIpHash(y, id, addr, hash, tries, now))
  {
    AskingHasPeers(y, id);
    PolicyIsAllowed(y, id, ByRoundRobin, now);
    var q := y.requests[id];
    var s := y.Group(q.inBackup);
    WeightedTotal(s);
    if tries <= MAX_TRIES && !y.Alone(q.inBackup) {
      IpHashIsLegal(s, q.words, now, addr, hash, tries);
    }
  }

  // ---- the data of one request in the system ----------------------------------------------

  /** The group g with its backups, and the data d of request id, are as the system says. */
  ghost predicate Shows(y: System, id: nat, g: PeerGroup, d: PeerData)
    reads g.peer, if g.next != null then {g.next.peer} else {}, d, d.tried
  {
    && y.single == g.single && y.main == g.peer[..] && y.backup == (if g.next != null then g.next.peer[..] else [])
    && id in y.requests && y.requests[id].words == d.tried[..]
    && (if y.requests[id].inBackup then g.next != null && d.group == g.next else d.group == g)
  }

  /** A call of the policy's get function is the step of the system. */
  twostate lemma ServedIsStep(new y: System, new id: nat, g: PeerGroup, d: PeerData, new policy: Policy, new now: int,
                              new ok: bool)
    requires Asking(y, id) && g.Shaped() && old(Shows(y, id, g, d)) && old(d.Valid()) && d.Served(policy, now, ok)
    requires y.requests[id].inBackup ==> unchanged(g.peer)
    ensures Allowed(y, GetBy(y, id, policy, now))
    ensures var z := Next(y, GetBy(y, id, policy, now));
            && Shows(z, id, g, d) && ok == z.requests[id].held.Some?
            && d.current == (if ok then z.requests[id].held.value else old(d.current))
  {
    PolicyStep(y, id, policy, now);
  }

  /** So is a call of the ip hash policy's that hits; one that does not is answered by round robin, as above. */
  twostate lemma HashedIsStep(new y: System, new id: nat, g: PeerGroup, h: IpHashData, new now: int, new ok: bool)
    requires Asking(y, id) && g.Shaped() && old(Shows(y, id, g, h.rrp)) && old(h.Ready()) && h.Served(now, ok)
    requires y.requests[id].inBackup ==> unchanged(g.peer)
    ensures var e := GetByIpHash(y, id, h.addr, old(h.hash), old(h.tries), now);
            && Allowed(y, e)
            && if e == GetBy(y, id, ByRoundRobin, now) then h.rrp.Served(ByRoundRobin, now, ok)
               else
                 var z := Next(y, e);
                 Shows(z, id, g, h.rrp) && ok && z.requests[id].held == Some(h.rrp.current)
  {
    IpHashIsAllowed(y, id, h.addr, old(h.hash), old(h.tries), now);
  }

  /** And a call that releases the peer held. */
  twostate lemma FreedIsStep(new y: System, new id: nat, g: PeerGroup, d: PeerData, new failed: bool, new now: int)
    requires Inv(y) && Allowed(y, Free(id, failed, now)) && g.Shaped()
    requires old(Shows(y, id, g, d)) && old(d.Valid()) && y.requests[id].held == Some(old(d.current))
    requires old(d.current) < old(d.group).peer.Length && d.Freed(failed, now)
    requires if y.requests[id].inBackup then unchanged(g.peer) else g.next != null ==> unchanged(g.next.peer)
    ensures Shows(Next(y, Free(id, failed, now)), id, g, d)
  {
  }
}
