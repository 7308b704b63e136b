/**
 * What failures do to a peer over time: how releases and choices together keep a failing peer
 * out, let it be tried again, and bring back its weight
 * (ngx_http_upstream_free_round_robin_peer and the choices of the policies).
 */
module PeerHealth {
  import opened Basics
  import opened Upstream
  import opened UpstreamPeers

  /** What can happen to one peer: a release after a failure or a success, a choice of it, or of others. */
  datatype Happening = Failure(now: int) | Success(now: int) | Choice(now: int) | Other

  /** All that failures have to do with, apart from the weights. */
  predicate SameHealth(p: Peer, q: Peer) {
    && q.fails == p.fails && q.accessed == p.accessed && q.checked == p.checked
    && q.maxFails == p.maxFails && q.failTimeout == p.failTimeout
  }

  ghost predicate Happens(p: Peer, h: Happening, q: Peer) {
    match h
    case Failure(now) => SameHealth(Released(p, false, true, now), q)
    case Success(now) => SameHealth(Released(p, false, false, now), q)
    case Choice(now) => Eligible(p, now) && exists total :: SameHealth(Taken(Settled(p, total, now)), q)
    case Other => SameHealth(p, q)
  }

  ghost predicate Lives(states: seq<Peer>, hs: seq<Happening>) {
    && |states| == |hs| + 1
    && forall k: nat {:trigger Goes(states, hs, k)} :: k < |hs| ==> Goes(states, hs, k)
  }

  ghost predicate Goes(states: seq<Peer>, hs: seq<Happening>, k: nat)
    requires k < |hs| && |states| == |hs| + 1
  {
    Happens(states[k], hs[k], states[k + 1])
  }

  // ---- the answers of the policies ----------------------------------------------------------

  lemma ChoiceHappens(p: Peer, total: int, now: int, q: Peer)
    requires Eligible(p, now) && SameHealth(Taken(Settled(p, total, now)), q)
    ensures Happens(p, Choice(now), q)
  {
  }

  /** A choice by round robin happens to the peer taken, and nothing happens to the others. */
  lemma RoundRobinHappens(s: seq<Peer>, c: seq<bool>, now: int, i: nat)
    requires |c| == |s| && i < |s| && forall k :: 0 <= k < |s| && c[k] ==> Eligible(s[k], now)
    ensures var (b, r) := RoundRobin(s, c, now);
            if b == Some(i) then Happens(s[i], Choice(now), Taken(r[i])) else Happens(s[i], Other, r[i])
  {
    var b := RoundRobin(s, c, now).0;
    if b == Some(i) {
      ChoiceHappens(s[i], TotalTo(s, c, |s|), now, Taken(RoundRobin(s, c, now).1[i]));
    }
  }

  lemma LeastConnHappens(s: seq<Peer>, c: seq<bool>, now: int, i: nat)
    requires |c| == |s| && i < |s| && Weighted(s) && forall k :: 0 <= k < |s| && c[k] ==> Eligible(s[k], now)
    ensures var (b, r) := LeastConn(s, c, now);
            if b == Some(i) then Happens(s[i], Choice(now), Taken(r[i])) else Happens(s[i], Other, r[i])
  {
    var (first, many) := LeastTo(s, c, |s|);
    if first == None {
    } else if many {
      RoundRobinHappens(s, Tied(s, c, first.value), now, i);
    } else if first == Some(i) {
      ChoiceHappens(s[i], 0, now, Taken(Settled(s[i], 0, now)));
    }
  }

  /** What either policy answers for a group of several peers. */
  lemma AnswerHappens(policy: Policy, s: seq<Peer>, words: seq<Word>, now: int, i: nat)
    requires 0 < |s| <= |words| * WORD_BITS && Weighted(s) && i < |s|
    ensures var a := Ask(policy, false, s, words, now);
            Happens(s[i], if a.taken == Some(i) then Choice(now) else Other, a.peers[i])
  {
    var c := Candidates(s, words, now);
    if policy.ByRoundRobin? {
      RoundRobinHappens(s, c, now, i);
    } else {
      LeastConnHappens(s, c, now, i);
    }
  }

  /** A hit of the ip hash: a connection more, an old check renewed, and no weight changed. */
  lemma HitHappens(s: seq<Peer>, words: seq<Word>, now: int, p: nat)
    requires |s| <= |words| * WORD_BITS && p < |s| && Candidates(s, words, now)[p]
    ensures var q := Taken(Settled(s[p], 0, now));
            && Happens(s[p], Choice(now), q)
            && q == s[p].(conns := s[p].conns + 1,
                          checked := if now - s[p].checked > s[p].failTimeout then now else s[p].checked)
  {
    ChoiceHappens(s[p], 0, now, Taken(Settled(s[p], 0, now)));
  }

  // ---- the law of failures ---------------------------------------------------------------------

  /** A release after a success with a check still open resets the failures. */
  predicate Passes(p: Peer, h: Happening) {
    h.Success? && p.accessed < p.checked
  }

  function Failures(hs: seq<Happening>): nat {
    if hs == [] then 0 else Failures(hs[..|hs| - 1]) + if hs[|hs| - 1].Failure? then 1 else 0
  }

  /** Without a passed check every failed release counts. */
  lemma {:induction false} FailuresCount(states: seq<Peer>, hs: seq<Happening>, n: nat)
    requires Lives(states, hs) && n <= |hs| && forall k :: 0 <= k < n ==> !Passes(states[k], hs[k])
    ensures states[n].fails == states[0].fails + Failures(hs[..n])
    ensures states[n].maxFails == states[0].maxFails && states[n].failTimeout == states[0].failTimeout
  {
    if n == 0 {
    } else {
      FailuresCount(states, hs, n - 1);
      assert Goes(states, hs, n - 1);
      assert hs[..n][..n - 1] == hs[..n - 1];
    }
  }

  /** It has failed too often, and the last failure was at the time last. */
  predicate Failing(p: Peer, last: int) {
    p.maxFails > 0 && p.fails >= p.maxFails && p.checked == p.accessed && p.checked >= last
  }

  function TimeOf(h: Happening, otherwise: int): int {
    match h
    case Failure(now) => now
    case Choice(now) => now
    case _ => otherwise
  }

  /** A failing peer stays out as long as no more than fail_timeout has gone by since the last failure. */
  lemma {:induction false} FailingStaysOut(states: seq<Peer>, hs: seq<Happening>, last: int, n: nat)
    requires Lives(states, hs) && n <= |hs| && Failing(states[0], last)
    requires forall k :: 0 <= k < n ==> last <= TimeOf(hs[k], last) <= last + states[0].failTimeout
    ensures Failing(states[n], last) && states[n].failTimeout == states[0].failTimeout
  {
    if n == 0 {
    } else {
      FailingStaysOut(states, hs, last, n - 1);
      assert Goes(states, hs, n - 1);
    }
  }

  /**
   * After max_fails failed releases with no passed check between them, the last of them as
   * happening l, the peer is a candidate at no time up to fail_timeout after that, whatever
   * happens to it in the meantime.
   */
  lemma OutAfterFailures(states: seq<Peer>, hs: seq<Happening>, l: nat, n: nat, now: int)
    requires Lives(states, hs) && l < n <= |hs| && states[0].maxFails > 0 && states[0].fails >= 0
    requires forall k :: 0 <= k < l ==> !Passes(states[k], hs[k])
    requires hs[l].Failure? && Failures(hs[..l + 1]) >= states[0].maxFails
    requires forall k :: l < k < n ==>
               hs[l].now <= TimeOf(hs[k], hs[l].now) <= hs[l].now + states[0].failTimeout
    requires now <= hs[l].now + states[0].failTimeout
    ensures !Eligible(states[n], now)
  {
    FailuresCount(states, hs, l + 1);
    assert Goes(states, hs, l);
    var rest, more := states[l + 1..], hs[l + 1..];
    forall k: nat | k < |more|
      ensures Goes(rest, more, k)
    {
      assert Goes(states, hs, l + 1 + k);
    }
    FailingStaysOut(rest, more, hs[l].now, n - (l + 1));
  }

  /** The last failure is never later than the last check. */
  lemma {:induction false} ChecksFollow(states: seq<Peer>, hs: seq<Happening>, n: nat)
    requires Lives(states, hs) && n <= |hs|
    requires states[0].failTimeout >= 0 && states[0].accessed <= states[0].checked
    ensures states[n].failTimeout == states[0].failTimeout && states[n].accessed <= states[n].checked
  {
    if n == 0 {
    } else {
      ChecksFollow(states, hs, n - 1);
      assert Goes(states, hs, n - 1);
    }
  }

  /**
   * When more than fail_timeout has gone by since the last check, a failing peer that is
   * neither down nor full may be chosen, once: the choice renews the check, and so it is out
   * again for fail_timeout. Its next release decides.
   */
  lemma OnceAfterTimeout(p: Peer, h: Happening, q: Peer, later: int)
    requires p.maxFails > 0 && p.fails >= p.maxFails && p.accessed <= p.checked
    requires h.Choice? && h.now - p.checked > p.failTimeout >= 0 && Happens(p, h, q)
    ensures q.checked == h.now && q.fails == p.fails && q.accessed < q.checked
    ensures later - h.now <= p.failTimeout ==> !Eligible(q, later)
  {
  }

  /** Being down and being full are the only other reasons to be passed over. */
  lemma MayBeTried(p: Peer, now: int)
    ensures p.maxFails == 0 || p.fails < p.maxFails || now - p.checked > p.failTimeout ==>
              (Eligible(p, now) <==> !p.down && (p.maxConns == 0 || p.conns < p.maxConns))
    ensures p.maxFails > 0 && p.fails >= p.maxFails && now - p.checked <= p.failTimeout ==> !Eligible(p, now)
  {
  }

  /**
   * A release after a success with a check open makes the peer a candidate again, for ever, but
   * for being down or full; without one it leaves the failures as they are.
   */
  lemma SuccessDecides(p: Peer, now: int, q: Peer, later: int)
    requires Happens(p, Success(now), q) && p.maxFails >= 0
    ensures p.accessed < p.checked ==> q.fails == 0
    ensures p.accessed < p.checked ==> (Eligible(q, later) <==> !q.down && (q.maxConns == 0 || q.conns < q.maxConns))
    ensures p.accessed >= p.checked ==> q.fails == p.fails
    ensures q.accessed == p.accessed && q.checked == p.checked
  {
  }

  /** A failed release counts, and both times are that of the release. */
  lemma FailureCounts(p: Peer, now: int, q: Peer)
    requires Happens(p, Failure(now), q)
    ensures q.fails == p.fails + 1 && q.accessed == now && q.checked == now
  {
  }

  // ---- the effective weight -----------------------------------------------------------------------

  /** A round robin round brings every candidate's effective weight one nearer to its weight, and no other's. */
  lemma RoundRecovers(s: seq<Peer>, c: seq<bool>, now: int, i: nat)
    requires |c| == |s| && i < |s| && s[i].effectiveWeight <= s[i].weight
    ensures var (b, r) := RoundRobin(s, c, now);
            b.Some? ==>
              r[i].weight == s[i].weight
              && r[i].effectiveWeight == if c[i] && s[i].effectiveWeight < s[i].weight then s[i].effectiveWeight + 1
                                         else s[i].effectiveWeight
  {
  }

  /** The peer at i before each round and after the last; between two rounds nothing changes its weights. */
  ghost predicate Rounds(groups: seq<seq<Peer>>, afters: seq<seq<Peer>>, cs: seq<seq<bool>>, times: seq<int>, i: nat) {
    && |groups| == |afters| + 1 && |cs| == |times| == |afters|
    && (forall k :: 0 <= k < |groups| ==> i < |groups[k]|)
    && forall k: nat {:trigger OneRound(groups, afters, cs, times, i, k)} :: k < |cs| ==>
         OneRound(groups, afters, cs, times, i, k)
  }

  ghost predicate OneRound(
      groups: seq<seq<Peer>>, afters: seq<seq<Peer>>, cs: seq<seq<bool>>, times: seq<int>, i: nat, k: nat)
    requires k < |cs| && |groups| == |cs| + 1 && |cs| == |times| == |afters|
  {
    && i < |groups[k]| == |cs[k]| && cs[k][i]
    && RoundRobin(groups[k], cs[k], times[k]).1 == afters[k]
    && i < |afters[k]| && i < |groups[k + 1]|
    && groups[k + 1][i].effectiveWeight == afters[k][i].effectiveWeight
    && groups[k + 1][i].weight == afters[k][i].weight
  }

  /** In as many rounds as it is short of its weight, a candidate that does not fail gets back to it, one a round. */
  lemma {:induction false} RoundsRecover(
      groups: seq<seq<Peer>>, afters: seq<seq<Peer>>, cs: seq<seq<bool>>, times: seq<int>, i: nat, n: nat)
    requires Rounds(groups, afters, cs, times, i) && n <= |cs| && groups[0][i].effectiveWeight <= groups[0][i].weight
    ensures var (p, q) := (groups[0][i], groups[n][i]);
            && q.weight == p.weight
            && q.effectiveWeight == if p.effectiveWeight + n < p.weight then p.effectiveWeight + n else p.weight
  {
    if n == 0 {
    } else {
      RoundsRecover(groups, afters, cs, times, i, n - 1);
      assert OneRound(groups, afters, cs, times, i, n - 1);
      RoundRecovers(groups[n - 1], cs[n - 1], times[n - 1], i);
      HeaviestIs(BumpTo(groups[n - 1], cs[n - 1], |cs[n - 1]|), cs[n - 1], |cs[n - 1]|);
    }
  }

  /** A failed release takes weight / max_fails away, down to zero. */
  lemma FailureWeighs(p: Peer, now: int)
    requires p.weight >= 1 && p.maxFails >= 0 && p.effectiveWeight >= 0
    ensures var q, loss := Released(p, false, true, now), if p.maxFails == 0 then 0 else p.weight / p.maxFails;
            && q.effectiveWeight == (if p.effectiveWeight >= loss then p.effectiveWeight - loss else 0)
            && q.weight == p.weight && q.currentWeight == p.currentWeight && q.conns == p.conns - 1
    ensures var q := Released(p, false, false, now);
            q.(fails := p.fails) == p.(conns := p.conns - 1)
    ensures forall failed :: Released(p, true, failed, now) == p.(conns := p.conns - 1)
  {
  }
}
