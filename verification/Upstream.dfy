/**
 * Upstream peers as values: which peer each policy takes and what it does to the group
 * (ngx_http_upstream_round_robin.c, ngx_http_upstream_least_conn_module.c).
 */
module Upstream {
  import opened Basics
  import AddressHash

  datatype Peer = Peer(
    weight: int, maxConns: int, maxFails: int, failTimeout: int, down: bool,
    currentWeight: int, effectiveWeight: int,
    conns: int, fails: int, accessed: int, checked: int)

  /** The checks shared by all policies: not down, not failed lately, not full. */
  predicate Eligible(p: Peer, now: int) {
    && !p.down
    && !(p.maxFails != 0 && p.fails >= p.maxFails && now - p.checked <= p.failTimeout)
    && !(p.maxConns != 0 && p.conns >= p.maxConns)
  }

  /** One selection round: gain the effective weight, and recover it by one. */
  function Bumped(p: Peer): Peer {
    p.(currentWeight := p.currentWeight + p.effectiveWeight,
       effectiveWeight := if p.effectiveWeight < p.weight then p.effectiveWeight + 1 else p.effectiveWeight)
  }

  /** The chosen peer pays the total of the round and its check time may be renewed. */
  function Settled(p: Peer, total: int, now: int): Peer {
    p.(currentWeight := p.currentWeight - total,
       checked := if now - p.checked > p.failTimeout then now else p.checked)
  }

  function Taken(p: Peer): Peer {
    p.(conns := p.conns + 1)
  }

  /** c marks the candidates among the first n peers; the others are as they were. */
  function BumpTo(s: seq<Peer>, c: seq<bool>, n: nat): (r: seq<Peer>)
    requires |c| == |s| && n <= |s|
    ensures |r| == |s|
    ensures forall i :: 0 <= i < |s| ==> r[i] == (if i < n && c[i] then Bumped(s[i]) else s[i])
  {
    seq(|s|, i requires 0 <= i < |s| => if i < n && c[i] then Bumped(s[i]) else s[i])
  }

  function TotalTo(s: seq<Peer>, c: seq<bool>, n: nat): int
    requires |c| == |s| && n <= |s|
  {
    if n == 0 then 0 else TotalTo(s, c, n - 1) + (if c[n - 1] then s[n - 1].effectiveWeight else 0)
  }

  /** The first candidate with the largest current weight, among the first n. */
  function HeaviestTo(s: seq<Peer>, c: seq<bool>, n: nat): (b: Option<nat>)
    requires |c| == |s| && n <= |s|
    ensures b.Some? ==> b.value < n && c[b.value]
  {
    if n == 0 then None
    else
      var b := HeaviestTo(s, c, n - 1);
      if c[n - 1] && (b == None || s[n - 1].currentWeight > s[b.value].currentWeight) then Some(n - 1) else b
  }

  /** ngx_http_upstream_get_peer, without the connection count. */
  function RoundRobin(s: seq<Peer>, c: seq<bool>, now: int): (r: (Option<nat>, seq<Peer>))
    requires |c| == |s|
    ensures |r.1| == |s| && (r.0.Some? ==> r.0.value < |s| && c[r.0.value])
  {
    var up := BumpTo(s, c, |s|);
    match HeaviestTo(up, c, |s|)
    case None => (None, s)
    case Some(b) => (Some(b), up[b := Settled(up[b], TotalTo(s, c, |s|), now)])
  }

  /** conns/weight of p is smaller than that of q. */
  predicate LessLoaded(p: Peer, q: Peer) {
    p.conns * q.weight < q.conns * p.weight
  }

  predicate SameLoad(p: Peer, q: Peer) {
    p.conns * q.weight == q.conns * p.weight
  }

  /** The first scan of ngx_http_upstream_get_least_conn_peer: best so far, and whether it is tied. */
  function LeastTo(s: seq<Peer>, c: seq<bool>, n: nat): (r: (Option<nat>, bool))
    requires |c| == |s| && n <= |s|
    ensures r.0.Some? ==> r.0.value < n && c[r.0.value]
  {
    if n == 0 then (None, false)
    else
      var r := LeastTo(s, c, n - 1);
      if !c[n - 1] then r
      else if r.0 == None || LessLoaded(s[n - 1], s[r.0.value]) then (Some(n - 1), false)
      else if SameLoad(s[n - 1], s[r.0.value]) then (r.0, true)
      else r
  }

  /** The peers the second scan considers: candidates as loaded as the best one. */
  function Tied(s: seq<Peer>, c: seq<bool>, best: nat): (t: seq<bool>)
    requires |c| == |s| && best < |s|
    ensures |t| == |s|
  {
    seq(|s|, i requires 0 <= i < |s| => c[i] && SameLoad(s[i], s[best]))
  }

  /** The whole least-connections choice, without the connection count. */
  function LeastConn(s: seq<Peer>, c: seq<bool>, now: int): (r: (Option<nat>, seq<Peer>))
    requires |c| == |s|
    ensures |r.1| == |s| && (r.0.Some? ==> r.0.value < |s|)
  {
    var (first, many) := LeastTo(s, c, |s|);
    if first == None then (None, s)
    else if !many then (first, s[first.value := Settled(s[first.value], 0, now)])
    else RoundRobin(s, Tied(s, c, first.value), now)
  }

  /** ngx_http_upstream_free_round_robin_peer on the peer it releases. */
  function Released(p: Peer, single: bool, failed: bool, now: int): Peer {
    if single then p.(conns := p.conns - 1)
    else if failed then
      var ew := if p.maxFails != 0 then p.effectiveWeight - p.weight / p.maxFails else p.effectiveWeight;
      p.(fails := p.fails + 1, accessed := now, checked := now,
         effectiveWeight := if ew < 0 then 0 else ew, conns := p.conns - 1)
    else
      p.(fails := if p.accessed < p.checked then 0 else p.fails, conns := p.conns - 1)
  }

  // ---- what the scans find ----------------------------------------------------

  lemma {:induction false} HeaviestIs(s: seq<Peer>, c: seq<bool>, n: nat)
    requires |c| == |s| && n <= |s|
    ensures var b := HeaviestTo(s, c, n);
            && (b == None <==> forall i :: 0 <= i < n ==> !c[i])
            && (b.Some? ==>
                  && (forall i :: 0 <= i < n && c[i] ==> s[i].currentWeight <= s[b.value].currentWeight)
                  && (forall i :: 0 <= i < b.value && c[i] ==> s[i].currentWeight < s[b.value].currentWeight))
  {
    if n == 0 {
    } else {
      HeaviestIs(s, c, n - 1);
    }
  }

  ghost predicate Weighted(s: seq<Peer>) {
    forall i :: 0 <= i < |s| ==> s[i].weight >= 1
  }

  lemma LoadTransitive(p: Peer, q: Peer, r: Peer)
    requires p.weight >= 1 && q.weight >= 1 && r.weight >= 1
    ensures !LessLoaded(q, p) && !LessLoaded(r, q) ==> !LessLoaded(r, p)
    ensures SameLoad(p, q) && SameLoad(q, r) ==> SameLoad(p, r)
    ensures LessLoaded(p, q) && !LessLoaded(r, q) ==> LessLoaded(p, r)
    ensures SameLoad(p, q) && LessLoaded(q, r) ==> LessLoaded(p, r)
  {
  }

  /** The first scan finds the first candidate of least load, and whether another is as loaded. */
  lemma {:induction false} LeastIs(s: seq<Peer>, c: seq<bool>, n: nat)
    requires |c| == |s| && n <= |s| && Weighted(s)
    ensures var (b, many) := LeastTo(s, c, n);
            && (b == None <==> forall i :: 0 <= i < n ==> !c[i])
            && (b.Some? ==>
                  && (forall i :: 0 <= i < n && c[i] ==> !LessLoaded(s[i], s[b.value]))
                  && (forall i :: 0 <= i < b.value && c[i] ==> LessLoaded(s[b.value], s[i]))
                  && (many <==> exists i :: b.value < i < n && c[i] && SameLoad(s[i], s[b.value])))
  {
    if n == 0 {
    } else {
      LeastIs(s, c, n - 1);
      var (b, many) := LeastTo(s, c, n - 1);
      if b.Some? && c[n - 1] {
        forall i | 0 <= i < n - 1 && c[i]
          ensures LessLoaded(s[n - 1], s[b.value]) ==> LessLoaded(s[n - 1], s[i])
        {
          LoadTransitive(s[n - 1], s[b.value], s[i]);
        }
        if SameLoad(s[n - 1], s[b.value]) {
          assert b.value < n - 1 < n && c[n - 1] && SameLoad(s[n - 1], s[b.value]);
        }
        if many {
          var i :| b.value < i < n - 1 && c[i] && SameLoad(s[i], s[b.value]);
          assert b.value < i < n;
        }
      }
    }
  }

  /**
   * Least connections takes a candidate of least load; among the candidates as loaded as
   * it, the first one whose current weight is largest after all of them have gained theirs.
   */
  lemma LeastConnTakesLeast(s: seq<Peer>, c: seq<bool>, now: int)
    requires |c| == |s| && Weighted(s)
    ensures var b := LeastConn(s, c, now).0;
            && (b == None <==> forall i :: 0 <= i < |s| ==> !c[i])
            && (b.Some? ==> c[b.value] && (forall i :: 0 <= i < |s| && c[i] ==> !LessLoaded(s[i], s[b.value])))
    ensures var b := LeastConn(s, c, now).0;
            b.Some? ==>
              forall i :: 0 <= i < |s| && i != b.value && c[i] && SameLoad(s[i], s[b.value]) ==>
                if i < b.value then Bumped(s[i]).currentWeight < Bumped(s[b.value]).currentWeight
                else Bumped(s[i]).currentWeight <= Bumped(s[b.value]).currentWeight
  {
    LeastIs(s, c, |s|);
    var (first, many) := LeastTo(s, c, |s|);
    if first.Some? {
      if many {
        var t := Tied(s, c, first.value);
        HeaviestIs(BumpTo(s, t, |s|), t, |s|);
        assert t[first.value];
        var b := LeastConn(s, c, now).0.value;
        assert t[b];
        forall i | 0 <= i < |s| && c[i]
          ensures !LessLoaded(s[i], s[b]) && (SameLoad(s[i], s[b]) ==> t[i])
        {
          LoadTransitive(s[b], s[first.value], s[i]);
          LoadTransitive(s[i], s[b], s[first.value]);
        }
      } else {
        OnlyOneTied(s, c, first.value);
      }
    }
  }

  lemma OnlyOneTied(s: seq<Peer>, c: seq<bool>, b: nat)
    requires |c| == |s| && b < |s| && LeastTo(s, c, |s|) == (Some(b), false) && Weighted(s)
    ensures forall i :: 0 <= i < |s| && i != b && c[i] ==> !SameLoad(s[i], s[b])
  {
    LeastIs(s, c, |s|);
  }

  // ---- what every choice and every release keeps ---------------------------------

  function WeightSum(s: seq<Peer>): int {
    if s == [] then 0 else s[0].currentWeight + WeightSum(s[1..])
  }

  ghost predicate EffectiveInRange(s: seq<Peer>) {
    forall i :: 0 <= i < |s| ==> 0 <= s[i].effectiveWeight <= s[i].weight
  }

  lemma {:induction false} WeightSumUpdate(s: seq<Peer>, k: nat, p: Peer)
    requires k < |s|
    ensures WeightSum(s[k := p]) == WeightSum(s) - s[k].currentWeight + p.currentWeight
  {
    if k == 0 {
      assert s[k := p][1..] == s[1..];
    } else {
      WeightSumUpdate(s[1..], k - 1, p);
      assert s[k := p][1..] == s[1..][k - 1 := p];
    }
  }

  lemma {:induction false} WeightSumBump(s: seq<Peer>, c: seq<bool>, n: nat)
    requires |c| == |s| && n <= |s|
    ensures WeightSum(BumpTo(s, c, n)) == WeightSum(s) + TotalTo(s, c, n)
  {
    if n == 0 {
      assert BumpTo(s, c, 0) == s;
    } else {
      WeightSumBump(s, c, n - 1);
      var r := BumpTo(s, c, n - 1);
      assert BumpTo(s, c, n) == r[n - 1 := if c[n - 1] then Bumped(s[n - 1]) else s[n - 1]];
      WeightSumUpdate(r, n - 1, if c[n - 1] then Bumped(s[n - 1]) else s[n - 1]);
    }
  }

  /** Only the weights and the check time may differ. */
  predicate SameStanding(p: Peer, q: Peer) {
    && q.weight == p.weight && q.maxConns == p.maxConns && q.maxFails == p.maxFails
    && q.failTimeout == p.failTimeout && q.down == p.down
    && q.conns == p.conns && q.fails == p.fails
  }

  /** The choice r leaves the sum of the current weights and everything but the weights alone. */
  ghost predicate KeepsBalance(s: seq<Peer>, r: seq<Peer>) {
    && |r| == |s| && WeightSum(r) == WeightSum(s)
    && (EffectiveInRange(s) ==> EffectiveInRange(r))
    && forall i :: 0 <= i < |s| ==> SameStanding(s[i], r[i])
  }

  lemma RoundRobinKeepsBalance(s: seq<Peer>, c: seq<bool>, now: int)
    requires |c| == |s|
    ensures KeepsBalance(s, RoundRobin(s, c, now).1)
  {
    var up := BumpTo(s, c, |s|);
    var b := HeaviestTo(up, c, |s|);
    if b.Some? {
      WeightSumBump(s, c, |s|);
      WeightSumUpdate(up, b.value, Settled(up[b.value], TotalTo(s, c, |s|), now));
    }
  }

  lemma LeastConnKeepsBalance(s: seq<Peer>, c: seq<bool>, now: int)
    requires |c| == |s|
    ensures KeepsBalance(s, LeastConn(s, c, now).1)
  {
    var (first, many) := LeastTo(s, c, |s|);
    if first.Some? {
      if many {
        RoundRobinKeepsBalance(s, Tied(s, c, first.value), now);
      } else {
        WeightSumUpdate(s, first.value, Settled(s[first.value], 0, now));
      }
    }
  }

  lemma ReleaseKeepsBalance(s: seq<Peer>, k: nat, single: bool, failed: bool, now: int)
    requires k < |s| && Weighted(s) && EffectiveInRange(s) && forall i :: 0 <= i < |s| ==> s[i].maxFails >= 0
    ensures var r := s[k := Released(s[k], single, failed, now)];
            WeightSum(r) == WeightSum(s) && EffectiveInRange(r)
  {
    WeightSumUpdate(s, k, Released(s[k], single, failed, now));
  }

  // ---- ties ------------------------------------------------------------------------

  /** Without a tie least connections only renews the check of the peer it takes; no weight changes. */
  lemma LeastConnAlone(s: seq<Peer>, c: seq<bool>, now: int)
    requires |c| == |s| && Weighted(s)
    ensures var (b, r) := LeastConn(s, c, now);
            b.Some? && (forall i :: 0 <= i < |s| && i != b.value && c[i] ==> !SameLoad(s[i], s[b.value])) ==>
              r == s[b.value := s[b.value].(checked := if now - s[b.value].checked > s[b.value].failTimeout then now
                                                       else s[b.value].checked)]
  {
    LeastIs(s, c, |s|);
    LeastConnTakesLeast(s, c, now);
    var (first, many) := LeastTo(s, c, |s|);
    if first.Some? && many {
      var i :| first.value < i < |s| && c[i] && SameLoad(s[i], s[first.value]);
      TiedAnswer(s, c, now, first.value, i);
    }
  }

  lemma TiedAnswer(s: seq<Peer>, c: seq<bool>, now: int, first: nat, i: nat)
    requires |c| == |s| && Weighted(s) && first < i < |s| && c[i] && SameLoad(s[i], s[first])
    requires LeastTo(s, c, |s|) == (Some(first), true)
    ensures var b := LeastConn(s, c, now).0;
            b.Some? && c[first] && SameLoad(s[first], s[b.value]) && SameLoad(s[i], s[b.value])
  {
    var t := Tied(s, c, first);
    HeaviestIs(BumpTo(s, t, |s|), t, |s|);
    assert t[first];
    var b := LeastConn(s, c, now).0;
    LoadTransitive(s[i], s[first], s[b.value]);
  }

  /** Among candidates that are all as loaded as each other it is round robin. */
  lemma LeastConnOfEquals(s: seq<Peer>, c: seq<bool>, now: int)
    requires |c| == |s| && Weighted(s) && exists i, j :: 0 <= i < j < |s| && c[i] && c[j]
    requires forall i, j :: 0 <= i < |s| && 0 <= j < |s| && c[i] && c[j] ==> SameLoad(s[i], s[j])
    ensures LeastConn(s, c, now) == RoundRobin(s, c, now)
  {
    LeastIs(s, c, |s|);
    var (first, many) := LeastTo(s, c, |s|);
    assert Tied(s, c, first.value) == c;
    var i, j :| 0 <= i < j < |s| && c[i] && c[j];
    assert many;
  }

  // ---- ip hash ---------------------------------------------------------------------

  function TotalWeight(s: seq<Peer>): int {
    if s == [] then 0 else s[0].weight + TotalWeight(s[1..])
  }

  /** The weight in front of peer i. */
  function Prefix(s: seq<Peer>, i: nat): int
    requires i <= |s|
  {
    if i == 0 then 0 else s[0].weight + Prefix(s[1..], i - 1)
  }

  /** The walk of ngx_http_upstream_get_ip_hash_peer along the weights. */
  function PeerAt(s: seq<Peer>, w: int): (p: nat)
    requires 0 <= w < TotalWeight(s)
    ensures p < |s|
  {
    if w < s[0].weight then 0 else 1 + PeerAt(s[1..], w - s[0].weight)
  }

  /** Peer i owns exactly the interval of residues that its weight gives it. */
  lemma {:induction false} PeerOwnsInterval(s: seq<Peer>, w: int, i: nat)
    requires Weighted(s) && 0 <= w < TotalWeight(s) && i < |s|
    ensures PeerAt(s, w) == i <==> Prefix(s, i) <= w < Prefix(s, i) + s[i].weight
  {
    if w < s[0].weight {
      if i > 0 {
        PrefixGrows(s[1..], i - 1);
      }
    } else if i > 0 {
      PeerOwnsInterval(s[1..], w - s[0].weight, i - 1);
    }
  }

  lemma {:induction false} PrefixGrows(s: seq<Peer>, i: nat)
    requires Weighted(s) && i <= |s|
    ensures Prefix(s, i) >= 0
  {
    if i == 0 {
    } else {
      PrefixGrows(s[1..], i - 1);
    }
  }

  /** A peer found by hashing, with the hash to go on from, or nothing; and the tries used up. */
  datatype Probed = Probed(found: Option<nat>, hash: nat, tries: nat)

  const MAX_TRIES := 20

  /** Hash again and again until a candidate is hit or the tries run out. */
  function Probe(s: seq<Peer>, c: seq<bool>, addr: seq<nat>, hash: nat, tries: nat): (r: Probed)
    requires |c| == |s| && TotalWeight(s) > 0 && tries <= MAX_TRIES
    ensures r.found.Some? ==> r.found.value < |s| && c[r.found.value] && r.tries <= MAX_TRIES
    ensures r.found == None ==> r.tries == MAX_TRIES + 1
    decreases MAX_TRIES - tries
  {
    var h := AddressHash.HashTo(hash, addr, |addr|);
    var p := PeerAt(s, h % TotalWeight(s));
    if c[p] then Probed(Some(p), h, tries)
    else if tries + 1 > MAX_TRIES then Probed(None, h, tries + 1)
    else Probe(s, c, addr, h, tries + 1)
  }

  /** The hash after j passes over the address. */
  function Rehashed(hash: nat, addr: seq<nat>, j: nat): nat {
    if j == 0 then hash else AddressHash.HashTo(Rehashed(hash, addr, j - 1), addr, |addr|)
  }

  lemma {:induction false} RehashedFrom(hash: nat, addr: seq<nat>, j: nat)
    ensures Rehashed(AddressHash.HashTo(hash, addr, |addr|), addr, j) == Rehashed(hash, addr, j + 1)
  {
    if j == 0 {
      assert Rehashed(hash, addr, 1) == AddressHash.HashTo(Rehashed(hash, addr, 0), addr, |addr|);
    } else {
      RehashedFrom(hash, addr, j - 1);
    }
  }

  /** The peer that pass j + 1 leads to. */
  function TriedAt(s: seq<Peer>, addr: seq<nat>, hash: nat, j: nat): (p: nat)
    requires TotalWeight(s) > 0
    ensures p < |s|
  {
    PeerAt(s, Rehashed(hash, addr, j + 1) % TotalWeight(s))
  }

  /**
   * A probe goes through the peers that one pass after another leads to, and takes the first
   * that is a candidate; after the last of 20 failed tries it finds none.
   */
  lemma {:induction false} ProbeTakesFirst(s: seq<Peer>, c: seq<bool>, addr: seq<nat>, hash: nat, tries: nat)
    requires |c| == |s| && TotalWeight(s) > 0 && tries <= 20
    ensures var r := Probe(s, c, addr, hash, tries);
            && tries <= r.tries <= 21 && (r.found == None <==> r.tries == 21)
            && (forall j: nat :: j < r.tries - tries ==> !c[TriedAt(s, addr, hash, j)])
            && (r.found.Some? ==>
                  r.found.value == TriedAt(s, addr, hash, r.tries - tries)
                  && r.hash == Rehashed(hash, addr, r.tries - tries + 1))
    decreases 20 - tries
  {
    var h := AddressHash.HashTo(hash, addr, |addr|);
    RehashedFrom(hash, addr, 0);
    if c[TriedAt(s, addr, hash, 0)] || tries == 20 {
    } else {
      ProbeTakesFirst(s, c, addr, h, tries + 1);
      forall j: nat
        ensures TriedAt(s, addr, h, j) == TriedAt(s, addr, hash, j + 1)
      {
        RehashedFrom(hash, addr, j + 1);
      }
      var r := Probe(s, c, addr, hash, tries);
      RehashedFrom(hash, addr, r.tries - tries);
      forall j: nat | j < r.tries - tries
        ensures !c[TriedAt(s, addr, hash, j)]
      {
        if j > 0 {
          assert TriedAt(s, addr, h, j - 1) == TriedAt(s, addr, hash, j);
        }
      }
    }
  }
}
