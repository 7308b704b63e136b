/**
 * Round robin over a group of which a fixed set of peers is eligible is the smooth step on
 * these peers, and so exactly fair to them.
 */
module Fairness {
  import opened Basics
  import opened Upstream
  import opened UpstreamPeers
  import W = SmoothWrr

  function CurrentWeights(s: seq<Peer>): (r: seq<int>)
    ensures |r| == |s| && forall i :: 0 <= i < |s| ==> r[i] == s[i].currentWeight
  {
    seq(|s|, i requires 0 <= i < |s| => s[i].currentWeight)
  }

  function Weights(s: seq<Peer>): (r: seq<int>)
    ensures |r| == |s| && forall i :: 0 <= i < |s| ==> r[i] == s[i].weight
  {
    seq(|s|, i requires 0 <= i < |s| => s[i].weight)
  }

  /** The members of c among the first n peers, in order. */
  function Members(c: seq<bool>, n: nat): (m: seq<nat>)
    requires n <= |c|
    ensures forall j :: 0 <= j < |m| ==> m[j] < n && c[m[j]]
  {
    if n == 0 then []
    else if c[n - 1] then Members(c, n - 1) + [n - 1]
    else Members(c, n - 1)
  }

  lemma {:induction false} MembersAre(c: seq<bool>, n: nat)
    requires n <= |c|
    ensures var m := Members(c, n);
            (forall j, k :: 0 <= j < k < |m| ==> m[j] < m[k]) && forall i: nat :: i < n && c[i] ==> i in m
  {
    if n == 0 {
    } else {
      MembersAre(c, n - 1);
    }
  }

  /** The entries of a at the places m. */
  function At(a: seq<int>, m: seq<nat>): (r: seq<int>)
    requires forall j :: 0 <= j < |m| ==> m[j] < |a|
    ensures |r| == |m| && forall j :: 0 <= j < |m| ==> r[j] == a[m[j]]
  {
    seq(|m|, j requires 0 <= j < |m| => a[m[j]])
  }

  /** No peer in c has lost effective weight to a failure. */
  ghost predicate Sound(s: seq<Peer>, c: seq<bool>) {
    |c| == |s| && forall i :: 0 <= i < |s| && c[i] ==> s[i].effectiveWeight == s[i].weight >= 1
  }

  ghost predicate Healthy(s: seq<Peer>, c: seq<bool>) {
    Sound(s, c) && Members(c, |c|) != []
  }

  /** What the members of c earn together in a round. */
  ghost function TotalWeight(s: seq<Peer>, c: seq<bool>): nat
    requires Sound(s, c)
  {
    var ws := At(Weights(s), Members(c, |c|));
    W.SumAtLeast(ws);
    W.Sum(ws)
  }

  // ---- one choice is one smooth step --------------------------------------------------

  lemma {:induction false} TotalIsSum(s: seq<Peer>, c: seq<bool>, n: nat)
    requires |c| == |s| && n <= |s| && forall i :: 0 <= i < |s| && c[i] ==> s[i].effectiveWeight == s[i].weight
    ensures TotalTo(s, c, n) == W.Sum(At(Weights(s), Members(c, n)))
  {
    if n == 0 {
    } else {
      TotalIsSum(s, c, n - 1);
      if c[n - 1] {
        OneMore(Weights(s), Members(c, n - 1), n - 1);
      }
    }
  }

  lemma OneMore(a: seq<int>, m: seq<nat>, k: nat)
    requires k < |a| && forall j :: 0 <= j < |m| ==> m[j] < |a|
    ensures At(a, m + [k]) == At(a, m) + [a[k]] && W.Sum(At(a, m + [k])) == W.Sum(At(a, m)) + a[k]
  {
    SumLast(At(a, m), a[k]);
  }

  lemma {:induction false} SumLast(a: seq<int>, x: int)
    ensures W.Sum(a + [x]) == W.Sum(a) + x
  {
    if a == [] {
    } else {
      SumLast(a[1..], x);
      assert (a + [x])[1..] == a[1..] + [x];
    }
  }

  lemma {:induction false} SamePrefix(a: seq<int>, b: seq<int>, n: nat)
    requires 0 < n <= |a| && n <= |b| && forall i :: 0 <= i < n ==> a[i] == b[i]
    ensures W.FirstMax(a, n) == W.FirstMax(b, n)
  {
    if n == 1 {
    } else {
      SamePrefix(a, b, n - 1);
    }
  }

  /** The first of the heaviest members. */
  function Best(s: seq<Peer>, m: seq<nat>): Option<nat>
    requires forall j :: 0 <= j < |m| ==> m[j] < |s|
  {
    if m == [] then None else Some(m[W.FirstMax(At(CurrentWeights(s), m), |m|)])
  }

  lemma BestOfMore(s: seq<Peer>, m: seq<nat>, k: nat)
    requires k < |s| && forall j :: 0 <= j < |m| ==> m[j] < |s|
    ensures var b := Best(s, m);
            && (b.Some? ==> b.value < |s|)
            && Best(s, m + [k]) == if b == None || s[k].currentWeight > s[b.value].currentWeight then Some(k) else b
  {
    if m != [] {
      OneMore(CurrentWeights(s), m, k);
      SamePrefix(At(CurrentWeights(s), m + [k]), At(CurrentWeights(s), m), |m|);
    }
  }

  lemma {:induction false} HeaviestIsBest(s: seq<Peer>, c: seq<bool>, n: nat)
    requires |c| == |s| && n <= |s|
    ensures HeaviestTo(s, c, n) == Best(s, Members(c, n))
  {
    if n == 0 {
    } else {
      HeaviestIsBest(s, c, n - 1);
      BestOfMore(s, Members(c, n - 1), n - 1);
    }
  }

  /** A selection round gives each member its weight. */
  lemma BumpedWeights(s: seq<Peer>, c: seq<bool>, m: seq<nat>)
    requires Sound(s, c) && forall j :: 0 <= j < |m| ==> m[j] < |c| && c[m[j]]
    ensures var up := BumpTo(s, c, |s|);
            && Weights(up) == Weights(s) && Sound(up, c)
            && At(CurrentWeights(up), m) == W.Plus(At(CurrentWeights(s), m), At(Weights(s), m))
  {
  }

  /** What settling the peer chosen does to the weights. */
  lemma SettledWeights(up: seq<Peer>, c: seq<bool>, m: seq<nat>, j: nat, total: int, now: int)
    requires Sound(up, c) && j < |m| && (forall k :: 0 <= k < |m| ==> m[k] < |c|)
    requires forall k, l :: 0 <= k < l < |m| ==> m[k] < m[l]
    ensures var r, w := up[m[j] := Settled(up[m[j]], total, now)], At(CurrentWeights(up), m);
            && Weights(r) == Weights(up) && Sound(r, c) && At(CurrentWeights(r), m) == w[j := w[j] - total]
  {
  }

  /** One round robin choice is one smooth step on the candidates and leaves the others alone. */
  lemma ChoiceIsSmoothStep(s: seq<Peer>, c: seq<bool>, now: int)
    requires Healthy(s, c)
    ensures var m, r := Members(c, |c|), RoundRobin(s, c, now);
            var cw, ws := At(CurrentWeights(s), m), At(Weights(s), m);
            && r.0 == Some(m[W.Pick(cw, ws)]) && At(CurrentWeights(r.1), m) == W.Step(cw, ws)
            && Weights(r.1) == Weights(s) && Healthy(r.1, c)
            && forall i :: 0 <= i < |s| && !c[i] ==> r.1[i] == s[i]
  {
    HeaviestIsBest(BumpTo(s, c, |s|), c, |s|);
    TotalIsSum(s, c, |s|);
    MembersAre(c, |c|);
    StepOfMembers(s, c, Members(c, |c|), TotalTo(s, c, |s|), now);
  }

  lemma StepOfMembers(s: seq<Peer>, c: seq<bool>, m: seq<nat>, total: int, now: int)
    requires Sound(s, c) && m != [] && forall j :: 0 <= j < |m| ==> m[j] < |c| && c[m[j]]
    requires total == W.Sum(At(Weights(s), m))
    requires forall k, l :: 0 <= k < l < |m| ==> m[k] < m[l]
    ensures var up, cw, ws := BumpTo(s, c, |s|), At(CurrentWeights(s), m), At(Weights(s), m);
            var b := m[W.Pick(cw, ws)];
            var r := up[b := Settled(up[b], total, now)];
            && Best(up, m) == Some(b) && At(CurrentWeights(r), m) == W.Step(cw, ws)
            && Weights(r) == Weights(s) && Sound(r, c)
  {
    BumpedWeights(s, c, m);
    SettledWeights(BumpTo(s, c, |s|), c, m, W.Pick(At(CurrentWeights(s), m), At(Weights(s), m)), total, now);
  }

  // ---- runs -----------------------------------------------------------------------------

  /** A request asks with a fresh bitmap while exactly the peers in c are eligible, and gets the peer pick. */
  ghost predicate ServedOne(s: seq<Peer>, next: seq<Peer>, c: seq<bool>, words: seq<Word>, pick: nat, now: int) {
    && 0 < |c| == |s| <= |words| * WORD_BITS
    && (forall i: nat :: i < |s| ==> !Tried(words, i) && (Eligible(s[i], now) <==> c[i]))
    && var a := AskRoundRobin(false, s, words, now);
       a.taken == Some(pick) && Undisturbed(a.peers, next, c)
  }

  /**
   * Until the next request no peer's weights change, as far as they count: connections, failures of
   * others and times may.
   */
  ghost predicate Undisturbed(s: seq<Peer>, next: seq<Peer>, c: seq<bool>)
    requires |c| == |s|
  {
    && |next| == |s| && CurrentWeights(next) == CurrentWeights(s) && Weights(next) == Weights(s)
    && forall i :: 0 <= i < |s| && c[i] ==> next[i].effectiveWeight == s[i].effectiveWeight
  }

  /** One request after another. */
  ghost predicate Served(states: seq<seq<Peer>>, c: seq<bool>, words: seq<Word>, picks: seq<nat>, times: seq<int>) {
    && |states| == |picks| + 1 && |times| == |picks| && Healthy(states[0], c)
    && forall t :: 0 <= t < |picks| ==>
         ServedOne(states[t], states[t + 1], c, words, picks[t], times[t])
  }

  /** The connection count and what may change later do not touch the weights. */
  lemma StillSound(r: seq<Peer>, next: seq<Peer>, c: seq<bool>, pick: nat)
    requires Sound(r, c) && pick < |r| && Undisturbed(r[pick := Taken(r[pick])], next, c)
    ensures CurrentWeights(next) == CurrentWeights(r) && Weights(next) == Weights(r) && Sound(next, c)
  {
    var took := r[pick := Taken(r[pick])];
    assert CurrentWeights(took) == CurrentWeights(r) && Weights(took) == Weights(r);
    forall i | 0 <= i < |c| && c[i]
      ensures next[i].effectiveWeight == next[i].weight >= 1
    {
      assert next[i].weight == Weights(next)[i] == r[i].weight;
    }
  }

  /** What a request that asks with a fresh bitmap gets. */
  lemma FreshAnswer(s: seq<Peer>, next: seq<Peer>, c: seq<bool>, words: seq<Word>, pick: nat, now: int)
    requires ServedOne(s, next, c, words, pick, now)
    ensures var r := RoundRobin(s, c, now);
            r.0 == Some(pick) && Undisturbed(r.1[pick := Taken(r.1[pick])], next, c)
  {
    assert Candidates(s, words, now) == c;
  }

  lemma ServedStep(s: seq<Peer>, next: seq<Peer>, c: seq<bool>, words: seq<Word>, pick: nat, now: int)
    requires Healthy(s, c) && ServedOne(s, next, c, words, pick, now)
    ensures var m := Members(c, |c|);
            var cw, ws := At(CurrentWeights(s), m), At(Weights(s), m);
            pick == m[W.Pick(cw, ws)] && At(CurrentWeights(next), m) == W.Step(cw, ws)
    ensures Weights(next) == Weights(s) && Healthy(next, c)
    ensures forall i :: 0 <= i < |s| && !c[i] ==> next[i].currentWeight == s[i].currentWeight
  {
    FreshAnswer(s, next, c, words, pick, now);
    ChoiceIsSmoothStep(s, c, now);
    var r := RoundRobin(s, c, now).1;
    StillSound(r, next, c, pick);
    assert forall i :: 0 <= i < |s| ==> next[i].currentWeight == CurrentWeights(r)[i];
  }

  /** After t requests: the smooth run of the members, and the others as they were. */
  ghost predicate After(states: seq<seq<Peer>>, c: seq<bool>, t: nat)
    requires t < |states| && Healthy(states[0], c)
  {
    var m := Members(c, |c|);
    && Healthy(states[t], c) && Weights(states[t]) == Weights(states[0])
    && At(CurrentWeights(states[t]), m) == W.Run(At(CurrentWeights(states[0]), m), At(Weights(states[0]), m), t)
    && forall i :: 0 <= i < |c| && !c[i] ==> states[t][i].currentWeight == states[0][i].currentWeight
  }

  lemma AfterStep(states: seq<seq<Peer>>, c: seq<bool>, words: seq<Word>, pick: nat, now: int, t: nat)
    requires 0 < t < |states| && Healthy(states[0], c) && After(states, c, t - 1)
    requires ServedOne(states[t - 1], states[t], c, words, pick, now)
    ensures After(states, c, t)
  {
    ServedStep(states[t - 1], states[t], c, words, pick, now);
  }

  lemma {:induction false} ServedIsRun(
      states: seq<seq<Peer>>, c: seq<bool>, words: seq<Word>, picks: seq<nat>, times: seq<int>, t: nat)
    requires Served(states, c, words, picks, times) && t <= |picks|
    ensures After(states, c, t)
  {
    if t == 0 {
    } else {
      ServedIsRun(states, c, words, picks, times, t - 1);
      AfterStep(states, c, words, picks[t - 1], times[t - 1], t);
    }
  }

  /** How many of picks[a..a+n] are i. */
  function Hits(picks: seq<nat>, a: nat, n: nat, i: nat): nat
    requires a + n <= |picks|
  {
    if n == 0 then 0 else Hits(picks, a, n - 1, i) + (if picks[a + n - 1] == i then 1 else 0)
  }

  /** The picks from a to a + n are those of the smooth run, by way of m. */
  ghost predicate Follows(picks: seq<nat>, m: seq<nat>, cw: seq<int>, ws: seq<int>, a: nat, n: nat)
    requires |cw| == |ws| == |m| > 0 && a + n <= |picks|
  {
    forall t {:trigger picks[t]} :: a <= t < a + n ==> picks[t] == m[W.Pick(W.Run(cw, ws, t), ws)]
  }

  lemma {:induction false} HitsAreCounts(picks: seq<nat>, m: seq<nat>, cw: seq<int>, ws: seq<int>, a: nat, n: nat,
                                         j: nat)
    requires |cw| == |ws| == |m| && j < |m| && a + n <= |picks| && Follows(picks, m, cw, ws, a, n)
    requires forall k, l :: 0 <= k < l < |m| ==> m[k] < m[l]
    ensures Hits(picks, a, n, m[j]) == W.Count(cw, ws, a, n, j)
  {
    if n == 0 {
    } else {
      HitsAreCounts(picks, m, cw, ws, a, n - 1, j);
    }
  }

  lemma {:induction false} NoHits(picks: seq<nat>, m: seq<nat>, cw: seq<int>, ws: seq<int>, a: nat, n: nat, i: nat)
    requires |cw| == |ws| == |m| > 0 && i !in m && a + n <= |picks| && Follows(picks, m, cw, ws, a, n)
    ensures Hits(picks, a, n, i) == 0
  {
    if n == 0 {
    } else {
      NoHits(picks, m, cw, ws, a, n - 1, i);
    }
  }

  lemma ServedFollows(
      states: seq<seq<Peer>>, c: seq<bool>, words: seq<Word>, picks: seq<nat>, times: seq<int>, a: nat, n: nat)
    requires Served(states, c, words, picks, times) && a + n <= |picks|
    ensures var m := Members(c, |c|);
            Follows(picks, m, At(CurrentWeights(states[0]), m), At(Weights(states[0]), m), a, n)
  {
    var m := Members(c, |c|);
    var cw, ws := At(CurrentWeights(states[0]), m), At(Weights(states[0]), m);
    forall t {:trigger picks[t]} | a <= t < a + n
      ensures picks[t] == m[W.Pick(W.Run(cw, ws, t), ws)]
    {
      ServedIsRun(states, c, words, picks, times, t);
      ServedStep(states[t], states[t + 1], c, words, picks[t], times[t]);
    }
  }

  lemma WindowHits(picks: seq<nat>, c: seq<bool>, ws: seq<int>, a: nat, n: nat, i: nat)
    requires i < |c| && a + n <= |picks| && n == W.Sum(ws)
    requires var m := Members(c, |c|); W.Positive(ws) && |ws| == |m| && Follows(picks, m, W.Zeros(|m|), ws, a, n)
    ensures !c[i] ==> Hits(picks, a, n, i) == 0
    ensures forall j :: 0 <= j < |ws| && Members(c, |c|)[j] == i ==> Hits(picks, a, n, i) == ws[j]
  {
    var m := Members(c, |c|);
    MembersAre(c, |c|);
    if c[i] {
      var j :| 0 <= j < |m| && m[j] == i;
      W.ExactFairness(ws, a, j);
      HitsAreCounts(picks, m, W.Zeros(|m|), ws, a, n, j);
    } else {
      NoHits(picks, m, W.Zeros(|m|), ws, a, n, i);
    }
  }

  /** All members of c start from zero. */
  ghost predicate FromZero(s: seq<Peer>, c: seq<bool>) {
    |c| == |s| && forall k :: 0 <= k < |c| && c[k] ==> s[k].currentWeight == 0
  }

  lemma ZeroWeights(s: seq<Peer>, c: seq<bool>)
    requires Healthy(s, c) && FromZero(s, c)
    ensures var m := Members(c, |c|); At(CurrentWeights(s), m) == W.Zeros(|m|) && W.Positive(At(Weights(s), m))
  {
  }

  /**
   * While exactly the peers in c are eligible, and these started from zero current weights,
   * every window of n = sum of their weights consecutive requests goes to each of them
   * exactly as often as its weight says and to nobody else.
   */
  lemma RoundRobinIsFair(states: seq<seq<Peer>>, c: seq<bool>, words: seq<Word>, picks: seq<nat>, times: seq<int>,
                         a: nat, n: nat, i: nat)
    requires Served(states, c, words, picks, times) && FromZero(states[0], c) && i < |c|
    requires n == TotalWeight(states[0], c) && a + n <= |picks|
    ensures Hits(picks, a, n, i) == if c[i] then states[0][i].weight else 0
  {
    var m := Members(c, |c|);
    var ws := At(Weights(states[0]), m);
    ZeroWeights(states[0], c);
    ServedFollows(states, c, words, picks, times, a, n);
    WindowHits(picks, c, ws, a, n, i);
    MembersAre(c, |c|);
    if c[i] {
      var j :| 0 <= j < |m| && m[j] == i;
      assert ws[j] == states[0][i].weight;
    }
  }

  /** The current weight of peer i after t requests: as in the smooth run for a member of c, otherwise as it was. */
  lemma WeightAfter(states: seq<seq<Peer>>, c: seq<bool>, words: seq<Word>, picks: seq<nat>, times: seq<int>,
                    t: nat, i: nat, j: nat)
    requires Served(states, c, words, picks, times) && FromZero(states[0], c) && t <= |picks| && i < |c|
    requires c[i] ==> j < |Members(c, |c|)| && Members(c, |c|)[j] == i
    ensures |states[t]| == |c|
    ensures var m := Members(c, |c|);
            states[t][i].currentWeight ==
              if c[i] then W.Run(W.Zeros(|m|), At(Weights(states[0]), m), t)[j] else states[0][i].currentWeight
  {
    ServedIsRun(states, c, words, picks, times, t);
    ZeroWeights(states[0], c);
    assert c[i] ==> At(CurrentWeights(states[t]), Members(c, |c|))[j] == states[t][i].currentWeight;
  }

  /** Every n such requests all current weights repeat, and no candidate's ever falls to -n or below. */
  lemma RoundRobinRepeats(states: seq<seq<Peer>>, c: seq<bool>, words: seq<Word>, picks: seq<nat>, times: seq<int>,
                          a: nat, n: nat, i: nat)
    requires Served(states, c, words, picks, times) && FromZero(states[0], c) && i < |c|
    requires n == TotalWeight(states[0], c) && a + n <= |picks|
    ensures |states[a]| == |states[a + n]| == |c| && states[a + n][i].currentWeight == states[a][i].currentWeight
    ensures c[i] ==> states[a][i].currentWeight > 0 - n
  {
    var j := RankOf(c, i);
    WeightAfter(states, c, words, picks, times, a, i, j);
    WeightAfter(states, c, words, picks, times, a + n, i, j);
    ZeroWeights(states[0], c);
    if c[i] {
      RunRepeats(At(Weights(states[0]), Members(c, |c|)), a, j);
    }
  }

  lemma RankOf(c: seq<bool>, i: nat) returns (j: nat)
    requires i < |c|
    ensures c[i] ==> j < |Members(c, |c|)| && Members(c, |c|)[j] == i
  {
    MembersAre(c, |c|);
    j := 0;
    if c[i] {
      j :| 0 <= j < |Members(c, |c|)| && Members(c, |c|)[j] == i;
    }
  }

  lemma RunRepeats(ws: seq<int>, a: nat, j: nat)
    requires W.Positive(ws) && j < |ws|
    ensures W.Sum(ws) > 0
    ensures var zero := W.Zeros(|ws|);
            W.Run(zero, ws, a + W.Sum(ws))[j] == W.Run(zero, ws, a)[j] > 0 - W.Sum(ws)
  {
    W.ExactFairness(ws, a, j);
  }

  /**
   * While exactly the peers in c are eligible, from any current weights: the number of requests
   * out of n, from any one on, that go to one of them differs from its share by no more than a
   * bound that does not depend on n.
   */
  lemma RoundRobinIsProportional(
      states: seq<seq<Peer>>, c: seq<bool>, words: seq<Word>, picks: seq<nat>, times: seq<int>,
      a: nat, n: nat, i: nat, low: nat)
    requires Served(states, c, words, picks, times) && a + n <= |picks| && i < |c| && c[i]
    requires low >= TotalWeight(states[0], c) && low >= -CurrentTotal(states[0], c)
    requires forall k :: 0 <= k < |c| && c[k] ==> states[0][k].currentWeight >= -1 * low
    ensures var d := n * states[0][i].weight - Hits(picks, a, n, i) * TotalWeight(states[0], c);
            var most := CurrentTotal(states[0], c) + |Members(c, |c|)| * low;
            -most <= d <= most
  {
    var m := Members(c, |c|);
    var cw, ws := At(CurrentWeights(states[0]), m), At(Weights(states[0]), m);
    var j := RankOf(c, i);
    MembersAre(c, |c|);
    ServedFollows(states, c, words, picks, times, a, n);
    HitsAreCounts(picks, m, cw, ws, a, n, j);
    W.BoundedDrift(cw, ws, a, n, j, low);
  }

  /** The sum of the current weights of the members of c. */
  ghost function CurrentTotal(s: seq<Peer>, c: seq<bool>): int
    requires |c| == |s|
  {
    W.Sum(At(CurrentWeights(s), Members(c, |c|)))
  }
}
