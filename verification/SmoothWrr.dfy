/**
 * The smooth weighted round robin step on its own: every peer is eligible and its effective
 * weight is its weight. Over any window of W = sum of the weights picks it is exactly fair.
 */
module SmoothWrr {

  function Sum(s: seq<int>): int {
    if s == [] then 0 else s[0] + Sum(s[1..])
  }

  function Plus(a: seq<int>, b: seq<int>): (c: seq<int>)
    requires |a| == |b|
    ensures |c| == |a|
  {
    seq(|a|, i requires 0 <= i < |a| => a[i] + b[i])
  }

  /** The first index of the largest element among the first n. */
  function FirstMax(s: seq<int>, n: nat): (k: nat)
    requires 0 < n <= |s|
    ensures k < n
  {
    if n == 1 then 0
    else
      var k := FirstMax(s, n - 1);
      if s[n - 1] > s[k] then n - 1 else k
  }

  lemma {:induction false} FirstMaxIs(s: seq<int>, n: nat)
    requires 0 < n <= |s|
    ensures var k := FirstMax(s, n);
            (forall i :: 0 <= i < n ==> s[i] <= s[k]) && (forall i :: 0 <= i < k ==> s[i] < s[k])
  {
    if n == 1 {
    } else {
      FirstMaxIs(s, n - 1);
    }
  }

  function Pick(cw: seq<int>, ws: seq<int>): (k: nat)
    requires |cw| == |ws| > 0
    ensures k < |ws|
  {
    FirstMax(Plus(cw, ws), |ws|)
  }

  function Step(cw: seq<int>, ws: seq<int>): (next: seq<int>)
    requires |cw| == |ws| > 0
    ensures |next| == |ws|
  {
    var up := Plus(cw, ws);
    var k := Pick(cw, ws);
    up[k := up[k] - Sum(ws)]
  }

  function Run(cw: seq<int>, ws: seq<int>, n: nat): (r: seq<int>)
    requires |cw| == |ws| > 0
    ensures |r| == |ws|
  {
    if n == 0 then cw else Step(Run(cw, ws, n - 1), ws)
  }

  /** How many of the picks a, a+1, ..., a+n-1 of the run fell on peer i. */
  function Count(cw: seq<int>, ws: seq<int>, a: nat, n: nat, i: nat): (c: nat)
    requires |cw| == |ws| > 0 && i < |ws|
    ensures c <= n
  {
    if n == 0 then 0
    else Count(cw, ws, a, n - 1, i) + (if Pick(Run(cw, ws, a + n - 1), ws) == i then 1 else 0)
  }

  ghost predicate Positive(ws: seq<int>) {
    |ws| > 0 && forall i :: 0 <= i < |ws| ==> ws[i] >= 1
  }

  function Zeros(n: nat): (z: seq<int>)
    ensures |z| == n && forall i :: 0 <= i < n ==> z[i] == 0
  {
    seq(n, _ => 0)
  }

  // ---- sums -----------------------------------------------------------------

  lemma {:induction false} SumPlus(a: seq<int>, b: seq<int>)
    requires |a| == |b|
    ensures Sum(Plus(a, b)) == Sum(a) + Sum(b)
  {
    if a == [] {
    } else {
      SumPlus(a[1..], b[1..]);
      assert Plus(a, b)[1..] == Plus(a[1..], b[1..]);
    }
  }

  lemma {:induction false} SumUpdate(s: seq<int>, k: nat, v: int)
    requires k < |s|
    ensures Sum(s[k := v]) == Sum(s) - s[k] + v
  {
    if k == 0 {
      assert s[k := v][1..] == s[1..];
    } else {
      SumUpdate(s[1..], k - 1, v);
      assert s[k := v][1..] == s[1..][k - 1 := v];
    }
  }

  lemma {:induction false} SumAtMost(s: seq<int>, m: int)
    requires forall i :: 0 <= i < |s| ==> s[i] <= m
    ensures Sum(s) <= |s| * m
  {
    if s == [] {
    } else {
      SumAtMost(s[1..], m);
    }
  }

  lemma {:induction false} SumAtLeast(s: seq<int>)
    requires forall i :: 0 <= i < |s| ==> s[i] >= 1
    ensures Sum(s) >= |s| && forall i :: 0 <= i < |s| ==> Sum(s) >= s[i]
  {
    if s == [] {
    } else {
      SumAtLeast(s[1..]);
      assert forall i :: 1 <= i < |s| ==> s[i] == s[1..][i - 1];
    }
  }

  lemma PositiveFactor(n: nat, m: int)
    requires n * m > 0
    ensures m > 0
  {
  }

  // ---- one step ---------------------------------------------------------------

  /** What every step keeps: the weights sum to zero and none falls to -W or below. */
  ghost predicate Inv(cw: seq<int>, ws: seq<int>) {
    |cw| == |ws| && Sum(cw) == 0 && forall i :: 0 <= i < |cw| ==> cw[i] > -Sum(ws)
  }

  lemma StepKeepsInv(cw: seq<int>, ws: seq<int>)
    requires Positive(ws) && Inv(cw, ws)
    ensures Inv(Step(cw, ws), ws)
  {
    var up := Plus(cw, ws);
    var k := Pick(cw, ws);
    SumPlus(cw, ws);
    SumUpdate(up, k, up[k] - Sum(ws));
    SumAtLeast(ws);
    FirstMaxIs(up, |ws|);
    SumAtMost(up, up[k]);
    PositiveFactor(|up|, up[k]);
  }

  lemma {:induction false} RunKeepsInv(cw: seq<int>, ws: seq<int>, n: nat)
    requires Positive(ws) && Inv(cw, ws)
    ensures Inv(Run(cw, ws, n), ws)
  {
    if n == 0 {
    } else {
      RunKeepsInv(cw, ws, n - 1);
      StepKeepsInv(Run(cw, ws, n - 1), ws);
    }
  }

  lemma StepAt(cw: seq<int>, ws: seq<int>, i: nat)
    requires |cw| == |ws| > 0 && i < |ws|
    ensures Step(cw, ws)[i] == cw[i] + ws[i] - (if Pick(cw, ws) == i then Sum(ws) else 0)
  {
  }

  /** n * w, by repeated addition. */
  function Times(n: nat, w: int): int {
    if n == 0 then 0 else Times(n - 1, w) + w
  }

  lemma {:induction false} TimesIs(n: nat, w: int)
    ensures Times(n, w) == n * w
  {
    if n == 0 {
    } else {
      TimesIs(n - 1, w);
      assert (n - 1) * w + w == n * w;
    }
  }

  lemma RunStepAt(cw: seq<int>, ws: seq<int>, t: nat, i: nat)
    requires |cw| == |ws| > 0 && i < |ws|
    ensures Run(cw, ws, t + 1)[i] == Run(cw, ws, t)[i] + ws[i] - (if Pick(Run(cw, ws, t), ws) == i then Sum(ws) else 0)
  {
    StepAt(Run(cw, ws, t), ws, i);
  }

  lemma CountStep(cw: seq<int>, ws: seq<int>, a: nat, n: nat, i: nat)
    requires |cw| == |ws| > 0 && i < |ws| && n > 0
    ensures var hit := Pick(Run(cw, ws, a + n - 1), ws) == i;
            var c := Count(cw, ws, a, n - 1, i);
            && Count(cw, ws, a, n, i) == (if hit then c + 1 else c)
            && Times(Count(cw, ws, a, n, i), Sum(ws)) == Times(c, Sum(ws)) + (if hit then Sum(ws) else 0)
            && Times(n, ws[i]) == Times(n - 1, ws[i]) + ws[i]
  {
  }

  /** Current weight, less what was earned, plus what was paid, since pick a. */
  function Book(cw: seq<int>, ws: seq<int>, a: nat, n: nat, i: nat): int
    requires |cw| == |ws| > 0 && i < |ws|
  {
    Run(cw, ws, a + n)[i] - Times(n, ws[i]) + Times(Count(cw, ws, a, n, i), Sum(ws))
  }

  lemma BookStep(cw: seq<int>, ws: seq<int>, a: nat, n: nat, i: nat)
    requires |cw| == |ws| > 0 && i < |ws| && n > 0
    ensures Book(cw, ws, a, n, i) == Book(cw, ws, a, n - 1, i)
  {
    RunStepAt(cw, ws, a + n - 1, i);
    CountStep(cw, ws, a, n, i);
  }

  lemma {:induction false} BookIsConstant(cw: seq<int>, ws: seq<int>, a: nat, n: nat, i: nat)
    requires |cw| == |ws| > 0 && i < |ws|
    ensures Book(cw, ws, a, n, i) == Book(cw, ws, a, 0, i)
  {
    if n == 0 {
    } else {
      BookIsConstant(cw, ws, a, n - 1, i);
      BookStep(cw, ws, a, n, i);
    }
  }

  /** The balance sheet of a window: n times the weight earned, minus W for each pick. */
  lemma Ledger(cw: seq<int>, ws: seq<int>, a: nat, n: nat, i: nat)
    requires |cw| == |ws| > 0 && i < |ws|
    ensures Run(cw, ws, a + n)[i] == Run(cw, ws, a)[i] + Times(n, ws[i]) - Times(Count(cw, ws, a, n, i), Sum(ws))
  {
    BookIsConstant(cw, ws, a, n, i);
    assert a + 0 == a && Count(cw, ws, a, 0, i) == 0;
  }

  // ---- fairness ----------------------------------------------------------------

  function Counts(cw: seq<int>, ws: seq<int>, a: nat, n: nat): (c: seq<int>)
    requires |cw| == |ws| > 0
    ensures |c| == |ws| && forall i :: 0 <= i < |ws| ==> c[i] == Count(cw, ws, a, n, i)
  {
    seq(|ws|, i requires 0 <= i < |ws| => Count(cw, ws, a, n, i))
  }

  lemma {:induction false} SumOneHot(m: nat, k: nat)
    requires k < m
    ensures Sum(Zeros(m)[k := 1]) == 1
  {
    SumZeros(m);
    SumUpdate(Zeros(m), k, 1);
  }

  lemma {:induction false} SumZeros(m: nat)
    ensures Sum(Zeros(m)) == 0
  {
    if m == 0 {
    } else {
      SumZeros(m - 1);
      assert Zeros(m)[1..] == Zeros(m - 1);
    }
  }

  lemma CountsStep(cw: seq<int>, ws: seq<int>, a: nat, n: nat, k: nat)
    requires |cw| == |ws| > 0 && n > 0 && k == Pick(Run(cw, ws, a + n - 1), ws)
    ensures Counts(cw, ws, a, n) == Plus(Counts(cw, ws, a, n - 1), Zeros(|ws|)[k := 1])
  {
  }

  /** Every pick falls on exactly one peer. */
  lemma {:induction false} CountsSum(cw: seq<int>, ws: seq<int>, a: nat, n: nat)
    requires |cw| == |ws| > 0
    ensures Sum(Counts(cw, ws, a, n)) == n
  {
    if n == 0 {
      SumZeros(|ws|);
      assert Counts(cw, ws, a, 0) == Zeros(|ws|);
    } else {
      CountsSum(cw, ws, a, n - 1);
      var k := Pick(Run(cw, ws, a + n - 1), ws);
      var one := Zeros(|ws|)[k := 1];
      CountsStep(cw, ws, a, n, k);
      SumPlus(Counts(cw, ws, a, n - 1), one);
      SumOneHot(|ws|, k);
    }
  }

  lemma {:induction false} SumsEqual(a: seq<int>, b: seq<int>)
    requires |a| == |b| && Sum(a) == Sum(b) && forall i :: 0 <= i < |a| ==> a[i] <= b[i]
    ensures a == b
  {
    if a == [] {
    } else {
      SumMonotone(a[1..], b[1..]);
      SumsEqual(a[1..], b[1..]);
      assert a == [a[0]] + a[1..] && b == [b[0]] + b[1..];
    }
  }

  lemma {:induction false} SumMonotone(a: seq<int>, b: seq<int>)
    requires |a| == |b| && forall i :: 0 <= i < |a| ==> a[i] <= b[i]
    ensures Sum(a) <= Sum(b)
  {
    if a == [] {
    } else {
      SumMonotone(a[1..], b[1..]);
    }
  }

  lemma NoOverdraft(c: nat, w: int, W: nat)
    requires W > 0 && Times(W, w) - Times(c, W) > 0 - W
    ensures c <= w
  {
    TimesIs(W, w);
    TimesIs(c, W);
    assert (w - c + 1) * W > 0;
    PositiveProduct(w - c + 1, W);
  }

  lemma PositiveProduct(a: int, b: int)
    requires b > 0 && a * b > 0
    ensures a > 0
  {
  }

  lemma CycleCount(ws: seq<int>, W: nat, i: nat)
    requires Positive(ws) && W == Sum(ws) > 0 && i < |ws|
    ensures Count(Zeros(|ws|), ws, 0, W, i) <= ws[i]
  {
    var zero := Zeros(|ws|);
    SumZeros(|ws|);
    RunKeepsInv(zero, ws, W);
    Ledger(zero, ws, 0, W, i);
    NoOverdraft(Count(zero, ws, 0, W, i), ws[i], W);
  }

  lemma CycleCounts(ws: seq<int>, W: nat)
    requires Positive(ws) && W == Sum(ws) > 0
    ensures Counts(Zeros(|ws|), ws, 0, W) == ws
  {
    var counts := Counts(Zeros(|ws|), ws, 0, W);
    forall i | 0 <= i < |ws|
      ensures counts[i] <= ws[i]
    {
      CycleCount(ws, W, i);
    }
    CountsSum(Zeros(|ws|), ws, 0, W);
    SumsEqual(counts, ws);
  }

  lemma BackToZero(ws: seq<int>, W: nat, i: nat)
    requires Positive(ws) && W == Sum(ws) > 0 && i < |ws|
    ensures Run(Zeros(|ws|), ws, W)[i] == 0
  {
    CycleCounts(ws, W);
    Ledger(Zeros(|ws|), ws, 0, W, i);
    assert Counts(Zeros(|ws|), ws, 0, W)[i] == ws[i];
    Commutes(W, ws[i]);
  }

  /** The first W picks from zero weights: each peer exactly its weight, and back to zero. */
  lemma FirstCycle(ws: seq<int>)
    requires Positive(ws)
    ensures Sum(ws) > 0 && Run(Zeros(|ws|), ws, Sum(ws)) == Zeros(|ws|)
    ensures Counts(Zeros(|ws|), ws, 0, Sum(ws)) == ws
  {
    SumAtLeast(ws);
    CycleCounts(ws, Sum(ws));
    forall i | 0 <= i < |ws|
      ensures Run(Zeros(|ws|), ws, Sum(ws))[i] == 0
    {
      BackToZero(ws, Sum(ws), i);
    }
  }

  lemma Commutes(a: nat, b: nat)
    ensures Times(a, b) == Times(b, a)
  {
    TimesIs(a, b);
    TimesIs(b, a);
  }

  lemma SameFactor(c: nat, w: int, W: nat)
    requires W > 0 && Times(W, w) == Times(c, W)
    ensures c == w
  {
    TimesIs(W, w);
    TimesIs(c, W);
    assert (w - c) * W == 0;
    NoZeroFactor(w - c, W);
  }

  lemma NoZeroFactor(a: int, b: int)
    requires b > 0 && a * b == 0
    ensures a == 0
  {
  }

  /** Two runs that have met go on alike. */
  lemma SameNext(cw: seq<int>, ws: seq<int>, b: nat, c: nat, r: seq<int>)
    requires |cw| == |ws| > 0 && r == Run(cw, ws, b) && r == Run(cw, ws, c)
    ensures Step(r, ws) == Run(cw, ws, b + 1) && Step(r, ws) == Run(cw, ws, c + 1)
  {
  }

  /** r is where the run is at a, and again at w + a. */
  ghost predicate Returns(cw: seq<int>, ws: seq<int>, w: nat, a: nat, r: seq<int>)
    requires |cw| == |ws| > 0
  {
    r == Run(cw, ws, a) && r == Run(cw, ws, w + a)
  }

  /** A run that has come back to its start goes on as it did. */
  lemma {:induction false} Periodic(cw: seq<int>, ws: seq<int>, w: nat, a: nat) returns (r: seq<int>)
    requires |cw| == |ws| > 0 && Run(cw, ws, w) == cw
    ensures Returns(cw, ws, w, a, r)
  {
    if a == 0 {
      r := cw;
    } else {
      var before := Periodic(cw, ws, w, a - 1);
      SameNext(cw, ws, w + (a - 1), a - 1, before);
      r := Run(cw, ws, a);
    }
  }

  /**
   * Exact fairness: from zero weights, every window of W consecutive picks, wherever it
   * starts, picks each peer exactly as often as its weight says; the weights repeat with
   * period W, always sum to zero and always stay above -W.
   */
  lemma ExactFairness(ws: seq<int>, a: nat, i: nat)
    requires Positive(ws) && i < |ws|
    ensures Sum(ws) > 0 && Count(Zeros(|ws|), ws, a, Sum(ws), i) == ws[i]
    ensures Run(Zeros(|ws|), ws, a + Sum(ws)) == Run(Zeros(|ws|), ws, a)
    ensures Inv(Run(Zeros(|ws|), ws, a), ws)
  {
    var zero := Zeros(|ws|);
    FirstCycle(ws);
    var W: nat := Sum(ws);
    SumZeros(|ws|);
    RunKeepsInv(zero, ws, a);
    var r := Periodic(zero, ws, W, a);
    Ledger(zero, ws, a, W, i);
    SameFactor(Count(zero, ws, a, W, i), ws[i], W);
  }

  // ---- from any start -------------------------------------------------------------

  /** The weights sum to total, which no step changes, and none is below -low. */
  ghost predicate Above(cw: seq<int>, ws: seq<int>, total: int, low: nat) {
    |cw| == |ws| && Sum(cw) == total && forall i :: 0 <= i < |cw| ==> cw[i] >= -1 * low
  }

  lemma NegativeFactor(n: nat, m: int)
    requires n >= 1 && m < 0
    ensures n * m <= m
  {
  }

  lemma StepKeepsAbove(cw: seq<int>, ws: seq<int>, total: int, low: nat)
    requires Positive(ws) && Above(cw, ws, total, low) && low >= Sum(ws) && low >= -total
    ensures Above(Step(cw, ws), ws, total, low)
  {
    var up := Plus(cw, ws);
    var k := Pick(cw, ws);
    SumPlus(cw, ws);
    SumUpdate(up, k, up[k] - Sum(ws));
    SumAtLeast(ws);
    FirstMaxIs(up, |ws|);
    SumAtMost(up, up[k]);
    if up[k] < 0 {
      NegativeFactor(|up|, up[k]);
    }
  }

  lemma {:induction false} RunKeepsAbove(cw: seq<int>, ws: seq<int>, total: int, low: nat, n: nat)
    requires Positive(ws) && Above(cw, ws, total, low) && low >= Sum(ws) && low >= -total
    ensures Above(Run(cw, ws, n), ws, total, low)
  {
    if n == 0 {
    } else {
      RunKeepsAbove(cw, ws, total, low, n - 1);
      StepKeepsAbove(Run(cw, ws, n - 1), ws, total, low);
    }
  }

  lemma {:induction false} SumAbove(s: seq<int>, low: nat)
    requires forall i :: 0 <= i < |s| ==> s[i] >= -1 * low
    ensures Sum(s) >= -1 * Times(|s|, low)
  {
    if s == [] {
    } else {
      SumAbove(s[1..], low);
    }
  }

  /** What is far above the others must be paid for by them. */
  lemma {:induction false} OneOfSum(s: seq<int>, i: nat, low: nat)
    requires i < |s| && forall j :: 0 <= j < |s| ==> s[j] >= -1 * low
    ensures s[i] <= Sum(s) + Times(|s| - 1, low)
  {
    if i == 0 {
      SumAbove(s[1..], low);
    } else {
      OneOfSum(s[1..], i - 1, low);
    }
  }

  /** The drift of a window is the change of the current weight, which stays within bounds. */
  lemma DriftByWeights(cw: seq<int>, ws: seq<int>, a: nat, n: nat, i: nat, low: nat)
    requires Positive(ws) && Above(cw, ws, Sum(cw), low) && i < |ws| && low >= Sum(ws) && low >= -Sum(cw)
    ensures var d := Times(n, ws[i]) - Times(Count(cw, ws, a, n, i), Sum(ws));
            var most := Sum(cw) + Times(|ws|, low);
            -most <= d <= most
  {
    RunKeepsAbove(cw, ws, Sum(cw), low, a);
    RunKeepsAbove(cw, ws, Sum(cw), low, a + n);
    OneOfSum(Run(cw, ws, a), i, low);
    OneOfSum(Run(cw, ws, a + n), i, low);
    Ledger(cw, ws, a, n, i);
  }

  /**
   * From any start whatever, a window of n picks, wherever it begins, picks each peer as often
   * as its share n * weight / W says, but for a difference that does not grow with n.
   */
  lemma BoundedDrift(cw: seq<int>, ws: seq<int>, a: nat, n: nat, i: nat, low: nat)
    requires Positive(ws) && |cw| == |ws| && i < |ws| && low >= Sum(ws) && low >= -Sum(cw)
    requires forall j :: 0 <= j < |cw| ==> cw[j] >= -1 * low
    ensures var d := n * ws[i] - Count(cw, ws, a, n, i) * Sum(ws);
            var most := Sum(cw) + |ws| * low;
            -most <= d <= most
  {
    var c := Count(cw, ws, a, n, i);
    DriftByWeights(cw, ws, a, n, i, low);
    TimesIs(n, ws[i]);
    TimesIs(c, Sum(ws));
    TimesIs(|ws|, low);
  }
}
