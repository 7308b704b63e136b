/** Red-black trees as plain values: an independent reading of what the linked tree must be. */
module RbShape {
  import opened Basics

  datatype Shape<T> = Leaf | Branch(left: Shape<T>, item: T, red: bool, right: Shape<T>)

  function InOrder<T>(t: Shape<T>): seq<T> {
    match t
    case Leaf => []
    case Branch(l, x, _, r) => InOrder(l) + [x] + InOrder(r)
  }

  function Height<T>(t: Shape<T>): nat {
    match t
    case Leaf => 0
    case Branch(l, _, _, r) => 1 + (if Height(l) > Height(r) then Height(l) else Height(r))
  }

  predicate IsRed<T>(t: Shape<T>) {
    t.Branch? && t.red
  }

  predicate NoRedRed<T>(t: Shape<T>) {
    match t
    case Leaf => true
    case Branch(l, _, red, r) => !(red && (IsRed(l) || IsRed(r))) && NoRedRed(l) && NoRedRed(r)
  }

  /** A way down to a leaf, as a list of turns; true is left. */
  predicate IsPath<T>(t: Shape<T>, turns: seq<bool>) {
    match t
    case Leaf => turns == []
    case Branch(l, _, _, r) => turns != [] && IsPath(if turns[0] then l else r, turns[1..])
  }

  function BlackCount<T>(t: Shape<T>, turns: seq<bool>): nat
    requires IsPath(t, turns)
  {
    match t
    case Leaf => 0
    case Branch(l, _, red, r) => (if red then 0 else 1) + BlackCount(if turns[0] then l else r, turns[1..])
  }

  /** Every way down meets exactly b black nodes. */
  ghost predicate BlackHeight<T>(t: Shape<T>, b: nat) {
    forall turns :: IsPath(t, turns) ==> BlackCount(t, turns) == b
  }

  ghost predicate RedBlack<T>(t: Shape<T>) {
    !IsRed(t) && NoRedRed(t) && exists b: nat :: BlackHeight(t, b)
  }

  lemma SplitAt<T>(s: seq<T>, a: int, m: int, b: int)
    requires 0 <= a <= m < b <= |s|
    ensures s[a..b] == s[a..m] + [s[m]] + s[m + 1..b]
  {
  }

  lemma SomePath<T>(t: Shape<T>) returns (turns: seq<bool>)
    ensures IsPath(t, turns)
  {
    match t
    case Leaf => turns := [];
    case Branch(l, _, _, _) =>
      var rest := SomePath(l);
      turns := [true] + rest;
  }

  /** A black height passes to both subtrees. */
  lemma BlackHeightBelow<T>(t: Shape<T>, b: nat)
    requires t.Branch? && BlackHeight(t, b)
    ensures t.red || b > 0
    ensures var c := if t.red then b else b - 1; BlackHeight(t.left, c) && BlackHeight(t.right, c)
  {
    var some := SomePath(t);
    var c := b - (if t.red then 0 else 1);
    forall turns | IsPath(t.left, turns)
      ensures BlackCount(t.left, turns) == c
    {
      assert ([true] + turns)[1..] == turns;
      assert IsPath(t, [true] + turns);
    }
    forall turns | IsPath(t.right, turns)
      ensures BlackCount(t.right, turns) == c
    {
      assert ([false] + turns)[1..] == turns;
      assert IsPath(t, [false] + turns);
    }
  }

  lemma {:induction false} BlackHeightBounds<T>(t: Shape<T>, b: nat)
    requires NoRedRed(t) && BlackHeight(t, b)
    ensures Pow2(b) <= |InOrder(t)| + 1
    ensures Height(t) <= 2 * b + (if IsRed(t) then 1 else 0)
  {
    match t
    case Leaf =>
      assert IsPath(t, []);
    case Branch(l, _, red, r) =>
      BlackHeightBelow(t, b);
      var c := if red then b else b - 1;
      BlackHeightBounds(l, c);
      BlackHeightBounds(r, c);
  }

  lemma {:induction false} Pow2Monotone(m: nat, n: nat)
    requires m <= n
    ensures Pow2(m) <= Pow2(n)
    decreases n - m
  {
    if m == n {
    } else {
      Pow2Monotone(m + 1, n);
    }
  }

  lemma {:induction false} Pow2Double(b: nat)
    ensures Pow2(2 * b) == Pow2(b) * Pow2(b)
  {
    if b == 0 {
    } else {
      Pow2Double(b - 1);
      assert Pow2(2 * b) == 2 * Pow2(2 * b - 1) == 4 * Pow2(2 * (b - 1));
    }
  }

  lemma SquareMonotone(x: nat, y: nat)
    requires x <= y
    ensures x * x <= y * y
  {
    assert x * x <= x * y <= y * y;
  }

  /** The height bound: 2^height <= (n + 1)^2, that is height <= 2 * log2(n + 1). */
  lemma HeightBound<T>(t: Shape<T>)
    requires RedBlack(t)
    ensures Pow2(Height(t)) <= (|InOrder(t)| + 1) * (|InOrder(t)| + 1)
  {
    var b: nat :| BlackHeight(t, b);
    BlackHeightBounds(t, b);
    Pow2Monotone(Height(t), 2 * b);
    Pow2Double(b);
    SquareMonotone(Pow2(b), |InOrder(t)| + 1);
  }
}
