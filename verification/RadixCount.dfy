/** The counting that ngx_radix_tree_create does with its keys when it preallocates nodes. */
module RadixCount {
  import opened Basics
  import opened RadixBits

  /** The number that the bits spell. */
  function Num(p: Path): nat {
    if p == [] then 0 else 2 * Num(p[..|p| - 1]) + if p[|p| - 1] then 1 else 0
  }

  const ZERO: Word := seq(WIDTH, _ => false)

  /** The word plus the word whose only bit is number i; a carry out of bit 0 is lost. */
  function AddBit(w: Word, i: nat): Word
    requires i < WIDTH
    decreases i
  {
    if !w[i] then w[i := true]
    else if i == 0 then w[i := false]
    else AddBit(w[i := false], i - 1)
  }

  lemma {:induction false} NumBelow(p: Path)
    ensures Num(p) < Pow2(|p|)
  {
    if p == [] {
    } else {
      NumBelow(p[..|p| - 1]);
    }
  }

  lemma {:induction false} NumInjective(p: Path, q: Path)
    requires |p| == |q| && Num(p) == Num(q)
    ensures p == q
  {
    if p == [] {
    } else {
      NumInjective(p[..|p| - 1], q[..|q| - 1]);
      assert p == p[..|p| - 1] + [p[|p| - 1]] && q == q[..|q| - 1] + [q[|q| - 1]];
    }
  }

  lemma {:induction false} NumOfZero(n: nat)
    requires n <= WIDTH
    ensures Num(ZERO[..n]) == 0
  {
    if n == 0 {
    } else {
      NumOfZero(n - 1);
      assert ZERO[..n][..n - 1] == ZERO[..n - 1];
    }
  }

  lemma Halve(w: Word, n: nat)
    requires 0 < n <= WIDTH
    ensures Num(w[..n]) == 2 * Num(w[..n - 1]) + if w[n - 1] then 1 else 0
  {
    assert w[..n][..n - 1] == w[..n - 1];
  }

  /** Nothing but zeros from bit n on. */
  ghost predicate ZeroFrom(w: Word, n: nat) {
    forall i :: n <= i < WIDTH ==> !w[i]
  }

  /** Adding the lowest of the first n bits counts up by one, and wraps around at the end. */
  lemma {:induction false} AddCounts(w: Word, n: nat)
    requires 0 < n <= WIDTH
    ensures var r := AddBit(w, n - 1);
            && (forall i :: n <= i < WIDTH ==> r[i] == w[i])
            && Num(r[..n]) == if Num(w[..n]) + 1 == Pow2(n) then 0 else Num(w[..n]) + 1
    decreases n
  {
    var i := n - 1;
    var v := w[i := !w[i]];
    Halve(w, n);
    Halve(v, n);
    NumBelow(w[..i]);
    assert v[..i] == w[..i];
    if !w[i] || i == 0 {
    } else {
      AddCounts(v, i);
      Halve(AddBit(v, i - 1), n);
    }
  }

  lemma ZeroIsZero(w: Word, n: nat)
    requires n <= WIDTH && ZeroFrom(w, n)
    ensures Num(w[..n]) == 0 <==> w == ZERO
  {
    NumOfZero(n);
    if Num(w[..n]) == 0 {
      NumInjective(w[..n], ZERO[..n]);
      assert forall i :: 0 <= i < n ==> w[i] == w[..n][i] && ZERO[i] == ZERO[..n][i];
      assert w == ZERO;
    }
  }

  /** The mask of the first n bits. */
  function MaskOf(n: nat): Word {
    seq(WIDTH, i => i < n)
  }

  lemma PrefixOfMask(key: Word, n: nat)
    requires n <= WIDTH
    ensures PrefixOf(key, MaskOf(n)) == key[..n]
  {
    OnesLead(MaskOf(n), 0);
    var m := LeadingOnes(MaskOf(n), 0);
    assert m < WIDTH ==> !MaskOf(n)[m];
    assert n < WIDTH ==> !MaskOf(n)[n];
    PathIsPrefix(key, m);
  }
}
