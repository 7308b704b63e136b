/**
 * Keys, masks and prefixes of the 32-bit radix tree (ngx_radix_tree.c), and what a lookup
 * over the stored prefixes answers. A word is its 32 bits, the highest first; the walking
 * bit 0x80000000 >> i is the index i, and it has run out (is zero) from index 32 on.
 */
module RadixBits {

  const WIDTH := 32

  type Word = w: seq<bool> | |w| == WIDTH witness seq(WIDTH, _ => false)

  /** A prefix of a word, and the path of its node. */
  type Path = seq<bool>

  /** word & bit, for the walking bit number i. */
  predicate Bit(w: Word, i: nat) {
    i < WIDTH && w[i]
  }

  /** The first n bits of the word; bits beyond the last are zero. */
  function PathOf(w: Word, n: nat): (p: Path)
    ensures |p| == n
  {
    if n == 0 then [] else PathOf(w, n - 1) + [Bit(w, n - 1)]
  }

  /** How many bits of the mask are set without a gap, from bit i on. */
  function LeadingOnes(mask: Word, i: nat): (n: nat)
    requires i <= WIDTH
    ensures n <= WIDTH - i
    decreases WIDTH - i
  {
    if Bit(mask, i) then 1 + LeadingOnes(mask, i + 1) else 0
  }

  function PrefixOf(key: Word, mask: Word): (p: Path)
    ensures |p| <= WIDTH
  {
    PathOf(key, LeadingOnes(mask, 0))
  }

  /** The value of the longest of the prefixes shorter than n that is stored. */
  function Best(stored: map<Path, int>, key: Word, n: nat, none: int): int {
    if n == 0 then none
    else if PathOf(key, n - 1) in stored then stored[PathOf(key, n - 1)]
    else Best(stored, key, n - 1, none)
  }

  // ---- what the answers mean -------------------------------------------------------

  lemma {:induction false} PathIsPrefix(w: Word, n: nat)
    requires n <= WIDTH
    ensures PathOf(w, n) == w[..n]
  {
    if n == 0 {
    } else {
      PathIsPrefix(w, n - 1);
      assert w[..n] == w[..n - 1] + [w[n - 1]];
    }
  }

  /** The first zero of the mask is bit n. */
  ghost predicate Leads(mask: Word, n: nat) {
    n <= WIDTH && forall i: nat :: i <= n ==> (Bit(mask, i) <==> i < n)
  }

  lemma {:induction false} OnesFrom(mask: Word, from: nat, i: nat)
    requires from <= i <= WIDTH && i <= from + LeadingOnes(mask, from)
    ensures Bit(mask, i) <==> i < from + LeadingOnes(mask, from)
    decreases WIDTH - from
  {
    if from == i {
    } else {
      OnesFrom(mask, from + 1, i);
    }
  }

  lemma MaskLeads(mask: Word)
    ensures Leads(mask, LeadingOnes(mask, 0))
  {
    forall i: nat | i <= LeadingOnes(mask, 0)
      ensures Bit(mask, i) <==> i < LeadingOnes(mask, 0)
    {
      OnesFrom(mask, 0, i);
    }
  }

  lemma {:induction false} PathGrows(w: Word, i: nat, n: nat)
    requires i <= n
    ensures PathOf(w, i) <= PathOf(w, n)
  {
    if i == n {
    } else {
      PathGrows(w, i, n - 1);
    }
  }

  /** With no stored prefix the lookup answers none. */
  lemma {:induction false} NoPrefix(stored: map<Path, int>, key: Word, n: nat, none: int)
    requires n <= WIDTH + 1 && forall k :: 0 <= k < n ==> key[..k] !in stored
    ensures Best(stored, key, n, none) == none
  {
    if n == 0 {
    } else {
      PathIsPrefix(key, n - 1);
      assert key[..n - 1] !in stored;
      NoPrefix(stored, key, n - 1, none);
    }
  }

  /** The lookup answers with the value of the longest stored prefix of the key. */
  lemma {:induction false} LongestPrefix(stored: map<Path, int>, key: Word, n: nat, none: int, k: nat)
    requires k < n <= WIDTH + 1 && key[..k] in stored && forall l :: k < l < n ==> key[..l] !in stored
    ensures Best(stored, key, n, none) == stored[key[..k]]
  {
    PathIsPrefix(key, n - 1);
    if k == n - 1 {
    } else {
      assert key[..n - 1] !in stored;
      LongestPrefix(stored, key, n - 1, none, k);
    }
  }

  function And(k: Word, m: Word): Word {
    seq(WIDTH, i requires 0 <= i < WIDTH => k[i] && m[i])
  }

  /** Nothing but ones, then nothing but zeros. */
  ghost predicate Contiguous(mask: Word) {
    forall i, j :: 0 <= i < j < WIDTH && mask[j] ==> mask[i]
  }

  /** A prefix matches a key exactly when the two agree under its mask. */
  lemma MatchIsMasked(key: Word, other: Word, mask: Word)
    requires Contiguous(mask)
    ensures PrefixOf(other, mask) <= key <==> And(key, mask) == And(other, mask)
  {
    var n := LeadingOnes(mask, 0);
    OnesLead(mask, 0);
    PathIsPrefix(other, n);
    if And(key, mask) == And(other, mask) {
      forall i | 0 <= i < n
        ensures key[i] == other[i]
      {
        assert And(key, mask)[i] == And(other, mask)[i];
      }
      assert other[..n] == key[..n];
    }
    if other[..n] <= key {
      assert forall i :: 0 <= i < n ==> key[i] == other[..n][i];
      assert And(key, mask) == And(other, mask);
    }
  }

  lemma {:induction false} OnesLead(mask: Word, i: nat)
    requires Contiguous(mask) && i <= WIDTH
    ensures forall j :: i <= j < WIDTH ==> (mask[j] <==> j < i + LeadingOnes(mask, i))
    decreases WIDTH - i
  {
    if !Bit(mask, i) {
    } else {
      OnesLead(mask, i + 1);
    }
  }

  /** With a gap in the mask it is otherwise: the bits behind the gap are not looked at. */
  lemma GapIsIgnored(mask: Word) returns (key: Word, other: Word)
    requires !Contiguous(mask)
    ensures PrefixOf(other, mask) <= key && And(key, mask) != And(other, mask)
  {
    var i, j :| 0 <= i < j < WIDTH && mask[j] && !mask[i];
    other := seq(WIDTH, _ => false);
    key := other[j := true];
    StopsAt(mask, 0, i);
    PathIsPrefix(other, LeadingOnes(mask, 0));
    assert And(key, mask)[j] != And(other, mask)[j];
  }

  lemma {:induction false} StopsAt(mask: Word, i: nat, gap: nat)
    requires i <= gap < WIDTH && !mask[gap]
    ensures i + LeadingOnes(mask, i) <= gap
    decreases WIDTH - i
  {
    if i == gap || !Bit(mask, i) {
    } else {
      StopsAt(mask, i + 1, gap);
    }
  }
}
