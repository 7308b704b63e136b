/** The intrusive circular list (ngx_queue.h) and its middle and sort (ngx_queue.c). */
module Queue {
  import opened StableSort

  /** ngx_queue_t, embedded in an element or standing for a whole queue. */
  class Link {
    var prev: Link?
    var next: Link?
  }

  /** Position i of the ring: the elements from 0 on, and the sentinel h at either end. */
  function Spot(h: Link, s: seq<Link>, i: int): Link {
    if 0 <= i < |s| then s[i] else h
  }

  ghost predicate Joined(h: Link, s: seq<Link>, i: int)
    reads h, s
  {
    Spot(h, s, i).next == Spot(h, s, i + 1) && Spot(h, s, i + 1).prev == Spot(h, s, i)
  }

  ghost predicate Distinct(h: Link, s: seq<Link>) {
    h !in s && forall i, j :: 0 <= i < j < |s| ==> s[i] != s[j]
  }

  /** The queue with sentinel h holds the elements s. */
  ghost predicate Ring(h: Link, s: seq<Link>)
    reads h, s
  {
    Distinct(h, s) && forall i {:trigger Joined(h, s, i)} :: -1 <= i < |s| ==> Joined(h, s, i)
  }

  method Init(h: Link)
    modifies h
    ensures Ring(h, [])
  {
    h.prev := h;
    h.next := h;
  }

  method IsEmpty(h: Link, ghost s: seq<Link>) returns (empty: bool)
    requires Ring(h, s)
    ensures empty == (s == [])
  {
    assert Joined(h, s, -1) && Joined(h, s, |s| - 1);
    empty := h == h.prev;
  }

  // ---- inserting and removing -------------------------------------------------------

  function RemoveAt(s: seq<Link>, k: nat): seq<Link>
    requires k < |s|
  {
    s[..k] + s[k + 1..]
  }

  /** ngx_queue_insert_after and ngx_queue_insert_head: x goes behind p, which is at position k - 1. */
  method InsertAfter(p: Link, x: Link, ghost h: Link, ghost s: seq<Link>, ghost k: nat)
    requires Ring(h, s) && k <= |s| && p == Spot(h, s, k - 1) && x != h && x !in s
    modifies h, s, x
    ensures Ring(h, InsertAt(s, k, x))
  {
    ghost var t := InsertAt(s, k, x);
    assert Joined(h, s, k - 1);
    x.next := p.next;
    x.next.prev := x;
    x.prev := p;
    p.next := x;
    forall i | -1 <= i < |t|
      ensures Joined(h, t, i)
    {
      assert i < k - 1 ==> old(Joined(h, s, i));
      assert i > k ==> old(Joined(h, s, i - 1));
    }
  }

  /** ngx_queue_remove of the element at position k. */
  method Remove(x: Link, ghost h: Link, ghost s: seq<Link>, ghost k: nat)
    requires Ring(h, s) && k < |s| && x == s[k]
    modifies h, s
    ensures Ring(h, RemoveAt(s, k)) && x.prev == null && x.next == null
  {
    ghost var t := RemoveAt(s, k);
    assert Joined(h, s, k - 1) && Joined(h, s, k);
    x.next.prev := x.prev;
    x.prev.next := x.next;
    x.prev := null;
    x.next := null;
    forall i | -1 <= i < |t|
      ensures Joined(h, t, i)
    {
      assert i < k - 1 ==> old(Joined(h, s, i));
      assert i >= k ==> old(Joined(h, s, i + 1));
    }
  }

  /** ngx_queue_insert_tail */
  method InsertTail(h: Link, x: Link, ghost s: seq<Link>)
    requires Ring(h, s) && x != h && x !in s
    modifies h, s, x
    ensures Ring(h, s + [x])
  {
    ghost var t := s + [x];
    assert Joined(h, s, |s| - 1);
    x.prev := h.prev;
    x.prev.next := x;
    x.next := h;
    h.prev := x;
    forall i | -1 <= i < |t|
      ensures Joined(h, t, i)
    {
      assert i < |s| - 1 ==> old(Joined(h, s, i));
    }
  }

  // ---- splitting and merging --------------------------------------------------------

  /** ngx_queue_split: q, which is at position k, and what follows move to the queue n. */
  method Split(h: Link, q: Link, n: Link, ghost s: seq<Link>, ghost k: nat)
    requires Ring(h, s) && k < |s| && q == s[k] && n != h && n !in s
    modifies h, s, n
    ensures Ring(h, s[..k]) && Ring(n, s[k..])
  {
    assert Joined(h, s, |s| - 1) && Joined(h, s, k - 1);
    n.prev := h.prev;
    n.prev.next := n;
    n.next := q;
    h.prev := q.prev;
    h.prev.next := h;
    q.prev := n;
    forall i | -1 <= i < |s[..k]|
      ensures Joined(h, s[..k], i)
    {
      assert old(Joined(h, s, i));
    }
    forall i | -1 <= i < |s[k..]|
      ensures Joined(n, s[k..], i)
    {
      assert i >= 0 ==> old(Joined(h, s, k + i));
    }
  }

  /** ngx_queue_merge: the elements of n go behind those of h; n itself is left stale. */
  method Merge(h: Link, n: Link, ghost s: seq<Link>, ghost t: seq<Link>)
    requires Ring(h, s) && Ring(n, t) && h != n && h !in t && n !in s
    requires forall i, j :: 0 <= i < |s| && 0 <= j < |t| ==> s[i] != t[j]
    modifies h, n, s, t
    ensures Ring(h, s + t)
  {
    assert Joined(h, s, |s| - 1) && Joined(n, t, -1) && Joined(n, t, |t| - 1);
    h.prev.next := n.next;
    n.next.prev := h.prev;
    h.prev := n.prev;
    h.prev.next := h;
    forall i | -1 <= i < |s + t|
      ensures Joined(h, s + t, i)
    {
      assert i < |s| - 1 ==> old(Joined(h, s, i));
      assert i >= |s| ==> old(Joined(n, t, i - |s|));
    }
  }

  /** Splitting and merging give back the queue as it was. */
  method SplitThenMerge(h: Link, q: Link, n: Link, ghost s: seq<Link>, ghost k: nat)
    requires Ring(h, s) && k < |s| && q == s[k] && n != h && n !in s
    modifies h, s, n
    ensures Ring(h, s)
  {
    Split(h, q, n, s, k);
    Merge(h, n, s[..k], s[k..]);
    assert s[..k] + s[k..] == s;
  }

  // ---- the middle ----------------------------------------------------------------------

  /** ngx_queue_middle; the sentinel when the queue is empty. */
  method Middle(h: Link, ghost s: seq<Link>) returns (middle: Link)
    requires Ring(h, s)
    ensures middle == Spot(h, s, |s| / 2)
  {
    assert Joined(h, s, -1) && Joined(h, s, |s| - 1);
    middle := h.next;
    var next := h.next;
    ghost var m, k := 0, 0;
    while next != h.prev
      invariant s != [] ==> k < |s|
      invariant k == 2 * m && middle == Spot(h, s, m) && next == Spot(h, s, k)
      decreases |s| - k
    {
      assert Joined(h, s, m) && Joined(h, s, k);
      middle := middle.next;
      next := next.next;
      if next == h.prev {
        return;
      }
      assert Joined(h, s, k + 1);
      next := next.next;
      m, k := m + 1, k + 2;
    }
  }

  // ---- the stable insertion sort -----------------------------------------------------------

  type Compare = (Link, Link) -> int

  /** The inner loop: from prev back to the element behind which q belongs. */
  method Walk(h: Link, last: Link, q: Link, cmp: Compare, ghost p: seq<Link>, ghost s: seq<Link>)
    returns (prev: Link, ghost k: nat)
    requires Ring(h, s) && p <= s && p != [] && last == p[|p| - 1]
    ensures k == Place(cmp, p, q) && prev == Spot(h, s, k - 1)
  {
    prev := last;
    k := |p|;
    assert p[..k] == p;
    while true
      invariant 0 < k <= |p| && prev == p[k - 1] && Place(cmp, p[..k], q) == Place(cmp, p, q)
      decreases k
    {
      assert p[..k][..k - 1] == p[..k - 1];
      if cmp(prev, q) <= 0 {
        break;
      }
      assert Joined(h, s, k - 2);
      prev := prev.prev;
      k := k - 1;
      if prev == h {
        break;
      }
    }
  }

  lemma Parts(p: seq<Link>, q: Link, rest: seq<Link>, k: nat)
    requires k <= |p|
    ensures RemoveAt(p + [q] + rest, |p|) == p + rest
    ensures InsertAt(p + rest, k, q) == InsertAt(p, k, q) + rest
  {
  }

  /** The turn of ngx_queue_sort for the element q, with p sorted in front of it; next is the element behind it. */
  method SortStep(h: Link, q: Link, cmp: Compare, ghost p: seq<Link>, ghost rest: seq<Link>, ghost all: set<Link>)
    returns (next: Link)
    requires p != [] && Ring(h, p + [q] + rest) && forall x :: x in p + [q] + rest ==> x in all
    modifies h, all
    ensures Ring(h, InsertAt(p, Place(cmp, p, q), q) + rest) && next == Spot(h, rest, 0)
  {
    ghost var t := p + [q] + rest;
    assert Joined(h, t, |p| - 1) && Joined(h, t, |p|);
    assert t[|p|] == q && t[|p| - 1] == p[|p| - 1];
    var prev := q.prev;
    next := q.next;
    Remove(q, h, t, |p|);
    Parts(p, q, rest, Place(cmp, p, q));
    ghost var k;
    prev, k := Walk(h, prev, q, cmp, p, p + rest);
    assert forall i :: 0 <= i < |p + rest| ==> (p + rest)[i] == t[if i < |p| then i else i + 1];
    InsertAfter(prev, q, h, p + rest, k);
  }

  /** ngx_queue_sort */
  method Sort(h: Link, cmp: Compare, ghost s: seq<Link>)
    requires Ring(h, s)
    modifies h, s
    ensures Ring(h, SortTo(cmp, s, |s|))
  {
    assert Joined(h, s, -1) && Joined(h, s, |s| - 1);
    var q := h.next;
    ghost var n := 1;
    SortedStart(cmp, s);
    if q == h.prev {
      return;
    }
    assert Joined(h, s, 0);
    q := q.next;
    while q != h
      invariant 1 <= n <= |s| && Ring(h, SortTo(cmp, s, n) + s[n..]) && q == Spot(h, s, n)
      decreases |s| - n
    {
      q := SortTurn(h, q, cmp, s, n);
      n := n + 1;
    }
    assert SortTo(cmp, s, n) + s[n..] == SortTo(cmp, s, |s|);
  }

  /** The turn for element n of the original queue. */
  method SortTurn(h: Link, q: Link, cmp: Compare, ghost s: seq<Link>, ghost n: nat) returns (next: Link)
    requires 0 < n < |s| && Ring(h, SortTo(cmp, s, n) + s[n..]) && q == s[n]
    modifies h, s
    ensures Ring(h, SortTo(cmp, s, n + 1) + s[n + 1..]) && next == Spot(h, s, n + 1)
  {
    ghost var p, rest := SortTo(cmp, s, n), s[n + 1..];
    InSet(cmp, s, n);
    assert p + s[n..] == p + [q] + rest;
    next := SortStep(h, q, cmp, p, rest, set x | x in s);
  }

  lemma SortedStart(cmp: Compare, s: seq<Link>)
    ensures s == [] ==> SortTo(cmp, s, |s|) == s
    ensures s != [] ==> SortTo(cmp, s, 1) + s[1..] == s && (|s| == 1 ==> SortTo(cmp, s, |s|) == s)
  {
    if s != [] {
      assert SortTo(cmp, s, 0) == [] && InsertAt([], 0, s[0]) == [s[0]];
    }
  }

  /** The sorted part consists of elements of the queue. */
  lemma InSet(cmp: Compare, s: seq<Link>, n: nat)
    requires n <= |s|
    ensures forall x :: x in SortTo(cmp, s, n) ==> x in s
  {
    SortPermutes(cmp, s, n);
    forall x | x in SortTo(cmp, s, n)
      ensures x in s
    {
      SameMembers(SortTo(cmp, s, n), s[..n], x);
    }
  }
}
