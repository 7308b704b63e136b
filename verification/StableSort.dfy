/** The insertion sort that ngx_queue_sort performs, as a function on sequences. */
module StableSort {

  function InsertAt<T>(s: seq<T>, k: nat, x: T): seq<T>
    requires k <= |s|
  {
    s[..k] + [x] + s[k..]
  }

  /** Where x goes in the sorted sequence s: behind the last element that is not greater. */
  function Place<T>(cmp: (T, T) -> int, s: seq<T>, x: T): (k: nat)
    ensures k <= |s|
  {
    if s == [] then 0
    else if cmp(s[|s| - 1], x) <= 0 then |s|
    else Place(cmp, s[..|s| - 1], x)
  }

  /** The first n elements, sorted by insertion. */
  function SortTo<T>(cmp: (T, T) -> int, s: seq<T>, n: nat): (r: seq<T>)
    requires n <= |s|
    ensures |r| == n
  {
    if n == 0 then []
    else
      var r := SortTo(cmp, s, n - 1);
      InsertAt(r, Place(cmp, r, s[n - 1]), s[n - 1])
  }

  // ---- it permutes -------------------------------------------------------------------

  lemma InsertAdds<T>(s: seq<T>, k: nat, x: T)
    requires k <= |s|
    ensures multiset(InsertAt(s, k, x)) == multiset(s) + multiset{x}
  {
    assert s == s[..k] + s[k..];
  }

  lemma LastAdds<T>(s: seq<T>, n: nat)
    requires 0 < n <= |s|
    ensures multiset(s[..n]) == multiset(s[..n - 1]) + multiset{s[n - 1]}
  {
    assert s[..n] == s[..n - 1] + [s[n - 1]];
  }

  lemma {:induction false} SortPermutes<T>(cmp: (T, T) -> int, s: seq<T>, n: nat)
    requires n <= |s|
    ensures multiset(SortTo(cmp, s, n)) == multiset(s[..n])
  {
    if n == 0 {
    } else {
      SortPermutes(cmp, s, n - 1);
      var r := SortTo(cmp, s, n - 1);
      InsertAdds(r, Place(cmp, r, s[n - 1]), s[n - 1]);
      LastAdds(s, n);
    }
  }

  lemma SameMembers<T>(s: seq<T>, t: seq<T>, x: T)
    requires multiset(s) == multiset(t)
    ensures x in s <==> x in t
  {
    assert x in s <==> x in multiset(s);
    assert x in t <==> x in multiset(t);
  }

  // ---- it sorts, and is stable -----------------------------------------------------------

  /** The comparison is total and transitive on the elements of s. */
  ghost predicate TotalPreorder<T>(cmp: (T, T) -> int, s: seq<T>) {
    forall x, y, z {:trigger Ordered(cmp, x, y, z)} :: x in s && y in s && z in s ==> Ordered(cmp, x, y, z)
  }

  predicate Ordered<T>(cmp: (T, T) -> int, x: T, y: T, z: T) {
    && (cmp(x, y) <= 0 || cmp(y, x) <= 0)
    && (cmp(x, y) <= 0 && cmp(y, z) <= 0 ==> cmp(x, z) <= 0)
  }

  /** Among the first n elements of s, x stands before some y. */
  ghost predicate Before<T>(s: seq<T>, n: nat, x: T, y: T)
    requires n <= |s|
  {
    n > 0 && (Before(s, n - 1, x, y) || (y == s[n - 1] && x in s[..n - 1]))
  }

  lemma {:induction false} BeforeMeans<T>(s: seq<T>, n: nat, x: T, y: T)
    requires n <= |s|
    ensures Before(s, n, x, y) <==> exists i, j :: 0 <= i < j < n && s[i] == x && s[j] == y
  {
    if n == 0 {
    } else {
      BeforeMeans(s, n - 1, x, y);
      if y == s[n - 1] && x in s[..n - 1] {
        var i :| 0 <= i < n - 1 && s[..n - 1][i] == x;
        assert s[i] == x && s[n - 1] == y;
      }
      if i, j :| 0 <= i < j < n && s[i] == x && s[j] == y {
        assert s[..n - 1][i] == x;
      }
    }
  }

  /** x may stand before y: it is not greater, and when they are equal it came first. */
  ghost predicate InOrder<T>(cmp: (T, T) -> int, s: seq<T>, n: nat, x: T, y: T)
    requires n <= |s|
  {
    cmp(x, y) <= 0 && (cmp(y, x) <= 0 ==> Before(s, n, x, y))
  }

  ghost predicate StablySorted<T>(cmp: (T, T) -> int, s: seq<T>, n: nat, r: seq<T>)
    requires n <= |s|
  {
    forall i, j :: 0 <= i < j < |r| ==> InOrder(cmp, s, n, r[i], r[j])
  }

  /** From the place on all elements are greater. */
  lemma {:induction false} GreaterBehind<T>(cmp: (T, T) -> int, s: seq<T>, x: T, j: nat)
    requires Place(cmp, s, x) <= j < |s|
    ensures cmp(s[j], x) > 0
  {
    if j == |s| - 1 {
    } else {
      GreaterBehind(cmp, s[..|s| - 1], x, j);
    }
  }

  /** In front of the place is an element that is not greater. */
  lemma {:induction false} NotGreaterAhead<T>(cmp: (T, T) -> int, s: seq<T>, x: T)
    requires Place(cmp, s, x) > 0
    ensures cmp(s[Place(cmp, s, x) - 1], x) <= 0
  {
    if cmp(s[|s| - 1], x) <= 0 {
    } else {
      NotGreaterAhead(cmp, s[..|s| - 1], x);
    }
  }

  /** What is in front of the place of the new element may stand before it. */
  lemma AheadInOrder<T>(cmp: (T, T) -> int, s: seq<T>, n: nat, r: seq<T>, i: nat)
    requires 0 < n <= |s| && TotalPreorder(cmp, s) && StablySorted(cmp, s, n - 1, r)
    requires multiset(r) == multiset(s[..n - 1]) && i < Place(cmp, r, s[n - 1])
    ensures InOrder(cmp, s, n, r[i], s[n - 1])
  {
    var k := Place(cmp, r, s[n - 1]);
    NotGreaterAhead(cmp, r, s[n - 1]);
    SameMembers(r, s[..n - 1], r[i]);
    SameMembers(r, s[..n - 1], r[k - 1]);
    if i < k - 1 {
      assert InOrder(cmp, s, n - 1, r[i], r[k - 1]);
      assert Ordered(cmp, r[i], r[k - 1], s[n - 1]);
    }
  }

  /** The new element may stand before what is behind its place. */
  lemma BehindInOrder<T>(cmp: (T, T) -> int, s: seq<T>, n: nat, r: seq<T>, i: nat)
    requires 0 < n <= |s| && TotalPreorder(cmp, s)
    requires multiset(r) == multiset(s[..n - 1]) && Place(cmp, r, s[n - 1]) <= i < |r|
    ensures InOrder(cmp, s, n, s[n - 1], r[i])
  {
    GreaterBehind(cmp, r, s[n - 1], i);
    SameMembers(r, s[..n - 1], r[i]);
    assert Ordered(cmp, s[n - 1], r[i], r[i]);
  }

  lemma InsertIsStable<T>(cmp: (T, T) -> int, s: seq<T>, n: nat, r: seq<T>)
    requires 0 < n <= |s| && TotalPreorder(cmp, s) && StablySorted(cmp, s, n - 1, r)
    requires multiset(r) == multiset(s[..n - 1])
    ensures StablySorted(cmp, s, n, InsertAt(r, Place(cmp, r, s[n - 1]), s[n - 1]))
  {
    var k := Place(cmp, r, s[n - 1]);
    var t := InsertAt(r, k, s[n - 1]);
    forall i, j | 0 <= i < j < |t|
      ensures InOrder(cmp, s, n, t[i], t[j])
    {
      if i == k {
        BehindInOrder(cmp, s, n, r, j - 1);
      } else if j == k {
        AheadInOrder(cmp, s, n, r, i);
      } else {
        var a := if i < k then i else i - 1;
        var b := if j < k then j else j - 1;
        assert InOrder(cmp, s, n - 1, r[a], r[b]);
      }
    }
  }

  /** For a total preorder the result is sorted, and equal elements keep their order. */
  lemma {:induction false} SortIsStable<T>(cmp: (T, T) -> int, s: seq<T>, n: nat)
    requires n <= |s| && TotalPreorder(cmp, s)
    ensures StablySorted(cmp, s, n, SortTo(cmp, s, n))
  {
    if n == 0 {
    } else {
      SortIsStable(cmp, s, n - 1);
      SortPermutes(cmp, s, n - 1);
      InsertIsStable(cmp, s, n, SortTo(cmp, s, n - 1));
    }
  }
}
