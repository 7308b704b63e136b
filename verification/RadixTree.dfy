/** The 32-bit radix tree and its free list as they are linked in place (ngx_radix_tree.c). */
module RadixTree {
  import opened Basics
  import opened RadixBits
  import opened RadixCount

  /** NGX_RADIX_NO_VALUE */
  const NO_VALUE: int := 0xFFFF_FFFF_FFFF_FFFF

  /** NGX_OK, NGX_BUSY, NGX_ERROR */
  datatype Status = Ok | Busy | Error

  class Node {
    var right: Node?
    var left: Node?
    var parent: Node?
    var value: int
    ghost var path: Path
  }

  function Snoc(q: Path, b: bool): Path {
    q + [b]
  }

  function Up(q: Path): Path
    requires q != []
  {
    q[..|q| - 1]
  }

  lemma SnocIs(q: Path, b: bool, r: Path)
    ensures Snoc(q, b) != [] && Up(Snoc(q, b)) == q
    ensures r != [] && Up(r) == q ==> r == Snoc(q, r[|r| - 1])
  {
    if r != [] && Up(r) == q {
      assert r == r[..|r| - 1] + [r[|r| - 1]];
    }
  }

  lemma SnocEqual(p: Path, a: bool, q: Path, b: bool)
    ensures Snoc(p, a) == Snoc(q, b) <==> p == q && a == b
  {
    SnocIs(p, a, Snoc(q, b));
    SnocIs(q, b, Snoc(p, a));
    assert Snoc(p, a)[|p|] == a && Snoc(q, b)[|q|] == b;
  }

  function After(s: seq<Node>, i: nat): Node? {
    if i + 1 < |s| then s[i + 1] else null
  }

  function StoredIn(vals: map<Path, int>): map<Path, int> {
    map q | q in vals && vals[q] != NO_VALUE :: vals[q]
  }

  /** The root and the prefixes of the stored prefixes. */
  ghost predicate IsClosure(keys: set<Path>, stored: map<Path, int>) {
    forall q :: q in keys <==> q == [] || exists p :: p in stored && q <= p
  }

  lemma ClosureIsUnique(keys: set<Path>, others: set<Path>, stored: map<Path, int>)
    requires IsClosure(keys, stored) && IsClosure(others, stored)
    ensures keys == others
  {
  }

  class Tree {
    var root: Node
    var freeList: Node?
    /** Nodes left in the page being carved. */
    var room: nat
    const perPage: nat
    /** The nodes of the tree by their paths, the free nodes in order, and all nodes ever carved. */
    ghost var at: map<Path, Node>
    ghost var free: seq<Node>
    ghost var carved: set<Node>

    ghost function At(q: Path): Node?
      reads this
    {
      if q in at then at[q] else null
    }

    /** The node at path q is linked with the nodes around it. */
    ghost predicate Linked(q: Path)
      requires q in at
      reads this, at[q]
    {
      && at[q].path == q && |q| <= WIDTH
      && at[q].left == At(Snoc(q, false)) && at[q].right == At(Snoc(q, true))
      && (if q == [] then at[q].parent == null else Up(q) in at && at[q].parent == at[Up(q)])
    }

    ghost predicate Shape()
      reads this, carved
    {
      && [] in at && at[[]] == root
      && (forall q :: q in at ==> at[q] in carved)
      && (forall q {:trigger Linked(q)} :: q in at ==> Linked(q))
    }

    ghost predicate FreeOk()
      reads this, carved
    {
      && (forall i :: 0 <= i < |free| ==> free[i] in carved)
      && (forall i: nat {:trigger After(free, i)} :: i < |free| ==> free[i].right == After(free, i))
      && freeList == (if free == [] then null else free[0])
      && (forall i, j :: 0 <= i < j < |free| ==> free[i] != free[j])
    }

    ghost predicate InTree(n: Node)
      reads this, n
    {
      n.path in at && at[n.path] == n
    }

    /** Every carved node, except perhaps one, is either in the tree or free. */
    ghost predicate Apart(except: Node?)
      reads this, carved
    {
      forall n {:trigger InTree(n)} :: n in carved ==>
        if n == except then !InTree(n) && n !in free else InTree(n) <==> n !in free
    }

    ghost predicate Valid()
      reads this, carved
    {
      perPage > 0 && Shape() && FreeOk() && Apart(null)
    }

    ghost function Values(): (vals: map<Path, int>)
      requires forall q :: q in at ==> at[q] in carved
      reads this, carved
      ensures vals.Keys == at.Keys
    {
      map q | q in at :: at[q].value
    }

    /** The prefixes with a value. */
    ghost function Stored(): map<Path, int>
      requires forall q :: q in at ==> at[q] in carved
      reads this, carved
    {
      StoredIn(Values())
    }

    /** ngx_radix_tree_create without preallocation, when its page request succeeds. */
    constructor (perPage: nat)
      requires perPage > 0
      ensures Valid() && at.Keys == {[]} && Stored() == map[] && Tight([]) && Full(0)
    {
      var r := new Node;
      r.right, r.left, r.parent, r.value, r.path := null, null, null, NO_VALUE, [];
      this.perPage := perPage;
      root, freeList, room := r, null, perPage - 1;
      at, free, carved := map[[] := r], [], {r};
    }

    twostate lemma SameTree()
      requires old(Shape()) && at == old(at) && root == old(root) && old(carved) <= carved
      requires forall n :: n in old(carved) ==> unchanged(n)
      ensures Shape() && forall n :: n in old(carved) ==> InTree(n) == old(InTree(n))
    {
      forall q | q in at
        ensures Linked(q)
      {
        assert old(Linked(q));
      }
    }

    // ---- allocation -------------------------------------------------------------

    /** ngx_radix_alloc; pages says how many page requests will still succeed. */
    method Alloc(pages: nat) returns (p: Node?, left: nat)
      requires Valid()
      modifies `freeList, `room, `free, `carved
      ensures Shape() && FreeOk() && Apart(p) && at == old(at)
      ensures p != null ==> p in carved
      ensures p == null <==> old(free) == [] && old(room) == 0 && pages == 0
      ensures p == null ==> free == [] && room == 0 && left == 0 && carved == old(carved)
      ensures if old(free) != [] then p == old(free)[0] && free == old(free)[1..] && room == old(room) && left == pages
              else free == [] && (old(room) > 0 ==> room == old(room) - 1 && left == pages)
      ensures old(carved) <= carved && fresh(carved - old(carved))
    {
      left := pages;
      if freeList != null {
        p := freeList;
        assert free[0].right == After(free, 0);
        freeList := freeList.right;
        ghost var was := free;
        free := free[1..];
        forall i: nat | i < |free|
          ensures free[i].right == After(free, i)
        {
          assert was[i + 1].right == After(was, i + 1);
        }
        SameTree();
        return;
      }
      if room == 0 {
        if pages == 0 {
          SameTree();
          return null, left;
        }
        left := left - 1;
        room := perPage;
      }
      p := new Node;
      room := room - 1;
      carved := carved + {p};
      SameTree();
    }

    // ---- linking a new node --------------------------------------------------------

    /** Nothing lies below a path that is not there. */
    lemma NothingBelow(r: Path, b: bool)
      requires Shape()
      ensures Snoc(r, b) in at ==> r in at
    {
      SnocIs(r, b, r);
      if Snoc(r, b) in at {
        assert Linked(Snoc(r, b));
      }
    }

    twostate lemma OldNothingBelow(new r: Path, new b: bool)
      requires old(Shape())
      ensures Snoc(r, b) in old(at) ==> r in old(at)
    {
      SnocIs(r, b, r);
      if Snoc(r, b) in old(at) {
        assert old(Linked(Snoc(r, b)));
      }
    }

    /** The effect of hanging next under the node at q on side b. */
    twostate predicate Hung(q: Path, b: bool, new next: Node)
      reads *
    {
      var r := Snoc(q, b);
      && old(q in at && r !in at && |q| < WIDTH)
      && at == old(at)[r := next]
      && next.left == null && next.right == null && next.parent == old(At(q)) && next.path == r
      && next.value == NO_VALUE
      && forall s :: s in old(at) ==>
           && old(at)[s] != next && old(at)[s].value == old(at[s].value) && old(at)[s].path == old(at[s].path)
           && old(at)[s].parent == old(at[s].parent)
           && old(at)[s].left == (if s == q && !b then next else old(at[s].left))
           && old(at)[s].right == (if s == q && b then next else old(at[s].right))
    }

    twostate lemma HungLinked(new q: Path, new b: bool, new next: Node, new s: Path)
      requires old(Shape()) && Hung(q, b, next) && s in at
      ensures Linked(s)
    {
      var r := Snoc(q, b);
      SnocIs(q, b, r);
      SnocEqual(s, false, q, b);
      SnocEqual(s, true, q, b);
      if s == r {
        OldNothingBelow(r, false);
        OldNothingBelow(r, true);
      } else {
        assert old(Linked(s));
      }
    }

    twostate lemma HungApart(new q: Path, new b: bool, new next: Node)
      requires old(allocated(next)) && old(Apart(next)) && Hung(q, b, next) && carved == old(carved)
               && free == old(free)
      requires next in carved && next !in free && forall n :: n in carved && n != next ==> n.path == old(n.path)
      ensures Apart(null)
    {
      forall n {:trigger InTree(n)} | n in carved
        ensures InTree(n) <==> n !in free
      {
        assert n != next ==> old(InTree(n)) == (n !in free);
      }
    }

    /** ngx_radix32tree_insert puts the new node next under node, which is at path q. */
    method Attach(node: Node, next: Node, b: bool, ghost q: Path)
      requires node != next
      modifies `at, node`left, node`right, next
      ensures at == old(at)[Snoc(q, b) := next]
      ensures next.left == null && next.right == null && next.parent == node && next.value == NO_VALUE
      ensures next.path == Snoc(q, b)
      ensures node.left == (if b then old(node.left) else next) && node.right == (if b then next else old(node.right))
    {
      next.right := null;
      next.left := null;
      next.parent := node;
      next.value := NO_VALUE;
      next.path := Snoc(q, b);
      if b {
        node.right := next;
      } else {
        node.left := next;
      }
      at := at[Snoc(q, b) := next];
    }

    method Hang(node: Node, next: Node, b: bool, ghost q: Path)
      requires Shape() && FreeOk() && Apart(next) && perPage > 0 && next in carved
      requires q in at && at[q] == node && Snoc(q, b) !in at && |q| < WIDTH
      modifies `at, node`left, node`right, next
      ensures Valid() && Hung(q, b, next)
    {
      assert Linked(q) && InTree(node) && !InTree(next);
      EachInTree(next);
      Attach(node, next, b, q);
      assert Hung(q, b, next);
      HungKeeps(q, b, next);
      HungFree(node, next);
    }

    lemma EachInTree(next: Node)
      requires Shape() && !InTree(next)
      ensures forall s :: s in at ==> at[s].path == s && at[s] != next
    {
      forall s | s in at
        ensures at[s].path == s && at[s] != next
      {
        assert Linked(s);
      }
    }

    twostate lemma HungKeeps(new q: Path, new b: bool, new next: Node)
      requires old(allocated(next)) && old(Shape()) && old(Apart(next)) && Hung(q, b, next)
      requires root == old(root) && carved == old(carved) && free == old(free)
      requires next in carved && next !in free && forall n :: n in carved && n != next ==> n.path == old(n.path)
      ensures Shape() && Apart(null)
    {
      forall s | s in at
        ensures Linked(s)
      {
        HungLinked(q, b, next, s);
      }
      SnocIs(q, b, []);
      HungApart(q, b, next);
    }

    /** The free nodes are untouched. */
    twostate lemma HungFree(new node: Node, new next: Node)
      requires old(FreeOk()) && free == old(free) && freeList == old(freeList) && carved == old(carved)
      requires node !in free && next !in free
      requires forall n :: n in carved && n != node && n != next ==> n.right == old(n.right)
      ensures FreeOk()
    {
      forall i: nat | i < |free|
        ensures free[i].right == After(free, i)
      {
        assert old(free[i].right) == After(free, i);
      }
    }

    // ---- insertion -------------------------------------------------------------------

    /** A node other than the root that is there for a value or for a child. */
    ghost predicate Used(q: Path)
      requires q in at
      reads this, at[q]
    {
      at[q].value != NO_VALUE || Snoc(q, false) in at || Snoc(q, true) in at
    }

    /** No node is idle, except perhaps the root and the one at the given path. */
    ghost predicate Tight(except: Path)
      requires forall q :: q in at ==> at[q] in carved
      reads this, carved
    {
      forall q {:trigger Used(q)} :: q in at && q != [] && q != except ==> Used(q)
    }

    /** The walk down while there are nodes; next is null where they end too early. */
    method Descend(key: Word, mask: Word, ghost n: nat) returns (node: Node, next: Node?, i: nat)
      requires Valid() && Leads(mask, n)
      ensures i <= n && PathOf(key, i) in at && node == at[PathOf(key, i)]
      ensures if next == null then i < n && PathOf(key, i + 1) !in at else i == n
    {
      i, node, next := 0, root, root;
      while Bit(mask, i)
        invariant i <= n && PathOf(key, i) in at && node == at[PathOf(key, i)] && next != null
        decreases WIDTH - i
      {
        next := Child(node, key, i);
        if next == null {
          break;
        }
        i := i + 1;
        node := next;
      }
    }

    /** One step down. */
    method Child(node: Node, key: Word, i: nat) returns (next: Node?)
      requires Valid() && PathOf(key, i) in at && node == at[PathOf(key, i)]
      ensures i <= WIDTH && next == At(PathOf(key, i + 1))
    {
      assert Linked(PathOf(key, i));
      assert PathOf(key, i + 1) == Snoc(PathOf(key, i), Bit(key, i));
      next := if Bit(key, i) then node.right else node.left;
    }

    /** One turn of the loop that adds the missing nodes. */
    method Grow(node: Node, key: Word, i: nat, pages: nat) returns (next: Node?, left: nat)
      requires Valid() && i < WIDTH && PathOf(key, i) in at && node == at[PathOf(key, i)]
      requires PathOf(key, i + 1) !in at
      modifies `freeList, `room, `free, `carved, `at, carved
      ensures Valid() && old(carved) <= carved && fresh(carved - old(carved))
      ensures if next == null then at == old(at) && free == [] && room == 0 && left == 0
              else at == old(at)[PathOf(key, i + 1) := next] && next.value == NO_VALUE && PathOf(key, i + 2) !in at
      ensures forall s :: s in old(at) ==> old(at)[s].value == old(at[s].value)
    {
      next, left := Alloc(pages);
      if next == null {
        return;
      }
      assert InTree(node) by {
        assert Linked(PathOf(key, i));
      }
      Hang(node, next, Bit(key, i), PathOf(key, i));
      OldNothingBelow(PathOf(key, i + 1), Bit(key, i + 1));
      assert PathOf(key, i + 2) == Snoc(PathOf(key, i + 1), Bit(key, i + 1));
    }

    /** Since the tree had the values vals, idle nodes were added along the path p. */
    ghost predicate Grew(vals: map<Path, int>, p: Path)
      requires forall q :: q in at ==> at[q] in carved
      reads this, carved
    {
      && (forall s :: s in vals ==> s in at && at[s].value == vals[s])
      && (forall s :: s in at && s !in vals ==> s <= p && at[s].value == NO_VALUE)
    }

    /** The loop that adds nodes has come to node at depth i. */
    ghost predicate Extending(vals: map<Path, int>, tight: bool, key: Word, n: nat, i: nat, node: Node)
      reads this, carved
    {
      && Valid() && i <= n <= WIDTH && Grew(vals, PathOf(key, n))
      && PathOf(key, i) in at && node == at[PathOf(key, i)] && PathOf(key, i + 1) !in at
      && PathOf(key, i + 1) !in vals && (tight ==> Tight(PathOf(key, i)))
    }

    /** One turn of it. */
    method ExtendOnce(node: Node, key: Word, i: nat, pages: nat, ghost vals: map<Path, int>, ghost tight: bool,
                      ghost n: nat)
      returns (next: Node?, left: nat)
      requires Extending(vals, tight, key, n, i, node) && i < n
      modifies `freeList, `room, `free, `carved, `at, carved
      ensures Valid() && old(carved) <= carved && fresh(carved - old(carved))
      ensures if next == null then Grew(vals, PathOf(key, n)) && free == [] && room == 0 && left == 0
              else Extending(vals, tight, key, n, i + 1, next) && PathOf(key, i + 1) !in vals
    {
      next, left := Grow(node, key, i, pages);
      PathGrows(key, i + 1, n);
      if next != null {
        GrowsOn(vals, tight, key, i, next);
      }
    }

    twostate lemma GrowsOn(new vals: map<Path, int>, new tight: bool, new key: Word, new i: nat, new next: Node)
      requires old(Valid()) && Valid() && at == old(at)[PathOf(key, i + 1) := next]
      requires PathOf(key, i) in old(at) && PathOf(key, i + 1) !in old(at) && PathOf(key, i + 2) !in at
      requires forall s :: s in old(at) ==> old(at)[s].value == old(at[s].value)
      requires tight ==> old(Tight(PathOf(key, i)))
      ensures tight ==> Tight(PathOf(key, i + 1))
    {
      if tight {
        forall s | s in at && s != [] && s != PathOf(key, i + 1)
          ensures Used(s)
        {
          assert PathOf(key, i + 1) == Snoc(PathOf(key, i), Bit(key, i));
          if s != PathOf(key, i) {
            assert old(Used(s));
          }
        }
      }
    }

    /** The whole loop, which starts at depth first. */
    method Extend(node0: Node, key: Word, mask: Word, first: nat, pages: nat,
                  ghost n: nat, ghost vals: map<Path, int>, ghost tight: bool)
      returns (node: Node, done: bool, left: nat)
      requires Leads(mask, n) && first < n && Extending(vals, tight, key, n, first, node0)
      modifies `freeList, `room, `free, `carved, `at, carved
      ensures Valid() && old(carved) <= carved && fresh(carved - old(carved)) && Grew(vals, PathOf(key, n))
      ensures !done ==> free == [] && room == 0 && left == 0
      ensures done ==> Extending(vals, tight, key, n, n, node) && PathOf(key, n) !in vals
    {
      var i := first;
      node, left := node0, pages;
      while Bit(mask, i)
        invariant i <= n && (i == first || PathOf(key, i) !in vals)
        invariant old(carved) <= carved && fresh(carved - old(carved))
        invariant Extending(vals, tight, key, n, i, node)
        decreases WIDTH - i
      {
        var next;
        next, left := ExtendOnce(node, key, i, left, vals, tight, n);
        if next == null {
          return node, false, left;
        }
        i := i + 1;
        node := next;
      }
      done := true;
    }

    /** ngx_radix32tree_insert; pages says how many page requests will succeed, left how many then still will. */
    method Insert(key: Word, mask: Word, value: int, pages: nat) returns (answer: Status, left: nat)
      requires Valid()
      modifies `freeList, `room, `free, `carved, `at, carved
      ensures Valid() && old(carved) <= carved && fresh(carved - old(carved))
      ensures answer == Busy <==> PrefixOf(key, mask) in old(Stored())
      ensures answer == Busy ==> at == old(at)
      ensures answer == Error ==> free == [] && room == 0 && left == 0
      ensures Stored() == if answer != Ok || value == NO_VALUE then old(Stored())
                          else old(Stored())[PrefixOf(key, mask) := value]
      ensures old(at).Keys <= at.Keys && forall s :: s in at ==> s in old(at) || s <= PrefixOf(key, mask)
      ensures answer == Ok ==> PrefixOf(key, mask) in at
      ensures answer == Ok && value != NO_VALUE && old(Tight([])) ==> Tight([])
    {
      ghost var p := PrefixOf(key, mask);
      ghost var vals := Values();
      MaskLeads(mask);
      var node, next, i := Descend(key, mask, LeadingOnes(mask, 0));
      if next != null {
        if node.value != NO_VALUE {
          return Busy, pages;
        }
        if Tight([]) {
          TightAlso(p);
        }
        SetValue(node, value, p);
        SetStored(vals, Values(), p, value);
        return Ok, pages;
      }
      answer, left := InsertNew(node, key, mask, i, value, pages);
    }

    lemma TightAlso(p: Path)
      requires Valid() && Tight([])
      ensures Tight(p)
    {
      forall q | q in at && q != [] && q != p
        ensures Used(q)
      {
      }
    }

    /** The part of ngx_radix32tree_insert that adds nodes. */
    method InsertNew(node0: Node, key: Word, mask: Word, first: nat, value: int, pages: nat)
      returns (answer: Status, left: nat)
      requires Valid() && first < LeadingOnes(mask, 0)
      requires PathOf(key, first) in at && node0 == at[PathOf(key, first)] && PathOf(key, first + 1) !in at
      modifies `freeList, `room, `free, `carved, `at, carved
      ensures Valid() && old(carved) <= carved && fresh(carved - old(carved))
      ensures answer != Busy && PrefixOf(key, mask) !in old(Stored())
      ensures answer == Error ==> free == [] && room == 0 && left == 0
      ensures Stored() == if answer != Ok || value == NO_VALUE then old(Stored())
                          else old(Stored())[PrefixOf(key, mask) := value]
      ensures old(at).Keys <= at.Keys && forall s :: s in at ==> s in old(at) || s <= PrefixOf(key, mask)
      ensures answer == Ok ==> PrefixOf(key, mask) in at
      ensures answer == Ok && value != NO_VALUE && old(Tight([])) ==> Tight([])
    {
      ghost var p := PrefixOf(key, mask);
      ghost var vals := Values();
      ghost var tight := Tight([]);
      if tight {
        TightAlso(PathOf(key, first));
      }
      NothingDeeper(key, first + 1, LeadingOnes(mask, 0));
      MaskLeads(mask);
      var node, done;
      node, done, left := Extend(node0, key, mask, first, pages, LeadingOnes(mask, 0), vals, tight);
      GrewStored(vals, p);
      if !done {
        return Error, left;
      }
      ghost var grown := Values();
      SetValue(node, value, p);
      SetStored(grown, Values(), p, value);
      return Ok, left;
    }

    lemma {:induction false} NothingDeeper(key: Word, i: nat, n: nat)
      requires Shape() && PathOf(key, i) !in at && i <= n
      ensures PathOf(key, n) !in at
    {
      if i == n {
      } else {
        NothingDeeper(key, i, n - 1);
        NothingBelow(PathOf(key, n - 1), Bit(key, n - 1));
      }
    }

    lemma GrewStored(vals: map<Path, int>, p: Path)
      requires Valid() && Grew(vals, p)
      ensures Stored() == StoredIn(vals)
    {
    }

    static lemma SetStored(before: map<Path, int>, after: map<Path, int>, p: Path, value: int)
      requires p in before && before[p] == NO_VALUE && after == before[p := value]
      ensures StoredIn(after) == if value == NO_VALUE then StoredIn(before) else StoredIn(before)[p := value]
    {
    }

    method SetValue(node: Node, value: int, ghost p: Path)
      requires Valid() && p in at && node == at[p]
      modifies node`value
      ensures Valid() && node.value == value
      ensures Values() == old(Values())[p := value]
      ensures value != NO_VALUE && old(Tight(p)) ==> Tight([])
    {
      assert forall q :: q in at && q != p ==> at[q] != node by {
        EachPath();
      }
      node.value := value;
      ValueOnly();
      if old(Tight(p)) && value != NO_VALUE {
        forall q | q in at && q != []
          ensures Used(q)
        {
          assert q != p ==> old(Used(q));
        }
      }
    }

    lemma EachPath()
      requires Shape()
      ensures forall q :: q in at ==> at[q].path == q
    {
      forall q | q in at
        ensures at[q].path == q
      {
        assert Linked(q);
      }
    }

    twostate lemma ValueOnly()
      requires old(Valid()) && unchanged(this)
      requires forall n :: n in carved ==> n.left == old(n.left) && n.right == old(n.right) && n.parent == old(n.parent)
      requires forall n :: n in carved ==> n.path == old(n.path)
      ensures Valid()
    {
      forall q | q in at
        ensures Linked(q)
      {
        assert old(Linked(q));
      }
      forall n {:trigger InTree(n)} | n in carved
        ensures InTree(n) <==> n !in free
      {
        assert old(InTree(n)) == (n !in free);
      }
      forall i: nat | i < |free|
        ensures free[i].right == After(free, i)
      {
        assert old(free[i].right) == After(free, i);
      }
    }

    // ---- lookup -----------------------------------------------------------------------

    /** ngx_radix32tree_find */
    method Find(key: Word) returns (value: int)
      requires Valid()
      ensures value == Best(Stored(), key, WIDTH + 1, NO_VALUE)
    {
      value := NO_VALUE;
      var node: Node? := root;
      var i := 0;
      while node != null
        invariant i <= WIDTH + 1 && node == At(PathOf(key, i))
        invariant value == Best(Stored(), key, i, NO_VALUE)
        decreases WIDTH + 1 - i
      {
        if node.value != NO_VALUE {
          value := node.value;
        }
        node := Child(node, key, i);
        i := i + 1;
      }
      NothingMore(key, i, WIDTH + 1);
    }

    lemma {:induction false} NothingMore(key: Word, i: nat, n: nat)
      requires Shape() && PathOf(key, i) !in at && i <= n
      ensures Best(Stored(), key, n, NO_VALUE) == Best(Stored(), key, i, NO_VALUE)
    {
      if i == n {
      } else {
        NothingDeeper(key, i, n - 1);
        NothingMore(key, i, n - 1);
      }
    }

    // ---- deletion -----------------------------------------------------------------------

    /** The effect of unlinking the node at path r, which had no children. */
    twostate predicate Cut(r: Path)
      reads *
    {
      && old(r in at) && r != [] && old(Up(r) in at)
      && at == old(at) - {r}
      && forall s :: s in old(at) && s != r ==>
           && at[s].value == old(at[s].value) && at[s].path == old(at[s].path) && at[s].parent == old(at[s].parent)
           && at[s].left == (if s == Up(r) && !r[|r| - 1] then null else old(at[s].left))
           && at[s].right == (if s == Up(r) && r[|r| - 1] then null else old(at[s].right))
    }

    twostate lemma CutLinked(new r: Path, new s: Path)
      requires old(Shape()) && Cut(r) && s in at
      requires old(Snoc(r, false) !in at && Snoc(r, true) !in at)
      ensures Linked(s)
    {
      assert old(Linked(s));
      SnocIs(Up(r), r[|r| - 1], r);
      SnocEqual(s, false, Up(r), r[|r| - 1]);
      SnocEqual(s, true, Up(r), r[|r| - 1]);
      if s != [] {
        SnocIs(Up(s), s[|s| - 1], s);
      }
    }

    /** The first half of one turn of the loop in ngx_radix32tree_delete: unlink, and push on the free list. */
    method Unlink(node: Node, ghost r: Path) returns (parent: Node)
      requires Valid() && r in at && node == at[r] && r != []
      requires node.left == null && node.right == null
      modifies `at, `freeList, `free, carved`left, carved`right
      ensures Valid() && Cut(r) && Up(r) in at && parent == at[Up(r)] && free == [node] + old(free)
    {
      assert Linked(r) && Linked(Up(r)) && InTree(node) && InTree(at[Up(r)]);
      parent := CutOff(node, r);
      CutShape(r);
      CutApart(node, r);
      CutFree(node, parent);
    }

    /** The unlinking, and its effect on the nodes of the tree. */
    method CutOff(node: Node, ghost r: Path) returns (parent: Node)
      requires Shape() && r in at && node == at[r] && r != []
      modifies `at, `freeList, `free, carved`left, carved`right
      ensures Cut(r) && parent == at[Up(r)] && parent != node && free == [node] + old(free)
      ensures freeList == node && node.right == old(freeList)
      ensures forall n :: n in carved && n != node && n != parent ==> n.right == old(n.right)
    {
      assert Linked(r) && Linked(Up(r));
      SnocIs(Up(r), r[|r| - 1], r);
      SnocEqual(Up(r), !r[|r| - 1], Up(r), r[|r| - 1]);
      EachPath();
      parent := node.parent;
      Detach(node, parent, r);
    }

    twostate lemma CutShape(new r: Path)
      requires old(Shape()) && Cut(r) && root == old(root) && carved == old(carved)
      requires old(Snoc(r, false) !in at && Snoc(r, true) !in at)
      ensures Shape()
    {
      forall s | s in at
        ensures Linked(s)
      {
        CutLinked(r, s);
      }
    }

    twostate lemma CutApart(node: Node, new r: Path)
      requires old(Valid()) && Cut(r) && node == old(at[r]) && carved == old(carved) && free == [node] + old(free)
      requires node in carved && forall n :: n in carved ==> n.path == old(n.path)
      ensures Apart(null)
    {
      forall n {:trigger InTree(n)} | n in carved
        ensures InTree(n) <==> n !in free
      {
        assert old(InTree(n)) == (n !in old(free));
        assert old(Linked(r));
      }
    }

    twostate lemma CutFree(node: Node, new parent: Node)
      requires old(FreeOk()) && carved == old(carved) && node in carved && node !in old(free) && parent !in old(free)
      requires free == [node] + old(free) && freeList == node && node.right == old(freeList)
      requires forall n :: n in carved && n != node && n != parent ==> n.right == old(n.right)
      ensures FreeOk()
    {
      ghost var was := old(free);
      forall i: nat | i < |free|
        ensures free[i].right == After(free, i)
      {
        if i > 0 {
          assert free[i] == was[i - 1] && old(was[i - 1].right) == After(was, i - 1);
        }
      }
    }

    method Detach(node: Node, parent: Node, ghost r: Path)
      requires node.parent == parent && node != parent
      modifies `at, `freeList, `free, node`right, parent`left, parent`right
      ensures at == old(at) - {r} && freeList == node && free == [node] + old(free)
      ensures node.right == old(freeList)
      ensures if old(parent.right) == node then parent.right == null && parent.left == old(parent.left)
              else parent.left == null && parent.right == old(parent.right)
    {
      if node.parent.right == node {
        node.parent.right := null;
      } else {
        node.parent.left := null;
      }
      node.right := freeList;
      freeList := node;
      free := [node] + free;
      at := at - {r};
    }

    /** Since the tree had the values vals, the node at p and idle nodes above it were removed. */
    ghost predicate Shrunk(vals: map<Path, int>, p: Path)
      requires forall q :: q in at ==> at[q] in carved
      reads this, carved
    {
      && (forall s :: s in at ==> s in vals && at[s].value == vals[s])
      && (forall s :: s in vals && s !in at ==> s <= p && (s == p || vals[s] == NO_VALUE))
    }

    /** The loop in ngx_radix32tree_delete is about to remove node, which is at path q. */
    ghost predicate Pruning(vals: map<Path, int>, tight: bool, p: Path, q: Path, node: Node)
      reads this, carved
    {
      && Valid() && Shrunk(vals, p) && q in at && node == at[q]
      && q != [] && q <= p && (q == p || node.value == NO_VALUE) && (tight ==> Tight(q))
      && node.left == null && node.right == null
    }

    /** One removal; parent is the node at Up(q). */
    method PruneOnce(node: Node, ghost q: Path, ghost vals: map<Path, int>, ghost tight: bool, ghost p: Path)
      returns (parent: Node)
      requires Pruning(vals, tight, p, q, node)
      modifies `at, `freeList, `free, carved`left, carved`right
      ensures Valid() && Shrunk(vals, p) && Up(q) in at && parent == at[Up(q)] && Up(q) <= p
      ensures at == old(at) - {q} && (tight ==> Tight(Up(q)))
    {
      parent := Unlink(node, q);
      if tight {
        CutTight(q);
      }
    }

    twostate lemma CutTight(new r: Path)
      requires old(Valid()) && Valid() && Cut(r) && old(Tight(r))
      ensures Tight(Up(r))
    {
      forall s | s in at && s != [] && s != Up(r)
        ensures Used(s)
      {
        SnocIs(s, false, r);
        SnocIs(s, true, r);
        assert old(Used(s));
      }
    }

    method Prune(node0: Node, ghost p: Path, ghost vals: map<Path, int>, ghost tight: bool)
      requires Pruning(vals, tight, p, p, node0)
      modifies `at, `freeList, `free, carved`left, carved`right
      ensures Valid() && Shrunk(vals, p) && p !in at && (tight ==> Tight([]))
    {
      var node := node0;
      ghost var q := p;
      while true
        invariant Pruning(vals, tight, p, q, node) && (q == p || p !in at)
        decreases |q|
      {
        node := PruneOnce(node, q, vals, tight, p);
        q := Up(q);
        assert Linked(q);
        if node.right != null || node.left != null {
          break;
        }
        if node.value != NO_VALUE {
          break;
        }
        if node.parent == null {
          break;
        }
      }
    }

    ghost predicate Leaf(p: Path)
      reads this
    {
      p in at && Snoc(p, false) !in at && Snoc(p, true) !in at
    }

    /** The node at the end of the path, or null. */
    method Seek(key: Word, mask: Word) returns (node: Node?)
      requires Valid()
      ensures node == At(PrefixOf(key, mask))
    {
      ghost var n := LeadingOnes(mask, 0);
      MaskLeads(mask);
      var i := 0;
      node := root;
      while node != null && Bit(mask, i)
        invariant i <= n && node == At(PathOf(key, i))
        decreases WIDTH - i
      {
        node := Child(node, key, i);
        i := i + 1;
      }
      if node == null {
        NothingDeeper(key, i, n);
      }
    }

    /** ngx_radix32tree_delete, which must not be asked for the empty prefix while the root is alone. */
    method Delete(key: Word, mask: Word) returns (answer: Status)
      requires Valid() && !(PrefixOf(key, mask) == [] && Leaf([]))
      modifies `at, `freeList, `free, carved
      ensures Valid() && answer != Busy
      ensures answer == Ok <==> PrefixOf(key, mask) in old(Stored()) || old(Leaf(PrefixOf(key, mask)))
      ensures Stored() == old(Stored()) - {PrefixOf(key, mask)}
      ensures answer == Error ==> at == old(at) && PrefixOf(key, mask) !in old(Stored())
      ensures at.Keys <= old(at).Keys && forall s :: s in old(at) && s !in at ==> s <= PrefixOf(key, mask)
      ensures old(Tight([])) ==> Tight([])
    {
      ghost var p := PrefixOf(key, mask);
      ghost var vals := Values();
      ghost var tight := Tight([]);
      if tight {
        TightAlso(p);
      }
      var node := Seek(key, mask);
      if node == null {
        return Error;
      }
      assert Linked(p);
      if node.right != null || node.left != null {
        if node.value != NO_VALUE {
          ClearValue(node, p);
          return Ok;
        }
        return Error;
      }
      Prune(node, p, vals, tight);
      ShrunkStored(vals, p);
      return Ok;
    }

    method ClearValue(node: Node, ghost p: Path)
      requires Valid() && p in at && node == at[p] && !Leaf(p)
      modifies node`value
      ensures Valid() && Values() == old(Values())[p := NO_VALUE] && Stored() == old(Stored()) - {p}
      ensures old(Tight([])) ==> Tight([])
    {
      EachPath();
      node.value := NO_VALUE;
      ValueOnly();
      if old(Tight([])) {
        forall q | q in at && q != []
          ensures Used(q)
        {
          assert old(Used(q));
        }
      }
    }

    lemma ShrunkStored(vals: map<Path, int>, p: Path)
      requires Valid() && Shrunk(vals, p) && p !in at
      ensures Stored() == StoredIn(vals) - {p}
    {
    }

    // ---- preallocation -----------------------------------------------------------------

    /** All paths up to length n and no others have a node, and no prefix has a value. */
    ghost predicate Full(n: nat)
      reads this, carved
    {
      && (forall q: Path :: q in at <==> |q| <= n)
      && (forall q :: q in at ==> at[q] in carved && at[q].value == NO_VALUE)
    }

    /** Level n is there up to the path that spells the number k, and the levels before it are complete. */
    ghost predicate Filling(n: nat, k: nat)
      reads this, carved
    {
      && (forall q: Path :: |q| < n || (|q| == n && Num(q) < k) ==> q in at)
      && (forall q :: q in at ==> |q| <= n && at[q] in carved && at[q].value == NO_VALUE)
    }

    /** The insertion of one key of level n. */
    method FillOne(key: Word, n: nat, pages: nat) returns (ok: bool, left: nat)
      requires Valid() && n <= WIDTH && Filling(n, Num(key[..n]))
      modifies `freeList, `room, `free, `carved, `at, carved
      ensures Valid() && old(carved) <= carved && fresh(carved - old(carved))
      ensures if ok then Filling(n, Num(key[..n]) + 1) else free == [] && room == 0 && left == 0
    {
      PrefixOfMask(key, n);
      assert Stored() == map[];
      var answer;
      answer, left := Insert(key, MaskOf(n), NO_VALUE, pages);
      if answer != Ok {
        return false, left;
      }
      assert forall q :: q in at ==> q !in Stored();
      forall q: Path | |q| == n && Num(q) == Num(key[..n])
        ensures q in at
      {
        NumInjective(q, key[..n]);
      }
      return true, left;
    }

    /** One level: the inner loop of ngx_radix_tree_create. */
    method FillLevel(n: nat, pages: nat) returns (ok: bool, left: nat)
      requires Valid() && 0 < n <= WIDTH && Full(n - 1)
      modifies `freeList, `room, `free, `carved, `at, carved
      ensures Valid() && old(carved) <= carved && fresh(carved - old(carved))
      ensures if ok then Full(n) else free == [] && room == 0 && left == 0
    {
      var key, more := ZERO, true;
      ZeroIsZero(key, n);
      left := pages;
      while more
        invariant Valid() && old(carved) <= carved && fresh(carved - old(carved)) && ZeroFrom(key, n)
        invariant Num(key[..n]) < Pow2(n) && Filling(n, if more then Num(key[..n]) else Pow2(n))
        decreases if more then Pow2(n) - Num(key[..n]) else 0
      {
        ok, left := FillOne(key, n, left);
        if !ok {
          return;
        }
        AddCounts(key, n);
        ghost var k := Num(key[..n]);
        key := AddBit(key, n - 1);
        NumBelow(key[..n]);
        ZeroIsZero(key, n);
        more := key != ZERO;
      }
      forall q: Path | |q| == n
        ensures q in at
      {
        NumBelow(q);
      }
      return true, left;
    }

    /** The preallocation of ngx_radix_tree_create; without it there is no page left. */
    method Preallocate(bits: nat, pages: nat) returns (ok: bool, left: nat)
      requires Valid() && bits <= WIDTH && Full(0)
      modifies `freeList, `room, `free, `carved, `at, carved
      ensures Valid() && if ok then Full(bits) else free == [] && room == 0 && left == 0
    {
      left := pages;
      for n := 0 to bits
        invariant Valid() && old(carved) <= carved && fresh(carved - old(carved)) && Full(n)
      {
        ok, left := FillLevel(n + 1, left);
        if !ok {
          return;
        }
      }
      return true, left;
    }

    // ---- the nodes are the prefixes of the stored prefixes ---------------------------------

    lemma {:induction false} PrefixesThere(p: Path, n: nat)
      requires Valid() && p in at && n <= |p|
      ensures p[..n] in at
      decreases |p| - n
    {
      if n < |p| {
        PrefixesThere(p, n + 1);
        assert Linked(p[..n + 1]);
        assert Up(p[..n + 1]) == p[..n];
      } else {
        assert p[..n] == p;
      }
    }

    /** Below every node but the root there is a value, in a tree without idle nodes. */
    lemma {:induction false} SomethingBelow(q: Path) returns (p: Path)
      requires Valid() && Tight([]) && q in at && q != []
      ensures p in Stored() && q <= p
      decreases WIDTH - |q|
    {
      assert Used(q) && Linked(q);
      if at[q].value != NO_VALUE {
        p := q;
      } else {
        var r := Snoc(q, Snoc(q, true) in at);
        assert Linked(r);
        p := SomethingBelow(r);
        assert q == p[..|q|] by {
          assert r == p[..|r|] && q == r[..|q|];
        }
      }
    }

    /** Without idle nodes the nodes are the root and the prefixes of the stored prefixes. */
    lemma NodesAreClosure()
      requires Valid() && Tight([])
      ensures IsClosure(at.Keys, Stored())
    {
      forall q
        ensures q in at <==> q == [] || exists p :: p in Stored() && q <= p
      {
        if q in at && q != [] {
          var p := SomethingBelow(q);
        } else if p :| p in Stored() && q <= p {
          PrefixesThere(p, |q|);
          assert p[..|q|] == q;
        }
      }
    }

    /** Deleting a prefix just inserted brings back the tree as it was, if no nodes were idle. */
    method InsertThenDelete(key: Word, mask: Word, value: int, pages: nat) returns (inserted: bool)
      requires Valid() && Tight([]) && value != NO_VALUE
      requires PrefixOf(key, mask) != [] && PrefixOf(key, mask) !in Stored()
      modifies `freeList, `room, `free, `carved, `at, carved
      ensures Valid() && Stored() == old(Stored())
      ensures inserted ==> at.Keys == old(at).Keys && Tight([])
    {
      NodesAreClosure();
      ghost var keys, stored := at.Keys, Stored();
      var answer, left := Insert(key, mask, value, pages);
      if answer != Ok {
        return false;
      }
      DeleteFresh(key, mask, value, keys, stored);
      return true;
    }

    method DeleteFresh(key: Word, mask: Word, value: int, ghost keys: set<Path>, ghost stored: map<Path, int>)
      requires Valid() && Tight([]) && IsClosure(keys, stored)
      requires PrefixOf(key, mask) != [] && PrefixOf(key, mask) !in stored
      requires Stored() == stored[PrefixOf(key, mask) := value]
      modifies `at, `freeList, `free, carved
      ensures Valid() && Tight([]) && Stored() == stored && at.Keys == keys
    {
      var answer := Delete(key, mask);
      assert Stored() == stored;
      NodesAreClosure();
      ClosureIsUnique(keys, at.Keys, stored);
    }
  }
}
