module RbTree {
  import Basics
  import RbShape

  /** Keys are unsigned words; the timer inserter compares them as signed differences. */
  const WORD := 0x1_0000_0000
  const HALF := 0x8000_0000

  /** The two descent functions a tree can be created with. */
  datatype Inserter = ByValue | ByTimer

  /** Does a node with key `key` go to the left of a node with key `at`? */
  predicate GoesLeft(ins: Inserter, key: int, at: int) {
    match ins
    case ByValue => key < at
    case ByTimer => (key - at) % WORD >= HALF
  }

  class Node {
    var key: int
    var left: Node?
    var right: Node?
    var parent: Node?
    var red: bool

    // The subtree below a node holds positions lo..hi of the in-order sequence, the
    // node itself sits at pos, and bh black nodes lie on every way down to the sentinel.
    ghost var lo: int
    ghost var pos: int
    ghost var hi: int
    ghost var bh: nat

    constructor (key: int)
      ensures this.key == key && left == null && right == null && parent == null && !red
      ensures lo == pos == hi == bh == 0
    {
      this.key := key;
      left, right, parent, red := null, null, null, false;
      lo, pos, hi, bh := 0, 0, 0, 0;
    }
  }

  class Tree {
    var root: Node
    const sentinel: Node
    const inserter: Inserter

    ghost var Nodes: set<Node>
    ghost var Seq: seq<Node>

    constructor (s: Node, i: Inserter)
      requires !s.red && s.bh == 0 && s.lo == s.hi
      ensures Balanced() && sentinel == s && inserter == i && Seq == [] && Nodes == {}
    {
      root, sentinel, inserter, Nodes, Seq := s, s, i, {}, [];
    }

    ghost function Real(n: Node?): set<Node> {
      if n == null || n == sentinel then {} else {n}
    }

    ghost predicate ChildOk(n: Node, c: Node?, a: int, b: int)
      reads this`Nodes, Nodes`parent, Nodes`lo, Nodes`hi
    {
      if c == sentinel then a == b
      else c in Nodes && c.parent == n && c.lo == a && c.hi == b && a < b
    }

    ghost predicate KidsOk(n: Node)
      requires n in Nodes
      reads this`Nodes, this`Seq, Nodes`left, Nodes`right, Nodes`parent, Nodes`lo, Nodes`pos, Nodes`hi
    {
      && 0 <= n.lo <= n.pos < n.hi <= |Seq| && Seq[n.pos] == n
      && ChildOk(n, n.left, n.lo, n.pos)
      && ChildOk(n, n.right, n.pos + 1, n.hi)
    }

    ghost predicate UpOk(n: Node)
      requires n in Nodes
      reads this`root, this`Nodes, this`Seq, Nodes`left, Nodes`right, Nodes`parent, Nodes`lo, Nodes`hi
    {
      if n == root then n.parent == null && n.lo == 0 && n.hi == |Seq|
      else n.parent in Nodes && (n.parent.left == n || n.parent.right == n)
    }

    ghost predicate Links()
      reads this`root, this`Nodes, this`Seq
      reads Nodes`left, Nodes`right, Nodes`parent, Nodes`lo, Nodes`pos, Nodes`hi
    {
      && sentinel !in Nodes
      && (if Seq == [] then root == sentinel else root in Nodes)
      && (forall i :: 0 <= i < |Seq| ==> Seq[i] in Nodes && Seq[i].pos == i)
      && (forall n {:trigger KidsOk(n)} :: n in Nodes ==> KidsOk(n))
      && (forall n {:trigger UpOk(n)} :: n in Nodes ==> UpOk(n))
    }

    // ------------------------------------------------------------------
    // Colours
    // ------------------------------------------------------------------

    ghost function Bh(c: Node): int
      reads c`red, c`bh
    {
      c.bh + (if c.red then 0 else 1)
    }

    ghost predicate RedOk(n: Node)
      requires n in Nodes
      reads this`Nodes, Nodes`parent, Nodes`red
    {
      n.red && n.parent in Nodes ==> !n.parent.red
    }

    /** No red node has a red parent, except perhaps z. */
    ghost predicate Reds(z: Node?)
      reads this`Nodes, Nodes`parent, Nodes`red
    {
      forall n: Node {:trigger RedOk(n)} :: n in Nodes && n != z ==> RedOk(n)
    }

    ghost predicate BlackOk(n: Node, d: Node?, onLeft: bool)
      requires n in Nodes
      reads this`Nodes, Nodes`left, Nodes`right, Nodes`red, Nodes`bh, sentinel`red, sentinel`bh
    {
      && (n.left == sentinel || n.left in Nodes) && (n.right == sentinel || n.right in Nodes)
      && n.bh == Bh(n.left) + (if n == d && onLeft then 1 else 0)
      && n.bh == Bh(n.right) + (if n == d && !onLeft then 1 else 0)
    }

    /** Black counts agree below every node, counting one extra black on one side of d. */
    ghost predicate Blacks(d: Node?, onLeft: bool)
      reads this`Nodes, Nodes`left, Nodes`right, Nodes`red, Nodes`bh, sentinel`red, sentinel`bh
    {
      && !sentinel.red && sentinel.bh == 0
      && (forall n {:trigger BlackOk(n, d, onLeft)} :: n in Nodes ==> BlackOk(n, d, onLeft))
    }

    // ------------------------------------------------------------------
    // LeftRotate
    // ------------------------------------------------------------------

    /** The assignments of ngx_rbtree_left_rotate, on the four nodes they touch. */
    twostate predicate RelinkedLeft(node: Node, temp: Node)
      reads *
    {
      && node.right == old(temp.left) && temp.left == node
      && node.parent == temp && temp.parent == old(node.parent)
      && node.left == old(node.left) && temp.right == old(temp.right)
      && node.lo == old(node.lo) && node.hi == old(temp.pos) && temp.lo == old(node.lo) && temp.hi == old(temp.hi)
      && root == (if old(root) == node then temp else old(root))
      && (var b := old(temp.left); b != null && b != sentinel ==> b.parent == node)
      && (var p := old(node.parent); p != null && p != sentinel ==>
            && p.left == (if old(p.left) == node then temp else old(p.left))
            && p.right == (if old(p.left) != node then temp else old(p.right)))
    }

    /** The same change seen from every node of the tree. */
    twostate predicate RotatedLeft(node: Node, temp: Node)
      reads *
    {
      && node in Nodes && temp in Nodes && node != temp && Nodes == old(Nodes) && Seq == old(Seq)
      && node.right == old(temp.left) && temp.left == node
      && node.parent == temp && temp.parent == old(node.parent)
      && node.left == old(node.left) && temp.right == old(temp.right)
      && node.lo == old(node.lo) && node.hi == old(temp.pos) && temp.lo == old(node.lo) && temp.hi == old(temp.hi)
      && root == (if old(root) == node then temp else old(root))
      && (forall n :: n in Nodes ==> n.pos == old(n.pos))
      && (forall n :: n in Nodes && n != node && n != temp ==>
            && n.left == (if old(n.left) == node then temp else old(n.left))
            && n.right == (if old(n.right) == node then temp else old(n.right))
            && n.parent == (if n == old(temp.left) then node else old(n.parent))
            && n.lo == old(n.lo) && n.hi == old(n.hi))
    }

    method RelinkLeft(node: Node)
      requires node.right != null && node.right.left != null
      requires node != node.right && node.right.left != node && node.right.left != node.right
      requires node.parent != node && node.parent != node.right && node.parent != sentinel
      requires node == root <==> node.parent == null
      requires node.right.left != sentinel ==> node.right.left != node.parent
      modifies this`root, Real(node.parent)`left, Real(node.parent)`right, Real(node.right.left)`parent
      modifies {node, node.right}`left, {node, node.right}`right, {node, node.right}`parent
      modifies {node, node.right}`lo, {node, node.right}`hi
      ensures RelinkedLeft(node, old(node.right))
    {
      var temp := node.right;
      node.right := temp.left;
      if temp.left != sentinel {
        temp.left.parent := node;
      }
      temp.parent := node.parent;
      if node == root {
        root := temp;
      } else if node == node.parent.left {
        node.parent.left := temp;
      } else {
        node.parent.right := temp;
      }
      temp.left := node;
      node.parent := temp;
      node.hi := temp.pos;
      temp.lo := node.lo;
    }

    twostate lemma RotatedLeftKids(new node: Node, new temp: Node)
      requires old(Links()) && node in old(Nodes) && temp == old(node.right) && temp in old(Nodes)
      requires RotatedLeft(node, temp)
      ensures forall n {:trigger KidsOk(n)} :: n in Nodes ==> KidsOk(n)
    {
      assert old(KidsOk(node)) && old(KidsOk(temp));
      forall n | n in Nodes
        ensures KidsOk(n)
      {
        assert old(KidsOk(n));
      }
    }

    twostate lemma RotatedLeftUp(new node: Node, new temp: Node)
      requires old(Links()) && node in old(Nodes) && temp == old(node.right) && temp in old(Nodes)
      requires RotatedLeft(node, temp)
      ensures forall n {:trigger UpOk(n)} :: n in Nodes ==> UpOk(n)
    {
      assert old(UpOk(node)) && old(UpOk(temp)) && old(KidsOk(node)) && old(KidsOk(temp));
      forall n | n in Nodes
        ensures UpOk(n)
      {
        assert old(UpOk(n));
      }
    }

    twostate lemma RotatedLeftLinks(new node: Node, new temp: Node)
      requires old(Links()) && node in old(Nodes) && temp == old(node.right) && temp != sentinel && temp in old(Nodes)
      requires Nodes == old(Nodes) && Seq == old(Seq)
      requires RelinkedLeft(node, temp)
      requires forall n :: n in Nodes && n != node && n != temp ==>
                 && n.lo == old(n.lo) && n.hi == old(n.hi)
                 && (n != old(node.parent) ==> n.left == old(n.left) && n.right == old(n.right))
                 && (n != old(temp.left) ==> n.parent == old(n.parent))
      requires forall n :: n in Nodes ==> n.pos == old(n.pos)
      ensures RotatedLeft(node, temp) && Links()
    {
      assert old(KidsOk(node)) && old(KidsOk(temp)) && old(UpOk(node));
      forall n | n in Nodes && n != node && n != temp
        ensures n.left == (if old(n.left) == node then temp else old(n.left))
        ensures n.right == (if old(n.right) == node then temp else old(n.right))
        ensures n.parent == (if n == old(temp.left) then node else old(n.parent))
      {
        assert old(KidsOk(n));
      }
      RotatedLeftKids(node, temp);
      RotatedLeftUp(node, temp);
    }

    method LeftRotate(node: Node)
      requires Links() && node in Nodes && node.right != sentinel
      modifies this`root, Nodes`left, Nodes`right, Nodes`parent, Nodes`lo, Nodes`hi
      ensures old(node.right) in Nodes && RotatedLeft(node, old(node.right)) && Links()
    {
      ghost var temp := node.right;
      assert KidsOk(node) && KidsOk(temp) && UpOk(node) && UpOk(temp);
      if node.parent != null { assert KidsOk(node.parent); }
      RelinkLeft(node);
      RotatedLeftLinks(node, temp);
    }

    // ------------------------------------------------------------------
    // RightRotate
    // ------------------------------------------------------------------

    /** The assignments of ngx_rbtree_right_rotate, on the four nodes they touch. */
    twostate predicate RelinkedRight(node: Node, temp: Node)
      reads *
    {
      && node.left == old(temp.right) && temp.right == node
      && node.parent == temp && temp.parent == old(node.parent)
      && node.right == old(node.right) && temp.left == old(temp.left)
      && node.hi == old(node.hi) && node.lo == old(temp.pos) + 1 && temp.hi == old(node.hi) && temp.lo == old(temp.lo)
      && root == (if old(root) == node then temp else old(root))
      && (var b := old(temp.right); b != null && b != sentinel ==> b.parent == node)
      && (var p := old(node.parent); p != null && p != sentinel ==>
            && p.left == (if old(p.left) == node then temp else old(p.left))
            && p.right == (if old(p.left) != node then temp else old(p.right)))
    }

    /** The same change seen from every node of the tree. */
    twostate predicate RotatedRight(node: Node, temp: Node)
      reads *
    {
      && node in Nodes && temp in Nodes && node != temp && Nodes == old(Nodes) && Seq == old(Seq)
      && node.left == old(temp.right) && temp.right == node
      && node.parent == temp && temp.parent == old(node.parent)
      && node.right == old(node.right) && temp.left == old(temp.left)
      && node.hi == old(node.hi) && node.lo == old(temp.pos) + 1 && temp.hi == old(node.hi) && temp.lo == old(temp.lo)
      && root == (if old(root) == node then temp else old(root))
      && (forall n :: n in Nodes ==> n.pos == old(n.pos))
      && (forall n :: n in Nodes && n != node && n != temp ==>
            && n.left == (if old(n.left) == node then temp else old(n.left))
            && n.right == (if old(n.right) == node then temp else old(n.right))
            && n.parent == (if n == old(temp.right) then node else old(n.parent))
            && n.lo == old(n.lo) && n.hi == old(n.hi))
    }

    method RelinkRight(node: Node)
      requires node.left != null && node.left.right != null
      requires node != node.left && node.left.right != node && node.left.right != node.left
      requires node.parent != node && node.parent != node.left && node.parent != sentinel
      requires node == root <==> node.parent == null
      requires node.left.right != sentinel ==> node.left.right != node.parent
      modifies this`root, Real(node.parent)`left, Real(node.parent)`right, Real(node.left.right)`parent
      modifies {node, node.left}`left, {node, node.left}`right, {node, node.left}`parent
      modifies {node, node.left}`lo, {node, node.left}`hi
      ensures RelinkedRight(node, old(node.left))
    {
      var temp := node.left;
      node.left := temp.right;
      if temp.right != sentinel {
        temp.right.parent := node;
      }
      temp.parent := node.parent;
      if node == root {
        root := temp;
      } else if node == node.parent.left {
        node.parent.left := temp;
      } else {
        node.parent.right := temp;
      }
      temp.right := node;
      node.parent := temp;
      node.lo := temp.pos + 1;
      temp.hi := node.hi;
    }

    twostate lemma RotatedRightKids(new node: Node, new temp: Node)
      requires old(Links()) && node in old(Nodes) && temp == old(node.left) && temp in old(Nodes)
      requires RotatedRight(node, temp)
      ensures forall n {:trigger KidsOk(n)} :: n in Nodes ==> KidsOk(n)
    {
      assert old(KidsOk(node)) && old(KidsOk(temp));
      forall n | n in Nodes
        ensures KidsOk(n)
      {
        assert old(KidsOk(n));
      }
    }

    twostate lemma RotatedRightUp(new node: Node, new temp: Node)
      requires old(Links()) && node in old(Nodes) && temp == old(node.left) && temp in old(Nodes)
      requires RotatedRight(node, temp)
      ensures forall n {:trigger UpOk(n)} :: n in Nodes ==> UpOk(n)
    {
      assert old(UpOk(node)) && old(UpOk(temp)) && old(KidsOk(node)) && old(KidsOk(temp));
      forall n | n in Nodes
        ensures UpOk(n)
      {
        assert old(UpOk(n));
      }
    }

    twostate lemma RotatedRightLinks(new node: Node, new temp: Node)
      requires old(Links()) && node in old(Nodes) && temp == old(node.left) && temp != sentinel && temp in old(Nodes)
      requires Nodes == old(Nodes) && Seq == old(Seq)
      requires RelinkedRight(node, temp)
      requires forall n :: n in Nodes && n != node && n != temp ==>
                 && n.lo == old(n.lo) && n.hi == old(n.hi)
                 && (n != old(node.parent) ==> n.left == old(n.left) && n.right == old(n.right))
                 && (n != old(temp.right) ==> n.parent == old(n.parent))
      requires forall n :: n in Nodes ==> n.pos == old(n.pos)
      ensures RotatedRight(node, temp) && Links()
    {
      assert old(KidsOk(node)) && old(KidsOk(temp)) && old(UpOk(node));
      forall n | n in Nodes && n != node && n != temp
        ensures n.left == (if old(n.left) == node then temp else old(n.left))
        ensures n.right == (if old(n.right) == node then temp else old(n.right))
        ensures n.parent == (if n == old(temp.right) then node else old(n.parent))
      {
        assert old(KidsOk(n));
      }
      RotatedRightKids(node, temp);
      RotatedRightUp(node, temp);
    }

    method RightRotate(node: Node)
      requires Links() && node in Nodes && node.left != sentinel
      modifies this`root, Nodes`left, Nodes`right, Nodes`parent, Nodes`lo, Nodes`hi
      ensures old(node.left) in Nodes && RotatedRight(node, old(node.left)) && Links()
    {
      ghost var temp := node.left;
      assert KidsOk(node) && KidsOk(temp) && UpOk(node) && UpOk(temp);
      if node.parent != null { assert KidsOk(node.parent); }
      RelinkRight(node);
      RotatedRightLinks(node, temp);
    }

    // ------------------------------------------------------------------
    // Insertion
    // ------------------------------------------------------------------

    /** k is a place where a new node with this key may go: after s[k-1], before s[k]. */
    ghost predicate Gap(s: seq<Node>, k: int, key: int)
      reads s
    {
      && 0 <= k <= |s|
      && (k > 0 ==> !GoesLeft(inserter, key, s[k - 1].key))
      && (k < |s| ==> GoesLeft(inserter, key, s[k].key))
    }

    /** The loop of ngx_rbtree_insert_value and ngx_rbtree_insert_timer_value. */
    method FindLeaf(key: int) returns (temp: Node, onLeft: bool, ghost k: int)
      requires Links() && Seq != []
      ensures temp in Nodes && (if onLeft then temp.left == sentinel else temp.right == sentinel)
      ensures k == (if onLeft then temp.pos else temp.pos + 1) && Gap(Seq, k, key)
      ensures onLeft && k > 0 ==> Seq[k - 1].hi > k
      ensures !onLeft && k < |Seq| ==> Seq[k].lo < k
    {
      temp, onLeft := root, false;
      assert UpOk(root) && KidsOk(root);
      while true
        invariant temp in Nodes && KidsOk(temp)
        invariant temp.lo > 0 ==> !GoesLeft(inserter, key, Seq[temp.lo - 1].key) && Seq[temp.lo - 1].hi >= temp.hi
        invariant temp.hi < |Seq| ==> GoesLeft(inserter, key, Seq[temp.hi].key) && Seq[temp.hi].lo <= temp.lo
        decreases temp.hi - temp.lo
      {
        onLeft := GoesLeft(inserter, key, temp.key);
        var p := if onLeft then temp.left else temp.right;
        if p == sentinel {
          break;
        }
        assert KidsOk(p);
        temp := p;
      }
      k := if onLeft then temp.pos else temp.pos + 1;
    }

    ghost function Up(i: int, k: int): int {
      if i >= k then i + 1 else i
    }

    /** The node has been hung below temp at position k and the others are shifted. */
    twostate predicate Hung(temp: Node, new node: Node, onLeft: bool, k: int)
      reads *
    {
      && Nodes == old(Nodes) + {node} && 0 <= k <= old(|Seq|) && Seq == old(Seq[..k]) + [node] + old(Seq[k..])
      && root == old(root)
      && node.parent == temp && node.left == sentinel && node.right == sentinel
      && node.lo == node.pos == k && node.hi == k + 1
      && (forall n :: n in old(Nodes) ==>
            && n.left == (if n == temp && onLeft then node else old(n.left))
            && n.right == (if n == temp && !onLeft then node else old(n.right))
            && n.parent == old(n.parent)
            && n.lo == Up(old(n.lo), k + 1) && n.pos == Up(old(n.pos), k) && n.hi == Up(old(n.hi), k))
    }

    twostate lemma HungKids(new temp: Node, new node: Node, new onLeft: bool, new k: int)
      requires old(Links()) && temp in old(Nodes) && node !in old(Nodes) && node != sentinel
      requires old(if onLeft then temp.left == sentinel else temp.right == sentinel)
      requires k == old(if onLeft then temp.pos else temp.pos + 1) && 0 <= k <= old(|Seq|)
      requires onLeft && k > 0 ==> old(Seq[k - 1].hi > k)
      requires !onLeft && k < |old(Seq)| ==> old(Seq[k].lo < k)
      requires Hung(temp, node, onLeft, k)
      ensures forall n {:trigger KidsOk(n)} :: n in Nodes ==> KidsOk(n)
    {
      assert old(KidsOk(temp));
      forall n | n in Nodes
        ensures KidsOk(n)
      {
        if n != node {
          assert old(KidsOk(n));
        }
      }
    }

    twostate lemma HungUp(new temp: Node, new node: Node, new onLeft: bool, new k: int)
      requires old(Links()) && temp in old(Nodes) && node !in old(Nodes) && node != sentinel
      requires old(if onLeft then temp.left == sentinel else temp.right == sentinel)
      requires k == old(if onLeft then temp.pos else temp.pos + 1)
      requires 0 <= k <= old(|Seq|)
      requires Hung(temp, node, onLeft, k)
      ensures forall n {:trigger UpOk(n)} :: n in Nodes ==> UpOk(n)
      ensures forall i :: 0 <= i < |Seq| ==> Seq[i] in Nodes && Seq[i].pos == i
    {
      assert old(KidsOk(temp));
      forall n | n in Nodes
        ensures UpOk(n)
      {
        if n != node {
          assert old(UpOk(n)) && old(KidsOk(n));
        }
      }
    }

    twostate lemma HungLinks(new temp: Node, new node: Node, new onLeft: bool, new k: int)
      requires old(Links()) && temp in old(Nodes) && node !in old(Nodes) && node != sentinel
      requires old(if onLeft then temp.left == sentinel else temp.right == sentinel)
      requires k == old(if onLeft then temp.pos else temp.pos + 1) && 0 <= k <= old(|Seq|)
      requires onLeft && k > 0 ==> old(Seq[k - 1].hi > k)
      requires !onLeft && k < |old(Seq)| ==> old(Seq[k].lo < k)
      requires Hung(temp, node, onLeft, k)
      ensures Links()
    {
      assert old(KidsOk(temp));
      HungKids(temp, node, onLeft, k);
      HungUp(temp, node, onLeft, k);
    }

    /** Make room at position k of the sequence (ghost state only). */
    ghost method Shift(k: int)
      modifies Nodes`lo, Nodes`pos, Nodes`hi
      ensures forall n :: n in Nodes ==>
                n.lo == Up(old(n.lo), k + 1) && n.pos == Up(old(n.pos), k) && n.hi == Up(old(n.hi), k)
    {
      forall n | n in Nodes {
        n.lo := Up(n.lo, k + 1);
      }
      forall n | n in Nodes {
        n.pos := Up(n.pos, k);
      }
      forall n | n in Nodes {
        n.hi := Up(n.hi, k);
      }
    }

    method HangBelow(temp: Node, node: Node, onLeft: bool)
      requires temp != node
      modifies temp`left, temp`right, node`parent, node`left, node`right, node`red
      ensures temp.left == (if onLeft then node else old(temp.left))
      ensures temp.right == (if onLeft then old(temp.right) else node)
      ensures node.parent == temp && node.left == sentinel && node.right == sentinel && node.red
    {
      if onLeft {
        temp.left := node;
      } else {
        temp.right := node;
      }
      node.parent := temp;
      node.left := sentinel;
      node.right := sentinel;
      node.red := true;
    }

    method Hang(temp: Node, node: Node, onLeft: bool, ghost k: int)
      requires Links() && temp in Nodes && node !in Nodes && node != sentinel
      requires if onLeft then temp.left == sentinel else temp.right == sentinel
      requires k == (if onLeft then temp.pos else temp.pos + 1) && 0 <= k <= |Seq|
      requires onLeft && k > 0 ==> Seq[k - 1].hi > k
      requires !onLeft && k < |Seq| ==> Seq[k].lo < k
      modifies this`Nodes, this`Seq, temp`left, temp`right, Nodes`lo, Nodes`pos, Nodes`hi
      modifies node`parent, node`left, node`right, node`red, node`lo, node`pos, node`hi, node`bh
      ensures Links() && Hung(temp, node, onLeft, k) && node.red && node.bh == 1
    {
      HangBelow(temp, node, onLeft);
      Shift(k);
      node.lo, node.pos, node.hi, node.bh := k, k, k + 1, 1;
      Seq := Seq[..k] + [node] + Seq[k..];
      Nodes := Nodes + {node};
      HungLinks(temp, node, onLeft, k);
    }

    twostate lemma HungColours(new temp: Node, new node: Node, new onLeft: bool, new k: int)
      requires old(Links() && Reds(null) && Blacks(null, false))
      requires temp in old(Nodes) && node !in old(Nodes) && node != sentinel
      requires old(if onLeft then temp.left == sentinel else temp.right == sentinel)
      requires Hung(temp, node, onLeft, k) && node.red && node.bh == 1
      requires sentinel.red == old(sentinel.red) && sentinel.bh == old(sentinel.bh)
      requires forall n :: n in old(Nodes) ==> n.red == old(n.red) && n.bh == old(n.bh)
      ensures Reds(node) && Blacks(null, false)
    {
      forall n | n in Nodes && n != node
        ensures RedOk(n)
      {
        assert old(RedOk(n)) && old(UpOk(n));
      }
      forall n | n in Nodes
        ensures BlackOk(n, null, false)
      {
        if n != node {
          assert old(BlackOk(n, null, false)) && old(KidsOk(n));
        }
      }
    }

    /** After the outer rotation at g (was: red z under red p under black g, black uncle). */
    twostate lemma OuterLeft(new z: Node, new p: Node, new g: Node)
      requires z in old(Nodes) && p in old(Nodes) && g in old(Nodes)
      requires old(Links() && Reds(z) && Blacks(null, false))
      requires old(p == z.parent && g == p.parent && g.left == p && p.left == z && z.red && p.red)
      requires old(g.right == sentinel || (g.right in Nodes && !g.right.red))
      requires RotatedRight(g, p) && sentinel.red == old(sentinel.red) && sentinel.bh == old(sentinel.bh)
      requires forall n :: n in Nodes ==> n.bh == old(n.bh)
      requires forall n :: n in Nodes ==> n.red == (if n == p then false else if n == g then true else old(n.red))
      ensures Reds(null) && Blacks(null, false)
    {
      assert old(RedOk(p)) && old(KidsOk(p)) && old(KidsOk(g)) && old(UpOk(p)) && old(UpOk(g));
      assert old(BlackOk(p, null, false)) && old(BlackOk(g, null, false));
      forall n | n in Nodes
        ensures RedOk(n)
      {
        assert old(RedOk(n)) || n == z;
        assert old(UpOk(n));
      }
      forall n | n in Nodes
        ensures BlackOk(n, null, false)
      {
        assert old(BlackOk(n, null, false)) && old(KidsOk(n));
      }
    }

    method FixOuterLeft(z: Node)
      requires Links() && Reds(z) && Blacks(null, false)
      requires z in Nodes && z.red && z.parent in Nodes && z.parent.red && z.parent.left == z
      requires z.parent.parent in Nodes && z.parent.parent.left == z.parent
      requires z.parent.parent.right == sentinel || (z.parent.parent.right in Nodes && !z.parent.parent.right.red)
      modifies this`root, Nodes`left, Nodes`right, Nodes`parent, Nodes`lo, Nodes`hi, Nodes`red
      ensures Links() && Reds(null) && Blacks(null, false)
      ensures z.red && z.parent in Nodes && !z.parent.red
      ensures root == (if old(root) == old(z.parent.parent) then z.parent else old(root))
      ensures forall n :: n in Nodes && n.red ==> old(n.red) || n == old(z.parent.parent)
    {
      ghost var p, g := z.parent, z.parent.parent;
      assert KidsOk(g);
      z.parent.red := false;
      z.parent.parent.red := true;
      RightRotate(z.parent.parent);
      assert old(KidsOk(p));
      OuterLeft(z, p, g);
    }

    /** After the outer rotation at g (was: red z under red p under black g, black uncle). */
    twostate lemma OuterRight(new z: Node, new p: Node, new g: Node)
      requires z in old(Nodes) && p in old(Nodes) && g in old(Nodes)
      requires old(Links() && Reds(z) && Blacks(null, false))
      requires old(p == z.parent && g == p.parent && g.right == p && p.right == z && z.red && p.red)
      requires old(g.left == sentinel || (g.left in Nodes && !g.left.red))
      requires RotatedLeft(g, p) && sentinel.red == old(sentinel.red) && sentinel.bh == old(sentinel.bh)
      requires forall n :: n in Nodes ==> n.bh == old(n.bh)
      requires forall n :: n in Nodes ==> n.red == (if n == p then false else if n == g then true else old(n.red))
      ensures Reds(null) && Blacks(null, false)
    {
      assert old(RedOk(p)) && old(KidsOk(p)) && old(KidsOk(g)) && old(UpOk(p)) && old(UpOk(g));
      assert old(BlackOk(p, null, false)) && old(BlackOk(g, null, false));
      forall n | n in Nodes
        ensures RedOk(n)
      {
        assert old(RedOk(n)) || n == z;
        assert old(UpOk(n));
      }
      forall n | n in Nodes
        ensures BlackOk(n, null, false)
      {
        assert old(BlackOk(n, null, false)) && old(KidsOk(n));
      }
    }

    method FixOuterRight(z: Node)
      requires Links() && Reds(z) && Blacks(null, false)
      requires z in Nodes && z.red && z.parent in Nodes && z.parent.red && z.parent.right == z
      requires z.parent.parent in Nodes && z.parent.parent.right == z.parent
      requires z.parent.parent.left == sentinel || (z.parent.parent.left in Nodes && !z.parent.parent.left.red)
      modifies this`root, Nodes`left, Nodes`right, Nodes`parent, Nodes`lo, Nodes`hi, Nodes`red
      ensures Links() && Reds(null) && Blacks(null, false)
      ensures z.red && z.parent in Nodes && !z.parent.red
      ensures root == (if old(root) == old(z.parent.parent) then z.parent else old(root))
      ensures forall n :: n in Nodes && n.red ==> old(n.red) || n == old(z.parent.parent)
    {
      ghost var p, g := z.parent, z.parent.parent;
      assert KidsOk(g);
      z.parent.red := false;
      z.parent.parent.red := true;
      LeftRotate(z.parent.parent);
      assert old(KidsOk(p));
      OuterRight(z, p, g);
    }

    /** The inner rotation swaps the red pair p, z; the exception moves from z to p. */
    twostate lemma InnerLeft(new z: Node, new p: Node)
      requires z in old(Nodes) && p in old(Nodes)
      requires old(Links() && Reds(z) && Blacks(null, false))
      requires old(p == z.parent && p.right == z && z.red && p.red)
      requires RotatedLeft(p, z) && sentinel.red == old(sentinel.red) && sentinel.bh == old(sentinel.bh)
      requires forall n :: n in Nodes ==> n.bh == old(n.bh) && n.red == old(n.red)
      ensures Reds(p) && Blacks(null, false)
    {
      assert old(RedOk(p)) && old(KidsOk(p)) && old(KidsOk(z)) && old(UpOk(p)) && old(UpOk(z));
      assert old(BlackOk(p, null, false)) && old(BlackOk(z, null, false));
      forall n | n in Nodes && n != p
        ensures RedOk(n)
      {
        assert old(RedOk(n)) || n == z;
        assert old(UpOk(n));
      }
      forall n | n in Nodes
        ensures BlackOk(n, null, false)
      {
        assert old(BlackOk(n, null, false)) && old(KidsOk(n));
      }
    }

    method FixInnerLeft(z: Node) returns (y: Node)
      requires Links() && Reds(z) && Blacks(null, false)
      requires z in Nodes && z.red && z.parent in Nodes && z.parent.red && z.parent.right == z
      modifies this`root, Nodes`left, Nodes`right, Nodes`parent, Nodes`lo, Nodes`hi
      ensures Links() && Reds(y) && Blacks(null, false)
      ensures y == old(z.parent) && y in Nodes && y.red && y.parent == z && z.red && z.left == y
      ensures z.parent == old(z.parent.parent)
      ensures z.parent in Nodes ==>
        && z.parent.left == (if old(z.parent.parent.left) == y then z else old(z.parent.parent.left))
        && z.parent.right == (if old(z.parent.parent.right) == y then z else old(z.parent.parent.right))
      ensures root == (if old(root) == y then z else old(root))
    {
      y := z.parent;
      assert KidsOk(y);
      LeftRotate(y);
      assert old(UpOk(y)) && old(UpOk(z)) && old(KidsOk(z));
      if old(y.parent) != null { assert old(KidsOk(y.parent)); }
      InnerLeft(z, y);
    }

    /** The inner rotation swaps the red pair p, z; the exception moves from z to p. */
    twostate lemma InnerRight(new z: Node, new p: Node)
      requires z in old(Nodes) && p in old(Nodes)
      requires old(Links() && Reds(z) && Blacks(null, false))
      requires old(p == z.parent && p.left == z && z.red && p.red)
      requires RotatedRight(p, z) && sentinel.red == old(sentinel.red) && sentinel.bh == old(sentinel.bh)
      requires forall n :: n in Nodes ==> n.bh == old(n.bh) && n.red == old(n.red)
      ensures Reds(p) && Blacks(null, false)
    {
      assert old(RedOk(p)) && old(KidsOk(p)) && old(KidsOk(z)) && old(UpOk(p)) && old(UpOk(z));
      assert old(BlackOk(p, null, false)) && old(BlackOk(z, null, false));
      forall n | n in Nodes && n != p
        ensures RedOk(n)
      {
        assert old(RedOk(n)) || n == z;
        assert old(UpOk(n));
      }
      forall n | n in Nodes
        ensures BlackOk(n, null, false)
      {
        assert old(BlackOk(n, null, false)) && old(KidsOk(n));
      }
    }

    method FixInnerRight(z: Node) returns (y: Node)
      requires Links() && Reds(z) && Blacks(null, false)
      requires z in Nodes && z.red && z.parent in Nodes && z.parent.red && z.parent.left == z
      modifies this`root, Nodes`left, Nodes`right, Nodes`parent, Nodes`lo, Nodes`hi
      ensures Links() && Reds(y) && Blacks(null, false)
      ensures y == old(z.parent) && y in Nodes && y.red && y.parent == z && z.red && z.right == y
      ensures z.parent == old(z.parent.parent)
      ensures z.parent in Nodes ==>
        && z.parent.left == (if old(z.parent.parent.left) == y then z else old(z.parent.parent.left))
        && z.parent.right == (if old(z.parent.parent.right) == y then z else old(z.parent.parent.right))
      ensures root == (if old(root) == y then z else old(root))
    {
      y := z.parent;
      assert KidsOk(y);
      RightRotate(y);
      assert old(UpOk(y)) && old(UpOk(z)) && old(KidsOk(z));
      if old(y.parent) != null { assert old(KidsOk(y.parent)); }
      InnerRight(z, y);
    }

    /** Effect of turning z's red parent p and red uncle black and its grandparent g red. */
    twostate lemma PushedRedUp(new z: Node, new p: Node, new uncle: Node, new g: Node)
      requires z in old(Nodes) && p in old(Nodes) && uncle in old(Nodes) && g in old(Nodes)
      requires old(Links() && Reds(z) && Blacks(null, false))
      requires old(p == z.parent && g == p.parent && p.red && uncle.red && uncle != p
                   && (g.left == uncle || g.right == uncle))
      requires Links() && Nodes == old(Nodes) && sentinel.red == old(sentinel.red) && sentinel.bh == old(sentinel.bh)
      requires forall n :: n in Nodes ==>
                 && n.left == old(n.left) && n.right == old(n.right) && n.parent == old(n.parent)
                 && n.red == (if n == p || n == uncle then false else if n == g then true else old(n.red))
                 && n.bh == (if n == g then old(n.bh) + 1 else old(n.bh))
      ensures Reds(g) && Blacks(null, false)
    {
      assert old(KidsOk(p)) && old(KidsOk(g)) && old(UpOk(p)) && old(UpOk(z));
      assert old(RedOk(p)) && old(BlackOk(p, null, false)) && old(BlackOk(g, null, false));
      forall n | n in Nodes && n != g
        ensures RedOk(n)
      {
        assert old(RedOk(n)) || n == z;
        assert old(UpOk(n));
      }
      forall n | n in Nodes
        ensures BlackOk(n, null, false)
      {
        assert old(BlackOk(n, null, false)) && old(KidsOk(n));
      }
    }

    /** Red uncle: the parent and the uncle turn black, the grandparent red. */
    method PushRedUp(z: Node, uncle: Node) returns (g: Node)
      requires Links() && Reds(z) && Blacks(null, false)
      requires z in Nodes && z.red && z.parent in Nodes && z.parent.red && z.parent.parent in Nodes
      requires uncle in Nodes && uncle.red && uncle != z.parent
      requires z.parent.parent.left == uncle || z.parent.parent.right == uncle
      modifies Nodes`red, Nodes`bh
      ensures g == z.parent.parent && g.red && Reds(g) && Blacks(null, false)
      ensures forall n :: n in Nodes && n.red ==> old(n.red) || n == g
    {
      ghost var p := z.parent;
      assert KidsOk(p.parent) && KidsOk(p) && UpOk(p);
      z.parent.red := false;
      uncle.red := false;
      z.parent.parent.red := true;
      g := z.parent.parent;
      g.bh := g.bh + 1;
      PushedRedUp(z, p, uncle, g);
    }

    /** The root is black, and colours and black counts are as they should be. */
    ghost predicate Balanced()
      reads this`root, this`Nodes, this`Seq
      reads Nodes`left, Nodes`right, Nodes`parent, Nodes`lo, Nodes`pos, Nodes`hi, Nodes`red, Nodes`bh
      reads sentinel`red, sentinel`bh
    {
      && Links() && Reds(null) && Blacks(null, false)
      && (root in Nodes ==> !root.red)
    }

    /** One round of the re-balancing loop when z's parent is a left child. */
    method InsertRoundLeft(z: Node) returns (y: Node)
      requires Links() && Reds(z) && Blacks(null, false)
      requires z in Nodes && z.red && z.parent in Nodes && z.parent.red && root in Nodes && !root.red
      requires z.parent.parent in Nodes && z.parent.parent.left == z.parent
      modifies this`root, Nodes`left, Nodes`right, Nodes`parent, Nodes`lo, Nodes`hi, Nodes`red, Nodes`bh
      ensures Links() && Reds(y) && Blacks(null, false)
      ensures y in Nodes && y.red && root in Nodes && (root.red ==> root == y)
      ensures y.parent in Nodes && y.parent.red ==> y.hi - y.lo > old(z.hi - z.lo)
    {
      y := z;
      ghost var p, g := z.parent, z.parent.parent;
      assert KidsOk(p) && KidsOk(g) && KidsOk(z) && RedOk(p) && UpOk(z);
      var uncle := z.parent.parent.right;
      if uncle.red {
        y := PushRedUp(z, uncle);
      } else {
        if y == y.parent.right {
          y := FixInnerLeft(y);
        }
        FixOuterLeft(y);
      }
    }

    /** One round of the re-balancing loop when z's parent is a right child. */
    method InsertRoundRight(z: Node) returns (y: Node)
      requires Links() && Reds(z) && Blacks(null, false)
      requires z in Nodes && z.red && z.parent in Nodes && z.parent.red && root in Nodes && !root.red
      requires z.parent.parent in Nodes && z.parent.parent.right == z.parent
      modifies this`root, Nodes`left, Nodes`right, Nodes`parent, Nodes`lo, Nodes`hi, Nodes`red, Nodes`bh
      ensures Links() && Reds(y) && Blacks(null, false)
      ensures y in Nodes && y.red && root in Nodes && (root.red ==> root == y)
      ensures y.parent in Nodes && y.parent.red ==> y.hi - y.lo > old(z.hi - z.lo)
    {
      y := z;
      ghost var p, g := z.parent, z.parent.parent;
      assert KidsOk(p) && KidsOk(g) && KidsOk(z) && RedOk(p) && UpOk(z);
      var uncle := z.parent.parent.left;
      if uncle.red {
        y := PushRedUp(z, uncle);
      } else {
        if y == y.parent.left {
          y := FixInnerRight(y);
        }
        FixOuterRight(y);
      }
    }

    twostate lemma BlackenedRoot()
      requires old(Links()) && old(Reds(null)) && old(Blacks(null, false)) && old(root in Nodes)
      requires Links() && Nodes == old(Nodes) && root == old(root) && sentinel.red == old(sentinel.red)
               && sentinel.bh == old(sentinel.bh)
      requires forall n :: n in Nodes ==>
                 && n.left == old(n.left) && n.right == old(n.right) && n.parent == old(n.parent)
                 && n.red == (if n == root then false else old(n.red)) && n.bh == old(n.bh)
      ensures Balanced()
    {
      assert UpOk(root);
      forall n | n in Nodes
        ensures RedOk(n)
      {
        assert old(RedOk(n));
      }
      forall n | n in Nodes
        ensures BlackOk(n, null, false)
      {
        assert old(BlackOk(n, null, false)) && KidsOk(n);
      }
    }

    /** The re-balancing loop of ngx_rbtree_insert. */
    method InsertFixup(node: Node)
      requires Links() && Reds(node) && Blacks(null, false)
      requires node in Nodes && node.red && (root.red ==> root == node)
      modifies this`root, Nodes`left, Nodes`right, Nodes`parent, Nodes`lo, Nodes`hi, Nodes`red, Nodes`bh
      ensures Balanced()
    {
      var z := node;
      assert UpOk(z) && KidsOk(z);
      while z != root && z.parent.red
        invariant Links() && Reds(z) && Blacks(null, false)
        invariant z in Nodes && z.red && root in Nodes && (root.red ==> root == z)
        invariant UpOk(z) && KidsOk(z)
        decreases if z != root && z.parent.red then |Seq| + 1 - (z.hi - z.lo) else 0
      {
        assert UpOk(z.parent);
        ghost var size := z.hi - z.lo;
        if z.parent == z.parent.parent.left {
          z := InsertRoundLeft(z);
        } else {
          z := InsertRoundRight(z);
        }
        assert UpOk(z) && KidsOk(z);
        assert z != root && z.parent.red ==> z.hi - z.lo > size;
      }
      assert RedOk(z);
      label Rooted:
      root.red := false;
      BlackenedRoot@Rooted();
    }

    lemma EmptyTree()
      requires Links()
      ensures Seq == [] ==> Nodes == {}
    {
      if Nodes != {} {
        var n :| n in Nodes;
        assert KidsOk(n);
      }
    }

    /** The first branch of ngx_rbtree_insert: the node becomes the root of an empty tree. */
    method PlantRoot(node: Node)
      requires Links() && root == sentinel && node !in Nodes && node != sentinel && Blacks(null, false)
      modifies this`root, this`Nodes, this`Seq
      modifies node`left, node`right, node`parent, node`red, node`lo, node`pos, node`hi, node`bh
      ensures Balanced() && old(Seq) == [] && old(Nodes) == {} && Nodes == {node} && Seq == [node]
    {
      EmptyTree();
      node.parent := null;
      node.left := sentinel;
      node.right := sentinel;
      node.red := false;
      root := node;
      node.lo, node.pos, node.hi, node.bh := 0, 0, 1, 1;
      Nodes, Seq := {node}, [node];
    }

    /** ngx_rbtree_insert */
    method Insert(node: Node) returns (ghost k: int)
      requires Balanced() && node !in Nodes && node != sentinel
      modifies this`root, this`Nodes, this`Seq
      modifies Nodes`left, Nodes`right, Nodes`parent, Nodes`red, Nodes`lo, Nodes`pos, Nodes`hi, Nodes`bh
      modifies node`left, node`right, node`parent, node`red, node`lo, node`pos, node`hi, node`bh
      ensures Balanced() && Nodes == old(Nodes) + {node}
      ensures old(Gap(Seq, k, node.key))
      ensures Seq == old(Seq)[..k] + [node] + old(Seq)[k..]
    {
      if root == sentinel {
        PlantRoot(node);
        k := 0;
        return;
      }
      var temp, onLeft;
      temp, onLeft, k := FindLeaf(node.key);
      Hang(temp, node, onLeft, k);
      HungColours(temp, node, onLeft, k);
      assert UpOk(root);
      InsertFixup(node);
    }

    // ------------------------------------------------------------------
    // Deletion
    // ------------------------------------------------------------------

    /** ngx_rbtree_min */
    method Min(from: Node) returns (m: Node)
      requires Links() && from in Nodes
      ensures 0 <= from.lo < |Seq| && m == Seq[from.lo] && m in Nodes && m.left == sentinel && m.hi <= from.hi
    {
      m := from;
      assert KidsOk(m);
      while m.left != sentinel
        invariant m in Nodes && KidsOk(m) && m.lo == from.lo && m.hi <= from.hi
        decreases m.hi - m.lo
      {
        assert KidsOk(m.left);
        m := m.left;
      }
    }

    /** ngx_rbtree_transplant */
    method Transplant(u: Node, v: Node)
      requires u.parent != null ==> u.parent != v
      modifies this`root, v`parent
      modifies (if u.parent == null then {} else {u.parent})`left
      modifies (if u.parent == null then {} else {u.parent})`right
      ensures root == (if old(u.parent) == null then v else old(root))
      ensures v.parent == old(u.parent)
      ensures (var p := old(u.parent); p != null ==>
            && p.left == (if old(p.left) == u then v else old(p.left))
            && p.right == (if old(p.left) != u then v else old(p.right)))
    {
      if u.parent == null {
        root := v;
      } else if u == u.parent.left {
        u.parent.left := v;
      } else {
        u.parent.right := v;
      }
      v.parent := u.parent;
    }

    ghost function Down(i: int, k: int): int {
      if i > k then i - 1 else i
    }

    /** Close position k of the sequence (ghost state only). */
    ghost method Unshift(k: int)
      modifies Nodes`lo, Nodes`pos, Nodes`hi
      ensures forall n :: n in Nodes ==>
                n.lo == Down(old(n.lo), k) && n.pos == Down(old(n.pos), k) && n.hi == Down(old(n.hi), k)
    {
      forall n | n in Nodes {
        n.lo := Down(n.lo, k);
      }
      forall n | n in Nodes {
        n.pos := Down(n.pos, k);
      }
      forall n | n in Nodes {
        n.hi := Down(n.hi, k);
      }
    }

    /** u had at most the one child v, which has taken its place. */
    twostate predicate Spliced(u: Node, new v: Node)
      reads *
    {
      && u in old(Nodes) && Nodes == old(Nodes) - {u}
      && 0 <= old(u.pos) < old(|Seq|) && Seq == old(Seq[..u.pos]) + old(Seq[u.pos + 1..])
      && root == (if old(root) == u then v else old(root))
      && v.parent == old(u.parent)
      && (forall n :: n in Nodes ==>
            && n.left == (if old(n.left) == u then v else old(n.left))
            && n.right == (if old(n.right) == u then v else old(n.right))
            && (n != v ==> n.parent == old(n.parent))
            && n.lo == Down(old(n.lo), old(u.pos)) && n.pos == Down(old(n.pos), old(u.pos))
            && n.hi == Down(old(n.hi), old(u.pos)))
    }

    twostate lemma SplicedSelf(new u: Node, new v: Node, new n: Node)
      requires u in old(Nodes) && n in Nodes && n in old(Nodes)
      requires old(Links()) && Spliced(u, v)
      requires old((u.left == sentinel && u.right == v) || (u.right == sentinel && u.left == v))
      ensures 0 <= n.lo <= n.pos < n.hi <= |Seq| && Seq[n.pos] == n
    {
      assert old(KidsOk(u)) && old(KidsOk(n));
    }

    twostate lemma SplicedLeft(new u: Node, new v: Node, new n: Node)
      requires u in old(Nodes) && n in Nodes && n in old(Nodes)
      requires old(Links()) && Spliced(u, v)
      requires old((u.left == sentinel && u.right == v) || (u.right == sentinel && u.left == v))
      ensures ChildOk(n, n.left, n.lo, n.pos)
    {
      assert old(KidsOk(u)) && old(KidsOk(n));
      if old(n.left) in old(Nodes) {
        assert old(KidsOk(n.left));
      }
    }

    twostate lemma SplicedRight(new u: Node, new v: Node, new n: Node)
      requires u in old(Nodes) && n in Nodes && n in old(Nodes)
      requires old(Links()) && Spliced(u, v)
      requires old((u.left == sentinel && u.right == v) || (u.right == sentinel && u.left == v))
      ensures ChildOk(n, n.right, n.pos + 1, n.hi)
    {
      assert old(KidsOk(u)) && old(KidsOk(n));
      if old(n.right) in old(Nodes) {
        assert old(KidsOk(n.right));
      }
    }

    twostate lemma SplicedKids(new u: Node, new v: Node)
      requires u in old(Nodes)
      requires old(Links()) && Spliced(u, v)
      requires old((u.left == sentinel && u.right == v) || (u.right == sentinel && u.left == v))
      ensures forall n {:trigger KidsOk(n)} :: n in Nodes ==> KidsOk(n)
    {
      forall n | n in Nodes
        ensures KidsOk(n)
      {
        SplicedSelf(u, v, n);
        SplicedLeft(u, v, n);
        SplicedRight(u, v, n);
      }
    }

    twostate lemma SplicedUp(new u: Node, new v: Node)
      requires u in old(Nodes)
      requires old(Links()) && Spliced(u, v)
      requires old((u.left == sentinel && u.right == v) || (u.right == sentinel && u.left == v))
      ensures forall n {:trigger UpOk(n)} :: n in Nodes ==> UpOk(n)
      ensures Links()
    {
      assert old(KidsOk(u)) && old(UpOk(u)) && old(KidsOk(root)) && old(UpOk(root));
      forall n | n in Nodes
        ensures UpOk(n)
      {
        assert old(UpOk(n)) && old(KidsOk(n));
      }
      SplicedKids(u, v);
    }

    /** What Transplant does, seen from every node. */
    twostate lemma SplicedEffect(new u: Node, new v: Node)
      requires u in old(Nodes)
      requires old(Links()) && old((u.left == sentinel && u.right == v) || (u.right == sentinel && u.left == v))
      requires 0 <= old(u.pos) < old(|Seq|)
      requires Nodes == old(Nodes) - {u} && Seq == old(Seq[..u.pos]) + old(Seq[u.pos + 1..])
      requires root == (if old(u.parent) == null then v else old(root))
      requires v.parent == old(u.parent)
      requires var p := old(u.parent);
               p != null ==>
                 && p.left == (if old(p.left) == u then v else old(p.left))
                 && p.right == (if old(p.left) != u then v else old(p.right))
      requires forall n :: n in Nodes && n != old(u.parent) ==> n.left == old(n.left) && n.right == old(n.right)
      requires forall n :: n in Nodes && n != v ==> n.parent == old(n.parent)
      requires forall n :: n in Nodes ==>
                 && n.lo == Down(old(n.lo), old(u.pos)) && n.pos == Down(old(n.pos), old(u.pos))
                 && n.hi == Down(old(n.hi), old(u.pos))
      ensures Spliced(u, v)
    {
      assert old(UpOk(u)) && old(KidsOk(u));
      forall n | n in Nodes
        ensures n.left == (if old(n.left) == u then v else old(n.left))
        ensures n.right == (if old(n.right) == u then v else old(n.right))
      {
        assert old(KidsOk(n));
      }
    }

    /** Ghost bookkeeping of a deletion: u and its position are gone. */
    ghost method Forget(u: Node, k: int)
      requires 0 <= k < |Seq|
      modifies this`Nodes, this`Seq, Nodes`lo, Nodes`pos, Nodes`hi
      ensures Nodes == old(Nodes) - {u} && Seq == old(Seq[..k]) + old(Seq[k + 1..])
      ensures forall n :: n in Nodes ==>
            n.lo == Down(old(n.lo), k) && n.pos == Down(old(n.pos), k) && n.hi == Down(old(n.hi), k)
    {
      Nodes := Nodes - {u};
      Unshift(k);
      Seq := Seq[..k] + Seq[k + 1..];
    }

    method DetachSingle(u: Node, v: Node)
      requires Links() && u in Nodes
      requires (u.left == sentinel && u.right == v) || (u.right == sentinel && u.left == v)
      modifies this`root, this`Nodes, this`Seq
      modifies Nodes`left, Nodes`right, Nodes`parent, Nodes`lo, Nodes`pos, Nodes`hi, sentinel`parent
      ensures Links() && Spliced(u, v)
    {
      ghost var k := u.pos;
      assert KidsOk(u) && UpOk(u);
      assert v in Nodes ==> KidsOk(v);
      Transplant(u, v);
      Forget(u, k);
      SplicedEffect(u, v);
      SplicedUp(u, v);
    }

    /** u has gone, its successor y stands in its place and y's right child x in y's. */
    twostate predicate Promoted(u: Node, new y: Node, new x: Node)
      reads *
    {
      && u in old(Nodes) && y in old(Nodes) && y != u && Nodes == old(Nodes) - {u}
      && 0 <= old(u.pos) && old(u.pos) + 1 < old(|Seq|)
      && Seq == old(Seq[..u.pos]) + old(Seq[u.pos + 1..])
      && root == (if old(root) == u then y else old(root))
      && y.parent == old(u.parent) && y.left == old(u.left)
      && y.right == (if old(u.right) == y then x else old(u.right))
      && x.parent == (if old(u.right) == y then y else old(y.parent))
      && y.lo == old(u.lo) && y.pos == old(u.pos) && y.hi == old(u.hi) - 1
      && (forall n :: n in Nodes && n != y ==>
            && n.left == (if old(n.left) == u then y else if old(n.left) == y then x else old(n.left))
            && n.right == (if old(n.right) == u then y else old(n.right))
            && (n != x ==> n.parent == (if old(n.parent) == u then y else old(n.parent)))
            && n.lo == Down(old(n.lo), old(u.pos) + 1) && n.pos == Down(old(n.pos), old(u.pos) + 1)
            && n.hi == Down(old(n.hi), old(u.pos) + 1))
    }

    /** y is the leftmost node of u's right subtree. */
    ghost predicate Successor(u: Node, y: Node)
      reads this, Nodes
    {
      && u in Nodes && y in Nodes && KidsOk(u) && KidsOk(y) && y != u
      && u.left in Nodes && u.right in Nodes && y.left == sentinel
      && y.pos == u.pos + 1 && y.hi <= u.hi && y.right != null
    }

    twostate lemma PromotedSelf(new u: Node, new y: Node, new x: Node, new n: Node)
      requires u in old(Nodes) && y in old(Nodes) && n in Nodes && n in old(Nodes)
      requires old(Links()) && old(Successor(u, y) && y.right == x) && Promoted(u, y, x)
      ensures 0 <= n.lo <= n.pos < n.hi <= |Seq| && Seq[n.pos] == n
    {
      assert old(KidsOk(n)) && old(KidsOk(u.right));
    }

    twostate lemma PromotedLeft(new u: Node, new y: Node, new x: Node, new n: Node)
      requires u in old(Nodes) && y in old(Nodes) && n in Nodes && n in old(Nodes)
      requires old(Links()) && old(Successor(u, y) && y.right == x) && Promoted(u, y, x)
      ensures ChildOk(n, n.left, n.lo, n.pos)
    {
      assert old(KidsOk(n)) && old(UpOk(y)) && old(KidsOk(u.left));
      if old(n.left) in old(Nodes) {
        assert old(KidsOk(n.left));
      }
    }

    twostate lemma PromotedRight(new u: Node, new y: Node, new x: Node, new n: Node)
      requires u in old(Nodes) && y in old(Nodes) && n in Nodes && n in old(Nodes)
      requires old(Links()) && old(Successor(u, y) && y.right == x) && Promoted(u, y, x)
      ensures ChildOk(n, n.right, n.pos + 1, n.hi)
    {
      assert old(KidsOk(n)) && old(UpOk(y)) && old(KidsOk(u.right));
      if old(n.right) in old(Nodes) {
        assert old(KidsOk(n.right));
      }
    }

    twostate lemma PromotedKids(new u: Node, new y: Node, new x: Node)
      requires u in old(Nodes) && y in old(Nodes)
      requires old(Links()) && old(Successor(u, y) && y.right == x) && Promoted(u, y, x)
      ensures forall n {:trigger KidsOk(n)} :: n in Nodes ==> KidsOk(n)
    {
      forall n | n in Nodes
        ensures KidsOk(n)
      {
        PromotedSelf(u, y, x, n);
        PromotedLeft(u, y, x, n);
        PromotedRight(u, y, x, n);
      }
    }

    twostate lemma PromotedUp(new u: Node, new y: Node, new x: Node, new n: Node)
      requires u in old(Nodes) && y in old(Nodes) && n in Nodes && n in old(Nodes)
      requires old(Links()) && old(Successor(u, y) && y.right == x) && Promoted(u, y, x)
      ensures UpOk(n)
    {
      assert old(UpOk(u)) && old(UpOk(y)) && old(KidsOk(y.parent));
      assert old(KidsOk(u)) && old(KidsOk(y));
      assert old(UpOk(n)) && old(KidsOk(n));
    }

    twostate lemma PromotedLinks(new u: Node, new y: Node, new x: Node)
      requires u in old(Nodes) && y in old(Nodes)
      requires old(Links()) && old(Successor(u, y) && y.right == x) && Promoted(u, y, x)
      ensures Links()
    {
      forall n | n in Nodes
        ensures UpOk(n)
      {
        PromotedUp(u, y, x, n);
      }
      PromotedKids(u, y, x);
      assert old(UpOk(root)) && old(KidsOk(root));
    }

    ghost function Opt(n: Node?): set<Node> {
      if n == null then {} else {n}
    }

    /** The pointers around a node u with two children and its successor y are all distinct. */
    ghost predicate Apart(u: Node, y: Node, x: Node, l: Node, r: Node, p: Node?, q: Node)
      reads u, y, q
    {
      && u.left == l && u.right == r && u.parent == p && y.parent == q && y.right == x
      && y != u && l != u && r != u && l != r && l != y && x != u && x != y && x != l && x != r
      && p != u && p != y && p != x && p != l && p != r && q != y && q != x && q != l && q != p
      && (if y == r then q == u else q != u && q.left == y)
    }

    /** Pointer part of the third branch of ngx_rbtree_delete. */
    method Promote(u: Node, y: Node, ghost x: Node, ghost l: Node, ghost r: Node, ghost p: Node?, ghost q: Node)
      requires Apart(u, y, x, l, r, p, q)
      modifies this`root, Opt(p)`left, Opt(p)`right, q`left, q`right
      modifies y`left, y`right, y`parent, y`red, x`parent, l`parent, r`parent
      ensures root == (if p == null then y else old(root))
      ensures y.parent == p && y.left == l && y.right == (if y == r then x else r)
      ensures x.parent == (if y == r then y else q) && l.parent == y && (y != r ==> r.parent == y)
      ensures u.parent == p && u.left == l && y.red == u.red
      ensures p != null ==>
                && p.left == (if old(p.left) == u then y else old(p.left))
                && p.right == (if old(p.left) != u then y else old(p.right))
      ensures y != r ==> q.left == x && q.right == old(q.right)
    {
      if y == u.right {
        y.right.parent := y;
      } else {
        Transplant(y, y.right);
        y.right := u.right;
        u.right.parent := y;
      }
      Transplant(u, y);
      y.left := u.left;
      u.left.parent := y;
      y.red := u.red;
    }

    /** What Promote does to the four neighbours, seen from every node. */
    twostate lemma PromotedEffect(new u: Node, new y: Node, new x: Node, new l: Node, new r: Node, new p: Node?,
                                  new q: Node)
      requires u in old(Nodes) && y in old(Nodes)
      requires x == old(y.right) && l == old(u.left) && r == old(u.right) && p == old(u.parent) && q == old(y.parent)
      requires old(Links()) && old(Successor(u, y) && Apart(u, y, x, l, r, p, q))
      requires Nodes == old(Nodes) - {u} && Seq == old(Seq[..u.pos]) + old(Seq[u.pos + 1..])
      requires root == (if p == null then y else old(root))
      requires y.parent == p && y.left == l && y.right == (if y == r then x else r)
      requires x.parent == (if y == r then y else q) && l.parent == y && (y != r ==> r.parent == y)
      requires p != null ==>
                && p.left == (if old(p.left) == u then y else old(p.left))
                && p.right == (if old(p.left) != u then y else old(p.right))
      requires y != r ==> q.left == x && q.right == old(q.right)
      requires y.lo == old(u.lo) && y.pos == old(u.pos) && y.hi == old(u.hi) - 1
      requires forall n :: n in Nodes && n != p && n != q && n != y ==> n.left == old(n.left) && n.right == old(n.right)
      requires forall n :: n in Nodes && n != y && n != x && n != l && n != r ==> n.parent == old(n.parent)
      requires forall n :: n in Nodes && n != y ==>
            && n.lo == Down(old(n.lo), old(u.pos) + 1) && n.pos == Down(old(n.pos), old(u.pos) + 1)
            && n.hi == Down(old(n.hi), old(u.pos) + 1)
      ensures Promoted(u, y, x)
    {
      assert old(KidsOk(u)) && old(UpOk(u)) && old(UpOk(y)) && old(KidsOk(y));
      forall n | n in Nodes && n != y
        ensures n.left == (if old(n.left) == u then y else if old(n.left) == y then x else old(n.left))
        ensures n.right == (if old(n.right) == u then y else old(n.right))
        ensures n != x ==> n.parent == (if old(n.parent) == u then y else old(n.parent))
      {
        assert old(KidsOk(n)) && old(UpOk(n));
      }
    }

    lemma SuccessorApart(u: Node, y: Node)
      requires Links() && Successor(u, y) && y.parent != null
      ensures Apart(u, y, y.right, u.left, u.right, u.parent, y.parent)
      ensures y.parent in Nodes && (u.parent != null ==> u.parent in Nodes)
      ensures y.right == sentinel || y.right in Nodes
    {
      assert UpOk(y) && UpOk(u) && KidsOk(u.left) && KidsOk(u.right) && KidsOk(y.parent);
      assert y.right in Nodes ==> KidsOk(y.right);
      assert u.parent != null ==> KidsOk(u.parent);
    }

    method PromoteSuccessor(u: Node, y: Node) returns (x: Node)
      requires Links() && Successor(u, y) && UpOk(y)
      modifies this`root, this`Nodes, this`Seq, sentinel`parent
      modifies Nodes`left, Nodes`right, Nodes`parent, Nodes`lo, Nodes`pos, Nodes`hi, y`red, y`bh
      ensures x == old(y.right) && Promoted(u, y, x) && Links() && y.red == old(u.red) && y.bh == old(u.bh)
    {
      x := y.right;
      ghost var l, r, p, q, k := u.left, u.right, u.parent, y.parent, u.pos;
      SuccessorApart(u, y);
      Promote(u, y, x, l, r, p, q);
      CloseGap(u, y, k);
      PromotedEffect(u, y, x, l, r, p, q);
      PromotedLinks(u, y, x);
    }

    /** The third branch of ngx_rbtree_delete, from the search for the successor to the colour copy. */
    method DetachDouble(u: Node) returns (y: Node, x: Node, wasRed: bool)
      requires Links() && u in Nodes && u.left != sentinel && u.right != sentinel
      modifies this`root, this`Nodes, this`Seq, sentinel`parent
      modifies Nodes`left, Nodes`right, Nodes`parent, Nodes`lo, Nodes`pos, Nodes`hi, Nodes`red, Nodes`bh
      ensures y in old(Nodes) && old(Successor(u, y) && x == y.right && wasRed == y.red && y.parent in Nodes)
      ensures Links() && Promoted(u, y, x)
      ensures forall n :: n in Nodes ==>
                && n.red == (if n == y then old(u.red) else old(n.red))
                && n.bh == (if n == y then old(u.bh) else old(n.bh))
    {
      assert KidsOk(u) && KidsOk(u.right);
      y := Min(u.right);
      assert KidsOk(y) && UpOk(y);
      wasRed := y.red;
      x := PromoteSuccessor(u, y);
    }

    /** Ghost bookkeeping of a deletion in which y takes over u's position k. */
    ghost method CloseGap(u: Node, y: Node, k: int)
      requires u in Nodes && y in Nodes && y != u && 0 <= k < |Seq| && u.hi > 0
      modifies this`Nodes, this`Seq, Nodes`lo, Nodes`pos, Nodes`hi, y`bh
      ensures Nodes == old(Nodes) - {u} && Seq == old(Seq[..k]) + old(Seq[k + 1..])
      ensures y.lo == old(u.lo) && y.pos == k && y.hi == old(u.hi) - 1 && y.bh == old(u.bh)
      ensures forall n :: n in Nodes && n != y ==>
            n.lo == Down(old(n.lo), k + 1) && n.pos == Down(old(n.pos), k + 1) && n.hi == Down(old(n.hi), k + 1)
    {
      Nodes := Nodes - {u};
      Unshift(k + 1);
      y.lo, y.pos, y.hi, y.bh := u.lo, k, u.hi - 1, u.bh;
      Seq := Seq[..k] + Seq[k + 1..];
    }

    // ------------------------------------------------------------------
    // Colours during a deletion
    // ------------------------------------------------------------------

    /** x hangs on the given side of d, or is the root when there is no d. */
    ghost predicate At(x: Node, d: Node?, onLeft: bool)
      reads this`root, this`Nodes, Nodes`left, Nodes`right, x`parent
    {
      && (x == sentinel || x in Nodes)
      && (if d == null then x == root
          else d in Nodes && x != root && x.parent == d && (if onLeft then d.left == x else d.right == x))
    }

    /** No red node has a red parent, except perhaps x or a child of x. */
    ghost predicate RedsAround(x: Node)
      reads this`Nodes, Nodes`parent, Nodes`red
    {
      forall n {:trigger RedOk(n)} :: n in Nodes && n != x && n.parent != x ==> RedOk(n)
    }

    twostate lemma SplicedAt(new u: Node, new v: Node, new d: Node?, new onLeft: bool)
      requires u in old(Nodes)
      requires old(Links()) && Spliced(u, v) && Links()
      requires old((u.left == sentinel && u.right == v) || (u.right == sentinel && u.left == v))
      requires d == old(u.parent) && onLeft == (d in old(Nodes) && old(d.left) == u)
      ensures At(v, d, onLeft)
    {
      assert old(KidsOk(u)) && old(UpOk(u));
      assert d in old(Nodes) ==> old(KidsOk(d)) && KidsOk(d);
      assert v in Nodes ==> UpOk(v);
    }

    twostate lemma SplicedRed(new u: Node, new v: Node, new n: Node)
      requires u in old(Nodes) && n in Nodes && n in old(Nodes)
      requires old(Links() && Reds(null) && Blacks(null, false)) && Spliced(u, v) && Links()
      requires old((u.left == sentinel && u.right == v) || (u.right == sentinel && u.left == v))
      requires sentinel.red == old(sentinel.red) && sentinel.bh == old(sentinel.bh)
      requires forall n :: n in Nodes ==> n.red == old(n.red) && n.bh == old(n.bh)
      ensures n != v || old(u.red) ==> RedOk(n)
    {
      assert old(KidsOk(u)) && old(UpOk(u));
      assert v in old(Nodes) ==> old(RedOk(v));
      assert old(RedOk(n)) && old(UpOk(n));
    }

    twostate lemma SplicedBlack(new u: Node, new v: Node, new n: Node)
      requires u in old(Nodes) && n in Nodes && n in old(Nodes)
      requires old(Links() && Reds(null) && Blacks(null, false)) && Spliced(u, v) && Links()
      requires old((u.left == sentinel && u.right == v) || (u.right == sentinel && u.left == v))
      requires sentinel.red == old(sentinel.red) && sentinel.bh == old(sentinel.bh)
      requires forall n :: n in Nodes ==> n.red == old(n.red) && n.bh == old(n.bh)
      ensures if old(u.red) then BlackOk(n, null, false)
              else BlackOk(n, old(u.parent), old(n.left) == u)
    {
      assert old(KidsOk(u)) && old(UpOk(u)) && old(KidsOk(n));
      assert old(BlackOk(n, null, false)) && old(BlackOk(u, null, false));
      assert v in old(Nodes) ==> old(RedOk(v));
    }

    twostate lemma SplicedColours(new u: Node, new v: Node, new d: Node?, new onLeft: bool)
      requires u in old(Nodes)
      requires old(Links() && Reds(null) && Blacks(null, false)) && Spliced(u, v) && Links()
      requires old((u.left == sentinel && u.right == v) || (u.right == sentinel && u.left == v))
      requires sentinel.red == old(sentinel.red) && sentinel.bh == old(sentinel.bh)
      requires forall n :: n in Nodes ==> n.red == old(n.red) && n.bh == old(n.bh)
      requires d == old(u.parent) && onLeft == (d in old(Nodes) && old(d.left) == u)
      ensures At(v, d, onLeft) && RedsAround(v)
      ensures if old(u.red) then Reds(null) && Blacks(null, false) else Blacks(d, onLeft)
    {
      SplicedAt(u, v, d, onLeft);
      forall n | n in Nodes && (n != v || old(u.red))
        ensures RedOk(n)
      {
        SplicedRed(u, v, n);
      }
      forall n | n in Nodes
        ensures BlackOk(n, if old(u.red) then null else d, if old(u.red) then false else onLeft)
      {
        SplicedBlack(u, v, n);
      }
    }

    twostate lemma PromotedAt(new u: Node, new y: Node, new x: Node, new d: Node, new onLeft: bool)
      requires u in old(Nodes) && y in old(Nodes)
      requires old(Links()) && Promoted(u, y, x) && Links()
      requires old(Successor(u, y) && x == y.right)
      requires onLeft == (old(u.right) != y) && d == (if old(u.right) == y then y else old(y.parent))
      ensures At(x, d, onLeft)
    {
      assert old(UpOk(y)) && old(KidsOk(y.parent));
      assert d in Nodes;
      assert UpOk(d) && KidsOk(d);
      assert x in Nodes ==> UpOk(x);
    }

    twostate lemma PromotedRed(new u: Node, new y: Node, new x: Node, new n: Node)
      requires u in old(Nodes) && y in old(Nodes) && n in Nodes && n in old(Nodes)
      requires old(Links() && Reds(null) && Blacks(null, false)) && Promoted(u, y, x) && Links()
      requires old(Successor(u, y) && x == y.right)
      requires sentinel.red == old(sentinel.red) && sentinel.bh == old(sentinel.bh)
      requires forall n :: n in Nodes ==>
                 && n.red == (if n == y then old(u.red) else old(n.red))
                 && n.bh == (if n == y then old(u.bh) else old(n.bh))
      ensures n != x || old(y.red) ==> RedOk(n)
    {
      assert old(UpOk(u)) && old(UpOk(y)) && old(RedOk(u)) && old(RedOk(u.left)) && old(RedOk(u.right));
      assert x in old(Nodes) ==> old(RedOk(x));
      assert old(RedOk(n)) && old(UpOk(n));
    }

    twostate lemma PromotedBlack(new u: Node, new y: Node, new x: Node, new n: Node)
      requires u in old(Nodes) && y in old(Nodes) && n in Nodes && n in old(Nodes)
      requires old(Links() && Reds(null) && Blacks(null, false)) && Promoted(u, y, x) && Links()
      requires old(Successor(u, y) && x == y.right)
      requires sentinel.red == old(sentinel.red) && sentinel.bh == old(sentinel.bh)
      requires forall n :: n in Nodes ==>
                 && n.red == (if n == y then old(u.red) else old(n.red))
                 && n.bh == (if n == y then old(u.bh) else old(n.bh))
      ensures if old(y.red) then BlackOk(n, null, false)
              else BlackOk(n, if old(u.right) == y then y else old(y.parent), old(u.right) != y)
    {
      assert old(UpOk(u)) && old(UpOk(y)) && old(KidsOk(y.parent)) && old(KidsOk(n));
      assert old(BlackOk(n, null, false)) && old(BlackOk(u, null, false)) && old(BlackOk(y, null, false));
      assert x in old(Nodes) ==> old(RedOk(x));
    }

    twostate lemma PromotedColours(new u: Node, new y: Node, new x: Node, new d: Node, new onLeft: bool)
      requires u in old(Nodes) && y in old(Nodes)
      requires old(Links() && Reds(null) && Blacks(null, false)) && Promoted(u, y, x) && Links()
      requires old(Successor(u, y) && x == y.right)
      requires sentinel.red == old(sentinel.red) && sentinel.bh == old(sentinel.bh)
      requires forall n :: n in Nodes ==>
                 && n.red == (if n == y then old(u.red) else old(n.red))
                 && n.bh == (if n == y then old(u.bh) else old(n.bh))
      requires onLeft == (old(u.right) != y) && d == (if old(u.right) == y then y else old(y.parent))
      ensures At(x, d, onLeft) && RedsAround(x)
      ensures if old(y.red) then Reds(null) && Blacks(null, false) else Blacks(d, onLeft)
    {
      PromotedAt(u, y, x, d, onLeft);
      forall n | n in Nodes && (n != x || old(y.red))
        ensures RedOk(n)
      {
        PromotedRed(u, y, x, n);
      }
      forall n | n in Nodes
        ensures BlackOk(n, if old(y.red) then null else d, if old(y.red) then false else onLeft)
      {
        PromotedBlack(u, y, x, n);
      }
    }

    method PaintFarNephew(d: Node, s: Node, w: Node)
      requires d != s && d != w && s != w
      modifies {d, s, w}`red, {d, s}`bh
      ensures s.red == old(d.red) && !d.red && !w.red && d.bh == old(s.bh) && s.bh == old(d.bh)
    {
      s.red := d.red;
      d.red := false;
      w.red := false;
      d.bh, s.bh := s.bh, d.bh;
    }

    // Deletion, the doubly black node being a left child of d, with sibling s.

    /** Case 1, red sibling: after the rotation d has a black sibling-to-be on the right. */
    twostate lemma RedSiblingLeftColours(new d: Node, new s: Node)
      requires d in old(Nodes) && s in old(Nodes)
      requires old(Links() && Reds(null) && Blacks(d, true) && d.right == s && s.red)
      requires old(d.left in Nodes ==> !d.left.red)
      requires RotatedLeft(d, s) && sentinel.red == old(sentinel.red) && sentinel.bh == old(sentinel.bh)
      requires forall n :: n in Nodes ==> n.bh == old(n.bh)
      requires forall n :: n in Nodes ==> n.red == (if n == s then false else if n == d then true else old(n.red))
      ensures Reds(null) && Blacks(d, true)
    {
      assert old(RedOk(s)) && old(KidsOk(d)) && old(KidsOk(s)) && old(UpOk(d)) && old(UpOk(s));
      assert old(BlackOk(d, d, true)) && old(BlackOk(s, d, true));
      assert old(s.left) in Nodes ==> old(RedOk(s.left));
      forall n | n in Nodes
        ensures RedOk(n)
      {
        assert old(RedOk(n)) && old(UpOk(n));
      }
      forall n | n in Nodes
        ensures BlackOk(n, d, true)
      {
        assert old(BlackOk(n, d, true)) && old(KidsOk(n));
      }
    }

    method RedSiblingLeft(d: Node)
      requires Links() && Reds(null) && Blacks(d, true) && d in Nodes && d.right in Nodes && d.right.red
      requires d.left in Nodes ==> !d.left.red
      modifies this`root, Nodes`left, Nodes`right, Nodes`parent, Nodes`lo, Nodes`hi, Nodes`red
      ensures Links() && Reds(null) && Blacks(d, true)
      ensures d.left == old(d.left) && d.red && d.parent in Nodes && !d.parent.red
      ensures root == (if old(root) == d then d.parent else old(root))
      ensures forall n :: n in Nodes && n.red ==> old(n.red) || n == d
      ensures d.right in Nodes ==> !d.right.red
    {
      assert KidsOk(d) && UpOk(d);
      ghost var s := d.right;
      assert KidsOk(s) && BlackOk(s, d, true);
      assert s.left in Nodes ==> RedOk(s.left);
      d.right.red := false;
      d.red := true;
      LeftRotate(d);
      assert old(KidsOk(s));
      RedSiblingLeftColours(d, s);
    }

    /** Case 3, the near nephew w is red and the far one black: rotate them into place. */
    twostate lemma NearNephewLeftColours(new d: Node, new s: Node, new w: Node)
      requires d in old(Nodes) && s in old(Nodes) && w in old(Nodes)
      requires old(Links() && Reds(null) && Blacks(d, true) && d.right == s && !s.red && s.left == w && w.red)
      requires old(s.right == sentinel || (s.right in Nodes && !s.right.red))
      requires RotatedRight(s, w) && sentinel.red == old(sentinel.red) && sentinel.bh == old(sentinel.bh)
      requires forall n :: n in Nodes ==> n.bh == old(n.bh)
      requires forall n :: n in Nodes ==> n.red == (if n == w then false else if n == s then true else old(n.red))
      ensures Reds(null) && Blacks(d, true)
    {
      assert old(RedOk(w)) && old(KidsOk(s)) && old(KidsOk(w)) && old(UpOk(s)) && old(UpOk(w)) && old(KidsOk(d));
      assert old(BlackOk(s, d, true)) && old(BlackOk(w, d, true));
      assert old(w.right) in Nodes ==> old(RedOk(w.right));
      forall n | n in Nodes
        ensures RedOk(n)
      {
        assert old(RedOk(n)) && old(UpOk(n));
      }
      forall n | n in Nodes
        ensures BlackOk(n, d, true)
      {
        assert old(BlackOk(n, d, true)) && old(KidsOk(n));
      }
    }

    method NearNephewLeft(d: Node)
      requires Links() && Reds(null) && Blacks(d, true) && d in Nodes && d.right in Nodes && !d.right.red
      requires d.right.left in Nodes && d.right.left.red
      requires d.right.right == sentinel || (d.right.right in Nodes && !d.right.right.red)
      modifies this`root, Nodes`left, Nodes`right, Nodes`parent, Nodes`lo, Nodes`hi, Nodes`red
      ensures Links() && Reds(null) && Blacks(d, true)
      ensures d.right in Nodes && !d.right.red && d.right.right in Nodes && d.right.right.red && d.left == old(d.left)
    {
      ghost var s, w := d.right, d.right.left;
      assert KidsOk(d) && KidsOk(s);
      d.right.left.red := false;
      d.right.red := true;
      RightRotate(d.right);
      assert old(KidsOk(w));
      NearNephewLeftColours(d, s, w);
    }

    /** Case 4, the far nephew w is red: one rotation pays the missing black. */
    twostate lemma FarNephewLeftColours(new d: Node, new s: Node, new w: Node)
      requires d in old(Nodes) && s in old(Nodes) && w in old(Nodes)
      requires old(Links() && Reds(null) && Blacks(d, true) && d.right == s && !s.red && s.right == w && w.red)
      requires RotatedLeft(d, s) && sentinel.red == old(sentinel.red) && sentinel.bh == old(sentinel.bh)
      requires forall n :: n in Nodes ==>
                 && n.bh == (if n == d then old(s.bh) else if n == s then old(d.bh) else old(n.bh))
                 && n.red == (if n == w || n == d then false else if n == s then old(d.red) else old(n.red))
      ensures Reds(null) && Blacks(null, false)
    {
      assert old(RedOk(w)) && old(KidsOk(s)) && old(KidsOk(d)) && old(UpOk(s)) && old(UpOk(d)) && old(KidsOk(w));
      assert old(BlackOk(s, d, true)) && old(BlackOk(d, d, true)) && old(BlackOk(w, d, true)) && old(RedOk(d));
      forall n | n in Nodes
        ensures RedOk(n)
      {
        assert old(RedOk(n)) && old(UpOk(n));
      }
      forall n | n in Nodes
        ensures BlackOk(n, null, false)
      {
        assert old(BlackOk(n, d, true)) && old(KidsOk(n));
      }
    }

    method FarNephewLeft(d: Node)
      requires Links() && Reds(null) && Blacks(d, true) && d in Nodes && d.right in Nodes && !d.right.red
      requires d.right.right in Nodes && d.right.right.red
      modifies this`root, Nodes`left, Nodes`right, Nodes`parent, Nodes`lo, Nodes`hi, Nodes`red, Nodes`bh
      ensures Links() && Reds(null) && Blacks(null, false)
    {
      ghost var s, w := d.right, d.right.right;
      assert KidsOk(d) && KidsOk(s);
      PaintFarNephew(d, d.right, d.right.right);
      LeftRotate(d);
      FarNephewLeftColours(d, s, w);
    }

    // Deletion, the doubly black node being a right child of d, with sibling s.

    /** Case 1, red sibling: after the rotation d has a black sibling-to-be on the left. */
    twostate lemma RedSiblingRightColours(new d: Node, new s: Node)
      requires d in old(Nodes) && s in old(Nodes)
      requires old(Links() && Reds(null) && Blacks(d, false) && d.left == s && s.red)
      requires old(d.right in Nodes ==> !d.right.red)
      requires RotatedRight(d, s) && sentinel.red == old(sentinel.red) && sentinel.bh == old(sentinel.bh)
      requires forall n :: n in Nodes ==> n.bh == old(n.bh)
      requires forall n :: n in Nodes ==> n.red == (if n == s then false else if n == d then true else old(n.red))
      ensures Reds(null) && Blacks(d, false)
    {
      assert old(RedOk(s)) && old(KidsOk(d)) && old(KidsOk(s)) && old(UpOk(d)) && old(UpOk(s));
      assert old(BlackOk(d, d, false)) && old(BlackOk(s, d, false));
      assert old(s.right) in Nodes ==> old(RedOk(s.right));
      forall n | n in Nodes
        ensures RedOk(n)
      {
        assert old(RedOk(n)) && old(UpOk(n));
      }
      forall n | n in Nodes
        ensures BlackOk(n, d, false)
      {
        assert old(BlackOk(n, d, false)) && old(KidsOk(n));
      }
    }

    method RedSiblingRight(d: Node)
      requires Links() && Reds(null) && Blacks(d, false) && d in Nodes && d.left in Nodes && d.left.red
      requires d.right in Nodes ==> !d.right.red
      modifies this`root, Nodes`left, Nodes`right, Nodes`parent, Nodes`lo, Nodes`hi, Nodes`red
      ensures Links() && Reds(null) && Blacks(d, false)
      ensures d.right == old(d.right) && d.red && d.parent in Nodes && !d.parent.red
      ensures root == (if old(root) == d then d.parent else old(root))
      ensures forall n :: n in Nodes && n.red ==> old(n.red) || n == d
      ensures d.left in Nodes ==> !d.left.red
    {
      assert KidsOk(d) && UpOk(d);
      ghost var s := d.left;
      assert KidsOk(s) && BlackOk(s, d, false);
      assert s.right in Nodes ==> RedOk(s.right);
      d.left.red := false;
      d.red := true;
      RightRotate(d);
      assert old(KidsOk(s));
      RedSiblingRightColours(d, s);
    }

    /** Case 3, the near nephew w is red and the far one black: rotate them into place. */
    twostate lemma NearNephewRightColours(new d: Node, new s: Node, new w: Node)
      requires d in old(Nodes) && s in old(Nodes) && w in old(Nodes)
      requires old(Links() && Reds(null) && Blacks(d, false) && d.left == s && !s.red && s.right == w && w.red)
      requires old(s.left == sentinel || (s.left in Nodes && !s.left.red))
      requires RotatedLeft(s, w) && sentinel.red == old(sentinel.red) && sentinel.bh == old(sentinel.bh)
      requires forall n :: n in Nodes ==> n.bh == old(n.bh)
      requires forall n :: n in Nodes ==> n.red == (if n == w then false else if n == s then true else old(n.red))
      ensures Reds(null) && Blacks(d, false)
    {
      assert old(RedOk(w)) && old(KidsOk(s)) && old(KidsOk(w)) && old(UpOk(s)) && old(UpOk(w)) && old(KidsOk(d));
      assert old(BlackOk(s, d, false)) && old(BlackOk(w, d, false));
      assert old(w.left) in Nodes ==> old(RedOk(w.left));
      forall n | n in Nodes
        ensures RedOk(n)
      {
        assert old(RedOk(n)) && old(UpOk(n));
      }
      forall n | n in Nodes
        ensures BlackOk(n, d, false)
      {
        assert old(BlackOk(n, d, false)) && old(KidsOk(n));
      }
    }

    method NearNephewRight(d: Node)
      requires Links() && Reds(null) && Blacks(d, false) && d in Nodes && d.left in Nodes && !d.left.red
      requires d.left.right in Nodes && d.left.right.red
      requires d.left.left == sentinel || (d.left.left in Nodes && !d.left.left.red)
      modifies this`root, Nodes`left, Nodes`right, Nodes`parent, Nodes`lo, Nodes`hi, Nodes`red
      ensures Links() && Reds(null) && Blacks(d, false)
      ensures d.left in Nodes && !d.left.red && d.left.left in Nodes && d.left.left.red && d.right == old(d.right)
    {
      ghost var s, w := d.left, d.left.right;
      assert KidsOk(d) && KidsOk(s);
      d.left.right.red := false;
      d.left.red := true;
      LeftRotate(d.left);
      assert old(KidsOk(w));
      NearNephewRightColours(d, s, w);
    }

    /** Case 4, the far nephew w is red: one rotation pays the missing black. */
    twostate lemma FarNephewRightColours(new d: Node, new s: Node, new w: Node)
      requires d in old(Nodes) && s in old(Nodes) && w in old(Nodes)
      requires old(Links() && Reds(null) && Blacks(d, false) && d.left == s && !s.red && s.left == w && w.red)
      requires RotatedRight(d, s) && sentinel.red == old(sentinel.red) && sentinel.bh == old(sentinel.bh)
      requires forall n :: n in Nodes ==>
                 && n.bh == (if n == d then old(s.bh) else if n == s then old(d.bh) else old(n.bh))
                 && n.red == (if n == w || n == d then false else if n == s then old(d.red) else old(n.red))
      ensures Reds(null) && Blacks(null, false)
    {
      assert old(RedOk(w)) && old(KidsOk(s)) && old(KidsOk(d)) && old(UpOk(s)) && old(UpOk(d)) && old(KidsOk(w));
      assert old(BlackOk(s, d, false)) && old(BlackOk(d, d, false)) && old(BlackOk(w, d, false)) && old(RedOk(d));
      forall n | n in Nodes
        ensures RedOk(n)
      {
        assert old(RedOk(n)) && old(UpOk(n));
      }
      forall n | n in Nodes
        ensures BlackOk(n, null, false)
      {
        assert old(BlackOk(n, d, false)) && old(KidsOk(n));
      }
    }

    method FarNephewRight(d: Node)
      requires Links() && Reds(null) && Blacks(d, false) && d in Nodes && d.left in Nodes && !d.left.red
      requires d.left.left in Nodes && d.left.left.red
      modifies this`root, Nodes`left, Nodes`right, Nodes`parent, Nodes`lo, Nodes`hi, Nodes`red, Nodes`bh
      ensures Links() && Reds(null) && Blacks(null, false)
    {
      ghost var s, w := d.left, d.left.left;
      assert KidsOk(d) && KidsOk(s);
      PaintFarNephew(d, d.left, d.left.left);
      RightRotate(d);
      FarNephewRightColours(d, s, w);
    }

    /** Case 2, both nephews black: the sibling turns red and the missing black moves up to d. */
    twostate lemma BlackSiblingColours(new d: Node, new s: Node, new onLeft: bool)
      requires d in old(Nodes) && s in old(Nodes)
      requires old(Links() && Reds(null) && Blacks(d, onLeft) && !s.red
                   && (if onLeft then d.right == s else d.left == s))
      requires old(s.left in Nodes ==> !s.left.red) && old(s.right in Nodes ==> !s.right.red)
      requires Links() && Nodes == old(Nodes) && sentinel.red == old(sentinel.red) && sentinel.bh == old(sentinel.bh)
      requires forall n :: n in Nodes ==>
                 && n.left == old(n.left) && n.right == old(n.right) && n.parent == old(n.parent)
                 && n.red == (if n == s then true else old(n.red))
                 && (n != d ==> n.bh == old(n.bh))
      requires d.bh + 1 == old(d.bh)
      ensures RedsAround(d) && Blacks(d.parent, d.parent in Nodes && d.parent.left == d)
    {
      assert old(KidsOk(d)) && old(KidsOk(s)) && old(UpOk(d)) && old(UpOk(s));
      assert old(BlackOk(d, d, onLeft)) && old(BlackOk(s, d, onLeft));
      forall n | n in Nodes && n != d && n.parent != d
        ensures RedOk(n)
      {
        assert old(RedOk(n)) && old(UpOk(n));
      }
      forall n | n in Nodes
        ensures BlackOk(n, d.parent, d.parent in Nodes && d.parent.left == d)
      {
        assert old(BlackOk(n, d, onLeft)) && old(KidsOk(n));
      }
    }

    method BlackSibling(x: Node, s: Node, ghost onLeft: bool) returns (d: Node)
      requires Links() && Reds(null) && x.parent in Nodes && Blacks(x.parent, onLeft) && At(x, x.parent, onLeft)
      requires s in Nodes && !s.red && (if onLeft then x.parent.right == s else x.parent.left == s)
      requires (s.left in Nodes ==> !s.left.red) && (s.right in Nodes ==> !s.right.red)
      modifies Nodes`red, Nodes`bh
      ensures d == x.parent && RedsAround(d)
      ensures Blacks(d.parent, d.parent in Nodes && d.parent.left == d)
              && At(d, d.parent, d.parent in Nodes && d.parent.left == d)
      ensures forall n :: n in Nodes && n.red ==> old(n.red) || n == s
      ensures d.red == old(d.red)
    {
      d := x.parent;
      assert KidsOk(d) && KidsOk(s) && UpOk(d) && BlackOk(d, d, onLeft);
      s.red := true;
      d.bh := d.bh - 1;
      BlackSiblingColours(d, s, onLeft);
    }

    lemma NoRedsAroundBlack(x: Node)
      requires Links() && RedsAround(x) && !x.red && (x in Nodes || x == sentinel)
      ensures Reds(null)
    {
      forall n | n in Nodes
        ensures RedOk(n)
      {
        assert UpOk(n);
        if n == x || n.parent == x {
        } else {
          assert RedOk(n);
        }
      }
    }

    ghost function Size(x: Node): int
      reads x`lo, x`hi
    {
      if x == sentinel then 0 else x.hi - x.lo
    }

    /** Cases 2 to 4: x is a left child of d and its sibling is black. */
    method RepairBlackSiblingLeft(x: Node, ghost d: Node) returns (y: Node, ghost e: Node?, ghost onLeft: bool)
      requires Links() && Reds(null) && Blacks(d, true) && At(x, d, true) && !x.red
      requires root in Nodes && !root.red && d.right in Nodes && !d.right.red
      modifies this`root, Nodes`left, Nodes`right, Nodes`parent, Nodes`lo, Nodes`hi, Nodes`red, Nodes`bh
      ensures Links() && RedsAround(y) && Blacks(e, onLeft) && At(y, e, onLeft)
      ensures root in Nodes && (root.red ==> root == y)
      ensures y == root || (y == d && y.red == old(d.red) && y.lo == old(y.lo) && y.hi == old(y.hi))
    {
      assert KidsOk(d);
      var sibling := x.parent.right;
      assert KidsOk(sibling) && BlackOk(sibling, d, true) && UpOk(sibling);
      if !sibling.left.red && !sibling.right.red {
        y := BlackSibling(x, sibling, true);
        e, onLeft := d.parent, d.parent in Nodes && d.parent.left == d;
      } else {
        if !sibling.right.red {
          NearNephewLeft(x.parent);
          assert KidsOk(d);
        }
        FarNephewLeft(x.parent);
        assert KidsOk(d);
        y, e, onLeft := root, null, false;
      }
    }

    /** One round of the deletion loop for x a left child. */
    method DeleteRoundLeft(x: Node, ghost d: Node) returns (y: Node, ghost e: Node?, ghost onLeft: bool)
      requires Links() && RedsAround(x) && Blacks(d, true) && At(x, d, true) && !x.red
      requires root in Nodes && !root.red
      modifies this`root, Nodes`left, Nodes`right, Nodes`parent, Nodes`lo, Nodes`hi, Nodes`red, Nodes`bh
      ensures Links() && RedsAround(y) && Blacks(e, onLeft) && At(y, e, onLeft)
      ensures root in Nodes && (root.red ==> root == y)
      ensures y != root && !y.red ==> Size(y) > old(Size(x))
    {
      NoRedsAroundBlack(x);
      assert KidsOk(d) && BlackOk(d, d, true);
      if x.parent.right.red {
        RedSiblingLeft(x.parent);
        assert KidsOk(d) && BlackOk(d, d, true) && UpOk(root) && UpOk(d);
      }
      y, e, onLeft := RepairBlackSiblingLeft(x, d);
    }

    /** Cases 2 to 4: x is a right child of d and its sibling is black. */
    method RepairBlackSiblingRight(x: Node, ghost d: Node) returns (y: Node, ghost e: Node?, ghost onLeft: bool)
      requires Links() && Reds(null) && Blacks(d, false) && At(x, d, false) && !x.red
      requires root in Nodes && !root.red && d.left in Nodes && !d.left.red
      modifies this`root, Nodes`left, Nodes`right, Nodes`parent, Nodes`lo, Nodes`hi, Nodes`red, Nodes`bh
      ensures Links() && RedsAround(y) && Blacks(e, onLeft) && At(y, e, onLeft)
      ensures root in Nodes && (root.red ==> root == y)
      ensures y == root || (y == d && y.red == old(d.red) && y.lo == old(y.lo) && y.hi == old(y.hi))
    {
      assert KidsOk(d);
      var sibling := x.parent.left;
      assert KidsOk(sibling) && BlackOk(sibling, d, false) && UpOk(sibling);
      if !sibling.left.red && !sibling.right.red {
        y := BlackSibling(x, sibling, false);
        e, onLeft := d.parent, d.parent in Nodes && d.parent.left == d;
      } else {
        if !sibling.left.red {
          NearNephewRight(x.parent);
          assert KidsOk(d);
        }
        FarNephewRight(x.parent);
        assert KidsOk(d);
        y, e, onLeft := root, null, false;
      }
    }

    /** One round of the deletion loop for x a right child. */
    method DeleteRoundRight(x: Node, ghost d: Node) returns (y: Node, ghost e: Node?, ghost onLeft: bool)
      requires Links() && RedsAround(x) && Blacks(d, false) && At(x, d, false) && !x.red
      requires root in Nodes && !root.red
      modifies this`root, Nodes`left, Nodes`right, Nodes`parent, Nodes`lo, Nodes`hi, Nodes`red, Nodes`bh
      ensures Links() && RedsAround(y) && Blacks(e, onLeft) && At(y, e, onLeft)
      ensures root in Nodes && (root.red ==> root == y)
      ensures y != root && !y.red ==> Size(y) > old(Size(x))
    {
      NoRedsAroundBlack(x);
      assert KidsOk(d) && BlackOk(d, d, false);
      if x.parent.left.red {
        RedSiblingRight(x.parent);
        assert KidsOk(d) && BlackOk(d, d, false) && UpOk(root) && UpOk(d);
      }
      y, e, onLeft := RepairBlackSiblingRight(x, d);
    }

    twostate lemma BlackenedNode(new x: Node, new d: Node?, new onLeft: bool)
      requires (x == sentinel || x in old(Nodes)) && (d == null || d in old(Nodes))
      requires old(Links() && RedsAround(x) && Blacks(d, onLeft) && At(x, d, onLeft) && (x == root || x.red))
      requires Links() && Nodes == old(Nodes) && root == old(root) && !sentinel.red && sentinel.bh == old(sentinel.bh)
      requires forall n :: n in Nodes ==>
                 && n.left == old(n.left) && n.right == old(n.right) && n.parent == old(n.parent)
                 && n.red == (if n == x then false else old(n.red)) && n.bh == old(n.bh)
      requires root in Nodes && old(root.red) ==> root == x
      ensures Balanced()
    {
      forall n | n in Nodes
        ensures RedOk(n)
      {
        assert old(UpOk(n));
        if n != x && n.parent != x {
          assert old(RedOk(n));
        }
      }
      assert x in Nodes ==> old(UpOk(x));
      assert d in Nodes ==> old(KidsOk(d));
      forall n | n in Nodes
        ensures BlackOk(n, null, false)
      {
        assert old(BlackOk(n, d, onLeft)) && old(KidsOk(n));
      }
    }

    /** The re-balancing loop of ngx_rbtree_delete. */
    method DeleteFixup(from: Node, ghost d0: Node?, ghost side0: bool)
      requires Links() && RedsAround(from) && Blacks(d0, side0) && At(from, d0, side0)
      requires root in Nodes && root.red ==> root == from
      modifies this`root, Nodes`left, Nodes`right, Nodes`parent, Nodes`lo, Nodes`hi, Nodes`red, Nodes`bh, sentinel`red
      ensures Balanced()
    {
      var x := from;
      ghost var d, onLeft := d0, side0;
      while x != root && !x.red
        invariant Links() && RedsAround(x) && Blacks(d, onLeft) && At(x, d, onLeft)
        invariant root in Nodes && root.red ==> root == x
        invariant unchanged(sentinel)
        decreases if x != root && !x.red then |Seq| + 1 - Size(x) else 0
      {
        assert KidsOk(d) && BlackOk(d, d, onLeft);
        assert x in Nodes ==> KidsOk(x);
        if x == x.parent.left {
          x, d, onLeft := DeleteRoundLeft(x, d);
        } else {
          x, d, onLeft := DeleteRoundRight(x, d);
        }
      }
      label Last:
      x.red := false;
      BlackenedNode@Last(x, d, onLeft);
    }

    /** All of ngx_rbtree_delete up to the re-balancing. */
    method Detach(node: Node) returns (x: Node, wasRed: bool, ghost d: Node?, ghost onLeft: bool)
      requires Balanced() && node in Nodes
      modifies this`root, this`Nodes, this`Seq, sentinel`parent
      modifies Nodes`left, Nodes`right, Nodes`parent, Nodes`red, Nodes`lo, Nodes`pos, Nodes`hi, Nodes`bh
      ensures Links() && Nodes == old(Nodes) - {node}
      ensures 0 <= old(node.pos) < |old(Seq)| && Seq == old(Seq)[..old(node.pos)] + old(Seq)[old(node.pos) + 1..]
      ensures RedsAround(x) && At(x, d, onLeft) && (root in Nodes && root.red ==> root == x)
      ensures if wasRed then Balanced() else Blacks(d, onLeft)
    {
      assert KidsOk(node);
      if node.left == sentinel {
        wasRed, d, onLeft := node.red, node.parent, node.parent in Nodes && node.parent.left == node;
        x := node.right;
        DetachSingle(node, x);
        SplicedColours(node, x, d, onLeft);
      } else if node.right == sentinel {
        wasRed, d, onLeft := node.red, node.parent, node.parent in Nodes && node.parent.left == node;
        x := node.left;
        DetachSingle(node, x);
        SplicedColours(node, x, d, onLeft);
      } else {
        var y;
        y, x, wasRed := DetachDouble(node);
        assert old(UpOk(y));
        onLeft := old(node.right) != y;
        d := if onLeft then old(y.parent) else y;
        PromotedColours(node, y, x, d, onLeft);
      }
    }

    /** ngx_rbtree_delete */
    method Delete(node: Node)
      requires Balanced() && node in Nodes
      modifies this`root, this`Nodes, this`Seq, sentinel`parent, sentinel`red, node`key
      modifies Nodes`left, Nodes`right, Nodes`parent, Nodes`red, Nodes`lo, Nodes`pos, Nodes`hi, Nodes`bh
      ensures Balanced() && Nodes == old(Nodes) - {node}
      ensures 0 <= old(node.pos) < |old(Seq)| && old(Seq)[old(node.pos)] == node
      ensures Seq == old(Seq)[..old(node.pos)] + old(Seq)[old(node.pos) + 1..]
      ensures node.left == null && node.right == null && node.parent == null && node.key == 0
    {
      assert KidsOk(node);
      var x, wasRed;
      ghost var d, onLeft;
      x, wasRed, d, onLeft := Detach(node);
      ClearAndFix(node, x, wasRed, d, onLeft);
    }

    /** What follows once the node is out: its fields are cleared, and the colours are repaired if a black one went. */
    method ClearAndFix(node: Node, x: Node, wasRed: bool, ghost d: Node?, ghost onLeft: bool)
      requires Links() && RedsAround(x) && At(x, d, onLeft) && (root in Nodes && root.red ==> root == x)
      requires node !in Nodes && node != sentinel && if wasRed then Balanced() else Blacks(d, onLeft)
      modifies this`root, node`left, node`right, node`parent, node`key, sentinel`red
      modifies Nodes`left, Nodes`right, Nodes`parent, Nodes`lo, Nodes`hi, Nodes`red, Nodes`bh
      ensures Balanced() && node.left == null && node.right == null && node.parent == null && node.key == 0
    {
      node.left := null;
      node.right := null;
      node.parent := null;
      node.key := 0;
      if wasRed {
        return;
      }
      DeleteFixup(x, d, onLeft);
    }

    // ------------------------------------------------------------------
    // Traversal, and the tree as a value
    // ------------------------------------------------------------------

    /** ngx_rbtree_next */
    method Next(node: Node) returns (next: Node?)
      requires Links() && node in Nodes
      ensures 0 <= node.pos < |Seq| && Seq[node.pos] == node
      ensures next == (if node.pos + 1 < |Seq| then Seq[node.pos + 1] else null)
    {
      assert KidsOk(node) && UpOk(node);
      if node.right != sentinel {
        next := Min(node.right);
        return;
      }
      var n := node;
      next := n.parent;
      while next != null && n != next.left
        invariant n in Nodes && n.hi == node.pos + 1 && next == n.parent && UpOk(n) && KidsOk(n)
        invariant next != null ==> next in Nodes
        decreases |Seq| - (n.hi - n.lo)
      {
        assert KidsOk(next) && UpOk(next);
        n := next;
        next := n.parent;
      }
      if next != null {
        assert KidsOk(next);
      }
    }

    ghost function ShapeAt(c: Node): RbShape.Shape<Node>
      requires Links() && (c == sentinel || c in Nodes)
      reads this`root, this`Nodes, this`Seq, sentinel`lo, sentinel`hi
      reads Nodes`left, Nodes`right, Nodes`parent, Nodes`lo, Nodes`pos, Nodes`hi, Nodes`red
      decreases Size(c)
    {
      if c == sentinel then RbShape.Leaf
      else
        assert KidsOk(c);
        RbShape.Branch(ShapeAt(c.left), c, c.red, ShapeAt(c.right))
    }

    lemma {:induction false} ShapeInOrder(c: Node)
      requires Links() && c in Nodes
      ensures 0 <= c.lo <= c.hi <= |Seq| && RbShape.InOrder(ShapeAt(c)) == Seq[c.lo..c.hi]
      decreases c.hi - c.lo
    {
      assert KidsOk(c);
      if c.left != sentinel {
        ShapeInOrder(c.left);
      }
      if c.right != sentinel {
        ShapeInOrder(c.right);
      }
      RbShape.SplitAt(Seq, c.lo, c.pos, c.hi);
    }

    lemma {:induction false} ShapeColours(c: Node)
      requires Balanced() && (c == sentinel || c in Nodes)
      ensures Bh(c) >= 1 && RbShape.NoRedRed(ShapeAt(c)) && RbShape.BlackHeight(ShapeAt(c), Bh(c) - 1)
      ensures RbShape.IsRed(ShapeAt(c)) == c.red
      decreases Size(c)
    {
      if c == sentinel {
      } else {
        assert KidsOk(c) && BlackOk(c, null, false);
        assert c.left != sentinel ==> RedOk(c.left);
        assert c.right != sentinel ==> RedOk(c.right);
        ShapeColours(c.left);
        ShapeColours(c.right);
      }
    }

    /**
     * A balanced linked tree is a red-black tree: walked from the root it lists Seq,
     * every way down meets equally many black nodes, and its height is logarithmic.
     */
    lemma TreeIsRedBlack()
      requires Balanced()
      ensures root == sentinel || root in Nodes
      ensures var t := ShapeAt(root);
              && RbShape.RedBlack(t) && RbShape.InOrder(t) == Seq
              && Basics.Pow2(RbShape.Height(t)) <= (|Seq| + 1) * (|Seq| + 1)
    {
      if root in Nodes {
        assert UpOk(root);
        ShapeInOrder(root);
        assert Seq[0..|Seq|] == Seq;
      }
      ShapeColours(root);
      RbShape.HeightBound(ShapeAt(root));
    }

    /** Nothing but the listed nodes is in the tree, and each is listed once. */
    lemma SeqListsNodes()
      requires Links()
      ensures forall n :: n in Nodes <==> n in Seq
      ensures forall i, j :: 0 <= i < j < |Seq| ==> Seq[i] != Seq[j]
    {
      forall n | n in Nodes
        ensures n in Seq
      {
        assert KidsOk(n);
      }
    }

    /**
     * ngx_rbtree_right_rotate exactly as it is written in the repository, without the
     * assignment of the lifted node's parent: on every tree it leaves that node and the
     * old one pointing at each other as parents, so the links are never well formed.
     */
    method RightRotateAsWritten(node: Node)
      requires Links() && node in Nodes && node.left != sentinel
      modifies this`root, Nodes`left, Nodes`right, Nodes`parent
      ensures old(node.left) in Nodes && node.parent == old(node.left) && old(node.left).parent == node
      ensures !Links()
    {
      assert KidsOk(node) && UpOk(node);
      ghost var p := node.parent;
      var x := node.left;
      assert KidsOk(x) && UpOk(x);
      assert p != null ==> KidsOk(p);
      node.left := x.right;
      if x.right != sentinel {
        x.right.parent := node;
      }
      if node == root {
        root := x;
      } else if node == node.parent.left {
        node.parent.left := x;
      } else {
        node.parent.right := x;
      }
      x.right := node;
      node.parent := x;
      assert !UpOk(x);
    }

    // ------------------------------------------------------------------
    // Order, for trees keyed by value
    // ------------------------------------------------------------------

    ghost predicate SortedByKey(s: seq<Node>)
      reads s
    {
      forall i, j :: 0 <= i < j < |s| ==> s[i].key <= s[j].key
    }

    /** Insert's gap is the stable one: behind every key that is not greater. */
    lemma StableInsertion(s: seq<Node>, k: int, node: Node)
      requires inserter.ByValue? && SortedByKey(s) && Gap(s, k, node.key)
      ensures forall i :: 0 <= i < |s| ==> (i < k <==> s[i].key <= node.key)
      ensures SortedByKey(s[..k] + [node] + s[k..])
    {
      forall i | 0 <= i < |s|
        ensures i < k <==> s[i].key <= node.key
      {
        assert k > 0 && i < k ==> s[i].key <= s[k - 1].key;
        assert k < |s| && i >= k ==> s[k].key <= s[i].key;
      }
    }
  }
}
