/** A pool: its chain of blocks, the large allocations beside them, and their release (ngx_palloc.c). */
module Palloc {
  import opened Basics
  import opened PoolMemory

  /** ngx_pool_large_t, which itself lies in the pool at address; size is that of the allocation. */
  class Large {
    const address: nat
    var next: Large?
    var alloc: Option<nat>
    ghost var size: nat

    constructor (address: nat, alloc: nat, ghost size: nat, next: Large?)
      ensures this.address == address && this.alloc == Some(alloc) && this.size == size && this.next == next
    {
      this.address, this.alloc, this.size, this.next := address, Some(alloc), size, next;
    }

    function Entry(): Region {
      Region(address, LARGE_SIZE)
    }

    ghost predicate Owns(r: Region)
      reads this
    {
      alloc == Some(r.lo) && r.size == size
    }
  }

  datatype Source = OldBlock(k: nat) | AnotherBlock | NoBlock

  class Pool {
    const heap: Heap
    const first: Block
    const max: nat
    ghost const size: nat
    var current: Block
    var large: Large?
    /** The chain of blocks, the position of current in it, and the list of large allocations. */
    ghost var blocks: seq<Block>
    ghost var cur: nat
    ghost var larges: seq<Large>

    ghost predicate NextOk(i: nat)
      requires i < |blocks|
      reads this, blocks[i]
    {
      blocks[i].next == if i + 1 < |blocks| then blocks[i + 1] else null
    }

    ghost predicate Chained()
      reads this, blocks
    {
      && blocks != [] && first == blocks[0]
      && forall i: nat {:trigger NextOk(i)} :: i < |blocks| ==> NextOk(i)
    }

    /** A block is live memory of the pool's size, and no other block is in the same place. */
    ghost predicate BlockOk(i: nat)
      requires i < |blocks|
      reads this, heap`live, blocks, blocks[i]
    {
      && blocks[i].Valid() && blocks[i].end == blocks[i].base + size
      && blocks[i].Span() in heap.live
      && forall j :: 0 <= j < i ==> blocks[j].base != blocks[i].base
    }

    ghost predicate BlocksOk()
      reads this, heap`live, blocks
    {
      && size % ALIGNMENT == 0 && LARGE_SIZE <= max && max + POOL_HEADER <= size
      && forall i: nat {:trigger BlockOk(i)} :: i < |blocks| ==> BlockOk(i)
    }

    /**
     * The blocks before current have failed six times, the others not yet, and no more often than
     * those before them.
     */
    ghost predicate FailOk(i: nat)
      requires i < |blocks|
      reads this, blocks
    {
      if i < cur then blocks[i].failed >= 6
      else blocks[i].failed <= 5 && forall j :: cur <= j < i ==> blocks[j].failed >= blocks[i].failed
    }

    ghost predicate FailuresOk()
      reads this, blocks
    {
      && cur < |blocks| && current == blocks[cur]
      && forall i: nat {:trigger FailOk(i)} :: i < |blocks| ==> FailOk(i)
    }

    /** A large allocation is live memory that nothing else of the pool lies in. */
    ghost predicate LargeOk(i: nat)
      requires i < |larges|
      reads this, heap`live, larges
    {
      var a := larges[i].alloc;
      && larges[i].next == (if i + 1 < |larges| then larges[i + 1] else null)
      && (forall j :: 0 <= j < i ==> larges[j] != larges[i])
      && (a.Some? ==>
        && larges[i].size > 0 && Region(a.value, larges[i].size) in heap.live
        && (forall j :: 0 <= j < |blocks| ==> blocks[j].base != a.value)
        && (forall j :: 0 <= j < |larges| && j != i ==> larges[j].alloc != a))
    }

    ghost predicate LargesOk()
      reads this, heap`live, larges
    {
      && large == (if larges == [] then null else larges[0])
      && (forall i: nat {:trigger LargeOk(i)} :: i < |larges| ==> LargeOk(i))
    }

    /** The first block's part behind ngx_pool_data_t holds the rest of the pool's own fields. */
    ghost predicate HeaderOk()
      reads first
    {
      && first.base + POOL_HEADER <= first.last
      && forall r :: r in first.used ==> first.base + POOL_HEADER <= r.lo
    }

    /** The region was handed out from a block. */
    ghost predicate Small(r: Region)
      reads this, blocks
    {
      exists i :: 0 <= i < |blocks| && r in blocks[i].used
    }

    /** The entries of the list of large allocations are regions from the blocks. */
    ghost predicate EntryOk(i: nat)
      requires i < |larges|
      reads this, blocks
    {
      Small(larges[i].Entry())
    }

    ghost predicate EntriesOk()
      reads this, blocks
    {
      forall i: nat {:trigger EntryOk(i)} :: i < |larges| ==> EntryOk(i)
    }

    ghost predicate IsEntry(r: Region)
      reads this
    {
      exists i :: 0 <= i < |larges| && larges[i].Entry() == r
    }

    ghost predicate Valid()
      reads this, heap`live, heap`top, blocks, larges
    {
      Chained() && BlocksOk() && FailuresOk() && LargesOk() && HeaderOk() && EntriesOk() && heap.Valid()
    }

    /** The region has been handed out: small, from a block, or large. */
    ghost predicate InUse(r: Region)
      reads this, blocks, larges
    {
      Small(r) || exists i :: 0 <= i < |larges| && larges[i].Owns(r)
    }

    /** The pool in memory at m that memalign has answered. */
    constructor (heap: Heap, m: nat, size: nat, pageSize: nat)
      requires heap.Valid() && Region(m, size) in heap.live && m % POOL_ALIGNMENT == 0
      requires size % ALIGNMENT == 0 && POOL_HEADER + LARGE_SIZE <= size && LARGE_SIZE < pageSize
      ensures Valid() && this.heap == heap && blocks == [first] && larges == [] && fresh(first) && this.size == size
      ensures max == if size - POOL_HEADER < pageSize - 1 then size - POOL_HEADER else pageSize - 1
      ensures first.base == m && first.end == m + size && first.used == {} && first.last == m + POOL_HEADER
      ensures first.failed == 0 && current == first
    {
      var b := new Block(m, size, POOL_HEADER);
      this.heap, this.size, first, current, large := heap, size, b, b, null;
      max := if size - POOL_HEADER < pageSize - 1 then size - POOL_HEADER else pageSize - 1;
      blocks, cur, larges := [b], 0, [];
    }

    /** ngx_create_pool, when memalign answers; without memory there is no pool. */
    static method Create(heap: Heap, size: nat, pageSize: nat) returns (pool: Pool?)
      requires heap.Valid() && size % ALIGNMENT == 0 && POOL_HEADER + LARGE_SIZE <= size && LARGE_SIZE < pageSize
      modifies heap`live, heap`top
      ensures heap.Valid()
      ensures if pool == null then heap.live == old(heap.live)
              else pool.Valid() && fresh(pool) && fresh(pool.first) && pool.heap == heap && forall r :: !pool.InUse(r)
      ensures pool != null ==>
                && pool.current == pool.first && pool.first.last == pool.first.base + POOL_HEADER
                && pool.first.end == pool.first.base + size && heap.live == old(heap.live) + {pool.first.Span()}
                && pool.max == if size - POOL_HEADER < pageSize - 1 then size - POOL_HEADER else pageSize - 1
    {
      var p := heap.Memalign(size);
      if p == None {
        return null;
      }
      pool := new Pool(heap, p.value, size, pageSize);
    }

    // ---- what is handed out does not overlap -----------------------------------------

    /** Two system allocations. */
    lemma LiveApart(a: Region, b: Region)
      requires heap.Valid() && a in heap.live && b in heap.live && a.lo != b.lo
      ensures Apart(a, b)
    {
    }

    /** Two regions in use never share a byte. */
    lemma NoOverlap(a: Region, b: Region)
      requires Valid() && InUse(a) && InUse(b) && a != b
      ensures Apart(a, b)
    {
      var r := Holder(a);
      var s := Holder(b);
      if r.lo != s.lo {
        LiveApart(r, s);
        WithinApart(a, b, r, s);
      } else {
        SameHolder(a, b, r, s);
      }
    }

    /**
     * A region in use lies in a block of the pool, behind the header of the block (which is the
     * whole of ngx_pool_t in the first one), or is a live large allocation outside of all blocks.
     */
    lemma InBounds(a: Region)
      requires Valid() && InUse(a)
      ensures if Small(a) then exists i: nat :: i < |blocks| && LiesIn(a, i)
              else a in heap.live && forall i :: 0 <= i < |blocks| ==>
                     blocks[i].base <= blocks[i].end && Apart(a, blocks[i].Span())
    {
      if Small(a) {
        var i: nat :| i < |blocks| && a in blocks[i].used;
        assert BlockOk(i) && LiesIn(a, i);
      } else {
        var k: nat :| k < |larges| && larges[k].Owns(a);
        assert LargeOk(k);
        forall i: nat | i < |blocks|
          ensures blocks[i].base <= blocks[i].end && Apart(a, blocks[i].Span())
        {
          assert BlockOk(i);
          LiveApart(a, blocks[i].Span());
        }
      }
    }

    ghost predicate LiesIn(a: Region, i: nat)
      requires i < |blocks|
      reads this, blocks
    {
      blocks[i].base + (if i == 0 then POOL_HEADER else DATA_HEADER) <= a.lo && a.End() <= blocks[i].end
    }

    /** The block, or the large allocation itself, that a region in use lies in. */
    lemma Holder(a: Region) returns (r: Region)
      requires Valid() && InUse(a)
      ensures r in heap.live && a.Within(r)
      ensures HeldBy(a, r)
    {
      if i :| 0 <= i < |blocks| && a in blocks[i].used {
        assert BlockOk(i);
        r := blocks[i].Span();
      } else {
        var i: nat :| i < |larges| && larges[i].Owns(a);
        assert LargeOk(i);
        r := a;
      }
    }

    ghost predicate HeldBy(a: Region, r: Region)
      reads this, blocks, larges
    {
      || (exists i :: 0 <= i < |blocks| && a in blocks[i].used && r.lo == blocks[i].base)
      || (exists i :: 0 <= i < |larges| && larges[i].Owns(a) && r == a)
    }

    lemma LargeIsNoBlock(i: nat, j: nat, b: Region)
      requires LargesOk() && i < |blocks| && j < |larges| && larges[j].Owns(b)
      ensures blocks[i].base != b.lo
    {
      assert LargeOk(j);
    }

    lemma OneOwner(i: nat, j: nat, a: Region, b: Region)
      requires LargesOk() && i < |larges| && j < |larges| && larges[i].Owns(a) && larges[j].Owns(b) && a.lo == b.lo
      ensures a == b
    {
      assert LargeOk(i);
    }

    lemma SameHolder(a: Region, b: Region, r: Region, s: Region)
      requires Valid() && HeldBy(a, r) && HeldBy(b, s) && r.lo == s.lo && a != b
      ensures Apart(a, b)
    {
      if i: nat :| i < |blocks| && a in blocks[i].used && r.lo == blocks[i].base {
        if j: nat :| j < |blocks| && b in blocks[j].used && s.lo == blocks[j].base {
          assert BlockOk(i) && BlockOk(j);
          assert i == j;
        } else {
          var j: nat :| j < |larges| && larges[j].Owns(b) && s == b;
          LargeIsNoBlock(i, j, b);
        }
      } else {
        var i: nat :| i < |larges| && larges[i].Owns(a) && r == a;
        if j: nat :| j < |blocks| && b in blocks[j].used && s.lo == blocks[j].base {
          LargeIsNoBlock(j, i, a);
        } else {
          var j: nat :| j < |larges| && larges[j].Owns(b) && s == b;
          OneOwner(i, j, a, b);
        }
      }
    }

    ghost predicate DistinctBlocks()
      reads this
    {
      forall k, l :: 0 <= k < l < |blocks| ==> blocks[k] != blocks[l]
    }

    lemma AllDistinct()
      requires BlocksOk()
      ensures DistinctBlocks()
    {
      forall k, l | 0 <= k < l < |blocks|
        ensures blocks[k] != blocks[l]
      {
        assert BlockOk(l);
      }
    }

    // ---- small allocations --------------------------------------------------------------

    /** Block k is the first from current on that has room. */
    ghost predicate FirstRoom(k: nat, size: nat, align: bool)
      reads this, blocks
    {
      && cur <= k < |blocks| && blocks[k].HasRoom(size, align)
      && forall j :: cur <= j < k ==> !blocks[j].HasRoom(size, align)
    }

    ghost predicate NoRoom(size: nat, align: bool)
      reads this, blocks
    {
      forall k :: cur <= k < |blocks| ==> !blocks[k].HasRoom(size, align)
    }

    /** The walk of ngx_palloc_small: the first block from current on that has room, or null. */
    method FindRoom(size: nat, align: bool) returns (p: Block?, ghost i: nat)
      requires Valid()
      ensures p != null ==> FirstRoom(i, size, align) && p == blocks[i]
      ensures p == null ==> NoRoom(size, align)
    {
      p := current;
      i := cur;
      while p != null
        invariant cur <= i <= |blocks| && p == (if i < |blocks| then blocks[i] else null)
        invariant forall k :: cur <= k < i ==> !blocks[k].HasRoom(size, align)
        decreases |blocks| - i
      {
        if p.HasRoom(size, align) {
          return;
        }
        assert NextOk(i);
        p := p.next;
        i := i + 1;
      }
    }

    /** What is not from block i is apart from what lies in block i. */
    lemma BesideBlock(i: nat, a: Region, r: Region)
      requires Valid() && i < |blocks| && blocks[i].Valid() && InUse(a) && a !in blocks[i].used
               && r.Within(blocks[i].Span())
      ensures Apart(a, r)
    {
      assert BlockOk(i);
      var s := Holder(a);
      HolderElsewhere(i, a, s);
      LiveApart(s, blocks[i].Span());
      WithinApart(a, r, s, blocks[i].Span());
    }

    lemma HolderElsewhere(i: nat, a: Region, s: Region)
      requires BlocksOk() && LargesOk() && i < |blocks| && HeldBy(a, s)
      ensures s.lo == blocks[i].base ==> a in blocks[i].used
    {
      if k: nat :| k < |blocks| && a in blocks[k].used && s.lo == blocks[k].base {
        assert BlockOk(k) && BlockOk(i);
      } else {
        var k: nat :| k < |larges| && larges[k].Owns(a) && s == a;
        LargeIsNoBlock(i, k, a);
      }
    }

    /** Block i gives a region away; nothing else changes. */
    method TakeFrom(p: Block, ghost i: nat, size: nat, align: bool) returns (m: nat)
      requires Valid() && i < |blocks| && p == blocks[i] && p.HasRoom(size, align)
      modifies p`last, p`used
      ensures Valid() && m == old(p.Start(align)) && GainedSmall(Region(m, size)) && OthersStay()
    {
      assert BlockOk(i);
      ghost var r := Region(p.Start(align), size);
      forall a | InUse(a) && a !in p.used
        ensures Apart(a, r)
      {
        RoomIsInside(p, size, align);
        BesideBlock(i, a, r);
      }
      AllDistinct();
      m := p.Take(size, align);
      assert i == 0 || p != first;
      StillValid(i);
      assert r in blocks[i].used;
      forall a
        ensures InUse(a) <==> old(InUse(a)) || a == r
      {
        UsesOf(i, r, a);
      }
    }

    static lemma RoomIsInside(p: Block, size: nat, align: bool)
      requires p.Valid() && p.HasRoom(size, align)
      ensures Region(p.Start(align), size).Within(p.Span())
    {
    }

    /** Only block i has handed out something. */
    twostate predicate OnlyUsed(i: nat)
      reads *
    {
      && old(Valid()) && unchanged(this) && unchanged(heap) && i < |blocks| && blocks[i].Valid()
      && (forall k :: 0 <= k < |blocks| ==>
            blocks[k].next == old(blocks[k].next) && blocks[k].failed == old(blocks[k].failed))
      && (forall k :: 0 <= k < |blocks| && k != i ==>
            blocks[k].last == old(blocks[k].last) && blocks[k].used == old(blocks[k].used))
      && (forall k :: 0 <= k < |larges| ==> unchanged(larges[k]))
    }

    /** Regions that are not entries of the list may be given back. */
    twostate predicate EntriesHeld()
      reads *
    {
      && larges == old(larges) && old(blocks) <= blocks
      && forall k, r :: 0 <= k < |old(blocks)| && r in old(blocks[k].used) && r !in blocks[k].used ==> !old(IsEntry(r))
    }

    twostate lemma EntriesKept()
      requires old(EntriesOk()) && EntriesHeld()
      ensures EntriesOk()
    {
      forall i: nat | i < |larges|
        ensures EntryOk(i)
      {
        assert old(EntryOk(i));
        var k :| 0 <= k < |old(blocks)| && larges[i].Entry() in old(blocks[k].used);
        assert old(IsEntry(larges[i].Entry())) && blocks[k] == old(blocks)[k];
      }
    }

    twostate lemma StillValid(new i: nat)
      requires OnlyUsed(i) && HeaderOk() && EntriesHeld()
      ensures Valid()
    {
      EntriesKept();
      forall k: nat | k < |larges|
        ensures LargeOk(k)
      {
        assert old(LargeOk(k));
      }
      forall k: nat | k < |blocks|
        ensures BlockOk(k) && NextOk(k) && FailOk(k)
      {
        assert old(BlockOk(k)) && old(NextOk(k)) && old(FailOk(k));
      }
    }

    twostate lemma UsesOf(new i: nat, new r: Region, new a: Region)
      requires OnlyUsed(i) && blocks[i].used == old(blocks[i].used) + {r}
      ensures InUse(a) <==> old(InUse(a)) || a == r
    {
      if old(InUse(a)) {
        if k: nat :| k < |blocks| && a in old(blocks[k].used) {
          assert k < |blocks| && a in blocks[k].used;
        } else {
          var k: nat :| k < |larges| && old(larges[k].Owns(a));
          assert larges[k].Owns(a);
        }
      }
      assert a == r ==> a in blocks[i].used;
    }

    // ---- a new block ---------------------------------------------------------------------

    ghost function BlockSet(): set<Block>
      reads this
    {
      set b | b in blocks
    }

    /** The loop has counted a failure for the blocks from start to i; fails are the counts before. */
    ghost predicate Counting(fails: seq<nat>, start: nat, i: nat)
      reads this, blocks, larges
    {
      && |fails| == |blocks| && start <= cur <= i < |blocks| && current == blocks[cur]
      && (forall k :: 0 <= k < |blocks| ==> blocks[k].failed == if start <= k < i then fails[k] + 1 else fails[k])
      && (forall k :: 0 <= k < cur ==> blocks[k].failed >= 6)
      && (forall k :: cur <= k < |blocks| ==> blocks[k].failed <= 5)
    }

    ghost predicate Falling(fails: seq<nat>, start: nat) {
      forall j: nat {:trigger NoneLess(fails, start, j)} :: start <= j < |fails| ==> NoneLess(fails, start, j)
    }

    ghost predicate NoneLess(fails: seq<nat>, start: nat, j: nat)
      requires j < |fails|
    {
      forall i :: start <= i < j ==> fails[i] >= fails[j]
    }

    static ghost function Fails(bs: seq<Block>): (f: seq<nat>)
      reads bs
      ensures |f| == |bs| && forall i :: 0 <= i < |bs| ==> f[i] == bs[i].failed
    {
      if bs == [] then [] else Fails(bs[..|bs| - 1]) + [bs[|bs| - 1].failed]
    }

    /** The loop of ngx_palloc_block: current moves past the blocks that have failed six times. */
    method CountLoop(ghost fails: seq<nat>) returns (p: Block)
      requires Chained() && DistinctBlocks() && Falling(fails, cur) && Counting(fails, cur, cur)
      modifies `current, `cur, BlockSet()`failed
      ensures Chained() && Counting(fails, old(cur), |blocks| - 1) && p == blocks[|blocks| - 1]
    {
      ghost var start, i := cur, cur;
      p := current;
      assert NextOk(i);
      while p.next != null
        invariant Chained() && Counting(fails, start, i) && p == blocks[i] && NextOk(i)
        decreases |blocks| - i
      {
        CountOne(p, fails, start, i);
        p := p.next;
        i := i + 1;
        assert NextOk(i);
      }
    }

    method CountFailures() returns (p: Block)
      requires Chained() && FailuresOk() && DistinctBlocks()
      modifies `current, `cur, BlockSet()`failed
      ensures Chained() && FailuresOk() && p == blocks[|blocks| - 1] && FailedOnce()
    {
      ghost var fails, start := Fails(blocks), cur;
      ReadyToCount(fails);
      p := CountLoop(fails);
      CountedOk(fails, start);
    }

    /** Each block from current to the last but one has failed once more. */
    twostate predicate FailedOnce()
      reads this, blocks
    {
      && old(blocks) <= blocks
      && forall k :: 0 <= k < |old(blocks)| ==>
           blocks[k].failed == old(blocks[k].failed) + if old(cur) <= k < |old(blocks)| - 1 then 1 else 0
    }

    lemma CountedOk(fails: seq<nat>, start: nat)
      requires blocks != [] && Falling(fails, start) && Counting(fails, start, |blocks| - 1)
      ensures FailuresOk()
    {
      forall i: nat | i < |blocks|
        ensures FailOk(i)
      {
        assert i >= start ==> NoneLess(fails, start, i);
      }
    }

    lemma ReadyToCount(fails: seq<nat>)
      requires FailuresOk() && fails == Fails(blocks)
      ensures Falling(fails, cur) && Counting(fails, cur, cur)
    {
      forall k: nat | k < |blocks|
        ensures if k < cur then blocks[k].failed >= 6 else blocks[k].failed <= 5
      {
        assert FailOk(k);
      }
      forall j: nat | cur <= j < |fails|
        ensures NoneLess(fails, cur, j)
      {
        assert FailOk(j);
      }
    }

    /** Current is the first block that has not failed six times. */
    lemma CurrentIs()
      requires Valid()
      ensures exists c :: 0 <= c < |blocks| && current == blocks[c] && blocks[c].failed < 6
                          && forall k :: 0 <= k < c ==> blocks[k].failed >= 6
    {
      assert FailOk(cur);
      forall k: nat | k < cur
        ensures blocks[k].failed >= 6
      {
        assert FailOk(k);
      }
    }

    /** Only counts of failures changed. */
    twostate lemma OnlyCounted()
      requires old(BlocksOk()) && old(LargesOk()) && blocks == old(blocks) && larges == old(larges)
               && large == old(large)
      requires unchanged(heap) && forall k :: 0 <= k < |larges| ==> unchanged(larges[k])
      requires forall k :: 0 <= k < |blocks| ==>
                 blocks[k].last == old(blocks[k].last) && blocks[k].used == old(blocks[k].used)
      requires old(EntriesOk())
      ensures BlocksOk() && LargesOk() && EntriesOk()
      ensures forall a :: InUse(a) <==> old(InUse(a))
    {
      EntriesKept();
      forall k: nat | k < |larges|
        ensures LargeOk(k)
      {
        assert old(LargeOk(k));
      }
      forall k: nat | k < |blocks|
        ensures BlockOk(k)
      {
        assert old(BlockOk(k));
      }
    }

    method CountOne(p: Block, ghost fails: seq<nat>, ghost start: nat, ghost i: nat)
      requires Chained() && Counting(fails, start, i) && p == blocks[i] && i + 1 < |blocks| && Falling(fails, start)
      requires DistinctBlocks()
      modifies `current, `cur, p`failed
      ensures Chained() && Counting(fails, start, i + 1)
    {
      assert NextOk(i) && NoneLess(fails, start, i);
      p.failed := p.failed + 1;
      if p.failed - 1 > 4 {
        current := p.next;
        cur := i + 1;
      }
      forall k: nat | k < |blocks|
        ensures NextOk(k)
      {
        assert old(NextOk(k));
      }
    }

    /** The memory at lo is neither a block of the pool nor one of its large allocations. */
    ghost predicate NotOurs(lo: nat)
      reads this, larges
    {
      && (forall k :: 0 <= k < |blocks| ==> blocks[k].base != lo)
      && (forall k :: 0 <= k < |larges| ==> larges[k].alloc != Some(lo))
    }

    /** memalign for the pool. */
    method Obtain(n: nat) returns (m: Option<nat>)
      requires Valid() && n > 0
      modifies heap`live, heap`top
      ensures Valid()
      ensures m == None ==> heap.live == old(heap.live)
      ensures m.Some? ==>
                && heap.live == old(heap.live) + {Region(m.value, n)} && Region(m.value, n) !in old(heap.live)
                && m.value % POOL_ALIGNMENT == 0
                && NotOurs(m.value) && (forall a :: InUse(a) ==> Apart(a, Region(m.value, n)))
                && forall a :: a in old(heap.live) ==> Apart(a, Region(m.value, n))
    {
      m := heap.Memalign(n);
      HeapGrew();
      if m.Some? {
        NewIsNotOurs(Region(m.value, n));
        forall a | InUse(a)
          ensures Apart(a, Region(m.value, n))
        {
          var r := Holder(a);
          HolderIsOurs(a, r);
          LiveApart(r, Region(m.value, n));
          WithinApart(a, Region(m.value, n), r, Region(m.value, n));
        }
      }
    }

    lemma HolderIsOurs(a: Region, r: Region)
      requires HeldBy(a, r)
      ensures !NotOurs(r.lo)
    {
    }

    twostate lemma HeapGrew()
      requires old(Valid()) && unchanged(this) && unchanged(blocks) && unchanged(larges)
      requires heap.Valid() && old(heap.live) <= heap.live
      ensures Valid()
    {
      EntriesKept();
      forall k: nat | k < |larges|
        ensures LargeOk(k)
      {
        assert old(LargeOk(k));
      }
      forall k: nat | k < |blocks|
        ensures BlockOk(k) && NextOk(k) && FailOk(k)
      {
        assert old(BlockOk(k)) && old(NextOk(k)) && old(FailOk(k));
      }
    }

    twostate lemma NewIsNotOurs(new r: Region)
      requires old(Valid()) && unchanged(this) && unchanged(blocks) && unchanged(larges) && r.size > 0
      requires forall a :: a in old(heap.live) ==> Apart(a, r)
      ensures NotOurs(r.lo)
    {
      forall k | 0 <= k < |blocks|
        ensures blocks[k].base != r.lo
      {
        assert old(BlockOk(k));
        assert Apart(blocks[k].Span(), r);
      }
      forall k | 0 <= k < |larges|
        ensures larges[k].alloc != Some(r.lo)
      {
        assert old(LargeOk(k));
        assert larges[k].alloc.Some? ==> Apart(Region(larges[k].alloc.value, larges[k].size), r);
      }
    }

    /** ngx_palloc_block; n is the size asked for, which fits into a fresh block. */
    method AddBlock(n: nat) returns (p: Option<nat>)
      requires Valid() && n <= max
      modifies this`current, this`cur, this`blocks, heap`live, heap`top, BlockSet()`failed, BlockSet()`next
      ensures Valid() && larges == old(larges) && Extended() && old(heap.live) <= heap.live && OthersStay()
      ensures if p == None then heap.live == old(heap.live) && forall a :: InUse(a) <==> old(InUse(a))
              else GainedSmall(Region(p.value, n)) && p.value % ALIGNMENT == 0 && FailedOnce()
      ensures if p == None then blocks == old(blocks) else NewBlock(p.value, n)
      ensures p.Some? ==> heap.live == old(heap.live) + {Region(blocks[|blocks| - 1].base, size)}
    {
      assert BlockOk(0);
      var m := Obtain(first.end - first.base);
      if m == None {
        return None;
      }
      var q := EnlargeBy(m.value, n);
      OnlySpan(Region(m.value, size));
      return Some(q);
    }

    /** A block was added, and its first n bytes, from q on, are handed out. */
    twostate predicate NewBlock(q: nat, n: nat)
      reads *
    {
      && old(blocks) <= blocks && |blocks| == |old(blocks)| + 1
      && var b := blocks[|old(blocks)|];
         q == b.base + DATA_HEADER && b.last == q + n && b.failed == 0
    }

    method EnlargeBy(m: nat, n: nat) returns (q: nat)
      requires Valid() && n <= max && m % POOL_ALIGNMENT == 0 && Region(m, size) in heap.live && NotOurs(m)
      requires forall a :: InUse(a) ==> Apart(a, Region(m, size))
      modifies this`current, this`cur, this`blocks, BlockSet()`failed, BlockSet()`next
      ensures Valid() && larges == old(larges) && Extended() && q % ALIGNMENT == 0 && GainedSmall(Region(q, n))
              && FailedOnce() && NewBlock(q, n)
      ensures forall k :: 0 <= k < |blocks| ==> k < |old(blocks)| || blocks[k].base == m
    {
      q := Enlarge(m, n);
      InsideSpan(Region(m, size), Region(q, n));
    }

    static lemma InsideSpan(span: Region, r: Region)
      requires r.Within(span)
      ensures forall a :: Apart(a, span) ==> Apart(a, r)
    {
    }

    twostate lemma OnlySpan(new span: Region)
      requires (forall a :: a in old(heap.live) ==> Apart(a, span)) && larges == old(larges) && span.size > 0
      requires old(blocks) <= blocks && forall k :: |old(blocks)| <= k < |blocks| ==> blocks[k].base == span.lo
      requires forall k :: 0 <= k < |larges| ==> larges[k].alloc == old(larges[k].alloc)
      ensures OthersStay()
    {
      forall r {:trigger NotOurs(r.lo)} | r in old(heap.live) && r.size > 0 && old(NotOurs(r.lo))
        ensures NotOurs(r.lo)
      {
        assert Apart(r, span);
        assert forall k :: 0 <= k < |old(blocks)| ==> blocks[k] == old(blocks)[k];
      }
    }

    /** The memory at m becomes the last block, and the first n bytes behind its header are handed out. */
    method Enlarge(m: nat, n: nat) returns (q: nat)
      requires Valid() && n <= max && m % POOL_ALIGNMENT == 0 && Region(m, size) in heap.live && NotOurs(m)
      modifies this`current, this`cur, this`blocks, BlockSet()`failed, BlockSet()`next
      ensures Valid() && larges == old(larges) && Extended() && q % ALIGNMENT == 0 && FailedOnce() && NewBlock(q, n)
      ensures forall k :: 0 <= k < |blocks| ==> k < |old(blocks)| || blocks[k].base == m
      ensures Region(q, n).Within(Region(m, size)) && Small(Region(q, n))
      ensures forall a :: InUse(a) <==> old(InUse(a)) || a == Region(q, n)
    {
      var newPool;
      newPool, q := FreshBlock(m, n);
      LinkBlock(newPool, Region(q, n));
    }

    method LinkBlock(newPool: Block, ghost r: Region)
      requires Valid() && newPool !in blocks
      requires newPool.Valid() && newPool.next == null && newPool.failed == 0 && newPool.used == {r}
      requires newPool.Span() == Region(newPool.base, size) && newPool.Span() in heap.live && NotOurs(newPool.base)
      modifies this`current, this`cur, this`blocks, BlockSet()`failed, BlockSet()`next
      ensures Valid() && blocks == old(blocks) + [newPool] && FailedOnce() && Small(r) && newPool.failed == 0
      ensures forall a :: InUse(a) <==> old(InUse(a)) || a == r
    {
      var last := CountForNew();
      Append(last, newPool, r);
    }

    method CountForNew() returns (last: Block)
      requires Valid()
      modifies this`current, this`cur, BlockSet()`failed
      ensures Valid() && last == blocks[|blocks| - 1] && FailedOnce()
      ensures forall a :: InUse(a) <==> old(InUse(a))
    {
      AllDistinct();
      last := CountFailures();
      OnlyCounted();
    }

    method FreshBlock(m: nat, n: nat) returns (b: Block, q: nat)
      requires BlocksOk() && blocks != [] && first == blocks[0] && n <= max && m % POOL_ALIGNMENT == 0
      ensures fresh(b) && b.Valid() && b.next == null && b.failed == 0 && b.used == {Region(q, n)}
      ensures b.Span() == Region(m, size) && q % ALIGNMENT == 0 && Region(q, n).Within(Region(m, size))
      ensures q == m + DATA_HEADER && b.last == q + n
    {
      assert BlockOk(0);
      DataAligned(m);
      b := new Block(m, first.end - first.base, DATA_HEADER);
      q := b.Take(n, true);
    }

    static lemma EvenlyAligned(j: nat)
      ensures Align(ALIGNMENT * j) == ALIGNMENT * j
    {
    }

    /** Behind the header of a block nothing has to be skipped. */
    static lemma DataAligned(m: nat)
      requires m % POOL_ALIGNMENT == 0
      ensures Align(m + DATA_HEADER) == m + DATA_HEADER
    {
      var q := m / POOL_ALIGNMENT;
      assert m == POOL_ALIGNMENT * q && m + DATA_HEADER == ALIGNMENT * (2 * q + 4);
      EvenlyAligned(2 * q + 4);
    }

    /** Blocks are only added. */
    twostate predicate Extended()
      reads this
    {
      old(blocks) <= blocks && fresh(BlockSet() - old(BlockSet()))
    }

    /** What was somebody else's memory still is. */
    twostate predicate OthersStay()
      reads *
    {
      forall r {:trigger NotOurs(r.lo)} :: r in old(heap.live) && r.size > 0 && old(NotOurs(r.lo)) ==> NotOurs(r.lo)
    }

    /** Since the old state r was handed out, apart from everything else. */
    twostate predicate GainedSmall(new r: Region)
      reads *
    {
      && Small(r)
      && (forall a :: InUse(a) <==> old(InUse(a)) || a == r)
      && (forall a :: old(InUse(a)) ==> Apart(a, r))
    }

    /** The new block goes behind the last one. */
    method Append(last: Block, newPool: Block, ghost r: Region)
      requires Valid() && last == blocks[|blocks| - 1] && newPool !in blocks
      requires newPool.Valid() && newPool.next == null && newPool.failed == 0 && newPool.used == {r}
      requires newPool.Span() == Region(newPool.base, size) && newPool.Span() in heap.live
      requires NotOurs(newPool.base)
      modifies this`blocks, last`next
      ensures Valid() && blocks == old(blocks) + [newPool] && Small(r)
      ensures forall a :: InUse(a) <==> old(InUse(a)) || a == r
    {
      AllDistinct();
      last.next := newPool;
      blocks := blocks + [newPool];
      Appended(newPool);
      assert r in blocks[|blocks| - 1].used;
      forall a
        ensures InUse(a) <==> old(InUse(a)) || a == r
      {
        AppendedUse(newPool, r, a);
      }
    }

    twostate predicate BehindAll(new b: Block)
      reads *
    {
      && blocks == old(blocks) + [b] && b.Valid() && b.next == null && b.failed == 0
      && (forall k :: 0 <= k < |old(blocks)| ==>
            && blocks[k].failed == old(blocks[k].failed)
            && blocks[k].last == old(blocks[k].last) && blocks[k].used == old(blocks[k].used)
            && blocks[k].next == if k == |old(blocks)| - 1 then b else old(blocks[k].next))
      && current == old(current) && cur == old(cur) && large == old(large) && larges == old(larges) && unchanged(heap)
      && (forall k :: 0 <= k < |larges| ==> unchanged(larges[k]))
    }

    twostate lemma Appended(new b: Block)
      requires old(Valid()) && BehindAll(b) && b.end == b.base + size && b.Span() in heap.live
      requires forall k :: 0 <= k < |old(blocks)| ==> blocks[k].base != b.base
      requires forall k :: 0 <= k < |larges| ==> larges[k].alloc != Some(b.base)
      ensures Valid()
    {
      EntriesKept();
      forall k: nat | k < |blocks|
        ensures NextOk(k)
      {
        if k < |old(blocks)| {
          assert old(NextOk(k));
        }
      }
      forall k: nat | k < |blocks|
        ensures FailOk(k)
      {
        if k < |old(blocks)| {
          assert old(FailOk(k));
        }
      }
      forall k: nat | k < |larges|
        ensures LargeOk(k)
      {
        assert old(LargeOk(k));
      }
      forall k: nat | k < |blocks|
        ensures BlockOk(k)
      {
        if k < |old(blocks)| {
          assert old(BlockOk(k));
        }
      }
    }

    twostate lemma AppendedUse(new b: Block, new r: Region, new a: Region)
      requires old(Valid()) && BehindAll(b) && b.used == {r}
      ensures InUse(a) <==> old(InUse(a)) || a == r
    {
      if old(InUse(a)) {
        if k :| 0 <= k < |old(blocks)| && a in old(blocks[k].used) {
          assert a in blocks[k].used;
        }
      }
      if a == r {
        assert a in blocks[|blocks| - 1].used;
      }
    }

    /**
     * Where a small allocation comes from: the first block from current on with room gives its
     * next bytes, and nothing is asked of the system; without one a new block gives its first.
     */
    twostate predicate Placed(from: Source, p: Option<nat>, n: nat, align: bool)
      reads *
    {
      match from
      case OldBlock(k) =>
        old(FirstRoom(k, n, align)) && p == Some(old(blocks[k].Start(align)))
        && blocks == old(blocks) && heap.live == old(heap.live)
      case AnotherBlock =>
        old(NoRoom(n, align)) && p.Some? && NewBlock(p.value, n)
        && heap.live == old(heap.live) + {Region(blocks[|blocks| - 1].base, size)}
      case NoBlock => old(NoRoom(n, align)) && p == None && blocks == old(blocks) && heap.live == old(heap.live)
    }

    /** The tests and the place in numbers. */
    lemma FirstRoomIs(k: nat, size: nat, align: bool)
      ensures FirstRoom(k, size, align) <==>
              && cur <= k < |blocks|
              && (if align then Align(blocks[k].last) else blocks[k].last) + size <= blocks[k].end
              && forall j :: cur <= j < k ==>
                   (if align then Align(blocks[j].last) else blocks[j].last) + size > blocks[j].end
      ensures k < |blocks| ==> blocks[k].Start(align) == if align then Align(blocks[k].last) else blocks[k].last
      ensures NoRoom(size, align) <==>
              forall j :: cur <= j < |blocks| ==>
                (if align then Align(blocks[j].last) else blocks[j].last) + size > blocks[j].end
    {
    }

    /** The block that the walk found gives the region away. */
    method TakeFound(b: Block, ghost i: nat, n: nat, align: bool) returns (p: Option<nat>, ghost from: Source)
      requires Valid() && FirstRoom(i, n, align) && b == blocks[i]
      modifies b`last, b`used
      ensures Valid() && larges == old(larges) && Extended() && old(heap.live) <= heap.live && OthersStay()
      ensures if p == None then heap.live == old(heap.live) && forall a :: InUse(a) <==> old(InUse(a))
              else GainedSmall(Region(p.value, n)) && (align ==> p.value % ALIGNMENT == 0)
      ensures Placed(from, p, n, align)
    {
      var m := TakeFrom(b, i, n, align);
      p, from := Some(m), OldBlock(i);
    }

    /** A new block gives it. */
    method TakeNew(n: nat, align: bool) returns (p: Option<nat>, ghost from: Source)
      requires Valid() && n <= max && NoRoom(n, align)
      modifies this`current, this`cur, this`blocks, heap`live, heap`top, BlockSet()`failed, BlockSet()`next
      ensures Valid() && larges == old(larges) && Extended() && old(heap.live) <= heap.live && OthersStay()
      ensures if p == None then heap.live == old(heap.live) && forall a :: InUse(a) <==> old(InUse(a))
              else GainedSmall(Region(p.value, n)) && (align ==> p.value % ALIGNMENT == 0)
      ensures Placed(from, p, n, align)
    {
      p := AddBlock(n);
      from := if p == None then NoBlock else AnotherBlock;
    }

    /** ngx_palloc_small */
    method PallocSmall(n: nat, align: bool) returns (p: Option<nat>, ghost from: Source)
      requires Valid() && n <= max
      modifies this`current, this`cur, this`blocks, heap`live, heap`top, BlockSet()
      ensures Valid() && larges == old(larges) && Extended() && old(heap.live) <= heap.live && OthersStay()
      ensures if p == None then heap.live == old(heap.live) && forall a :: InUse(a) <==> old(InUse(a))
              else GainedSmall(Region(p.value, n)) && (align ==> p.value % ALIGNMENT == 0)
      ensures Placed(from, p, n, align)
    {
      var b, i := FindRoom(n, align);
      if b == null {
        p, from := TakeNew(n, align);
      } else {
        p, from := TakeFound(b, i, n, align);
      }
    }

    /**
     * Since the old state r was handed out, apart from everything else, and besides it at
     * most the region of a new entry at the head of the list of large allocations.
     */
    twostate predicate Gained(new r: Region)
      reads *
    {
      && InUse(r) && !IsEntry(r)
      && (forall a :: old(InUse(a)) ==> InUse(a) && Apart(a, r) && (IsEntry(a) ==> old(IsEntry(a))))
      && if larges == old(larges) then forall a :: InUse(a) ==> old(InUse(a)) || a == r
         else larges != [] && larges[1..] == old(larges)
              && forall a :: InUse(a) ==> old(InUse(a)) || a == r || a == larges[0].Entry()
    }

    /** Nothing was handed out. */
    twostate predicate GainedNothing()
      reads *
    {
      (forall a :: InUse(a) <==> old(InUse(a))) && larges == old(larges) && heap.live == old(heap.live)
    }

    ghost function LargeSet(): set<Large>
      reads this
    {
      set l | l in larges
    }

    // ---- large allocations -----------------------------------------------------------------

    ghost predicate HasEmpty()
      reads this, larges
    {
      exists k :: 0 <= k < |larges| && k < 5 && larges[k].alloc == None
    }

    /** One of the first five entries of the list that was freed, or null. */
    method FindEmpty() returns (l: Large?, ghost i: nat)
      requires Valid()
      ensures l != null ==> i < |larges| && i < 5 && l == larges[i] && l.alloc == None
      ensures l == null ==> forall k :: 0 <= k < |larges| && k < 5 ==> larges[k].alloc.Some?
    {
      var n := 0;
      l := large;
      i := 0;
      while l != null
        invariant i <= |larges| && n == i && l == (if i < |larges| then larges[i] else null)
        invariant i <= 4 && forall k :: 0 <= k < i ==> larges[k].alloc.Some?
        decreases |larges| - i
      {
        assert LargeOk(i);
        if l.alloc == None {
          return;
        }
        n := n + 1;
        if n - 1 > 3 {
          return null, i;
        }
        l := l.next;
        i := i + 1;
      }
    }

    /** The entry i takes the memory at m. */
    method Fill(l: Large, ghost i: nat, m: nat, ghost n: nat)
      requires Valid() && i < |larges| && l == larges[i] && l.alloc == None
      requires NotOurs(m) && n > 0 && Region(m, n) in heap.live
      modifies l
      ensures Valid() && forall a :: InUse(a) <==> old(InUse(a)) || a == Region(m, n)
    {
      assert LargeOk(i);
      DistinctEntries();
      l.alloc := Some(m);
      l.size := n;
      Filled(i, m, n);
      forall a
        ensures InUse(a) <==> old(InUse(a)) || a == Region(m, n)
      {
        FilledUse(i, Region(m, n), a);
      }
    }

    lemma DistinctEntries()
      requires LargesOk()
      ensures forall k, l :: 0 <= k < l < |larges| ==> larges[k] != larges[l]
    {
      forall k, l | 0 <= k < l < |larges|
        ensures larges[k] != larges[l]
      {
        assert LargeOk(l);
      }
    }

    /** Only entry i of the list changed, from empty to the memory at m. */
    twostate predicate OnlyFilled(i: nat, m: nat, n: nat)
      reads *
    {
      && old(Valid()) && unchanged(this) && unchanged(heap) && (forall k :: 0 <= k < |blocks| ==> unchanged(blocks[k]))
      && i < |larges| && old(larges[i].alloc) == None && larges[i].alloc == Some(m) && larges[i].size == n
      && larges[i].next == old(larges[i].next) && forall k :: 0 <= k < |larges| && k != i ==> unchanged(larges[k])
    }

    twostate lemma Filled(new i: nat, new m: nat, new n: nat)
      requires OnlyFilled(i, m, n) && old(NotOurs(m)) && n > 0 && Region(m, n) in heap.live
      ensures Valid()
    {
      EntriesKept();
      forall k: nat | k < |blocks|
        ensures BlockOk(k) && NextOk(k) && FailOk(k)
      {
        assert old(BlockOk(k)) && old(NextOk(k)) && old(FailOk(k));
      }
      forall k: nat | k < |larges|
        ensures LargeOk(k)
      {
        assert old(LargeOk(k));
      }
    }

    twostate lemma FilledUse(new i: nat, new r: Region, new a: Region)
      requires OnlyFilled(i, r.lo, r.size)
      ensures InUse(a) <==> old(InUse(a)) || a == r
    {
      if old(InUse(a)) {
        if k: nat :| k < |blocks| && a in old(blocks[k].used) {
          assert k < |blocks| && a in blocks[k].used;
        } else {
          var k: nat :| k < |larges| && old(larges[k].Owns(a));
          assert larges[k].Owns(a);
        }
      }
      assert larges[i].Owns(r);
    }

    /** The new entry goes to the front of the list. */
    method PushLarge(address: nat, m: nat, ghost n: nat)
      requires Valid() && NotOurs(m) && n > 0 && Region(m, n) in heap.live && Small(Region(address, LARGE_SIZE))
      modifies `large, `larges
      ensures Valid() && fresh(LargeSet() - old(LargeSet())) && larges != [] && larges[1..] == old(larges)
      ensures larges[0].address == address && forall a :: InUse(a) <==> old(InUse(a)) || a == Region(m, n)
    {
      var entry := new Large(address, m, n, large);
      large := entry;
      larges := [entry] + larges;
      Pushed(entry, address, m);
      forall a
        ensures InUse(a) <==> old(InUse(a)) || a == Region(m, n)
      {
        PushedUse(entry, Region(m, n), a);
      }
    }

    twostate predicate InFront(new e: Large)
      reads *
    {
      && old(Valid()) && larges == [e] + old(larges) && e !in old(larges) && large == e
      && e.next == old(large) && e.alloc.Some?
      && blocks == old(blocks) && current == old(current) && cur == old(cur) && unchanged(heap)
      && (forall k :: 0 <= k < |blocks| ==> unchanged(blocks[k]))
      && (forall k :: 0 <= k < |old(larges)| ==> unchanged(old(larges)[k]))
    }

    twostate lemma PushedEntries(new e: Large, new address: nat)
      requires InFront(e) && e.address == address && old(Small(Region(address, LARGE_SIZE)))
      ensures EntriesOk()
    {
      assert larges[0] == e && forall l :: 0 < l < |larges| ==> larges[l] == old(larges)[l - 1];
      forall i: nat | i < |larges|
        ensures EntryOk(i)
      {
        if i == 0 {
          var k :| 0 <= k < |blocks| && Region(address, LARGE_SIZE) in old(blocks[k].used);
          assert e.Entry() in blocks[k].used;
        } else {
          assert old(EntryOk(i - 1));
          var k :| 0 <= k < |blocks| && larges[i].Entry() in old(blocks[k].used);
          assert larges[i].Entry() in blocks[k].used;
        }
      }
    }

    twostate lemma Pushed(new e: Large, new address: nat, new m: nat)
      requires InFront(e) && e.alloc == Some(m) && old(NotOurs(m)) && e.size > 0 && Region(m, e.size) in heap.live
      requires e.address == address && old(Small(Region(address, LARGE_SIZE)))
      ensures Valid()
    {
      PushedEntries(e, address);
      forall k: nat | k < |blocks|
        ensures BlockOk(k) && NextOk(k) && FailOk(k)
      {
        assert old(BlockOk(k)) && old(NextOk(k)) && old(FailOk(k));
      }
      forall k: nat | k < |larges|
        ensures LargeOk(k)
      {
        assert larges[0] == e && forall l :: 0 < l < |larges| ==> larges[l] == old(larges)[l - 1];
        if k > 0 {
          assert old(LargeOk(k - 1));
        }
      }
    }

    twostate lemma PushedUse(new e: Large, new r: Region, new a: Region)
      requires InFront(e) && e.Owns(r)
      ensures InUse(a) <==> old(InUse(a)) || a == r
    {
      assert larges[0] == e && forall l :: 0 < l < |larges| ==> larges[l] == old(larges)[l - 1];
      if old(InUse(a)) {
        if k: nat :| k < |blocks| && a in old(blocks[k].used) {
          assert k < |blocks| && a in blocks[k].used;
        } else {
          var k: nat :| k < |old(larges)| && old(larges[k].Owns(a));
          assert larges[k + 1].Owns(a);
        }
      }
    }

    /** ngx_palloc_large */
    method PallocLarge(n: nat) returns (p: Option<nat>)
      requires Valid() && n > 0
      modifies this`current, this`cur, this`blocks, this`large, this`larges, heap`live, heap`top, BlockSet(), LargeSet()
      ensures Valid() && Extended() && fresh(LargeSet() - old(LargeSet()))
      ensures if p == None then GainedNothing() else Gained(Region(p.value, n)) && p.value % POOL_ALIGNMENT == 0
      ensures p.Some? ==>
                (larges == old(larges) <==> old(exists k :: 0 <= k < |larges| && k < 5 && larges[k].alloc == None))
      ensures p.Some? ==> Region(p.value, n) in heap.live && Region(p.value, n) !in old(heap.live)
    {
      p := Obtain(n);
      if p == None {
        return;
      }
      var filled := Refill(p.value, n);
      if !filled {
        p := AddLarge(p.value, n);
      }
    }

    /** An entry of the list that was freed takes the memory at m, if there is one among the first five. */
    method Refill(m: nat, ghost n: nat) returns (filled: bool)
      requires Valid() && NotOurs(m) && n > 0 && Region(m, n) in heap.live
      requires forall a :: InUse(a) ==> Apart(a, Region(m, n))
      modifies LargeSet()
      ensures Valid() && filled == old(HasEmpty())
      ensures if filled then Gained(Region(m, n)) else NotOurs(m) && forall a :: InUse(a) <==> old(InUse(a))
    {
      var l, i := FindEmpty();
      filled := l != null;
      if l != null {
        NotEntry(Region(m, n));
        Fill(l, i, m, n);
      }
    }

    /** What the pool has handed out is apart from memory that is not the pool's. */
    lemma OursApart(a: Region, r: Region)
      requires Valid() && InUse(a) && r in heap.live && NotOurs(r.lo)
      ensures Apart(a, r)
    {
      var h := Holder(a);
      HolderIsOurs(a, h);
      LiveApart(h, r);
      WithinApart(a, r, h, r);
    }

    /** A small allocation is an allocation. */
    twostate lemma SmallIsGained(new r: Region)
      requires old(EntriesOk()) && GainedSmall(r) && larges == old(larges)
      ensures Gained(r)
    {
      if IsEntry(r) {
        var i: nat :| i < |larges| && larges[i].Entry() == r;
        assert old(EntryOk(i)) && old(InUse(r));
      }
    }

    /** An entry of the list is in use, so what is apart from everything in use is none. */
    lemma NotEntry(r: Region)
      requires EntriesOk()
      ensures IsEntry(r) ==> InUse(r)
      ensures r.size > 0 && (forall a :: InUse(a) ==> Apart(a, r)) ==> !IsEntry(r)
    {
      if IsEntry(r) {
        var i: nat :| i < |larges| && larges[i].Entry() == r;
        assert EntryOk(i);
        assert Small(r);
      }
      assert r.size > 0 && InUse(r) ==> !Apart(r, r);
    }

    /** The list got an entry, itself a region e from the pool, for the memory r. */
    twostate lemma PushedIsGained(new e: Region, new r: Region)
      requires old(EntriesOk()) && larges != [] && larges[1..] == old(larges) && larges[0].Entry() == e
      requires r.size > 0 && Apart(e, r) && forall a :: old(InUse(a)) ==> Apart(a, r) && Apart(a, e)
      requires forall a :: InUse(a) <==> old(InUse(a)) || a == e || a == r
      ensures Gained(r)
    {
      forall a | IsEntry(a)
        ensures a == e || (old(IsEntry(a)) && old(InUse(a)))
      {
        PushedEntry(e, a);
      }
    }

    twostate lemma PushedEntry(new e: Region, new a: Region)
      requires old(EntriesOk()) && larges != [] && larges[1..] == old(larges) && larges[0].Entry() == e && IsEntry(a)
      ensures a == e || (old(IsEntry(a)) && old(InUse(a)))
    {
      var i: nat :| i < |larges| && larges[i].Entry() == a;
      if i > 0 {
        assert larges[i] == old(larges)[i - 1] && old(EntryOk(i - 1));
      }
    }

    /** The list gets an entry, itself from the pool, for the memory at m; without one the memory is given back. */
    method AddLarge(m: nat, ghost n: nat) returns (p: Option<nat>)
      requires Valid() && NotOurs(m) && n > 0 && Region(m, n) in heap.live
      requires forall a :: InUse(a) ==> Apart(a, Region(m, n))
      modifies this`current, this`cur, this`blocks, this`large, this`larges, heap`live, heap`top, BlockSet()
      ensures Valid() && Extended() && fresh(LargeSet() - old(LargeSet())) && (p == None || p == Some(m))
      ensures p == None ==> (forall a :: InUse(a) <==> old(InUse(a))) && larges == old(larges)
      ensures p == None ==> heap.live == old(heap.live) - {Region(m, n)}
      ensures p.Some? ==> Gained(Region(m, n)) && larges != old(larges) && Region(m, n) in heap.live
    {
      p := TakeEntry(Region(m, n));
      if p == None {
        GiveBack(Region(m, n));
        return;
      }
      PushLarge(p.value, m, n);
      PushedIsGained(larges[0].Entry(), Region(m, n));
      return Some(m);
    }

    /** The memory for an entry of the list, apart from the region r, which is not the pool's. */
    method TakeEntry(ghost r: Region) returns (p: Option<nat>)
      requires Valid() && NotOurs(r.lo) && r.size > 0 && r in heap.live
      modifies this`current, this`cur, this`blocks, heap`live, heap`top, BlockSet()
      ensures Valid() && larges == old(larges) && Extended() && NotOurs(r.lo) && r in heap.live
      ensures if p == None then heap.live == old(heap.live) && forall a :: InUse(a) <==> old(InUse(a))
              else GainedSmall(Region(p.value, LARGE_SIZE)) && Apart(Region(p.value, LARGE_SIZE), r)
    {
      ghost var from;
      p, from := PallocSmall(LARGE_SIZE, true);
      assert NotOurs(r.lo);
      if p.Some? {
        OursApart(Region(p.value, LARGE_SIZE), r);
      }
    }

    /** The memory that could not be listed is freed. */
    method GiveBack(ghost r: Region)
      requires Valid() && NotOurs(r.lo) && r in heap.live
      modifies heap`live
      ensures Valid() && heap.live == old(heap.live) - {r} && forall a :: InUse(a) <==> old(InUse(a))
    {
      heap.Free(r);
      HeapShrank(r);
    }

    /** Memory that is not the pool's was freed. */
    twostate lemma HeapShrank(new r: Region)
      requires old(Valid()) && unchanged(this) && unchanged(blocks) && unchanged(larges)
      requires heap.Valid() && heap.live == old(heap.live) - {r} && NotOurs(r.lo)
      ensures Valid()
    {
      EntriesKept();
      forall k: nat | k < |larges|
        ensures LargeOk(k)
      {
        assert old(LargeOk(k));
      }
      forall k: nat | k < |blocks|
        ensures BlockOk(k) && NextOk(k) && FailOk(k)
      {
        assert old(BlockOk(k)) && old(NextOk(k)) && old(FailOk(k));
      }
    }

    // ---- the allocation functions --------------------------------------------------------------

    /** ngx_palloc when align, ngx_pnalloc when not. */
    method Palloc(n: nat, align: bool) returns (p: Option<nat>, ghost from: Source)
      requires Valid()
      modifies this`current, this`cur, this`blocks, this`large, this`larges, heap`live, heap`top, BlockSet(), LargeSet()
      ensures Valid() && Extended() && fresh(LargeSet() - old(LargeSet()))
      ensures if p == None then GainedNothing() else Gained(Region(p.value, n)) && (align ==> p.value % ALIGNMENT == 0)
      ensures n <= max ==> larges == old(larges) && Placed(from, p, n, align)
      ensures n > max && p.Some? ==>
                (larges == old(larges) <==> old(exists k :: 0 <= k < |larges| && k < 5 && larges[k].alloc == None))
      ensures n > max && p.Some? ==> Region(p.value, n) in heap.live && Region(p.value, n) !in old(heap.live)
    {
      if n <= max {
        p, from := PallocFirst(n, align);
      } else {
        p := PallocLarge(n);
        from := NoBlock;
      }
    }

    /** Its small part: what is taken is no entry of the list. */
    method PallocFirst(n: nat, align: bool) returns (p: Option<nat>, ghost from: Source)
      requires Valid() && n <= max
      modifies this`current, this`cur, this`blocks, heap`live, heap`top, BlockSet()
      ensures Valid() && larges == old(larges) && Extended()
      ensures if p == None then GainedNothing() else Gained(Region(p.value, n)) && (align ==> p.value % ALIGNMENT == 0)
      ensures Placed(from, p, n, align)
    {
      p, from := PallocSmall(n, align);
      if p.Some? {
        SmallIsGained(Region(p.value, n));
      }
    }

    /** ngx_pmemalign for an alignment that memalign gives anyway. */
    method Pmemalign(n: nat) returns (p: Option<nat>)
      requires Valid() && n > 0
      modifies this`current, this`cur, this`blocks, this`large, this`larges, heap`live, heap`top, BlockSet()
      ensures Valid() && Extended() && fresh(LargeSet() - old(LargeSet()))
      ensures if p == None then GainedNothing() else Gained(Region(p.value, n)) && larges != old(larges)
    {
      p := Obtain(n);
      if p.Some? {
        p := AddLarge(p.value, n);
      }
    }

    // ---- giving back ----------------------------------------------------------------------------

    /** ngx_pfree; false is NGX_DECLINED. */
    method Pfree(p: nat) returns (freed: bool, ghost r: Region)
      requires Valid()
      modifies heap`live, heap`top, LargeSet()`alloc
      ensures Valid()
      ensures freed <==> exists k :: 0 <= k < |larges| && old(larges[k].alloc) == Some(p)
      ensures freed ==> r.lo == p && old(InUse(r)) && r in old(heap.live) && heap.live == old(heap.live) - {r}
      ensures freed ==> NotOurs(p) && !InUse(r)
      ensures forall a :: InUse(a) ==> old(InUse(a))
      ensures forall a :: old(InUse(a)) && (!freed || a.lo != p) ==> InUse(a)
    {
      var l := large;
      ghost var i := 0;
      freed, r := false, Region(0, 0);
      while l != null
        invariant i <= |larges| && l == (if i < |larges| then larges[i] else null)
        invariant forall k :: 0 <= k < i ==> larges[k].alloc != Some(p)
        decreases |larges| - i
      {
        assert LargeOk(i);
        if l.alloc == Some(p) {
          freed, r := true, Region(p, l.size);
          assert larges[i].Owns(r);
          FreeEntry(l, i, p);
          return;
        }
        l := l.next;
        i := i + 1;
      }
    }

    /** A large allocation is not also handed out from a block. */
    lemma LargeIsNotSmall(i: nat, r: Region)
      requires Valid() && i < |larges| && larges[i].Owns(r)
      ensures !Small(r)
    {
      assert LargeOk(i);
      forall k: nat | k < |blocks|
        ensures r !in blocks[k].used
      {
        assert BlockOk(k);
        LiveApart(blocks[k].Span(), r);
      }
    }

    method FreeEntry(l: Large, ghost i: nat, p: nat)
      requires Valid() && i < |larges| && l == larges[i] && l.alloc == Some(p)
      modifies heap`live, heap`top, l`alloc
      ensures Valid() && heap.live == old(heap.live) - {Region(p, l.size)} && NotOurs(p) && !InUse(Region(p, l.size))
      ensures forall a :: InUse(a) ==> old(InUse(a))
      ensures forall a :: old(InUse(a)) && a.lo != p ==> InUse(a)
    {
      assert LargeOk(i);
      DistinctEntries();
      LargeIsNotSmall(i, Region(p, l.size));
      heap.Free(Region(p, l.size));
      l.alloc := None;
      Emptied(i, Region(p, l.size));
      forall a | old(InUse(a)) && a.lo != p
        ensures InUse(a)
      {
        EmptiedUse(i, Region(p, l.size), a);
      }
    }

    /** Entry i of the list lost its memory r. */
    twostate predicate OnlyEmptied(i: nat, r: Region)
      reads *
    {
      && old(Valid()) && unchanged(this) && (forall k :: 0 <= k < |blocks| ==> unchanged(blocks[k]))
      && heap.Valid() && heap.live == old(heap.live) - {r} && i < |larges| && old(larges[i].Owns(r))
      && larges[i].alloc == None
      && larges[i].next == old(larges[i].next) && forall k :: 0 <= k < |larges| && k != i ==> unchanged(larges[k])
    }

    twostate lemma Emptied(new i: nat, new r: Region)
      requires OnlyEmptied(i, r)
      ensures Valid()
    {
      EntriesKept();
      assert old(LargeOk(i));
      forall k: nat | k < |blocks|
        ensures BlockOk(k) && NextOk(k) && FailOk(k)
      {
        assert old(BlockOk(k)) && old(NextOk(k)) && old(FailOk(k));
      }
      forall k: nat | k < |larges|
        ensures LargeOk(k)
      {
        assert old(LargeOk(k));
      }
    }

    twostate lemma EmptiedUse(new i: nat, new r: Region, new a: Region)
      requires OnlyEmptied(i, r) && old(InUse(a)) && a.lo != r.lo
      ensures InUse(a)
    {
      if k: nat :| k < |blocks| && a in old(blocks[k].used) {
        assert k < |blocks| && a in blocks[k].used;
      } else {
        var k: nat :| k < |larges| && old(larges[k].Owns(a));
        assert larges[k].Owns(a);
      }
    }

    // ---- destroying and resetting ------------------------------------------------------------------

    ghost function LargeRegions(): (rs: seq<Option<Region>>)
      reads this, larges
      ensures |rs| == |larges|
    {
      Regions(larges)
    }

    static ghost function Regions(ls: seq<Large>): (rs: seq<Option<Region>>)
      reads ls
      ensures |rs| == |ls| && forall i :: 0 <= i < |ls| ==>
                rs[i] == if ls[i].alloc.Some? then Some(Region(ls[i].alloc.value, ls[i].size)) else None
    {
      if ls == [] then []
      else
        var l := ls[|ls| - 1];
        Regions(ls[..|ls| - 1]) + [if l.alloc.Some? then Some(Region(l.alloc.value, l.size)) else None]
    }

    static ghost function Freed(rs: seq<Option<Region>>, n: nat): set<Region>
      requires n <= |rs|
    {
      set k | 0 <= k < n && rs[k].Some? :: rs[k].value
    }

    /** The regions are live and no two of them the same. */
    static ghost predicate Disposable(rs: seq<Option<Region>>, live: set<Region>) {
      && (forall i :: 0 <= i < |rs| && rs[i].Some? ==> rs[i].value in live)
      && forall i, j :: 0 <= i < j < |rs| && rs[i].Some? ==> rs[i] != rs[j]
    }

    lemma LargesDisposable()
      requires LargesOk()
      ensures Disposable(LargeRegions(), heap.live)
    {
      forall i | 0 <= i < |larges|
        ensures larges[i].alloc.Some? ==> Region(larges[i].alloc.value, larges[i].size) in heap.live
        ensures forall j :: i < j < |larges| && larges[i].alloc.Some? ==> larges[j].alloc != larges[i].alloc
      {
        assert LargeOk(i);
      }
    }

    /** The loop over the large allocations that ngx_destroy_pool and ngx_reset_pool share. */
    method FreeLarges(ghost rs: seq<Option<Region>>)
      requires LargesOk() && heap.Valid() && rs == LargeRegions()
      modifies heap`live, heap`top
      ensures heap.Valid() && heap.live == old(heap.live) - Freed(rs, |rs|)
    {
      LargesDisposable();
      ghost var live := heap.live;
      LargeList();
      var l := large;
      ghost var i := 0;
      while l != null
        invariant i <= |larges| && l == (if i < |larges| then larges[i] else null)
        invariant heap.Valid() && heap.live == live - Freed(rs, i)
        decreases |larges| - i
      {
        if l.alloc.Some? {
          assert rs[i] == Some(Region(l.alloc.value, l.size));
          heap.Free(Region(l.alloc.value, l.size));
        }
        assert EntryNext(i);
        l := l.next;
        i := i + 1;
      }
    }

    ghost predicate EntryNext(i: nat)
      requires i < |larges|
      reads this, larges[i]
    {
      larges[i].next == if i + 1 < |larges| then larges[i + 1] else null
    }

    lemma LargeList()
      requires LargesOk()
      ensures forall i: nat {:trigger EntryNext(i)} :: i < |larges| ==> EntryNext(i)
    {
      forall i: nat | i < |larges|
        ensures EntryNext(i)
      {
        assert LargeOk(i);
      }
    }

    static ghost function Spans(bs: seq<Block>): (rs: seq<Option<Region>>)
      requires forall i :: 0 <= i < |bs| ==> bs[i].base <= bs[i].end
      ensures |rs| == |bs| && forall i :: 0 <= i < |bs| ==> rs[i] == Some(bs[i].Span())
    {
      if bs == [] then [] else Spans(bs[..|bs| - 1]) + [Some(bs[|bs| - 1].Span())]
    }

    lemma BlockBounds()
      requires BlocksOk()
      ensures forall i :: 0 <= i < |blocks| ==> blocks[i].base <= blocks[i].end
    {
      forall i: nat | i < |blocks|
        ensures blocks[i].base <= blocks[i].end
      {
        assert BlockOk(i);
      }
    }

    lemma BlocksDisposable(rs: seq<Option<Region>>)
      requires BlocksOk() && (forall i :: 0 <= i < |blocks| ==> blocks[i].base <= blocks[i].end) && rs == Spans(blocks)
      ensures Disposable(rs, heap.live)
    {
      forall i: nat | i < |rs|
        ensures rs[i].Some? ==> rs[i].value in heap.live
      {
        assert BlockOk(i);
      }
      forall i, j | 0 <= i < j < |rs|
        ensures rs[i] != rs[j]
      {
        assert BlockOk(j);
      }
    }

    /** The blocks are not among the large allocations. */
    lemma LargesAreNoBlocks(larger: seq<Option<Region>>, spans: seq<Option<Region>>)
      requires BlocksOk() && LargesOk() && (forall i :: 0 <= i < |blocks| ==> blocks[i].base <= blocks[i].end)
      requires larger == LargeRegions() && spans == Spans(blocks)
      ensures forall i :: 0 <= i < |blocks| ==> blocks[i].Span() !in Freed(larger, |larger|)
    {
      forall i | 0 <= i < |blocks|
        ensures blocks[i].Span() !in Freed(larger, |larger|)
      {
        forall k: nat | k < |larges| && larges[k].alloc.Some?
          ensures larges[k].alloc.value != blocks[i].base
        {
          assert LargeOk(k);
        }
      }
    }

    /** ngx_destroy_pool: everything the pool got from the system is freed, each region once, and nothing else. */
    method Destroy()
      requires Valid()
      modifies heap`live, heap`top
      ensures heap.Valid()
      ensures forall i :: 0 <= i < |blocks| ==> blocks[i].base <= blocks[i].end
      ensures heap.live == old(heap.live) - Freed(LargeRegions(), |larges|) - Freed(Spans(blocks), |blocks|)
    {
      BlockBounds();
      ghost var larger, spans := LargeRegions(), Spans(blocks);
      LargesAreNoBlocks(larger, spans);
      BlocksDisposable(spans);
      FreeLarges(larger);
      FreeBlocks(spans);
    }

    method FreeBlocks(ghost spans: seq<Option<Region>>)
      requires Chained() && heap.Valid() && Disposable(spans, heap.live)
      requires (forall i :: 0 <= i < |blocks| ==> blocks[i].base <= blocks[i].end) && spans == Spans(blocks)
      modifies heap`live, heap`top
      ensures heap.Valid() && heap.live == old(heap.live) - Freed(spans, |spans|)
    {
      var p: Block, n := first, first.next;
      ghost var i, live := 0, heap.live;
      assert NextOk(0);
      while true
        invariant i < |blocks| && p == blocks[i] && n == p.next && NextOk(i)
        invariant heap.Valid() && heap.live == live - Freed(spans, i)
        decreases |blocks| - i
      {
        assert spans[i] == Some(p.Span());
        heap.Free(p.Span());
        i := i + 1;
        if n == null {
          break;
        }
        assert NextOk(i);
        p, n := n, n.next;
      }
    }

    /** The reset loop has come to block i: the blocks before it are empty. */
    ghost predicate Resetting(i: nat)
      reads this, blocks
    {
      && i <= |blocks|
      && (forall k :: 0 <= k < |blocks| ==> blocks[k].Valid() && blocks[k].base + POOL_HEADER <= blocks[k].end)
      && forall k :: 0 <= k < i ==>
           blocks[k].failed == 0 && blocks[k].used == {} && blocks[k].last == blocks[k].base + POOL_HEADER
    }

    lemma ReadyToReset()
      requires BlocksOk()
      ensures Resetting(0)
    {
      forall k: nat | k < |blocks|
        ensures blocks[k].Valid() && blocks[k].base + POOL_HEADER <= blocks[k].end
      {
        assert BlockOk(k);
      }
    }

    method ResetBlocks()
      requires Chained() && DistinctBlocks() && Resetting(0)
      modifies BlockSet()`last, BlockSet()`failed, BlockSet()`used
      ensures Resetting(|blocks|)
    {
      var p: Block? := first;
      ghost var i := 0;
      while p != null
        invariant Chained() && Resetting(i) && p == (if i < |blocks| then blocks[i] else null)
        decreases |blocks| - i
      {
        ResetOne(p, i);
        assert NextOk(i);
        p := p.next;
        i := i + 1;
      }
    }

    method ResetOne(p: Block, ghost i: nat)
      requires Chained() && DistinctBlocks() && Resetting(i) && i < |blocks| && p == blocks[i]
      modifies p`last, p`failed, p`used
      ensures Chained() && Resetting(i + 1)
    {
      p.Reset();
      forall k: nat | k < |blocks|
        ensures NextOk(k)
      {
        assert old(NextOk(k));
      }
    }

    /** ngx_reset_pool: the blocks stay, empty, and the large allocations are freed, each once. */
    method ResetPool()
      requires Valid()
      modifies this`current, this`cur, this`large, this`larges, heap`live, heap`top
      modifies BlockSet()`last, BlockSet()`failed, BlockSet()`used
      ensures Valid() && (forall a :: !InUse(a)) && current == first && larges == []
      ensures forall k :: 0 <= k < |blocks| ==> blocks[k].failed == 0 && blocks[k].last == blocks[k].base + POOL_HEADER
      ensures heap.live == old(heap.live) - old(Freed(LargeRegions(), |larges|))
    {
      FreeOnlyLarges();
      EmptyBlocks();
      StartOver();
    }

    method FreeOnlyLarges()
      requires Valid()
      modifies heap`live, heap`top
      ensures heap.Valid() && BlocksOk()
      ensures heap.live == old(heap.live) - Freed(LargeRegions(), |larges|)
    {
      BlockBounds();
      LargesAreNoBlocks(LargeRegions(), Spans(blocks));
      FreeLarges(LargeRegions());
      forall k: nat | k < |blocks|
        ensures BlockOk(k)
      {
        assert old(BlockOk(k));
      }
    }

    method EmptyBlocks()
      requires Chained() && BlocksOk()
      modifies BlockSet()`last, BlockSet()`failed, BlockSet()`used
      ensures Chained() && BlocksOk() && Resetting(|blocks|)
    {
      AllDistinct();
      ReadyToReset();
      ResetBlocks();
      forall k: nat | k < |blocks|
        ensures BlockOk(k)
      {
        assert old(BlockOk(k));
      }
    }

    method StartOver()
      requires Chained() && BlocksOk() && Resetting(|blocks|) && heap.Valid()
      modifies this`current, this`cur, this`large, this`larges
      ensures Valid() && (forall a :: !InUse(a)) && current == first && larges == []
    {
      assert NextOk(0);
      current := first;
      cur := 0;
      large := null;
      larges := [];
      forall k: nat | k < |blocks|
        ensures BlockOk(k) && NextOk(k) && FailOk(k)
      {
        assert old(BlockOk(k)) && old(NextOk(k));
      }
    }

    // ---- what the arrays do to the pool's first block ---------------------------------------------

    /** A region in use that ends where the first block's free part begins lies in the first block. */
    lemma EndsAtLast(r: Region)
      requires Valid() && InUse(r) && r.size > 0 && r.End() == first.last
      ensures r in first.used
    {
      assert BlockOk(0);
      var h := Holder(r);
      HolderElsewhere(0, r, h);
      if h.lo != first.base {
        LiveApart(h, first.Span());
      }
    }

    /** The region at the end of the first block's used part becomes longer. */
    method GrowFirst(ghost r: Region, more: nat)
      requires Valid() && r in first.used && !IsEntry(r) && r.size > 0 && r.End() == first.last
               && first.last + more <= first.end
      modifies first`last, first`used
      ensures Valid() && first.last == old(first.last) + more
      ensures InUse(Region(r.lo, r.size + more)) && !IsEntry(Region(r.lo, r.size + more))
      ensures forall a :: old(InUse(a)) && a != r ==> InUse(a) && Apart(a, Region(r.lo, r.size + more))
      ensures forall a :: InUse(a) ==> old(InUse(a)) || a == Region(r.lo, r.size + more)
    {
      assert BlockOk(0);
      AllDistinct();
      assert InUse(r);
      LongerIsNoEntry(r, more);
      forall a | InUse(a) && a != r
        ensures Apart(a, r)
      {
        NoOverlap(a, r);
      }
      first.Grow(r, more);
      StillValid(0);
      ghost var grown := Region(r.lo, r.size + more);
      assert grown in blocks[0].used;
      forall a | old(InUse(a)) && a != r
        ensures InUse(a) && Apart(a, grown)
      {
        StillUses(r, a);
        NoOverlap(a, grown);
      }
    }

    /** A region that is no entry is not the beginning of one. */
    lemma LongerIsNoEntry(r: Region, more: nat)
      requires Valid() && InUse(r) && !IsEntry(r) && r.size > 0
      ensures !IsEntry(Region(r.lo, r.size + more))
    {
      var longer := Region(r.lo, r.size + more);
      NotEntry(longer);
      if InUse(longer) && longer != r {
        NoOverlap(longer, r);
      }
    }

    twostate lemma StillUses(new r: Region, new a: Region)
      requires OnlyUsed(0) && old(InUse(a)) && a != r && old(blocks[0].used) - {r} <= blocks[0].used
      ensures InUse(a)
    {
      if k: nat :| k < |blocks| && a in old(blocks[k].used) {
        assert k < |blocks| && a in blocks[k].used;
      } else {
        var k: nat :| k < |larges| && old(larges[k].Owns(a));
        assert larges[k].Owns(a);
      }
    }

    /** The region at the end of the first block's used part is taken back. */
    method CutFirst(ghost r: Region, size: nat)
      requires Valid() && r in first.used && !IsEntry(r) && r.size == size > 0 && r.End() == first.last
      modifies first`last, first`used
      ensures Valid() && first.last == r.lo && first.used == old(first.used) - {r}
      ensures forall a :: old(InUse(a)) && a != r ==> InUse(a)
      ensures forall a :: InUse(a) ==> old(InUse(a))
    {
      assert BlockOk(0);
      AllDistinct();
      first.Cut(r, size);
      StillValid(0);
      forall a | old(InUse(a)) && a != r
        ensures InUse(a)
      {
        StillUses(r, a);
      }
    }
  }
}
