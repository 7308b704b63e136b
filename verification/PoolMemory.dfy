/**
 * Regions of memory, the system allocator below the pools, and one block of a pool with its
 * bump pointer (ngx_palloc.c). Sizes are those of a 64-bit machine.
 */
module PoolMemory {
  import opened Basics

  /** NGX_POOL_ALIGNMENT, NGX_ALIGNMENT, and sizeof ngx_pool_data_t, ngx_pool_t and ngx_pool_large_t. */
  const POOL_ALIGNMENT := 16
  const ALIGNMENT := 8
  const DATA_HEADER := 32
  const POOL_HEADER := 80
  const LARGE_SIZE := 16

  datatype Region = Region(lo: nat, size: nat) {
    function End(): nat {
      lo + size
    }

    predicate Within(r: Region) {
      r.lo <= lo && End() <= r.End()
    }
  }

  /** No byte belongs to both. */
  predicate Apart(a: Region, b: Region) {
    a.size == 0 || b.size == 0 || a.End() <= b.lo || b.End() <= a.lo
  }

  lemma WithinApart(a: Region, b: Region, r: Region, s: Region)
    ensures Apart(r, s) && a.Within(r) && b.Within(s) ==> Apart(a, b)
  {
  }

  ghost predicate AllApart(s: set<Region>) {
    forall a, b :: a in s && b in s && a != b ==> Apart(a, b)
  }

  /** ngx_align_ptr */
  function Align(m: nat): (r: nat)
    ensures m <= r < m + ALIGNMENT && r % ALIGNMENT == 0
  {
    (m + (ALIGNMENT - 1)) / ALIGNMENT * ALIGNMENT
  }

  /** malloc, memalign and free; live is what has been allocated and not freed, bytes what the memory holds. */
  class Heap {
    ghost var live: set<Region>
    var top: nat
    var bytes: map<nat, bv8>

    ghost predicate Valid()
      reads this`live, this`top
    {
      AllApart(live) && forall r :: r in live ==> r.End() <= top
    }

    constructor ()
      ensures Valid() && live == {}
    {
      live, top, bytes := {}, POOL_ALIGNMENT, map[];
    }

    function ByteAt(a: nat): bv8
      reads this`bytes
    {
      if a in bytes then bytes[a] else 0
    }

    /** ngx_memcpy of n bytes, to a place that does not overlap. */
    method Memcpy(dst: nat, src: nat, n: nat)
      requires Apart(Region(dst, n), Region(src, n))
      modifies this`bytes
      ensures forall a: nat :: ByteAt(a) == if dst <= a < dst + n then old(ByteAt(src + (a - dst))) else old(ByteAt(a))
    {
      for i := 0 to n
        invariant forall a: nat ::
                    ByteAt(a) == if dst <= a < dst + i then old(ByteAt(src + (a - dst))) else old(ByteAt(a))
      {
        var b := ByteAt(src + i);
        assert b == old(ByteAt(src + i));
        label Before:
        bytes := bytes[dst + i := b];
        assert ByteAt(dst + i) == b && src + (dst + i - dst) == src + i;
        assert forall a: nat :: a != dst + i ==> ByteAt(a) == old@Before(ByteAt(a));
      }
    }

    /** Fails, or answers an aligned address of memory that nobody has. */
    method Memalign(size: nat) returns (p: Option<nat>)
      requires Valid() && size > 0
      modifies this`live, this`top
      ensures Valid()
      ensures p == None ==> live == old(live)
      ensures p.Some? ==>
                var r := Region(p.value, size);
                && p.value % POOL_ALIGNMENT == 0 && live == old(live) + {r} && r !in old(live)
                && forall a :: a in old(live) ==> Apart(a, r)
    {
      if * {
        return None;
      }
      var m := (top + (POOL_ALIGNMENT - 1)) / POOL_ALIGNMENT * POOL_ALIGNMENT;
      p := Some(m);
      top := m + size;
      live := live + {Region(m, size)};
    }

    /** Only what is live may be freed. */
    method Free(ghost r: Region)
      requires Valid() && r in live
      modifies this`live
      ensures Valid() && live == old(live) - {r}
    {
      live := live - {r};
    }
  }

  /** ngx_pool_data_t at the head of its block; used are the regions handed out from it. */
  class Block {
    const base: nat
    const end: nat
    var last: nat
    var next: Block?
    var failed: nat
    ghost var used: set<Region>

    ghost function Span(): Region
      requires base <= end
    {
      Region(base, end - base)
    }

    ghost predicate Valid()
      reads this
    {
      && base % POOL_ALIGNMENT == 0 && end % ALIGNMENT == 0 && base + DATA_HEADER <= last <= end
      && AllApart(used)
      && forall r :: r in used ==> base + DATA_HEADER <= r.lo && r.End() <= end && (r.size > 0 ==> r.End() <= last)
    }

    /** A block at m whose first bytes after header are free. */
    constructor (m: nat, size: nat, header: nat)
      requires m % POOL_ALIGNMENT == 0 && size % ALIGNMENT == 0 && DATA_HEADER <= header <= size
      ensures Valid() && base == m && end == m + size && last == m + header && next == null && failed == 0 && used == {}
    {
      base, end, last, next, failed, used := m, m + size, m + header, null, 0, {};
    }

    /** Where the next allocation would start. */
    function Start(align: bool): nat
      reads this
    {
      if align then Align(last) else last
    }

    /** The test of ngx_palloc_small on one block. */
    predicate HasRoom(size: nat, align: bool)
      reads this
    {
      end - Start(align) >= size
    }

    /** What it does with a block that has room. */
    method Take(size: nat, align: bool) returns (p: nat)
      requires Valid() && HasRoom(size, align)
      modifies this`last, this`used
      ensures Valid() && p == old(Start(align)) && last == p + size && used == old(used) + {Region(p, size)}
      ensures Region(p, size).Within(Span()) && forall r :: r in old(used) ==> Apart(r, Region(p, size))
    {
      p := Start(align);
      last := p + size;
      used := used + {Region(p, size)};
    }

    /** The region at the end of what is handed out becomes longer in place. */
    method Grow(ghost r: Region, more: nat)
      requires Valid() && r in used && r.size > 0 && r.End() == last && last + more <= end
      modifies this`last, this`used
      ensures Valid() && last == old(last) + more && used == old(used) - {r} + {Region(r.lo, r.size + more)}
      ensures forall a :: a in old(used) && a != r ==> Apart(a, Region(r.lo, r.size + more))
    {
      assert forall a :: a in used && a != r ==> Apart(a, r);
      last := last + more;
      used := used - {r} + {Region(r.lo, r.size + more)};
    }

    /** The region at the end of what is handed out is taken back. */
    method Cut(ghost r: Region, size: nat)
      requires Valid() && r in used && r.size == size > 0 && r.End() == last
      modifies this`last, this`used
      ensures Valid() && last == r.lo && used == old(used) - {r}
    {
      assert forall a :: a in used && a != r ==> Apart(a, r);
      last := last - size;
      used := used - {r};
    }

    /** What ngx_reset_pool does to each block. */
    method Reset()
      requires Valid() && base + POOL_HEADER <= end
      modifies this`last, this`failed, this`used
      ensures Valid() && last == base + POOL_HEADER && failed == 0 && used == {}
    {
      last := base + POOL_HEADER;
      failed := 0;
      used := {};
    }
  }
}
