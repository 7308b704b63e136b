/** Arrays that grow inside a pool (ngx_array.c). */
module PoolArray {
  import opened Basics
  import opened PoolMemory
  import opened Palloc

  /** sizeof ngx_array_t */
  const ARRAY_SIZE := 40

  class Array {
    const pool: Pool
    const address: nat
    const elementSize: nat
    var elements: nat
    var elementCount: nat
    var capacity: nat

    /** The memory of the elements, and that of the array's own fields. */
    function Buffer(): Region
      reads this
    {
      Region(elements, elementSize * capacity)
    }

    function Header(): Region {
      Region(address, ARRAY_SIZE)
    }

    /** Byte k of the elements. */
    function Byte(k: nat): bv8
      reads this`elements, pool.heap`bytes
    {
      pool.heap.ByteAt(elements + k)
    }

    ghost predicate Valid()
      reads this, pool, pool.heap`live, pool.heap`top, pool.blocks, pool.larges
    {
      && pool.Valid() && elementSize > 0 && capacity > 0 && elementCount <= capacity
      && pool.InUse(Buffer()) && pool.InUse(Header()) && Buffer() != Header()
      && !pool.IsEntry(Buffer()) && !pool.IsEntry(Header())
    }

    /** An array over memory from the pool. */
    constructor (pool: Pool, address: nat, elements: nat, n: nat, size: nat)
      requires pool.Valid() && n > 0 && size > 0
      requires var buffer, header := Region(elements, size * n), Region(address, ARRAY_SIZE);
               buffer != header && forall r :: r in {buffer, header} ==> pool.InUse(r) && !pool.IsEntry(r)
      ensures Valid() && this.pool == pool && elementCount == 0 && capacity == n && elementSize == size
    {
      this.pool, this.address, elementSize := pool, address, size;
      this.elements, elementCount, capacity := elements, 0, n;
    }

    /**
     * Everything else in the pool stays where it is and apart from the buffer, and memory beside
     * the buffer as it was.
     */
    twostate predicate OthersKept()
      reads *
    {
      && (forall a :: old(pool.InUse(a)) && a != old(Buffer()) ==>
            pool.InUse(a) && Apart(a, Buffer()) && (pool.IsEntry(a) ==> old(pool.IsEntry(a))))
      && (forall b: nat :: b < elements || Buffer().End() <= b ==> pool.heap.ByteAt(b) == old(pool.heap.ByteAt(b)))
    }

    /** The elements there were are in the buffer, byte by byte. */
    twostate predicate ElementsKept()
      reads this, pool.heap
    {
      forall k: nat :: k < elementSize * old(elementCount) ==> Byte(k) == old(Byte(k))
    }

    /** The buffer is the last thing in the first block, and n more elements fit behind it. */
    predicate CanExtend(n: nat)
      reads this, pool, pool.first
    {
      elements + elementSize * capacity == pool.first.last && pool.first.last + elementSize * n <= pool.first.end
    }

    /** In numbers: the buffer ends where the first block's free part begins, and n elements more end in the block. */
    lemma CanExtendIs(n: nat)
      ensures CanExtend(n) <==> Buffer().End() == pool.first.last && Buffer().End() + elementSize * n <= pool.first.end
    {
    }

    /** The test whether n more elements fit behind the buffer. */
    method FitsBehind(n: nat) returns (fits: bool)
      requires Valid()
      ensures fits == CanExtend(n)
      ensures fits ==> Buffer() in pool.first.used && Buffer().size > 0
    {
      BufferNotEmpty();
      fits := elements + elementSize * capacity == pool.first.last
              && pool.first.last + elementSize * n <= pool.first.end;
      if fits {
        pool.EndsAtLast(Buffer());
      }
    }

    lemma BufferNotEmpty()
      requires elementSize > 0 && capacity > 0
      ensures Buffer().size > 0
    {
    }

    /** The buffer takes the memory behind it. */
    method Extend(n: nat)
      requires Valid() && Buffer() in pool.first.used && Buffer().size > 0 && CanExtend(n)
      modifies this`capacity, pool.first`last, pool.first`used
      ensures Valid() && capacity == old(capacity) + n && OthersKept()
    {
      ghost var r := Buffer();
      pool.GrowFirst(r, elementSize * n);
      Distribute(elementSize, capacity, n);
      capacity := capacity + n;
    }

    static lemma Distribute(a: nat, b: nat, c: nat)
      ensures a * (b + c) == a * b + a * c
    {
    }

    /** Regions in use do not overlap the buffer. */
    lemma BufferApart()
      requires Valid()
      ensures forall a :: pool.InUse(a) && a != Buffer() ==> Apart(a, Buffer())
    {
      forall a | pool.InUse(a) && a != Buffer()
        ensures Apart(a, Buffer())
      {
        pool.NoOverlap(a, Buffer());
      }
    }

    /** The buffer moves to new memory for n elements; the memory of the first m elements is copied. */
    method Move(n: nat, m: nat) returns (ok: bool)
      requires Valid() && elementCount <= m <= capacity && m <= n && n > 0
      modifies this`elements, this`capacity, pool`current, pool`cur, pool`blocks, pool`large, pool`larges
      modifies pool.heap`live, pool.heap`top, pool.heap`bytes, pool.BlockSet(), pool.LargeSet()
      ensures Valid() && OthersKept() && ElementsKept()
      ensures capacity == (if ok then n else old(capacity)) && (!ok ==> elements == old(elements))
    {
      ok := TryMove(n, m, Uses() - iset{Buffer()}, Entries());
    }

    /** The same, for the regions in was besides the buffer, and the list entries. */
    method TryMove(n: nat, m: nat, ghost was: iset<Region>, ghost entries: iset<Region>) returns (ok: bool)
      requires Valid() && elementCount <= m <= capacity && m <= n && n > 0
      requires was == Uses() - iset{Buffer()} && entries == Entries()
      modifies this`elements, this`capacity, pool`current, pool`cur, pool`blocks, pool`large, pool`larges
      modifies pool.heap`live, pool.heap`top, pool.heap`bytes, pool.BlockSet(), pool.LargeSet()
      ensures Valid() && Spared(was, entries, Buffer()) && ElementsKept()
      ensures forall b: nat :: b < elements || Buffer().End() <= b ==> pool.heap.ByteAt(b) == old(pool.heap.ByteAt(b))
      ensures capacity == (if ok then n else old(capacity)) && (!ok ==> elements == old(elements))
    {
      var newArray := Reserve(n, was, entries);
      if newArray == None {
        return false;
      }
      MoveTo(newArray.value, n, m, was, entries);
      return true;
    }

    ghost function Uses(): iset<Region>
      reads pool, pool.blocks, pool.larges
    {
      iset a | pool.InUse(a)
    }

    ghost function Entries(): iset<Region>
      reads pool
    {
      iset a | pool.IsEntry(a)
    }

    /** The regions in was are in use, apart from r, and list entries only as far as they are in entries. */
    ghost predicate Spared(was: iset<Region>, entries: iset<Region>, r: Region)
      reads pool, pool.blocks, pool.larges
    {
      forall a :: a in was ==> pool.InUse(a) && Apart(a, r) && (pool.IsEntry(a) ==> a in entries)
    }

    /** New memory for n elements, apart from everything in use. */
    method Reserve(n: nat, ghost was: iset<Region>, ghost entries: iset<Region>) returns (p: Option<nat>)
      requires Valid() && was == Uses() - iset{Buffer()} && entries == Entries()
      modifies pool`current, pool`cur, pool`blocks, pool`large, pool`larges
      modifies pool.heap`live, pool.heap`top, pool.BlockSet(), pool.LargeSet()
      ensures Valid()
      ensures p == None ==> Spared(was, entries, Buffer())
      ensures p.Some? ==>
                var r := Region(p.value, n * elementSize);
                && pool.InUse(r) && !pool.IsEntry(r) && Apart(Buffer(), r) && Apart(Header(), r)
                && Spared(was, entries, r)
    {
      ghost var from;
      p, from := pool.Palloc(n * elementSize, true);
      if p == None {
        BufferApart();
      }
    }

    method MoveTo(p: nat, n: nat, m: nat, ghost was: iset<Region>, ghost entries: iset<Region>)
      requires Valid() && elementCount <= m <= capacity && m <= n && n > 0
      requires var r := Region(p, n * elementSize);
               && pool.InUse(r) && !pool.IsEntry(r) && Apart(Buffer(), r) && Apart(Header(), r)
               && Spared(was, entries, r)
      modifies this`elements, this`capacity, pool.heap`bytes
      ensures Valid() && ElementsKept() && capacity == n && Buffer() == Region(p, n * elementSize)
      ensures Spared(was, entries, Buffer())
      ensures forall b: nat :: b < p || p + n * elementSize <= b ==> pool.heap.ByteAt(b) == old(pool.heap.ByteAt(b))
    {
      Monotone(elementSize, elementCount, m);
      Copy(p, n, m);
      SetBuffer(p, n);
    }

    /** The memory of the first m elements goes to the front of that at p. */
    method Copy(p: nat, n: nat, m: nat)
      requires m <= capacity && m <= n && Apart(Buffer(), Region(p, n * elementSize))
      modifies pool.heap`bytes
      ensures forall k: nat :: k < elementSize * m ==> pool.heap.ByteAt(p + k) == old(Byte(k))
      ensures forall b: nat :: b < p || p + n * elementSize <= b ==> pool.heap.ByteAt(b) == old(pool.heap.ByteAt(b))
    {
      Monotone(elementSize, m, capacity);
      Monotone(elementSize, m, n);
      WithinApart(Region(elements, elementSize * m), Region(p, elementSize * m), Buffer(), Region(p, n * elementSize));
      pool.heap.Memcpy(p, elements, elementSize * m);
    }

    method SetBuffer(m: nat, n: nat)
      requires pool.Valid() && elementSize > 0 && n > 0 && elementCount <= n
      requires var r := Region(m, n * elementSize); pool.InUse(r) && !pool.IsEntry(r) && Apart(Header(), r)
      requires pool.InUse(Header()) && !pool.IsEntry(Header())
      modifies this`elements, this`capacity
      ensures Valid() && elements == m && capacity == n && Buffer() == Region(m, n * elementSize)
    {
      elements := m;
      capacity := n;
      BufferNotEmpty();
    }

    /** The array is full: it grows by n in place, or else moves to a buffer of the given capacity with the first m. */
    method MakeRoom(n: nat, doubled: nat, m: nat) returns (ok: bool)
      requires Valid() && doubled >= elementCount + n && doubled > 0 && elementCount <= m <= capacity && m <= doubled
      modifies this`elements, this`capacity, pool`current, pool`cur, pool`blocks, pool`large, pool`larges
      modifies pool.heap`live, pool.heap`top, pool.heap`bytes, pool.BlockSet(), pool.LargeSet()
      ensures Valid() && OthersKept() && ElementsKept()
      ensures if old(CanExtend(n)) then ok && capacity == old(capacity) + n && elements == old(elements)
              else if ok then capacity == doubled else capacity == old(capacity) && elements == old(elements)
    {
      var fits := FitsBehind(n);
      if fits {
        Extend(n);
        return true;
      }
      ok := Move(doubled, m);
    }

    /** The next n elements are there; e is the address of the first. */
    method Add(n: nat) returns (e: nat)
      requires elementCount + n <= capacity
      modifies this`elementCount
      ensures elementCount == old(elementCount) + n && e == elements + elementSize * old(elementCount)
      ensures Region(e, elementSize * n).Within(Buffer())
    {
      e := elements + elementSize * elementCount;
      Inside(elementCount, n);
      elementCount := elementCount + n;
    }

    /** ngx_array_push; the answer is the address of the new element. */
    method Push() returns (elt: Option<nat>)
      requires Valid()
      modifies this`elements, this`elementCount, this`capacity
      modifies pool`current, pool`cur, pool`blocks, pool`large, pool`larges
      modifies pool.heap`live, pool.heap`top, pool.heap`bytes, pool.BlockSet(), pool.LargeSet()
      ensures Valid() && OthersKept() && ElementsKept()
      ensures elt == None ==>
                elementCount == old(elementCount) && capacity == old(capacity) && elements == old(elements)
      ensures elt.Some? ==>
                elementCount == old(elementCount) + 1 && elt.value == elements + elementSize * old(elementCount)
      ensures elt.Some? ==> Region(elt.value, elementSize).Within(Buffer())
      ensures old(elementCount == capacity && CanExtend(1)) ==>
                elt.Some? && elements == old(elements) && capacity == old(capacity) + 1
      ensures elt.Some? && old(elementCount == capacity && !CanExtend(1)) ==> capacity == 2 * old(capacity)
      ensures old(elementCount < capacity) ==> elt.Some? && capacity == old(capacity) && elements == old(elements)
    {
      if elementCount == capacity {
        var ok := MakeRoom(1, 2 * capacity, capacity);
        if !ok {
          return None;
        }
      } else {
        BufferApart();
      }
      var e := Add(1);
      assert elementSize * 1 == elementSize;
      elt := Some(e);
    }

    /** ngx_array_push_n; the answer is the address of the first of n new elements. */
    method PushN(n: nat) returns (elt: Option<nat>)
      requires Valid()
      modifies this`elements, this`elementCount, this`capacity
      modifies pool`current, pool`cur, pool`blocks, pool`large, pool`larges
      modifies pool.heap`live, pool.heap`top, pool.heap`bytes, pool.BlockSet(), pool.LargeSet()
      ensures Valid() && OthersKept() && ElementsKept()
      ensures elt == None ==>
                elementCount == old(elementCount) && capacity == old(capacity) && elements == old(elements)
      ensures elt.Some? ==>
                elementCount == old(elementCount) + n && elt.value == elements + elementSize * old(elementCount)
      ensures elt.Some? ==> Region(elt.value, elementSize * n).Within(Buffer())
      ensures old(elementCount + n > capacity && CanExtend(n)) ==>
                elt.Some? && elements == old(elements) && capacity == old(capacity) + n
      ensures elt.Some? && old(elementCount + n > capacity && !CanExtend(n)) ==>
                capacity == 2 * if n >= old(capacity) then n else old(capacity)
      ensures old(elementCount + n <= capacity) ==> elt.Some? && capacity == old(capacity) && elements == old(elements)
    {
      if elementCount + n > capacity {
        var ok := MakeRoom(n, 2 * if n >= capacity then n else capacity, elementCount);
        if !ok {
          return None;
        }
      } else {
        BufferApart();
      }
      var e := Add(n);
      elt := Some(e);
    }

    /** Elements k to k + n lie in the buffer. */
    lemma Inside(k: nat, n: nat)
      requires k + n <= capacity
      ensures Region(elements + elementSize * k, elementSize * n).Within(Buffer())
    {
      assert elementSize * k + elementSize * n == elementSize * (k + n);
      Monotone(elementSize, k + n, capacity);
    }

    static lemma Monotone(a: nat, b: nat, c: nat)
      requires b <= c
      ensures a * b <= a * c
    {
    }

    /** ngx_array_destroy: what lies at the end of the first block is taken back, the buffer first. */
    method Destroy()
      requires Valid()
      modifies pool.first`last, pool.first`used
      ensures pool.Valid()
      ensures forall a :: old(pool.InUse(a)) && a != Buffer() && a != Header() ==> pool.InUse(a)
      ensures forall a :: pool.InUse(a) ==> old(pool.InUse(a))
      ensures var end := old(pool.first.last);
              var last := if Buffer().End() == end then elements else end;
              pool.first.last == if Header().End() == last then address else last
    {
      BufferNotEmpty();
      if elements + elementSize * capacity == pool.first.last {
        pool.EndsAtLast(Buffer());
        pool.CutFirst(Buffer(), elementSize * capacity);
      }
      if address + ARRAY_SIZE == pool.first.last {
        pool.EndsAtLast(Header());
        pool.CutFirst(Header(), ARRAY_SIZE);
      }
    }

    // ---- several arrays in one pool ---------------------------------------------------------------

    /** Two arrays in one pool, which share no region. */
    ghost predicate Beside(b: Array)
      reads this, b, pool, pool.heap`live, pool.heap`top, pool.blocks, pool.larges
    {
      && b != this && b.pool == pool && Valid() && b.Valid()
      && Buffer() != b.Buffer() && Buffer() != b.Header() && Header() != b.Buffer() && Header() != b.Header()
    }

    /** What a push to one array keeps of another: its place, its validity, and every byte of its buffer. */
    twostate lemma OtherIsKept(b: Array)
      requires old(Beside(b)) && Valid() && OthersKept() && unchanged(b)
      ensures Beside(b) && forall k: nat :: k < b.Buffer().size ==> b.Byte(k) == old(b.Byte(k))
    {
      BufferNotEmpty();
      b.BufferNotEmpty();
      assert old(pool.InUse(b.Buffer())) && old(pool.InUse(b.Header()));
    }

    /** A push while another array is in use in the pool. */
    method PushBeside(ghost b: Array) returns (elt: Option<nat>)
      requires Beside(b)
      modifies this`elements, this`elementCount, this`capacity
      modifies pool`current, pool`cur, pool`blocks, pool`large, pool`larges
      modifies pool.heap`live, pool.heap`top, pool.heap`bytes, pool.BlockSet(), pool.LargeSet()
      ensures Beside(b) && unchanged(b) && forall k: nat :: k < b.Buffer().size ==> b.Byte(k) == old(b.Byte(k))
    {
      elt := Push();
      OtherIsKept(b);
    }

    method PushNBeside(n: nat, ghost b: Array) returns (elt: Option<nat>)
      requires Beside(b)
      modifies this`elements, this`elementCount, this`capacity
      modifies pool`current, pool`cur, pool`blocks, pool`large, pool`larges
      modifies pool.heap`live, pool.heap`top, pool.heap`bytes, pool.BlockSet(), pool.LargeSet()
      ensures Beside(b) && unchanged(b) && forall k: nat :: k < b.Buffer().size ==> b.Byte(k) == old(b.Byte(k))
    {
      elt := PushN(n);
      OtherIsKept(b);
    }

    /** The end of one array while another is in use. */
    method DestroyBeside(ghost b: Array)
      requires Beside(b)
      modifies pool.first`last, pool.first`used
      ensures b.Valid() && unchanged(b)
    {
      Destroy();
    }
  }
}
