/** The allocator of kernel/mem/tlsf.c: the control structure, and the operations on it and on memory. */
module TlsfHeap {
  import opened TlsfMapping
  import opened TlsfRequests
  import opened Multiples
  import opened TlsfBlocks
  import opened TlsfMemory

  const POINTER_OFFSET := 16      // block_start_offset
  const POOL_OVERHEAD := 16

  /** tlsf_ffs of a word whose bits below `from` are masked off; `limit` when no bit is left. */
  function FirstBit(bits: set<int>, from: nat, limit: nat): (r: nat)
    requires from <= limit
    ensures from <= r <= limit && (r < limit ==> r in bits)
    ensures forall i | from <= i < r :: i !in bits
    decreases limit - from
  {
    if from == limit || from in bits then from else FirstBit(bits, from + 1, limit)
  }

  /** No free block reaches the class that a search for this size starts from. */
  ghost predicate Exhausted(h: Heap, size: nat) {
    forall x | x in h.nodes && h.nodes[x].free :: !Below(MappingSearch(size), MappingInsert(h.nodes[x].size))
  }

  /**
   No free block will do for a request with this alignment: the request is turned down, or no free block
   reaches the class that a search for the request starts from, which for alignments above eight and
   below 2^63 is a search for the next multiple of the alignment from request, alignment and minimal
   gap together on.
  */
  ghost predicate NoRoomFor(h: Heap, align: nat, size: nat)
    requires 0 < align < SIZE_T && size < SIZE_T
  {
    var adjust := AdjustRequestSize(size, ALIGN_SIZE);
    || adjust == 0
    || (align <= ALIGN_SIZE && Exhausted(h, adjust))
    || (ALIGN_SIZE < align < TOP_BIT &&
        var least := adjust + align + GAP_MINIMUM;
        forall s: nat | NextMultiple(align, least, s) && s < BLOCK_SIZE_MAX :: Exhausted(h, s))
    || (align >= TOP_BIT && Exhausted(h, BLOCK_SIZE_MIN))
  }

  /** That is what a search for AlignedSize finds out. */
  lemma SearchSaysNoRoom(h: Heap, align: nat, size: nat)
    requires 0 < align < SIZE_T && IsPow2(align) && size < SIZE_T
    ensures NoRoomFor(h, align, size) <==> AlignedSize(align, size) == 0 || Exhausted(h, AlignedSize(align, size))
  {
    var adjust := AdjustRequestSize(size, ALIGN_SIZE);
    if adjust != 0 && ALIGN_SIZE < align < TOP_BIT {
      var least := adjust + align + GAP_MINIMUM;
      var s := HasNextMultiple(align, size);
      AlignedSizeExactly(align, size, s);
      forall r: nat | NextMultiple(align, least, r)
        ensures r == s
      {
        OneNextMultiple(align, least, r, s);
      }
    } else if adjust != 0 && align >= TOP_BIT {
      AdjustedShape(size, ALIGN_SIZE);
      Pow2Ladder(align);
      NoRoom(adjust + align + GAP_MINIMUM);
    }
  }

  /** A heap that is exhausted for one size is exhausted for larger ones. */
  lemma ExhaustedMonotone(h: Heap, size: nat, larger: nat)
    requires size <= larger && Exhausted(h, size)
    ensures Exhausted(h, larger)
  {
    SearchMonotone(size, larger);
  }

  /**
   When there is no room for a request that is not turned down, no free block reaches the class searched
   for any size that holds the request, twice the alignment and the minimal gap.
  */
  lemma NoRoomBound(h: Heap, align: nat, size: nat, x: nat)
    requires IsPow2(align) && ALIGN_SIZE < align < TOP_BIT && size < SIZE_T
    requires AdjustRequestSize(size, ALIGN_SIZE) != 0 && NoRoomFor(h, align, size)
    requires AdjustRequestSize(size, ALIGN_SIZE) + 2 * align + GAP_MINIMUM <= x && PhysInv(h)
    ensures Exhausted(h, x)
  {
    var s := HasNextMultiple(align, size);
    if s < BLOCK_SIZE_MAX {
      ExhaustedMonotone(h, s, x);
    } else {
      NothingThatLarge(h, x);
    }
  }

  /** Free blocks of sound heaps are smaller than block_size_max, so no search for so much finds one. */
  lemma NothingThatLarge(h: Heap, x: nat)
    requires x >= BLOCK_SIZE_MAX && PhysInv(h)
    ensures Exhausted(h, x)
  {
    forall b | b in h.nodes && h.nodes[b].free
      ensures !Below(MappingSearch(x), MappingInsert(h.nodes[b].size))
    {
      assert PhysOk(h, b) && PhysOk(h, Next(h, b));
      if Below(MappingSearch(x), MappingInsert(h.nodes[b].size)) {
        SearchIsSound(x, h.nodes[b].size);
      }
    }
  }

  /** The list of class d is the first non-empty one from class c on. */
  ghost predicate FirstList(h: Heap, c: Class, d: Class) {
    && InTable(d) && d in h.heads && Below(c, d) && h.heads[d] != NULL_BLOCK
    && forall e | InTable(e) && Below(c, e) && e in h.heads && h.heads[e] != NULL_BLOCK :: Below(d, e)
  }

  /** Block b is free and large enough, and of the lists with such blocks no earlier one has any. */
  ghost predicate GoodFit(h: Heap, b: Addr, size: nat) {
    && b in h.nodes && h.nodes[b].free && Below(MappingSearch(size), MappingInsert(h.nodes[b].size))
    && forall x | x in h.nodes && h.nodes[x].free && Below(MappingSearch(size), MappingInsert(h.nodes[x].size)) ::
         Below(MappingInsert(h.nodes[b].size), MappingInsert(h.nodes[x].size))
  }

  lemma FirstListFits(h: Heap, size: nat, d: Class, b: Addr)
    requires Inv(h) && h.floats == {} && FirstList(h, MappingSearch(size), d) && Listed(h, b, d)
    ensures GoodFit(h, b, size)
  {
    assert ClassOk(h, b);
    forall x | x in h.nodes && h.nodes[x].free && Below(MappingSearch(size), MappingInsert(h.nodes[x].size))
      ensures Below(MappingInsert(h.nodes[b].size), MappingInsert(h.nodes[x].size))
    {
      assert ClassOk(h, x);
      SizeInTable(h, x);
      FreeIsListed(h, x, h.nodes[x].cls);
    }
  }

  lemma EmptyListsExhausted(h: Heap, size: nat)
    requires Inv(h) && h.floats == {}
    requires forall e | InTable(e) && Below(MappingSearch(size), e) && e in h.heads :: h.heads[e] == NULL_BLOCK
    ensures Exhausted(h, size)
  {
    forall x | x in h.nodes && h.nodes[x].free
      ensures !Below(MappingSearch(size), MappingInsert(h.nodes[x].size))
    {
      assert ClassOk(h, x);
      SizeInTable(h, x);
      FreeIsListed(h, x, h.nodes[x].cls);
    }
  }

  /** Blocks end before the address space does. */
  lemma BlockEnd(h: Heap, b: Addr)
    requires PhysInv(h) && b in h.nodes && h.nodes[b].size != 0
    ensures LOWEST <= b && b % 8 == 0 && h.nodes[b].size >= BLOCK_SIZE_MIN && h.nodes[b].size % 8 == 0
    ensures b + POINTER_OFFSET + h.nodes[b].size <= SIZE_T - 8
  {
    assert PhysOk(h, b) && PhysOk(h, Next(h, b));
  }

  lemma AlignedPointer(align: nat, p: nat)
    requires align > 0
    ensures Divides(align, p) ==> p % align == 0
  {
    if Divides(align, p) {
      DividesMod(align, p);
    }
  }

  /** At the alignment 2^63 only the address 2^63 itself is aligned. */
  lemma TopAligned(align: nat, p: nat)
    requires IsPow2(align) && TOP_BIT <= align < SIZE_T && 0 < p < SIZE_T
    ensures p % align == 0 <==> p == TOP_BIT
  {
    Pow2Ladder(align);
  }

  /** In a pool with room for a single block of the minimum size, that is the only block. */
  lemma SoleBlock(h: Heap, start: Addr, x: Addr)
    requires PhysInv(h) && Pools(h) == map[start + 32 := Pool(start, start + 32)]
    requires x in h.nodes && h.nodes[x].size != 0
    ensures x == start && h.nodes[x].size == BLOCK_SIZE_MIN
  {
    assert PhysOk(h, x);
    var end := h.nodes[x].pool.end;
    assert PhysOk(h, end) && PhysOk(h, Next(h, x));
    assert end in Pools(h) && Pools(h)[end] == h.nodes[x].pool;
  }

  /** That block is free while no block is in use, and large enough for a request of its size. */
  lemma SoleIsThere(h: Heap, start: Addr)
    requires PhysInv(h) && Pools(h) == map[start + 32 := Pool(start, start + 32)] && Used(h) == {}
    ensures !Exhausted(h, BLOCK_SIZE_MIN)
  {
    var end := start + 32;
    assert end in Pools(h);
    assert PhysOk(h, end) && PhysOk(h, start);
    SoleBlock(h, start, start);
    assert start in Used(h) <==> InUse(h, start);
    SearchedSmall(BLOCK_SIZE_MIN);
  }

  lemma SmallestPool()
    ensures PoolBytes(BLOCK_SIZE_MIN + POOL_OVERHEAD) == BLOCK_SIZE_MIN
  {
    assert AlignDown(8, ALIGN_SIZE) == 8 + AlignDown(0, ALIGN_SIZE) && AlignDown(0, ALIGN_SIZE) == 0;
    assert AlignDown(16, ALIGN_SIZE) == 8 + AlignDown(8, ALIGN_SIZE);
    assert AlignDown(24, ALIGN_SIZE) == 8 + AlignDown(16, ALIGN_SIZE);
  }

  /** A heap without pools. */
  method EmptyHeap() returns (c: Control)
    ensures fresh(c) && c.Quiet() && c.H.nodes == map[]
  {
    c := new Control();
  }

  lemma NoBlocks(h: Heap)
    requires h.nodes == map[]
    ensures Used(h) == {} && Pools(h) == map[]
  {
  }

  /** A heap with one pool, which has room for one block of the minimum size. */
  method SmallestHeap() returns (c: Control)
    ensures fresh(c) && c.Quiet() && Used(c.H) == {} && Pools(c.H) == map[LOWEST + 32 := Pool(LOWEST, LOWEST + 32)]
  {
    c := EmptyHeap();
    NoBlocks(c.H);
    SmallestPool();
    var pool := c.AddPool(LOWEST + OVERHEAD, BLOCK_SIZE_MIN + POOL_OVERHEAD);
  }

  /** tlsf_memalign asked for 4096 bytes aligned to 2^63: it returns a block of 24 bytes, elsewhere. */
  method MisplacedBlock() returns (c: Control, p: Addr)
    ensures fresh(c) && c.Quiet() && p != 0 && p % TOP_BIT != 0
    ensures InUse(c.H, p - POINTER_OFFSET) && c.H.nodes[p - POINTER_OFFSET].size == BLOCK_SIZE_MIN
  {
    c := SmallestHeap();
    SoleIsThere(c.H, LOWEST);
    GapRoomWraps();
    p := c.Memalign(TOP_BIT, 4096);
    SoleBlock(c.H, LOWEST, p - POINTER_OFFSET);
  }

  /** A block cut out of a free block was not in use. */
  lemma FreshBlock(h: Heap, b: Addr, r: Addr)
    requires PhysInv(h) && b in h.nodes && h.nodes[b].free && b <= r < Next(h, b)
    ensures r !in Used(h)
  {
    if b < r {
      NothingInside(h, b, r);
    }
  }

  lemma SixteenIsPow2()
    ensures IsPow2(16)
  {
    assert Pow2(4) == 16;
  }

  /** The payloads of two blocks do not overlap. */
  lemma BlocksApart(h: Heap, b: Addr, c: Addr)
    requires PhysInv(h) && b in h.nodes && c in h.nodes && b != c
    ensures b + h.nodes[b].size <= c || c + h.nodes[c].size <= b
  {
    assert Apart(h, b, c) && Apart(h, c, b);
  }

  // ---------------------------------------------------------------- pools

  /** The bytes of a pool that remain for blocks. */
  function PoolBytes(bytes: nat): nat
    requires bytes < SIZE_T
  {
    AlignDown(Wrap(bytes - POOL_OVERHEAD), ALIGN_SIZE)
  }

  lemma PoolBytesFit(bytes: nat)
    requires bytes < SIZE_T && PoolBytes(bytes) <= BLOCK_SIZE_MAX
    ensures PoolBytes(bytes) % 8 == 0 && PoolBytes(bytes) + POOL_OVERHEAD <= bytes
  {
    AlignDownFacts(Wrap(bytes - POOL_OVERHEAD), ALIGN_SIZE);
    DividesEight(ALIGN_SIZE, PoolBytes(bytes));
  }

  /** Of the pool sizes that tlsf_add_pool admits, exactly block_size_max has no class in the table of lists. */
  lemma LimitEscapesTable(bytes: nat)
    requires bytes < SIZE_T && BLOCK_SIZE_MIN <= PoolBytes(bytes) <= BLOCK_SIZE_MAX
    ensures !InTable(MappingInsert(PoolBytes(bytes))) <==> PoolBytes(bytes) == BLOCK_SIZE_MAX
  {
    InTableExactly(PoolBytes(bytes));
  }

  lemma LimitIsReached()
    ensures PoolBytes(BLOCK_SIZE_MAX + POOL_OVERHEAD) == BLOCK_SIZE_MAX
  {
    AlignDownFacts(BLOCK_SIZE_MAX, ALIGN_SIZE);
    DividesEight(ALIGN_SIZE, AlignDown(BLOCK_SIZE_MAX, ALIGN_SIZE));
  }

  /** No block is as large as a request that adjust_request_size turns down. */
  lemma RejectedIsLarger(h: Heap, b: Addr, size: nat)
    requires PhysInv(h) && InUse(h, b) && 0 < size < SIZE_T && AdjustRequestSize(size, ALIGN_SIZE) == 0
    ensures BLOCK_SIZE_MIN <= h.nodes[b].size < size
  {
    AdjustRejects(size);
    assert PhysOk(h, b) && PhysOk(h, Next(h, b));
  }

  lemma RejectedRequest()
    ensures AdjustRequestSize(BLOCK_SIZE_MAX, ALIGN_SIZE) == 0
  {
    AdjustRejects(BLOCK_SIZE_MAX);
  }

  /** A block with the size zero is read as the end of its pool. */
  lemma ZeroSizeEndsPool(m: Memory, h: Heap, b: Addr)
    requires PhysInv(h) && Matches(m, h) && b in h.nodes && Rd(m, b + 8).high == 0
    ensures b == h.nodes[b].pool.end && !InUse(h, b)
  {
    assert PhysOk(h, b) && Stored(m, h, b);
  }

  /** The memory with the first block and the sentinel of a new pool in place. */
  function PoolWords(m: Memory, b: Addr, size: nat): Memory {
    m[b + 8 := Word(size, false, true)][b + OVERHEAD + size := Ptr(b)][b + OVERHEAD + size + 8 := Word(0, true, false)]
  }

  /** Listing the first block before or after writing the sentinel makes no difference. */
  lemma PoolWordsCommute(m: Memory, h: Heap, b: Addr, size: nat, c: Class)
    requires PhysInv(h) && Unused(h, b, size) && b >= LOWEST && size >= BLOCK_SIZE_MIN
    requires c in h.heads && (h.heads[c] == NULL_BLOCK || (h.heads[c] in h.nodes && h.nodes[h.heads[c]].free))
    ensures h.heads[c] + 24 != b + 8
    ensures AttachMemory(PoolWords(m, b, size), b, h.heads[c]) == NewPoolMemory(m, b, size, h.heads[c])
  {
    if h.heads[c] != NULL_BLOCK {
      assert PhysOk(h, h.heads[c]);
    }
  }

  /** The memory that tlsf_add_pool leaves behind. */
  function NewPoolMemory(m: Memory, b: Addr, size: nat, current: Addr): Memory {
    AttachMemory(m[b + 8 := Word(size, false, true)], b, current)
      [b + OVERHEAD + size := Ptr(b)][b + OVERHEAD + size + 8 := Word(0, true, false)]
  }

  lemma NewPool(m: Memory, h: Heap, b: Addr, size: nat)
    requires Inv(h) && Matches(m, h) && h.floats == {} && Unused(h, b, size) && b >= LOWEST && b % 8 == 0
    requires BLOCK_SIZE_MIN <= size < BLOCK_SIZE_MAX && size % 8 == 0 && b + size + 24 <= SIZE_T
    ensures var c, h1, end := MappingInsert(size), AddPool(h, b, size), b + OVERHEAD + size;
            && c in h.heads && c.fl in h.sl && h.heads[c] + 24 != b + 8
            && var h', m' := Attach(h1, b), NewPoolMemory(m, b, size, h.heads[c]);
            && Inv(h') && Matches(m', h') && h'.floats == {} && AllKept(m, m', h, h', NULL_BLOCK)
            && Used(h') == Used(h) && Pools(h') == Pools(h)[end := Pool(b, end)]
            && h'.heads == h.heads[c := b] && h'.fl == h.fl + {c.fl} && h'.sl == h.sl[c.fl := h.sl[c.fl] + {c.sl}]
  {
    var c, m1, h1 := MappingInsert(size), PoolWords(m, b, size), AddPool(h, b, size);
    AddPoolMatches(m, m1, h, b, size);
    AddPoolInv(h, b, size);
    AddPoolSets(h, b, size);
    AttachMatches(m1, h1, b);
    SameLayoutUsed(h1, Attach(h1, b));
    InTableExactly(size);
    assert HeadOk(h, c);
    PoolWordsCommute(m, h, b, size, c);
    KeptTwice(m, m1, NewPoolMemory(m, b, size, h.heads[c]), h, h1, Attach(h1, b), NULL_BLOCK, NULL_BLOCK, NULL_BLOCK);
  }

  /** A pool is known by the address behind the size word of its first block. */
  ghost predicate IsPool(h: Heap, pool: Addr) {
    pool - OVERHEAD in h.nodes && h.nodes[pool - OVERHEAD].pool.start == pool - OVERHEAD
  }

  lemma NothingBeforePool(h: Heap, b: Addr)
    requires PhysInv(h) && b in h.nodes && h.nodes[b].pool.start == b
    ensures !h.nodes[b].prevFree
  {
    assert PhysOk(h, b);
    forall p | p in h.nodes && h.nodes[p].free
      ensures Next(h, p) != b
    {
      assert PhysOk(h, p);
    }
  }

  lemma KeptOthers(m: Memory, m': Memory, h: Heap, h': Heap, b: Addr)
    requires AllKept(m, m', h, h', b) && !InUse(h, b)
    ensures AllKept(m, m', h, h', NULL_BLOCK)
  {
    forall u | InUse(h, u) && u != NULL_BLOCK
      ensures Kept(m, m', h, h', u)
    {
    }
  }

  lemma KeptByAll(m: Memory, m': Memory, h: Heap, h': Heap, except: Addr)
    requires PhysInv(h) && AllKept(m, m', h, h', NULL_BLOCK)
    ensures AllKept(m, m', h, h', except)
  {
    NullIsNoBlock(h);
    forall u | InUse(h, u) && u != except
      ensures Kept(m, m', h, h', u)
    {
    }
  }

  /** Listing and unlisting keep a header as it is. */
  lemma FoundSize(h: Heap, h': Heap, b: Addr)
    requires SameLayout(h, h') && b in h.nodes
    ensures b in h'.nodes && h'.nodes[b].size == h.nodes[b].size
    ensures h'.nodes[b].free == h.nodes[b].free && h'.nodes[b].prevFree == h.nodes[b].prevFree
  {
    assert SamePhys(h.nodes[b], h'.nodes[b]);
    assert b in h'.nodes.Keys;
  }

  lemma NotExhausted(h: Heap, size: nat, b: Addr)
    requires b in h.nodes && h.nodes[b].free && Below(MappingSearch(size), MappingInsert(h.nodes[b].size))
    ensures !Exhausted(h, size)
  {
  }

  /** Nothing free touches a listed block when nothing floats. */
  lemma FoundAlone(h: Heap, b: Addr)
    requires PhysInv(h) && h.floats == {} && b in h.nodes && h.nodes[b].free
    ensures !h.nodes[b].prevFree && Next(h, b) in h.nodes && !h.nodes[Next(h, b)].free
  {
    assert PhysOk(h, b);
    forall q | q in h.nodes && h.nodes[q].free
      ensures Next(h, q) != b
    {
      assert PhysOk(h, q);
    }
  }

  lemma FoundFloats(h: Heap, h': Heap, b: Addr)
    requires SameLayout(h, h') && b in h.nodes && !h.nodes[b].prevFree && Next(h, b) in h.nodes
             && !h.nodes[Next(h, b)].free
    ensures b in h'.nodes && !h'.nodes[b].prevFree && Next(h', b) in h'.nodes && !h'.nodes[Next(h', b)].free
    ensures h'.nodes[b].size == h.nodes[b].size
  {
    assert SamePhys(h.nodes[b], h'.nodes[b]) && SamePhys(h.nodes[Next(h, b)], h'.nodes[Next(h, b)]);
    assert Next(h, b) in h'.nodes.Keys;
  }

  /** The pointer p is a new block of at least the size asked for, and no other block came or went. */
  ghost predicate HandedOut(h: Heap, h': Heap, p: Addr, size: nat) {
    var b := p - POINTER_OFFSET;
    InUse(h', b) && h'.nodes[b].size >= size && size > 0 && p % 8 == 0 && b !in Used(h) && Used(h') == Used(h) + {b}
  }

  /** A listed block before a floating one has no free block before it. */
  lemma NothingFreeBefore(h: Heap, p: Addr, b: Addr)
    requires PhysInv(h) && p in h.nodes && h.nodes[p].free && p !in h.floats && h.floats == {b} && b in h.nodes
             && Next(h, p) == b
    ensures !h.nodes[p].prevFree
  {
    assert PhysOk(h, p) && PhysOk(h, b);
    forall q | q in h.nodes && h.nodes[q].free
      ensures Next(h, q) == p ==> q == b
    {
      assert PhysOk(h, q);
    }
  }

  /** A listed block has no listed block after it. */
  lemma NothingFreeAfter(h: Heap, b: Addr)
    requires PhysInv(h) && b in h.nodes && h.nodes[b].free && b !in h.floats
    ensures Next(h, b) in h.nodes && (h.nodes[Next(h, b)].free ==> Next(h, b) in h.floats)
    ensures Next(h, b) > b
  {
    assert PhysOk(h, b);
  }

  /** The first n words of the second-level bitmap have been cleared. */
  ghost predicate EmptyRows(sl: map<int, set<int>>, n: nat) {
    (forall k :: k in sl <==> 0 <= k < n) && forall k | k in sl :: sl[k] == {}
  }

  /** The lists before row i and column j point at the null block. */
  ghost predicate EmptyLists(blocks: map<Class, Addr>, i: nat, j: nat) {
    && (forall c {:trigger c in blocks} :: c in blocks <==> InTable(c) && (c.fl < i || (c.fl == i && c.sl < j)))
    && forall c | c in blocks :: blocks[c] == NULL_BLOCK
  }

  lemma EmptyTables(sl: map<int, set<int>>, blocks: map<Class, Addr>)
    requires EmptyRows(sl, FL_INDEX_COUNT) && EmptyLists(blocks, FL_INDEX_COUNT, 0)
    ensures sl == Empty().sl && blocks == Empty().heads
  {
    assert forall c :: c in blocks <==> c in AllClasses();
  }

  // ---------------------------------------------------------------- what the checkers see

  /** The blocks on the list that begins with b. Sizes are unsigned. */
  ghost predicate Chain(m: Memory, b: Addr, s: seq<Addr>)
    decreases |s|
  {
    if b == NULL_BLOCK then s == []
    else s != [] && s[0] == b && Rd(m, b + 8).high >= 0 && Chain(m, Rd(m, b + 16).high, s[1..])
  }

  /** A block is free, not beside another free block, large enough, and on the list of its size. */
  predicate RightOnList(m: Memory, b: Addr, c: Class) {
    var head, next := Rd(m, b + 8), Rd(m, b + OVERHEAD + Rd(m, b + 8).high + 8);
    head.free && !head.prevFree && !next.free && next.prevFree && head.high >= BLOCK_SIZE_MIN
    && MappingInsert(head.high) == c
  }

  /** The blocks that follow each other in memory from b on, up to one of size zero. */
  ghost predicate Walk(m: Memory, b: Addr, s: seq<Addr>)
    decreases |s|
  {
    var size := Rd(m, b + 8).high;
    if size == 0 then s == [] else s != [] && s[0] == b && Walk(m, b + OVERHEAD + size, s[1..])
  }

  /** The k-th block of a pool says whether the block before it is free. */
  predicate RightInPool(m: Memory, walk: seq<Addr>, k: nat)
    requires k < |walk|
  {
    Rd(m, walk[k] + 8).prevFree == (k > 0 && Rd(m, walk[k - 1] + 8).free)
  }

  /** Class c comes before row i and column j. */
  predicate Earlier(c: Class, i: nat, j: nat) {
    c.fl < i || (c.fl == i && c.sl < j)
  }

  lemma EarlierStep(i: nat, j: nat)
    ensures forall c :: Earlier(c, i, j + 1) <==> Earlier(c, i, j) || c == Class(i, j)
  {
  }

  lemma EarlierRow(i: nat)
    ensures forall c | InTable(c) :: Earlier(c, i + 1, 0) <==> Earlier(c, i, SL_INDEX_COUNT)
  {
  }

  class Control {
    var mem: Memory
    var flBitmap: set<int>
    var slBitmap: map<int, set<int>>
    var blocks: map<Class, Addr>
    ghost var H: Heap

    ghost predicate Valid()
      reads this
    {
      Inv(H) && Matches(mem, H) && blocks == H.heads && flBitmap == H.fl && slBitmap == H.sl
    }

    /** Between operations. */
    ghost predicate Quiet()
      reads this
    {
      Valid() && H.floats == {}
    }

    // -------------------------------------------------------------- reading headers

    function BlockSize(b: Addr): int
      reads `mem
    {
      Rd(mem, b + 8).high
    }

    predicate BlockIsFree(b: Addr)
      reads `mem
    {
      Rd(mem, b + 8).free
    }

    predicate BlockIsPrevFree(b: Addr)
      reads `mem
    {
      Rd(mem, b + 8).prevFree
    }

    function BlockNext(b: Addr): Addr
      reads `mem
    {
      b + OVERHEAD + BlockSize(b)
    }

    predicate BlockCanSplit(b: Addr, size: nat)
      reads `mem
    {
      BlockSize(b) >= GAP_MINIMUM + size
    }

    /** Headers in memory say what the blocks are. */
    lemma HeaderSays(b: Addr)
      requires Valid() && b in H.nodes
      ensures BlockSize(b) == H.nodes[b].size && BlockNext(b) == Next(H, b)
      ensures BlockIsFree(b) == H.nodes[b].free && BlockIsPrevFree(b) == H.nodes[b].prevFree
      ensures H.nodes[b].prevFree ==> Rd(mem, b).high == H.nodes[b].prevPhys
      ensures PhysOk(H, b) && ClassOk(H, b) && LinksOk(H, b)
    {
      assert Stored(mem, H, b);
    }

    // -------------------------------------------------------------- construction

    /** tlsf_create */
    constructor ()
      ensures Quiet() && H == Empty()
    {
      H := Empty();
      new;
      Construct();
      EmptyTables(slBitmap, blocks);
      EmptyInv();
    }

    /** control_construct */
    method Construct()
      modifies `mem, `flBitmap, `slBitmap, `blocks
      ensures mem == map[NULL_BLOCK + 16 := Ptr(NULL_BLOCK), NULL_BLOCK + 24 := Ptr(NULL_BLOCK)] && flBitmap == {}
      ensures EmptyRows(slBitmap, FL_INDEX_COUNT) && EmptyLists(blocks, FL_INDEX_COUNT, 0)
    {
      mem := map[NULL_BLOCK + 16 := Ptr(NULL_BLOCK), NULL_BLOCK + 24 := Ptr(NULL_BLOCK)];
      flBitmap := {};
      slBitmap := map[];
      blocks := map[];
      for i := 0 to FL_INDEX_COUNT
        invariant mem == map[NULL_BLOCK + 16 := Ptr(NULL_BLOCK), NULL_BLOCK + 24 := Ptr(NULL_BLOCK)] && flBitmap == {}
        invariant EmptyRows(slBitmap, i) && EmptyLists(blocks, i, 0)
      {
        slBitmap := slBitmap[i := {}];
        for j := 0 to SL_INDEX_COUNT
          invariant mem == map[NULL_BLOCK + 16 := Ptr(NULL_BLOCK), NULL_BLOCK + 24 := Ptr(NULL_BLOCK)] && flBitmap == {}
          invariant EmptyRows(slBitmap, i + 1) && EmptyLists(blocks, i, j)
        {
          blocks := blocks[Class(i, j) := NULL_BLOCK];
        }
      }
    }

    // -------------------------------------------------------------- free lists

    method InsertFreeBlock(b: Addr, c: Class)
      requires c in blocks && c.fl in slBitmap
      modifies `mem, `blocks, `flBitmap, `slBitmap
      ensures mem == AttachMemory(old(mem), b, old(blocks)[c])
      ensures blocks == old(blocks)[c := b] && flBitmap == old(flBitmap) + {c.fl}
      ensures slBitmap == old(slBitmap)[c.fl := old(slBitmap)[c.fl] + {c.sl}]
    {
      var current := blocks[c];
      mem := mem[b + 16 := Ptr(current)];
      mem := mem[b + 24 := Ptr(NULL_BLOCK)];
      mem := mem[current + 24 := Ptr(b)];
      blocks := blocks[c := b];
      flBitmap := flBitmap + {c.fl};
      slBitmap := slBitmap[c.fl := slBitmap[c.fl] + {c.sl}];
    }

    method BlockInsert(b: Addr)
      requires Valid() && b in H.floats && b in H.nodes && Lonely(H, b)
      modifies this
      ensures Valid() && old(H).nodes[b].cls in old(H).heads && old(H).nodes[b].cls.fl in old(H).sl
      ensures H == Attach(old(H), b) && SameLayout(old(H), H)
      ensures AllKept(old(mem), mem, old(H), H, NULL_BLOCK)
      ensures Used(H) == Used(old(H)) && Pools(H) == Pools(old(H))
    {
      HeaderSays(b);
      AttachMatches(mem, H, b);
      InsertFreeBlock(b, MappingInsert(BlockSize(b)));
      H := Attach(H, b);
      SameLayoutUsed(old(H), H);
    }

    method RemoveFreeBlock(b: Addr, c: Class)
      requires Valid() && Listed(H, b, c)
      modifies this
      ensures Valid() && c in old(H).heads && c.fl in old(H).sl
      ensures H == Detach(old(H), b) && SameLayout(old(H), H)
      ensures AllKept(old(mem), mem, old(H), H, NULL_BLOCK)
      ensures Used(H) == Used(old(H)) && Pools(H) == Pools(old(H))
    {
      assert Stored(mem, H, b);
      DetachMatches(mem, H, b, c);
      RemoveLinks(b, c);
      H := Detach(H, b);
      SameLayoutUsed(old(H), H);
    }

    /** The body of remove_free_block. */
    method RemoveLinks(b: Addr, c: Class)
      requires c in blocks && c.fl in slBitmap
      modifies `mem, `blocks, `flBitmap, `slBitmap
      ensures var next, prev := Rd(old(mem), b + 16).high, Rd(old(mem), b + 24).high;
              && mem == old(mem)[next + 24 := Ptr(prev)][prev + 16 := Ptr(next)]
              && (old(blocks)[c] != b ==>
                  blocks == old(blocks) && flBitmap == old(flBitmap)
                  && slBitmap == old(slBitmap))
              && (old(blocks)[c] == b ==> blocks == old(blocks)[c := next])
              && (old(blocks)[c] == b && next != NULL_BLOCK ==> flBitmap == old(flBitmap) && slBitmap == old(slBitmap))
              && (old(blocks)[c] == b && next == NULL_BLOCK ==>
                    var row := old(slBitmap)[c.fl] - {c.sl};
                    slBitmap == old(slBitmap)[c.fl := row] && flBitmap == if row == {} then old(flBitmap) - {c.fl}
                        else old(flBitmap))
    {
      var prev := Rd(mem, b + 24).high;
      var next := Rd(mem, b + 16).high;
      mem := mem[next + 24 := Ptr(prev)];
      mem := mem[prev + 16 := Ptr(next)];
      if blocks[c] == b {
        blocks := blocks[c := next];
        if next == NULL_BLOCK {
          slBitmap := slBitmap[c.fl := slBitmap[c.fl] - {c.sl}];
          if slBitmap[c.fl] == {} {
            flBitmap := flBitmap - {c.fl};
          }
        }
      }
    }

    method BlockRemove(b: Addr)
      requires Valid() && b in H.nodes && H.nodes[b].free && b !in H.floats
      modifies this
      ensures Valid() && old(H).nodes[b].cls in old(H).heads && old(H).nodes[b].cls.fl in old(H).sl
      ensures H == Detach(old(H), b) && SameLayout(old(H), H)
      ensures AllKept(old(mem), mem, old(H), H, NULL_BLOCK)
      ensures Used(H) == Used(old(H)) && Pools(H) == Pools(old(H))
    {
      HeaderSays(b);
      RemoveFreeBlock(b, MappingInsert(BlockSize(b)));
    }

    /** The two-level bitmap search. */
    method SearchSuitableBlock(c: Class) returns (b: Addr, d: Class)
      requires Valid() && InTable(c)
      ensures b == NULL_BLOCK ==> forall e | InTable(e) && Below(c, e) && e in H.heads :: H.heads[e] == NULL_BLOCK
      ensures b != NULL_BLOCK ==> FirstList(H, c, d) && H.heads[d] == b && Listed(H, b, d)
    {
      BitsSay(c);
      d := Class(c.fl, FirstBit(slBitmap[c.fl], c.sl, SL_INDEX_COUNT));
      if d.sl == SL_INDEX_COUNT {
        var fl := FirstBit(flBitmap, c.fl + 1, FL_INDEX_COUNT);
        if fl == FL_INDEX_COUNT {
          b := NULL_BLOCK;
          return;
        }
        assert slBitmap[fl] != {};
        d := Class(fl, FirstBit(slBitmap[fl], 0, SL_INDEX_COUNT));
        assert d.sl < SL_INDEX_COUNT by {
          var j :| j in slBitmap[fl];
          assert 0 <= j < SL_INDEX_COUNT;
        }
      }
      BitsSay(d);
      b := blocks[d];
    }

    /** The bitmaps and the heads agree about every list. */
    lemma BitsSay(c: Class)
      requires Valid() && InTable(c)
      ensures c in blocks && c.fl in slBitmap && (blocks[c] != NULL_BLOCK ==> Listed(H, blocks[c], c))
      ensures forall e | InTable(e) && e in blocks && blocks[e] != NULL_BLOCK ::
                e.fl in flBitmap && e.fl in slBitmap && e.sl in slBitmap[e.fl]
      ensures c.sl in slBitmap[c.fl] ==> blocks[c] != NULL_BLOCK
    {
      assert HeadOk(H, c);
      forall e | InTable(e) && e in blocks && blocks[e] != NULL_BLOCK
        ensures e.fl in flBitmap && e.fl in slBitmap && e.sl in slBitmap[e.fl]
      {
        assert HeadOk(H, e);
      }
    }

    // -------------------------------------------------------------- words of headers

    method BlockMarkAsFree(b: Addr)
      requires BlockSize(b) >= BLOCK_SIZE_MIN
      modifies `mem
      ensures var m, c := old(mem), old(BlockNext(b));
              && Rd(mem, b + 8) == Rd(m, b + 8).(free := true)
              && Rd(mem, c) == Ptr(b) && Rd(mem, c + 8) == Rd(m, c + 8).(prevFree := true)
              && forall a | a != b + 8 && a != c && a != c + 8 :: Rd(mem, a) == Rd(m, a)
    {
      var next := BlockNext(b);
      mem := mem[next := Ptr(b)];
      mem := mem[next + 8 := Rd(mem, next + 8).(prevFree := true)];
      mem := mem[b + 8 := Rd(mem, b + 8).(free := true)];
    }

    method BlockMarkAsUsed(b: Addr)
      requires BlockSize(b) >= BLOCK_SIZE_MIN
      modifies `mem
      ensures var m, c := old(mem), old(BlockNext(b));
              && Rd(mem, b + 8) == Rd(m, b + 8).(free := false)
              && Rd(mem, c + 8) == Rd(m, c + 8).(prevFree := false)
              && forall a | a != b + 8 && a != c + 8 :: Rd(mem, a) == Rd(m, a)
    {
      var next := BlockNext(b);
      mem := mem[next + 8 := Rd(mem, next + 8).(prevFree := false)];
      mem := mem[b + 8 := Rd(mem, b + 8).(free := false)];
    }

    /** The second part is free; its flag for the block before it is whatever was in memory. */
    method BlockSplit(b: Addr, size: nat) returns (r: Addr)
      requires BlockCanSplit(b, size)
      modifies `mem
      ensures r == b + OVERHEAD + size
      ensures var m, c := old(mem), old(BlockNext(b));
              && Rd(mem, b + 8) == Rd(m, b + 8).(high := size)
              && Rd(mem, r + 8) == Word(Rd(m, b + 8).high - size - OVERHEAD, Rd(m, r + 8).prevFree, true)
              && Rd(mem, c) == Ptr(r) && Rd(mem, c + 8) == Rd(m, c + 8).(prevFree := true)
              && forall a | a != b + 8 && a != r + 8 && a != c && a != c + 8 :: Rd(mem, a) == Rd(m, a)
    {
      r := b + POINTER_OFFSET + (size - OVERHEAD);
      var remainSize := BlockSize(b) - (size + OVERHEAD);
      mem := mem[r + 8 := Rd(mem, r + 8).(high := remainSize)];
      assert BlockSize(r) >= BLOCK_SIZE_MIN;
      mem := mem[b + 8 := Rd(mem, b + 8).(high := size)];
      BlockMarkAsFree(r);
    }

    method BlockAbsorb(prev: Addr, b: Addr)
      requires BlockSize(prev) >= BLOCK_SIZE_MIN && BlockSize(b) >= BLOCK_SIZE_MIN
      modifies `mem
      ensures var m, d := old(mem), prev + OVERHEAD + old(BlockSize(prev)) + old(BlockSize(b)) + OVERHEAD;
              && Rd(mem, prev + 8) == Rd(m, prev + 8).(high := old(BlockSize(prev)) + old(BlockSize(b)) + OVERHEAD)
              && Rd(mem, d) == Ptr(prev)
              && forall a | a != prev + 8 && a != d :: Rd(mem, a) == Rd(m, a)
    {
      mem := mem[prev + 8 := Rd(mem, prev + 8).(high := BlockSize(prev) + BlockSize(b) + OVERHEAD)];
      mem := mem[BlockNext(prev) := Ptr(prev)];
    }

    // -------------------------------------------------------------- merging

    /** block_absorb of a floating block into the floating block before it. */
    method BlockAbsorbFree(b: Addr, next: Addr)
      requires Valid() && b in H.nodes && b in H.floats && next == Next(H, b) && next in H.floats
      modifies this
      ensures Valid() && next in old(H).nodes && Next(old(H), next) in old(H).nodes && H == Absorb(old(H), b)
      ensures AllKept(old(mem), mem, old(H), H, NULL_BLOCK)
      ensures Used(H) == Used(old(H)) && Pools(H) == Pools(old(H))
    {
      HeaderSays(b);
      HeaderSays(next);
      BlockAbsorb(b, next);
      AbsorbMatches(old(mem), mem, H, b);
      AbsorbSets(H, b);
      H := Absorb(H, b);
    }

    /** Join the floating block b with the free block before it, if there is one. */
    method BlockMergePrev(b: Addr) returns (r: Addr)
      requires Valid() && H.floats == {b} && b in H.nodes
      modifies this
      ensures Valid() && H.floats == {r} && r in H.nodes && !H.nodes[r].prevFree
      ensures AllKept(old(mem), mem, old(H), H, NULL_BLOCK)
      ensures Used(H) == Used(old(H)) && Pools(H) == Pools(old(H))
    {
      HeaderSays(b);
      r := b;
      if BlockIsPrevFree(b) {
        r := Rd(mem, b).high;
        HeaderSays(r);
        NothingFreeBefore(H, r, b);
        assert BlockIsFree(r);
        BlockRemove(r);
        label joined: assert Valid();
        FoundSize(old(H), H, r);
        BlockAbsorbFree(r, b);
        KeptTwice(old(mem), old@joined(mem), mem, old(H), old@joined(H), H, NULL_BLOCK, NULL_BLOCK, NULL_BLOCK);
      }
    }

    /** Join the floating block b with the free block after it, if there is one. */
    method BlockMergeNext(b: Addr) returns (r: Addr)
      requires Valid() && H.floats == {b} && b in H.nodes
      modifies this
      ensures Valid() && r == b && H.floats == {b} && b in H.nodes && H.nodes[b].prevFree == old(H).nodes[b].prevFree
      ensures Next(H, b) in H.nodes && !H.nodes[Next(H, b)].free
      ensures AllKept(old(mem), mem, old(H), H, NULL_BLOCK)
      ensures Used(H) == Used(old(H)) && Pools(H) == Pools(old(H))
    {
      HeaderSays(b);
      r := b;
      var next := BlockNext(b);
      HeaderSays(next);
      if BlockIsFree(next) {
        NothingFreeAfter(H, next);
        BlockRemove(next);
        label joined: assert Valid();
        FoundSize(old(H), H, b);
        FoundSize(old(H), H, next);
        FoundSize(old(H), H, Next(old(H), next));
        BlockAbsorbFree(b, next);
        KeptTwice(old(mem), old@joined(mem), mem, old(H), old@joined(H), H, NULL_BLOCK, NULL_BLOCK, NULL_BLOCK);
      }
    }

    // -------------------------------------------------------------- trimming

    /** The words that block_split, block_link_next and block_set_prev_free write. */
    method BlockSplitLinked(b: Addr, size: nat) returns (r: Addr)
      requires BlockCanSplit(b, size) && size >= BLOCK_SIZE_MIN
      modifies `mem
      ensures r == b + OVERHEAD + size
      ensures var m, c := old(mem), old(BlockNext(b));
              && Rd(mem, b + 8) == Rd(m, b + 8).(high := size)
              && Rd(mem, r) == Ptr(b) && Rd(mem, r + 8) == Word(Rd(m, b + 8).high - size - OVERHEAD, true, true)
              && Rd(mem, c) == Ptr(r) && Rd(mem, c + 8) == Rd(m, c + 8).(prevFree := true)
              && forall a | a != b + 8 && a != r && a != r + 8 && a != c && a != c + 8 :: Rd(mem, a) == Rd(m, a)
    {
      r := BlockSplit(b, size);
      mem := mem[BlockNext(b) := Ptr(b)];
      mem := mem[r + 8 := Rd(mem, r + 8).(prevFree := true)];
    }

    /** block_split of the floating block b, with the link and the flag that its callers set next. */
    method BlockSplitFree(b: Addr, size: nat) returns (r: Addr)
      requires Valid() && H.floats == {b} && CanCut(H, b, size)
      modifies this
      ensures Valid() && r == b + OVERHEAD + size && r !in old(H).nodes && Next(old(H), b) in old(H).nodes
      ensures H == Split(old(H), b, size)
      ensures AllKept(old(mem), mem, old(H), H, NULL_BLOCK)
      ensures Used(H) == Used(old(H)) && Pools(H) == Pools(old(H))
    {
      HeaderSays(b);
      NothingInside(H, b, b + OVERHEAD + size);
      HeaderSays(BlockNext(b));
      r := BlockSplitLinked(b, size);
      SplitMatches(old(mem), mem, H, b, size);
      SplitSets(H, b, size);
      H := Split(H, b, size);
      KeptOthers(old(mem), mem, old(H), H, b);
    }

    /** block_split of the block b in use, with the flag that its caller sets next. */
    method BlockSplitUsed(b: Addr, size: nat) returns (r: Addr)
      requires Quiet() && InUse(H, b) && CanCut(H, b, size)
      modifies this
      ensures Valid() && r == b + OVERHEAD + size && r !in old(H).nodes && Next(old(H), b) in old(H).nodes
      ensures H == Split(old(H), b, size)
      ensures forall a | b + 16 <= a < b + 16 + size :: Rd(mem, a) == Rd(old(mem), a)
      ensures AllKept(old(mem), mem, old(H), H, b)
      ensures Used(H) == Used(old(H)) && Pools(H) == Pools(old(H))
    {
      HeaderSays(b);
      NothingInside(H, b, b + OVERHEAD + size);
      HeaderSays(BlockNext(b));
      r := BlockSplit(b, size);
      mem := mem[r + 8 := Rd(mem, r + 8).(prevFree := false)];
      SplitMatches(old(mem), mem, H, b, size);
      SplitSets(H, b, size);
      H := Split(H, b, size);
    }

    /** Cut the floating block b to the size asked for, if enough is left over, and list the rest. */
    method BlockTrimFree(b: Addr, size: nat)
      requires Valid() && H.floats == {b} && b in H.nodes
      requires size >= BLOCK_SIZE_MIN && size % 8 == 0
      requires Next(H, b) in H.nodes && !H.nodes[Next(H, b)].free
      modifies this
      ensures Valid() && H.floats == {b} && b in H.nodes
      ensures H.nodes[b].size == if old(H).nodes[b].size >= size + GAP_MINIMUM then size else old(H).nodes[b].size
      ensures AllKept(old(mem), mem, old(H), H, NULL_BLOCK)
      ensures Used(H) == Used(old(H)) && Pools(H) == Pools(old(H))
    {
      HeaderSays(b);
      if BlockCanSplit(b, size) {
        var rest := BlockSplitFree(b, size);
        label cut: assert Valid();
        BlockInsert(rest);
        FoundSize(old@cut(H), H, b);
        KeptTwice(old(mem), old@cut(mem), mem, old(H), old@cut(H), H, NULL_BLOCK, NULL_BLOCK, NULL_BLOCK);
      }
    }

    /** Cut the block b in use to the size asked for, if enough is left over; the rest joins a free block behind it. */
    method BlockTrimUsed(b: Addr, size: nat)
      requires Quiet() && InUse(H, b)
      requires size >= BLOCK_SIZE_MIN && size % 8 == 0
      modifies this
      ensures Quiet() && InUse(H, b)
      ensures H.nodes[b].size == if old(H).nodes[b].size >= size + GAP_MINIMUM then size else old(H).nodes[b].size
      ensures forall a | b + 16 <= a < b + 16 + H.nodes[b].size :: Rd(mem, a) == Rd(old(mem), a)
      ensures AllKept(old(mem), mem, old(H), H, b)
      ensures Used(H) == Used(old(H)) && Pools(H) == Pools(old(H))
    {
      HeaderSays(b);
      if BlockCanSplit(b, size) {
        var rest := BlockSplitUsed(b, size);
        label cut: assert Valid();
        rest := BlockMergeNext(rest);
        label merged: assert Valid();
        BlockInsert(rest);
        KeptTwice(old@cut(mem), old@merged(mem), mem, old@cut(H), old@merged(H), H, NULL_BLOCK, NULL_BLOCK, NULL_BLOCK);
        NullIsNoBlock(old(H));
        KeptTwice(old(mem), old@cut(mem), mem, old(H), old@cut(H), H, b, NULL_BLOCK, b);
        assert Kept(old@cut(mem), mem, old@cut(H), H, b);
        assert forall a | b + 16 <= a < b + 16 + size :: Payload(old@cut(H), b, a);
      }
    }

    /** Cut a gap off the front of the floating block b and list it. */
    method BlockTrimFreeLeading(b: Addr, size: nat) returns (r: Addr)
      requires Valid() && H.floats == {b} && b in H.nodes && !H.nodes[b].prevFree
      requires size >= GAP_MINIMUM && size % 8 == 0
      requires Next(H, b) in H.nodes && !H.nodes[Next(H, b)].free
      modifies this
      ensures Valid() && H.floats == {r} && r in H.nodes
      ensures old(H).nodes[b].size < size + GAP_MINIMUM ==> r == b && H == old(H)
      ensures old(H).nodes[b].size >= size + GAP_MINIMUM ==>
              r == b + size
              && H.nodes[r].size == old(H).nodes[b].size - size
      ensures Next(H, r) in H.nodes && !H.nodes[Next(H, r)].free
      ensures AllKept(old(mem), mem, old(H), H, NULL_BLOCK)
      ensures Used(H) == Used(old(H)) && Pools(H) == Pools(old(H))
    {
      HeaderSays(b);
      r := b;
      if BlockCanSplit(b, size) {
        r := BlockSplitFree(b, size - OVERHEAD);
        label cut: assert Valid();
        BlockInsert(b);
        FoundSize(old@cut(H), H, r);
        FoundSize(old@cut(H), H, Next(old(H), b));
        KeptTwice(old(mem), old@cut(mem), mem, old(H), old@cut(H), H, NULL_BLOCK, NULL_BLOCK, NULL_BLOCK);
      }
    }

    // -------------------------------------------------------------- allocating

    method BlockLocateFree(size: nat) returns (b: Addr)
      requires Quiet() && size % 8 == 0
      modifies this
      ensures b == NULL_BLOCK <==> size == 0 || Exhausted(old(H), size)
      ensures b == NULL_BLOCK ==> Quiet() && H == old(H) && mem == old(mem)
      ensures b != NULL_BLOCK ==> Floating(old(H), b, size) && GoodFit(old(H), b, size)
      ensures AllKept(old(mem), mem, old(H), H, NULL_BLOCK)
      ensures Used(H) == Used(old(H)) && Pools(H) == Pools(old(H))
    {
      var c := MappingSearch(size);
      b := NULL_BLOCK;
      if size != 0 {
        SearchedClassMin(size);
        if c.fl < FL_INDEX_COUNT {
          b, c := SearchSuitableBlock(c);
        }
        if b == NULL_BLOCK {
          EmptyListsExhausted(H, size);
        }
      }
      if b != NULL_BLOCK {
        HeaderSays(b);
        FirstListFits(H, size, c, b);
        SearchIsSound(size, H.nodes[b].size);
        assert BlockSize(b) >= size;
        NotExhausted(H, size, b);
        NullIsNoBlock(H);
        FoundAlone(H, b);
        RemoveFreeBlock(b, c);
        FoundFloats(old(H), H, b);
      }
    }

    /** Block b has been taken off its list; nothing free touches it. */
    ghost predicate Floating(h: Heap, b: Addr, size: nat)
      reads this
    {
      && Valid() && H.floats == {b} && b in H.nodes && !H.nodes[b].prevFree
      && Next(H, b) in H.nodes && !H.nodes[Next(H, b)].free
      && b in h.nodes && h.nodes[b].free && size <= H.nodes[b].size == h.nodes[b].size
    }

    method BlockPrepareUsed(b: Addr, size: nat) returns (p: Addr)
      requires b == NULL_BLOCK ==> Quiet()
      requires b != NULL_BLOCK ==>
                 && Valid() && H.floats == {b} && b in H.nodes && Next(H, b) in H.nodes && !H.nodes[Next(H, b)].free
                 && size >= BLOCK_SIZE_MIN && size % 8 == 0
      modifies this
      ensures Quiet()
      ensures b == NULL_BLOCK ==> p == 0 && H == old(H) && mem == old(mem)
      ensures b != NULL_BLOCK ==> p == b + POINTER_OFFSET && InUse(H, b) && Used(H) == Used(old(H)) + {b}
      ensures b != NULL_BLOCK ==>
                H.nodes[b].size == if old(H).nodes[b].size >= size + GAP_MINIMUM then size else old(H).nodes[b].size
      ensures AllKept(old(mem), mem, old(H), H, NULL_BLOCK)
      ensures Pools(H) == Pools(old(H))
    {
      p := 0;
      if b != NULL_BLOCK {
        BlockTrimFree(b, size);
        label trimmed: assert Valid();
        HeaderSays(b);
        HeaderSays(BlockNext(b));
        BlockMarkAsUsed(b);
        MarkUsedMatches(old@trimmed(mem), mem, H, b);
        MarkUsedSets(H, b);
        KeptTwice(old(mem), old@trimmed(mem), mem, old(H), H, MarkUsed(H, b), NULL_BLOCK, NULL_BLOCK, NULL_BLOCK);
        H := MarkUsed(H, b);
        p := b + POINTER_OFFSET;
      }
    }

    /** block_prepare_used of a block that block_locate_free has found. */
    method HandOut(b: Addr, size: nat, ghost h: Heap) returns (p: Addr)
      requires b != NULL_BLOCK && Floating(h, b, size) && Used(H) == Used(h) && PhysInv(h)
      requires size >= BLOCK_SIZE_MIN && size % 8 == 0
      modifies this
      ensures Quiet() && p == b + POINTER_OFFSET && p >= LOWEST && HandedOut(h, H, p, size)
              && H.nodes[p - POINTER_OFFSET].size < size + GAP_MINIMUM
      ensures AllKept(old(mem), mem, old(H), H, NULL_BLOCK) && Pools(H) == Pools(old(H))
    {
      BlockEnd(H, b);
      assert PhysOk(h, b);
      p := BlockPrepareUsed(b, size);
    }

    /** tlsf_malloc */
    method Malloc(size: nat) returns (p: Addr)
      requires Quiet() && size < SIZE_T
      modifies this
      ensures Quiet() && Pools(H) == Pools(old(H)) && AllKept(old(mem), mem, old(H), H, NULL_BLOCK)
      ensures var adjust := AdjustRequestSize(size, ALIGN_SIZE);
              && (p == 0 <==> adjust == 0 || Exhausted(old(H), adjust))
              && (p == 0 ==> H == old(H) && mem == old(mem))
              && (p != 0 ==> HandedOut(old(H), H, p, adjust) && H.nodes[p - POINTER_OFFSET].size < adjust + GAP_MINIMUM)
              && (p != 0 ==> GoodFit(old(H), p - POINTER_OFFSET, adjust))
    {
      var adjust := AdjustRequestSize(size, ALIGN_SIZE);
      AdjustedShape(size, ALIGN_SIZE);
      var b := BlockLocateFree(adjust);
      label found: assert Valid();
      if b == NULL_BLOCK {
        p := BlockPrepareUsed(b, adjust);
      } else {
        p := HandOut(b, adjust, old(H));
        KeptTwice(old(mem), old@found(mem), mem, old(H), old@found(H), H, NULL_BLOCK, NULL_BLOCK, NULL_BLOCK);
      }
    }

    // -------------------------------------------------------------- freeing

    /** tlsf_free */
    method Free(p: Addr)
      requires Quiet() && (p != 0 ==> InUse(H, p - POINTER_OFFSET))
      modifies this
      ensures Quiet() && Pools(H) == Pools(old(H))
      ensures p == 0 ==> H == old(H) && mem == old(mem)
      ensures p != 0 ==> Used(H) == Used(old(H)) - {p - POINTER_OFFSET}
      ensures AllKept(old(mem), mem, old(H), H, p - POINTER_OFFSET)
    {
      if p != 0 {
        var b := p - POINTER_OFFSET;
        HeaderSays(b);
        HeaderSays(BlockNext(b));
        BlockMarkAsFree(b);
        MarkFreeMatches(old(mem), mem, H, b);
        MarkUsedSets(H, b);
        H := MarkFree(H, b);
        label marked: assert Valid();
        b := BlockMergePrev(b);
        label before: assert Valid();
        b := BlockMergeNext(b);
        label after: assert Valid();
        BlockInsert(b);
        NullIsNoBlock(old(H));
        KeptTwice(old(mem), old@marked(mem), old@before(mem), old(H), old@marked(H), old@before(H),
            p - POINTER_OFFSET, NULL_BLOCK, p - POINTER_OFFSET);
        KeptTwice(old(mem), old@before(mem), old@after(mem), old(H), old@before(H), old@after(H), p - POINTER_OFFSET,
            NULL_BLOCK, p - POINTER_OFFSET);
        KeptTwice(old(mem), old@after(mem), mem, old(H), old@after(H), H, p - POINTER_OFFSET, NULL_BLOCK,
            p - POINTER_OFFSET);
      }
    }

    // -------------------------------------------------------------- aligned allocation

    /**
     tlsf_memalign. For an alignment below 2^63 the block handed out is aligned and large enough. At
     2^63 the size searched for wraps around (GapRoomExactly): the heap stays sound and the block is
     a block of its own, but it need be neither aligned nor as large as the request.
    */
    method Memalign(align: nat, size: nat) returns (p: Addr)
      requires Quiet() && 0 < align < SIZE_T && IsPow2(align) && size < SIZE_T
      modifies this
      ensures Quiet() && Pools(H) == Pools(old(H)) && AllKept(old(mem), mem, old(H), H, NULL_BLOCK)
      ensures p == 0 <==> NoRoomFor(old(H), align, size)
      ensures p == 0 ==> H == old(H) && mem == old(mem)
      ensures p != 0 ==> HandedOut(old(H), H, p, if align < TOP_BIT then AdjustRequestSize(size, ALIGN_SIZE)
              else BLOCK_SIZE_MIN)
      ensures p != 0 && align < TOP_BIT ==> p % align == 0
      ensures p != 0 && align >= TOP_BIT ==> (p % align == 0 <==> p == TOP_BIT)
      ensures p != 0 ==> H.nodes[p - POINTER_OFFSET].size < AdjustRequestSize(size, ALIGN_SIZE) + GAP_MINIMUM
    {
      var adjust := AdjustRequestSize(size, ALIGN_SIZE);
      AdjustedShape(size, ALIGN_SIZE);
      var b := BlockLocateAligned(align, size);
      label located: assert Valid();
      p := BlockPrepareUsed(b, adjust);
      KeptTwice(old(mem), old@located(mem), mem, old(H), old@located(H), H, NULL_BLOCK, NULL_BLOCK, NULL_BLOCK);
      if b == NULL_BLOCK {
        return;
      }
      assert p >= LOWEST;
      assert HandedOut(old(H), H, p, if align < TOP_BIT then adjust else BLOCK_SIZE_MIN);
      AlignedPointer(align, p);
      BlockEnd(H, b);
      if align >= TOP_BIT {
        TopAligned(align, p);
      }
    }

    /** The part of tlsf_memalign that finds a block and moves its start to an aligned address. */
    method BlockLocateAligned(align: nat, size: nat) returns (b: Addr)
      requires Quiet() && 0 < align < SIZE_T && IsPow2(align) && size < SIZE_T
      modifies this
      ensures b == NULL_BLOCK <==> NoRoomFor(old(H), align, size)
      ensures b == NULL_BLOCK ==> Quiet() && H == old(H) && mem == old(mem)
      ensures b != NULL_BLOCK ==>
                && Valid() && H.floats == {b} && b in H.nodes && Next(H, b) in H.nodes && !H.nodes[Next(H, b)].free
                && b !in Used(old(H)) && LOWEST <= b && b % 8 == 0
                    && AdjustRequestSize(size, ALIGN_SIZE) >= BLOCK_SIZE_MIN
                && H.nodes[b].size >= (if align < TOP_BIT then AdjustRequestSize(size, ALIGN_SIZE) else BLOCK_SIZE_MIN)
      ensures b != NULL_BLOCK && align < TOP_BIT ==> Divides(align, b + POINTER_OFFSET)
      ensures AllKept(old(mem), mem, old(H), H, NULL_BLOCK)
      ensures Used(H) == Used(old(H)) && Pools(H) == Pools(old(H))
    {
      AdjustedShape(size, ALIGN_SIZE);
      AlignedShape(align, size);
      SearchSaysNoRoom(H, align, size);
      b := BlockLocateFree(AlignedSize(align, size));
      label found: assert Valid();
      if b != NULL_BLOCK {
        if align > ALIGN_SIZE {
          GapRoomExactly(align, size);
        }
        BlockEnd(H, b);
        var start := b;
        b := BlockSkipGap(start, align);
        FreshBlock(old(H), start, b);
        BlockEnd(H, b);
        KeptTwice(old(mem), old@found(mem), mem, old(H), old@found(H), H, NULL_BLOCK, NULL_BLOCK, NULL_BLOCK);
      }
    }

    /** The part of tlsf_memalign that gives a leading gap back to the pool. */
    method BlockSkipGap(b: Addr, align: nat) returns (r: Addr)
      requires Valid() && H.floats == {b} && b in H.nodes && H.nodes[b].size != 0 && !H.nodes[b].prevFree
      requires Next(H, b) in H.nodes && !H.nodes[Next(H, b)].free
      requires 0 < align < SIZE_T && IsPow2(align)
      requires ALIGN_SIZE < align < TOP_BIT ==> H.nodes[b].size >= BLOCK_SIZE_MIN + align + GAP_MINIMUM
      modifies this
      ensures Valid() && H.floats == {r} && r in H.nodes && Next(H, r) in H.nodes && !H.nodes[Next(H, r)].free
      ensures LOWEST <= b <= r < Next(old(H), b) && H.nodes[r].size >= BLOCK_SIZE_MIN
              && H.nodes[r].size == old(H).nodes[b].size - (r - b) && r % 8 == 0
      ensures align < TOP_BIT ==> Divides(align, r + POINTER_OFFSET) && r - b <= align + 24
      ensures align <= ALIGN_SIZE ==> r == b
      ensures AllKept(old(mem), mem, old(H), H, NULL_BLOCK)
      ensures Used(H) == Used(old(H)) && Pools(H) == Pools(old(H))
    {
      HeaderSays(b);
      BlockEnd(H, b);
      r := b;
      var gap := AlignmentGap(b + POINTER_OFFSET, align);
      if gap != 0 {
        assert gap >= GAP_MINIMUM;
        r := BlockTrimFreeLeading(b, gap);
      }
      HeaderSays(r);
    }

    // -------------------------------------------------------------- reallocation

    /** memcpy of whole words between regions that do not overlap. */
    method CopyWords(dst: Addr, src: Addr, n: nat)
      requires n % 8 == 0 && (dst + n <= src || src + n <= dst)
      modifies `mem
      ensures forall i | 0 <= i < n && i % 8 == 0 :: Rd(mem, dst + i) == Rd(old(mem), src + i)
      ensures forall a | Rd(mem, a) != Rd(old(mem), a) :: dst <= a < dst + n
    {
      var k := 0;
      while k < n
        invariant 0 <= k <= n && k % 8 == 0
        invariant forall i | 0 <= i < k && i % 8 == 0 :: Rd(mem, dst + i) == Rd(old(mem), src + i)
        invariant forall a | Rd(mem, a) != Rd(old(mem), a) :: dst <= a < dst + k
      {
        mem := mem[dst + k := Rd(mem, src + k)];
        k := k + 8;
      }
    }

    /** block_merge_next and block_mark_as_used for a block in use whose next block is free. */
    method BlockExpand(b: Addr)
      requires Quiet() && InUse(H, b) && Next(H, b) in H.nodes && H.nodes[Next(H, b)].free
      modifies this
      ensures Quiet() && InUse(H, b) && H.nodes[b].size == old(H).nodes[b].size + old(H).nodes[Next(old(H), b)].size
              + OVERHEAD
      ensures forall a | b + 16 <= a < b + 16 + old(H).nodes[b].size :: Rd(mem, a) == Rd(old(mem), a)
      ensures AllKept(old(mem), mem, old(H), H, b)
      ensures Used(H) == Used(old(H)) && Pools(H) == Pools(old(H))
    {
      HeaderSays(b);
      var next := BlockNext(b);
      HeaderSays(next);
      BlockRemove(next);
      label removed: assert Valid();
      assert Kept(old(mem), mem, old(H), H, b);
      assert forall a | b + 16 <= a < b + 16 + H.nodes[b].size :: Payload(old(H), b, a);
      FoundSize(old(H), H, next);
      BlockSwallow(b, next);
      NullIsNoBlock(old(H));
      KeptTwice(old(mem), old@removed(mem), mem, old(H), old@removed(H), H, NULL_BLOCK, b, b);
    }

    /** The last two steps of BlockExpand: the next block has been taken off its list. */
    method BlockSwallow(b: Addr, next: Addr)
      requires Valid() && InUse(H, b) && next == Next(H, b) && next in H.nodes && H.floats == {next}
      modifies this
      ensures Quiet() && InUse(H, b) && H.nodes[b].size == old(H).nodes[b].size + old(H).nodes[next].size + OVERHEAD
      ensures forall a | b + 16 <= a < b + 16 + old(H).nodes[b].size :: Rd(mem, a) == Rd(old(mem), a)
      ensures AllKept(old(mem), mem, old(H), H, b)
      ensures Used(H) == Used(old(H)) && Pools(H) == Pools(old(H))
    {
      HeaderSays(b);
      HeaderSays(next);
      HeaderSays(BlockNext(next));
      BlockAbsorb(b, next);
      BlockMarkAsUsed(b);
      AbsorbUsedMatches(old(mem), mem, H, b);
      AbsorbSets(H, b);
      H := AbsorbUsed(H, b);
    }

    /** A block in use has to move to grow: there is not enough free memory behind it. */
    ghost predicate MustMove(h: Heap, b: Addr, adjust: nat)
      requires b in h.nodes
    {
      adjust > h.nodes[b].size && Next(h, b) in h.nodes &&
      (!h.nodes[Next(h, b)].free || adjust > h.nodes[b].size + h.nodes[Next(h, b)].size + OVERHEAD)
    }

    /** The first bytes of a block, up to the smaller of two sizes, are those of an older block. */
    ghost predicate Copied(m: Memory, m': Memory, b: Addr, size: nat, b': Addr, size': nat) {
      forall i | 0 <= i < size && i < size' && i % 8 == 0 ::
          Rd(m', b' + POINTER_OFFSET + i) == Rd(m, b + POINTER_OFFSET + i)
    }

    /** The part of tlsf_realloc that moves the block. */
    method ReallocMove(p: Addr, size: nat) returns (q: Addr)
      requires Quiet() && InUse(H, p - POINTER_OFFSET) && size < SIZE_T
      requires AdjustRequestSize(size, ALIGN_SIZE) > H.nodes[p - POINTER_OFFSET].size
      modifies this
      ensures Quiet() && Pools(H) == Pools(old(H)) && AllKept(old(mem), mem, old(H), H, p - POINTER_OFFSET)
      ensures q == 0 <==> NoRoomFor(old(H), 16, size)
      ensures q == 0 ==> H == old(H) && mem == old(mem)
      ensures q != 0 ==> Moved(old(mem), mem, old(H), H, p - POINTER_OFFSET, q - POINTER_OFFSET,
              AdjustRequestSize(size, ALIGN_SIZE))
      ensures q != 0 ==> q - POINTER_OFFSET !in Used(old(H))
    {
      var b := p - POINTER_OFFSET;
      HeaderSays(b);
      SixteenIsPow2();
      var cursize := BlockSize(b);
      OutgrowsBlock(size, cursize);
      q := Memalign(16, size);
      if q != 0 {
        label moved: assert Valid();
        ghost var b' := q - POINTER_OFFSET;
        assert Kept(old(mem), mem, old(H), H, b);
        assert forall a | p <= a < p + cursize :: Payload(old(H), b, a);
        BlocksApart(H, b, b');
        var minsize := if cursize < size then cursize else size;
        assert minsize == cursize;
        CopyWords(q, p, minsize);
        PayloadWrites(old@moved(mem), mem, H, b');
        label copied: assert Valid();
        Free(p);
        assert Kept(old@copied(mem), mem, old@copied(H), H, b');
        assert forall a | q <= a < q + cursize :: Payload(old@copied(H), b', a);
        NullIsNoBlock(old(H));
        KeptTwice(old(mem), old@moved(mem), old@copied(mem), old(H), old@moved(H), old@copied(H), NULL_BLOCK, b', b);
        KeptTwice(old(mem), old@copied(mem), mem, old(H), old@copied(H), H, b, b, b);
      }
    }

    /** The block b' in use takes the place of b and has its contents. */
    ghost predicate Moved(m: Memory, m': Memory, h: Heap, h': Heap, b: Addr, b': Addr, size: nat) {
      && InUse(h, b) && InUse(h', b') && size <= h'.nodes[b'].size < size + GAP_MINIMUM
          && Used(h') == Used(h) - {b} + {b'}
      && Copied(m, m', b, h.nodes[b].size, b', h'.nodes[b'].size)
    }

    /**
     tlsf_realloc, for requests that adjust_request_size does not turn into zero unless they are zero.
    */
    method Realloc(p: Addr, size: nat) returns (q: Addr)
      requires Quiet() && (p != 0 ==> InUse(H, p - POINTER_OFFSET)) && size < SIZE_T
      requires p != 0 && size != 0 ==> AdjustRequestSize(size, ALIGN_SIZE) != 0
      modifies this
      ensures Quiet() && Pools(H) == Pools(old(H)) && AllKept(old(mem), mem, old(H), H, p - POINTER_OFFSET)
      ensures p == 0 ==> (q == 0 <==> NoRoomFor(old(H), 16, size))
      ensures p == 0 && q != 0 ==>
              HandedOut(old(H), H, q, AdjustRequestSize(size, ALIGN_SIZE)) && q % 16 == 0
              && H.nodes[q - POINTER_OFFSET].size < AdjustRequestSize(size, ALIGN_SIZE) + GAP_MINIMUM
      ensures p != 0 && size == 0 ==> q == 0 && Used(H) == Used(old(H)) - {p - POINTER_OFFSET}
      ensures p != 0 && size != 0 ==> Reallocated(old(mem), old(H), p - POINTER_OFFSET, size, q)
    {
      if p != 0 && size == 0 {
        Free(p);
        q := 0;
      } else if p == 0 {
        SixteenIsPow2();
        q := Memalign(16, size);
        KeptByAll(old(mem), mem, old(H), H, p - POINTER_OFFSET);
      } else {
        var b := p - POINTER_OFFSET;
        HeaderSays(b);
        BlockEnd(H, b);
        var next := BlockNext(b);
        HeaderSays(next);
        var cursize := BlockSize(b);
        var combined := cursize + BlockSize(next) + OVERHEAD;
        var adjust := AdjustRequestSize(size, ALIGN_SIZE);
        AdjustedShape(size, ALIGN_SIZE);
        if adjust > cursize && (!BlockIsFree(next) || adjust > combined) {
          q := ReallocMove(p, size);
        } else {
          if adjust > cursize {
            BlockExpand(b);
          }
          label expanded: assert Quiet();
          BlockTrimUsed(b, adjust);
          KeptTwice(old(mem), old@expanded(mem), mem, old(H), old@expanded(H), H, b, b, b);
          assert Moved(old(mem), mem, old(H), H, b, b, adjust);
          q := p;
        }
      }
    }

    /**
     tlsf_realloc of a request that adjust_request_size turns down, to where the rest of the block would
     be merged and listed. The request counts as zero, so the block stays and is trimmed to size zero:
     the pointer is returned with less memory than was asked for; and a block of 32 bytes or more gets
     the size zero and the header of a free block in its payload. No heap has such a block in use.
    */
    method ReallocRejected(p: Addr, size: nat) returns (q: Addr)
      requires Quiet() && p != 0 && InUse(H, p - POINTER_OFFSET) && 0 < size < SIZE_T
      requires AdjustRequestSize(size, ALIGN_SIZE) == 0
      modifies `mem
      ensures var b, cursize := p - POINTER_OFFSET, old(H).nodes[p - POINTER_OFFSET].size;
              && q == p && BLOCK_SIZE_MIN <= cursize < size
              && (cursize < GAP_MINIMUM ==> mem == old(mem))
              && (cursize >= GAP_MINIMUM ==>
                    && Rd(mem, b + 8).high == 0 && Payload(old(H), b, p)
                    && Rd(mem, p) == Word(cursize - OVERHEAD, false, true)
                    && forall h | PhysInv(h) && Matches(mem, h) :: !InUse(h, b))
    {
      var b := p - POINTER_OFFSET;
      HeaderSays(b);
      RejectedIsLarger(H, b, size);
      BlockEnd(H, b);
      var next := BlockNext(b);
      HeaderSays(next);
      var cursize := BlockSize(b);
      var combined := cursize + BlockSize(next) + OVERHEAD;
      var adjust := AdjustRequestSize(size, ALIGN_SIZE);
      assert !(adjust > cursize);
      if BlockCanSplit(b, adjust) {
        var rest := BlockSplit(b, adjust);
        mem := mem[rest + 8 := Rd(mem, rest + 8).(prevFree := false)];
        forall h | PhysInv(h) && Matches(mem, h)
          ensures !InUse(h, b)
        {
          if b in h.nodes {
            ZeroSizeEndsPool(mem, h, b);
          }
        }
      }
      q := p;
    }

    /**
     What a reallocation of the block b promises: it fails exactly when the block must move and there
     is no room, and then changes nothing; it moves only when it must; and it keeps the contents.
    */
    ghost predicate Reallocated(m: Memory, h: Heap, b: Addr, size: nat, q: Addr)
      requires InUse(h, b) && size < SIZE_T
      reads this
    {
      var adjust := AdjustRequestSize(size, ALIGN_SIZE);
      && (q == 0 <==> MustMove(h, b, adjust) && NoRoomFor(h, 16, size))
      && (q == 0 ==> H == h && mem == m)
      && (q != 0 ==> Moved(m, mem, h, H, b, q - POINTER_OFFSET, adjust))
      && (q != 0 && MustMove(h, b, adjust) ==> q - POINTER_OFFSET !in Used(h))
      && (!MustMove(h, b, adjust) ==> q == b + POINTER_OFFSET)
    }

    // -------------------------------------------------------------- pools

    /** The memory from m on is no part of any pool. */
    ghost predicate Vacant(h: Heap, m: Addr, bytes: nat) {
      forall b | b in h.nodes :: Next(h, b) + 8 <= m || m + bytes <= b + 8
    }

    /**
     tlsf_add_pool, for memory that no pool holds. A pool of exactly block_size_max bytes passes the
     test although its block has no class in the table (LimitEscapesTable), so it is excluded.
    */
    method AddPool(m: Addr, bytes: nat) returns (pool: Addr)
      requires Quiet() && bytes < SIZE_T && LOWEST + OVERHEAD <= m && m + bytes <= SIZE_T && Vacant(H, m, bytes)
      requires PoolBytes(bytes) != BLOCK_SIZE_MAX
      modifies this
      ensures Quiet() && Used(H) == Used(old(H)) && AllKept(old(mem), mem, old(H), H, NULL_BLOCK)
      ensures pool == 0 <==> m % 8 != 0 || !(BLOCK_SIZE_MIN <= PoolBytes(bytes) <= BLOCK_SIZE_MAX)
      ensures pool == 0 ==> H == old(H) && mem == old(mem)
      ensures pool != 0 ==>
              pool == m
              && Pools(H) == Pools(old(H))[m + PoolBytes(bytes) := Pool(m - OVERHEAD, m + PoolBytes(bytes))]
    {
      var poolBytes := PoolBytes(bytes);
      if m % 8 != 0 || poolBytes < BLOCK_SIZE_MIN || poolBytes > BLOCK_SIZE_MAX {
        pool := 0;
        return;
      }
      PoolBytesFit(bytes);
      var b := m - OVERHEAD;
      NewPool(mem, H, b, poolBytes);
      WriteNewPool(b, poolBytes);
      H := Attach(TlsfBlocks.AddPool(H, b, poolBytes), b);
      pool := m;
    }

    /** The writes of tlsf_add_pool. */
    method WriteNewPool(b: Addr, poolBytes: nat)
      requires MappingInsert(poolBytes) in blocks && MappingInsert(poolBytes).fl in slBitmap
      requires poolBytes >= BLOCK_SIZE_MIN && blocks[MappingInsert(poolBytes)] + 24 != b + 8
      modifies `mem, `blocks, `flBitmap, `slBitmap
      ensures var c := MappingInsert(poolBytes);
              && mem == NewPoolMemory(old(mem), b, poolBytes, old(blocks)[c])
              && blocks == old(blocks)[c := b] && flBitmap == old(flBitmap) + {c.fl}
              && slBitmap == old(slBitmap)[c.fl := old(slBitmap)[c.fl] + {c.sl}]
    {
      mem := mem[b + 8 := Word(poolBytes, false, true)];
      InsertFreeBlock(b, MappingInsert(BlockSize(b)));
      assert BlockSize(b) == poolBytes;
      var next := BlockNext(b);
      mem := mem[next := Ptr(b)];
      mem := mem[next + 8 := Word(0, true, false)];
    }

    // -------------------------------------------------------------- checking

    /** tlsf_check can follow the list of class c, which consists of these blocks. */
    ghost predicate CanCheck(lists: map<Class, seq<Addr>>, c: Class)
      reads this
    {
      && c in blocks && c.fl in slBitmap && c in lists
      && (c.sl in slBitmap[c.fl] ==> Chain(mem, blocks[c], lists[c]))
    }

    /** Bitmaps, list and blocks agree about class c, whose list consists of these blocks. */
    ghost predicate Agrees(list: seq<Addr>, c: Class)
      reads this
    {
      && c in blocks && c.fl in slBitmap
      && if c.sl in slBitmap[c.fl]
         then c.fl in flBitmap && blocks[c] != NULL_BLOCK && forall x | x in list :: RightOnList(mem, x, c)
         else blocks[c] == NULL_BLOCK
    }

    /** The result of tlsf_check so far says whether the classes before row i and column j are in order. */
    ghost predicate CheckedUpTo(lists: map<Class, seq<Addr>>, i: nat, j: nat, status: int)
      reads this
    {
      status <= 0 &&
      (status == 0 <==> forall c | InTable(c) && Earlier(c, i, j) :: c in lists && Agrees(lists[c], c))
    }

    /** tlsf_check returns zero exactly if bitmaps, lists and blocks agree, whatever state they are in. */
    method Check(ghost lists: map<Class, seq<Addr>>) returns (status: int)
      requires forall c | InTable(c) :: CanCheck(lists, c)
      ensures status <= 0 && (status == 0 <==> forall c | InTable(c) :: c in lists && Agrees(lists[c], c))
    {
      status := 0;
      for i := 0 to FL_INDEX_COUNT
        invariant CheckedUpTo(lists, i, 0, status)
      {
        for j := 0 to SL_INDEX_COUNT
          invariant CheckedUpTo(lists, i, j, status)
        {
          assert CanCheck(lists, Class(i, j));
          status := CheckClass(Class(i, j), lists[Class(i, j)], status);
          EarlierStep(i, j);
        }
        EarlierRow(i);
      }
    }

    /** The body of the two loops of tlsf_check. */
    method CheckClass(c: Class, ghost list: seq<Addr>, before: int) returns (status: int)
      requires c in blocks && c.fl in slBitmap && (c.sl in slBitmap[c.fl] ==> Chain(mem, blocks[c], list))
      ensures status <= before && (status == before <==> Agrees(list, c))
    {
      status := before;
      var flMap := c.fl in flBitmap;
      var slList := slBitmap[c.fl];
      var slMap := c.sl in slList;
      var b := blocks[c];
      if !flMap {
        if slMap { status := status - 1; }
      }
      if !slMap {
        if b != NULL_BLOCK { status := status - 1; }
        return;
      }
      if slList == {} { status := status - 1; }
      if b == NULL_BLOCK { status := status - 1; }
      status := CheckList(b, c, list, status);
    }

    /** The inner loop of tlsf_check. */
    method CheckList(first: Addr, c: Class, ghost list: seq<Addr>, before: int) returns (status: int)
      requires Chain(mem, first, list)
      ensures status <= before && (status == before <==> forall x | x in list :: RightOnList(mem, x, c))
    {
      status := before;
      var b := first;
      ghost var k := 0;
      while b != NULL_BLOCK
        invariant 0 <= k <= |list| && Chain(mem, b, list[k..])
        invariant status <= before && (status == before <==> forall x | x in list[..k] :: RightOnList(mem, x, c))
        decreases |list| - k
      {
        ghost var sofar := status;
        if !BlockIsFree(b) { status := status - 1; }
        if BlockIsPrevFree(b) { status := status - 1; }
        if BlockIsFree(BlockNext(b)) { status := status - 1; }
        if !BlockIsPrevFree(BlockNext(b)) { status := status - 1; }
        if BlockSize(b) < BLOCK_SIZE_MIN { status := status - 1; }
        if MappingInsert(BlockSize(b)) != c { status := status - 1; }
        assert status <= sofar && (status == sofar <==> RightOnList(mem, b, c));
        assert list[..k + 1] == list[..k] + [b] && list[k..][1..] == list[k + 1..];
        b := Rd(mem, b + 16).high;
        k := k + 1;
      }
      assert list[..k] == list;
    }

    /** Between two operations there is nothing for tlsf_check to find. */
    lemma ListsAgree() returns (lists: map<Class, seq<Addr>>)
      requires Quiet()
      ensures forall c | InTable(c) :: CanCheck(lists, c) && Agrees(lists[c], c)
    {
      forall c | InTable(c)
        ensures c in H.heads && (H.heads[c] == NULL_BLOCK || Listed(H, H.heads[c], c))
      {
        assert HeadOk(H, c);
      }
      lists := map c | c in H.heads && InTable(c) :: ListFrom(H, H.heads[c], c);
      forall c | InTable(c)
        ensures CanCheck(lists, c) && Agrees(lists[c], c)
      {
        BitsSay(c);
        assert HeadOk(H, c);
        ListIsChain(H.heads[c], c);
      }
    }

    /** The list of a class is what tlsf_check follows, and every block is right there. */
    lemma {:induction false} ListIsChain(b: Addr, c: Class)
      requires Quiet() && (b == NULL_BLOCK || Listed(H, b, c))
      ensures var s := ListFrom(H, b, c); Chain(mem, b, s) && forall x | x in s :: RightOnList(mem, x, c)
      decreases if b == NULL_BLOCK then 0 else H.nodes[b].age + 1
    {
      if b != NULL_BLOCK {
        HeaderSays(b);
        HeaderSays(Next(H, b));
        FoundAlone(H, b);
        assert Stored(mem, H, b);
        var n := H.nodes[b].nextFree;
        ListIsChain(n, c);
        assert ListFrom(H, b, c) == [b] + ListFrom(H, n, c);
      }
    }

    /** tlsf_check_pool returns zero exactly if every block of the pool says of the one before whether it is free. */
    method CheckPool(pool: Addr, ghost walk: seq<Addr>) returns (status: int)
      requires Walk(mem, pool - OVERHEAD, walk)
      ensures status <= 0 && (status == 0 <==> forall k | 0 <= k < |walk| :: RightInPool(mem, walk, k))
    {
      status := 0;
      var prevStatus := false;
      var b := pool - OVERHEAD;
      ghost var k := 0;
      while BlockSize(b) != 0
        invariant 0 <= k <= |walk| && Walk(mem, b, walk[k..])
        invariant prevStatus == (k > 0 && Rd(mem, walk[k - 1] + 8).free)
        invariant status <= 0 && (status == 0 <==> forall j | 0 <= j < k :: RightInPool(mem, walk, j))
        decreases |walk| - k
      {
        ghost var sofar := status;
        if prevStatus != BlockIsPrevFree(b) { status := status - 1; }
        assert status <= sofar && (status == sofar <==> RightInPool(mem, walk, k));
        prevStatus := BlockIsFree(b);
        assert walk[k] == b && walk[k..][1..] == walk[k + 1..];
        b := BlockNext(b);
        k := k + 1;
      }
    }

    /** Between two operations there is nothing for tlsf_check_pool to find. */
    lemma PoolAgrees(pool: Addr) returns (walk: seq<Addr>)
      requires Quiet() && IsPool(H, pool)
      ensures Walk(mem, pool - OVERHEAD, walk) && forall k | 0 <= k < |walk| :: RightInPool(mem, walk, k)
    {
      var b := pool - OVERHEAD;
      HeaderSays(b);
      walk := WalkFrom(b);
      NothingBeforePool(H, b);
    }

    /** The blocks of a pool from b on. */
    lemma {:induction false} WalkFrom(b: Addr) returns (walk: seq<Addr>)
      requires Quiet() && b in H.nodes && b <= H.nodes[b].pool.end
      ensures Walk(mem, b, walk) && forall k | 1 <= k < |walk| :: RightInPool(mem, walk, k)
      ensures walk != [] ==> walk[0] == b
      decreases H.nodes[b].pool.end - b
    {
      HeaderSays(b);
      walk := [];
      if H.nodes[b].size != 0 {
        var next := Next(H, b);
        HeaderSays(next);
        var rest := WalkFrom(next);
        walk := [b] + rest;
        assert walk[1..] == rest;
        forall k | 1 <= k < |walk|
          ensures RightInPool(mem, walk, k)
        {
          assert walk[k] == rest[k - 1];
          if k > 1 {
            assert RightInPool(mem, rest, k - 1);
          }
        }
      }
    }
  }
}
