/**
 The heap of kernel/mem/tlsf.c as a graph of blocks: what every block header says, which list each
 free block is on, and the two levels of bitmaps. The memory words behind it are in TlsfMemory.

 An operation goes through states in which a block is marked free but on no list. Those blocks
 are in `floats`; between operations there are none.
*/
module TlsfBlocks {
  import opened TlsfMapping

  type Addr = int

  const NULL_BLOCK: Addr := 0     // control->block_null
  const LOWEST: Addr := 64        // blocks lie beyond the list heads' null block
  const OVERHEAD := 8             // block_header_overhead

  /** The memory a pool spans: from its first block to its zero-size sentinel. */
  datatype Pool = Pool(start: Addr, end: Addr)

  /** A block header. `cls` and `age` are for reasoning: the class of the size, and when the block was last listed. */
  datatype Node = Node(size: nat, free: bool, prevFree: bool, prevPhys: Addr,
                       nextFree: Addr, prevLink: Addr, pool: Pool, cls: Class, age: nat)

  datatype Heap = Heap(nodes: map<Addr, Node>, heads: map<Class, Addr>,
                       fl: set<int>, sl: map<int, set<int>>, floats: set<Addr>, clock: nat)

  /** block_next */
  function Next(h: Heap, b: Addr): Addr
    requires b in h.nodes
  {
    b + OVERHEAD + h.nodes[b].size
  }

  // ---------------------------------------------------------------- the invariant

  /** What a header says about its physical neighbours. */
  ghost predicate PhysOk(h: Heap, b: Addr)
    requires b in h.nodes
  {
    var n := h.nodes[b];
    && LOWEST <= n.pool.start <= b <= n.pool.end < n.pool.start + 8 + BLOCK_SIZE_MAX && n.pool.end + 16 <= SIZE_T
    && n.pool.start in h.nodes && h.nodes[n.pool.start].pool == n.pool
    && n.pool.end in h.nodes && h.nodes[n.pool.end].pool == n.pool
    && b % 8 == 0 && n.size % 8 == 0
    && (n.size == 0 <==> b == n.pool.end)
    && (n.size == 0 ==> !n.free)
    && (n.size != 0 ==> n.size >= BLOCK_SIZE_MIN && NextOk(h, b))
    && (n.prevFree ==> n.prevPhys in h.nodes && h.nodes[n.prevPhys].free && Next(h, n.prevPhys) == b)
    && (b in h.floats ==> n.free)
    && (n.free && b !in h.floats ==> Next(h, b) in h.floats || !h.nodes[Next(h, b)].free)
  }

  /** The next block is where the size says, in the same pool, and knows whether this one is free. */
  ghost predicate NextOk(h: Heap, b: Addr)
    requires b in h.nodes
  {
    var n, c := h.nodes[b], Next(h, b);
    c in h.nodes && h.nodes[c].pool == n.pool && h.nodes[c].prevFree == n.free && (n.free ==> h.nodes[c].prevPhys == b)
  }

  /** Blocks do not overlap. */
  ghost predicate Apart(h: Heap, b: Addr, c: Addr)
    requires b in h.nodes && c in h.nodes
  {
    b < c ==> Next(h, b) <= c
  }

  /** b is on the free list of class c. */
  ghost predicate Listed(h: Heap, b: Addr, c: Class) {
    b in h.nodes && h.nodes[b].free && b !in h.floats && h.nodes[b].cls == c
  }

  /** The links of a listed block: mutual, within the class, towards older blocks; the newest is the head. */
  ghost predicate LinksOk(h: Heap, b: Addr)
    requires b in h.nodes
  {
    var n := h.nodes[b];
    n.free && b !in h.floats ==>
      && InTable(n.cls) && n.cls in h.heads && n.age < h.clock
      && (n.nextFree != NULL_BLOCK ==>
            Listed(h, n.nextFree, n.cls) && h.nodes[n.nextFree].prevLink == b && h.nodes[n.nextFree].age < n.age)
      && (n.prevLink != NULL_BLOCK ==>
            Listed(h, n.prevLink, n.cls) && h.nodes[n.prevLink].nextFree == b && n.age < h.nodes[n.prevLink].age)
      && (n.prevLink == NULL_BLOCK <==> h.heads[n.cls] == b)
  }

  /** A list head is null or listed, and its second-level bit says which. */
  ghost predicate HeadOk(h: Heap, c: Class) {
    && c in h.heads && c.fl in h.sl
    && (h.heads[c] != NULL_BLOCK ==> Listed(h, h.heads[c], c))
    && (h.heads[c] != NULL_BLOCK <==> c.sl in h.sl[c.fl])
  }

  /** The bitmaps: first-level bits summarise second-level words. */
  ghost predicate BitmapsOk(h: Heap) {
    && (forall i | 0 <= i < FL_INDEX_COUNT :: i in h.sl && (i in h.fl <==> h.sl[i] != {}))
    && (forall i | i in h.fl :: 0 <= i < FL_INDEX_COUNT)
    && (forall i, j | i in h.sl && j in h.sl[i] :: 0 <= j < SL_INDEX_COUNT)
  }

  ghost predicate PhysInv(h: Heap) {
    && h.floats <= h.nodes.Keys
    && (forall b {:trigger PhysOk(h, b)} | b in h.nodes :: PhysOk(h, b))
    && (forall b, c {:trigger Apart(h, b, c)} | b in h.nodes && c in h.nodes :: Apart(h, b, c))
  }

  ghost predicate ListInv(h: Heap) {
    && (forall b {:trigger LinksOk(h, b)} | b in h.nodes :: LinksOk(h, b))
    && (forall c {:trigger HeadOk(h, c)} | InTable(c) :: HeadOk(h, c))
    && BitmapsOk(h)
  }

  /** The recorded class is the class of the size. */
  ghost predicate ClassOk(h: Heap, b: Addr)
    requires b in h.nodes
  {
    h.nodes[b].cls == MappingInsert(h.nodes[b].size)
  }

  ghost predicate ClassInv(h: Heap) {
    forall b {:trigger ClassOk(h, b)} | b in h.nodes :: ClassOk(h, b)
  }

  ghost predicate Inv(h: Heap) {
    PhysInv(h) && ListInv(h) && ClassInv(h)
  }

  // ---------------------------------------------------------------- the primitives

  function SetPrevLink(h: Heap, b: Addr, p: Addr): Heap {
    if b in h.nodes then h.(nodes := h.nodes[b := h.nodes[b].(prevLink := p)]) else h
  }

  function SetNextFree(h: Heap, b: Addr, n: Addr): Heap {
    if b in h.nodes then h.(nodes := h.nodes[b := h.nodes[b].(nextFree := n)]) else h
  }

  /** Clear the bits of an empty list. */
  function ClearBits(h: Heap, c: Class): Heap
    requires c.fl in h.sl
  {
    var row := h.sl[c.fl] - {c.sl};
    h.(sl := h.sl[c.fl := row], fl := if row == {} then h.fl - {c.fl} else h.fl)
  }

  /** remove_free_block */
  function Detach(h: Heap, b: Addr): Heap
    requires b in h.nodes && h.nodes[b].cls in h.heads && h.nodes[b].cls.fl in h.sl
  {
    var n := h.nodes[b];
    var h1 := SetNextFree(SetPrevLink(h, n.nextFree, n.prevLink), n.prevLink, n.nextFree);
    var h2 := if h.heads[n.cls] == b
      then (var e := h1.(heads := h1.heads[n.cls := n.nextFree]); if n.nextFree == NULL_BLOCK then ClearBits(e, n.cls)
          else e)
      else h1;
    h2.(floats := h.floats + {b})
  }

  /** insert_free_block */
  function Attach(h: Heap, b: Addr): Heap
    requires b in h.nodes && h.nodes[b].cls in h.heads && h.nodes[b].cls.fl in h.sl
  {
    var c := h.nodes[b].cls;
    var current := h.heads[c];
    var h1 := SetPrevLink(h, current, b);
    Heap(h1.nodes[b := h1.nodes[b].(nextFree := current, prevLink := NULL_BLOCK, age := h.clock)],
         h.heads[c := b], h.fl + {c.fl}, h.sl[c.fl := h.sl[c.fl] + {c.sl}], h.floats - {b}, h.clock + 1)
  }

  /** block_mark_as_free */
  function MarkFree(h: Heap, b: Addr): Heap
    requires b in h.nodes && Next(h, b) in h.nodes && Next(h, b) != b
  {
    var c := Next(h, b);
    h.(nodes := h.nodes[c := h.nodes[c].(prevFree := true, prevPhys := b)][b := h.nodes[b].(free := true)],
       floats := h.floats + {b})
  }

  /** block_mark_as_used */
  function MarkUsed(h: Heap, b: Addr): Heap
    requires b in h.nodes && Next(h, b) in h.nodes && Next(h, b) != b
  {
    var c := Next(h, b);
    h.(nodes := h.nodes[c := h.nodes[c].(prevFree := false)][b := h.nodes[b].(free := false)],
       floats := h.floats - {b})
  }

  /** block_split, with the flag of the remaining block set as its callers set it next. */
  function Split(h: Heap, b: Addr, size: nat): Heap
    requires b in h.nodes && Next(h, b) in h.nodes && h.nodes[b].size >= size + OVERHEAD
  {
    var n, c, r := h.nodes[b], Next(h, b), b + OVERHEAD + size;
    var rest := n.size - size - OVERHEAD;
    h.(nodes := h.nodes[b := n.(size := size, cls := MappingInsert(size))]
                       [c := h.nodes[c].(prevFree := true, prevPhys := r)]
                       [r := Node(rest, true, n.free, b, NULL_BLOCK, NULL_BLOCK, n.pool, MappingInsert(rest), 0)],
       floats := h.floats + {r})
  }

  /** block_absorb of the free block after the free block b. */
  function Absorb(h: Heap, b: Addr): Heap
    requires b in h.nodes && Next(h, b) in h.nodes && Next(h, Next(h, b)) in h.nodes
  {
    var n, c := h.nodes[b], Next(h, b);
    var d := Next(h, c);
    var size := n.size + h.nodes[c].size + OVERHEAD;
    h.(nodes := h.nodes[b := n.(size := size, cls := MappingInsert(size))][d := h.nodes[d].(prevPhys := b)] - {c},
       floats := h.floats - {c})
  }

  /** block_absorb of the free block after the used block b, and block_mark_as_used. */
  function AbsorbUsed(h: Heap, b: Addr): Heap
    requires b in h.nodes && Next(h, b) in h.nodes && Next(h, Next(h, b)) in h.nodes
  {
    var n, c := h.nodes[b], Next(h, b);
    var d := Next(h, c);
    var size := n.size + h.nodes[c].size + OVERHEAD;
    h.(nodes := h.nodes[b := n.(size := size, cls := MappingInsert(size))]
                       [d := h.nodes[d].(prevFree := false, prevPhys := b)] - {c},
       floats := h.floats - {c})
  }

  // ---------------------------------------------------------------- each primitive keeps the invariant

  /** The same block, as far as its physical neighbours can tell. */
  predicate SamePhys(n: Node, m: Node) {
    m == n.(nextFree := m.nextFree, prevLink := m.prevLink, age := m.age)
  }

  ghost predicate SameLayout(h: Heap, h': Heap) {
    h'.nodes.Keys == h.nodes.Keys && forall x | x in h.nodes :: SamePhys(h.nodes[x], h'.nodes[x])
  }

  /** Listing or unlisting b changes nothing physical. */
  lemma PhysFrame(h: Heap, h': Heap, b: Addr)
    requires PhysInv(h) && SameLayout(h, h') && b in h.nodes && h.nodes[b].free
    requires h'.floats == h.floats + {b} || (h'.floats == h.floats - {b} && Lonely(h, b))
    ensures PhysInv(h')
  {
    forall x | x in h'.nodes
      ensures PhysOk(h', x)
    {
      assert PhysOk(h, x);
      assert PhysOk(h, b);
    }
    forall x, y | x in h'.nodes && y in h'.nodes
      ensures Apart(h', x, y)
    {
      assert Apart(h, x, y);
    }
  }

  /** No neighbour of b is on a free list. */
  ghost predicate Lonely(h: Heap, b: Addr)
    requires b in h.nodes
  {
    && Next(h, b) in h.nodes && (h.nodes[Next(h, b)].free ==> Next(h, b) in h.floats)
    && (h.nodes[b].prevFree ==> h.nodes[b].prevPhys in h.floats)
  }

  /** Blocks that are on lists stay there untouched. */
  ghost predicate SameLists(h: Heap, h': Heap) {
    && h'.heads == h.heads && h'.fl == h.fl && h'.sl == h.sl && h'.clock == h.clock
    && forall x :: SameListed(h, h', x)
  }

  ghost predicate SameListed(h: Heap, h': Heap, x: Addr) {
    && (x in h.nodes && h.nodes[x].free && x !in h.floats <==> x in h'.nodes && h'.nodes[x].free && x !in h'.floats)
    && (x in h.nodes && h.nodes[x].free && x !in h.floats ==>
          var n, m := h.nodes[x], h'.nodes[x];
          n.cls == m.cls && n.nextFree == m.nextFree && n.prevLink == m.prevLink && n.age == m.age)
  }

  lemma ListFrame(h: Heap, h': Heap)
    requires ListInv(h) && SameLists(h, h')
    ensures ListInv(h')
  {
    forall x | x in h'.nodes
      ensures LinksOk(h', x)
    {
      assert SameListed(h, h', x);
      if h'.nodes[x].free && x !in h'.floats {
        assert LinksOk(h, x);
        assert SameListed(h, h', h.nodes[x].nextFree) && SameListed(h, h', h.nodes[x].prevLink);
      }
    }
    forall c | InTable(c)
      ensures HeadOk(h', c)
    {
      assert HeadOk(h, c);
      assert SameListed(h, h', h.heads[c]);
    }
  }

  lemma ClassFrame(h: Heap, h': Heap)
    requires ClassInv(h)
    requires forall x | x in h'.nodes ::
             (x in h.nodes && h'.nodes[x].cls == h.nodes[x].cls && h'.nodes[x].size == h.nodes[x].size)
                 || ClassOk(h', x)
    ensures ClassInv(h')
  {
    forall x | x in h'.nodes
      ensures ClassOk(h', x)
    {
      if x in h.nodes {
        assert ClassOk(h, x);
      }
    }
  }

  // Listing and unlisting

  /** What unlisting b does to each block: its two list neighbours are joined. */
  lemma DetachNodes(h: Heap, b: Addr)
    requires b in h.nodes && h.nodes[b].cls in h.heads && h.nodes[b].cls.fl in h.sl
    requires h.nodes[b].nextFree == h.nodes[b].prevLink ==> h.nodes[b].nextFree !in h.nodes
    ensures var h', n := Detach(h, b), h.nodes[b];
            && h'.nodes.Keys == h.nodes.Keys && h'.clock == h.clock
            && h'.heads == (if h.heads[n.cls] == b then h.heads[n.cls := n.nextFree] else h.heads)
            && forall x | x in h.nodes ::
                 h'.nodes[x] == if x == n.nextFree then h.nodes[x].(prevLink := n.prevLink)
                                else if x == n.prevLink then h.nodes[x].(nextFree := n.nextFree)
                                else h.nodes[x]
  {
  }

  lemma DetachLinks(h: Heap, h': Heap, b: Addr, x: Addr)
    requires b in h.nodes && x in h.nodes && x != NULL_BLOCK && b != NULL_BLOCK && LinksOk(h, b) && LinksOk(h, x)
    requires h.nodes[b].free && b !in h.floats && h'.floats == h.floats + {b}
    requires var n := h.nodes[b];
            && h'.nodes.Keys == h.nodes.Keys && h'.clock == h.clock
            && h'.heads == (if h.heads[n.cls] == b then h.heads[n.cls := n.nextFree] else h.heads)
            && forall x | x in h.nodes ::
                 h'.nodes[x] == if x == n.nextFree then h.nodes[x].(prevLink := n.prevLink)
                                else if x == n.prevLink then h.nodes[x].(nextFree := n.nextFree)
                                else h.nodes[x]
    ensures LinksOk(h', x)
  {
  }

  /** Unlisting a block is always possible. */
  lemma DetachInv(h: Heap, b: Addr, c: Class)
    requires Inv(h) && Listed(h, b, c)
    ensures c in h.heads && c.fl in h.sl && Inv(Detach(h, b))
    ensures SameLayout(h, Detach(h, b))
  {
    assert PhysOk(h, b) && LinksOk(h, b);
    assert HeadOk(h, c);
    NullIsNoBlock(h);
    DetachNodes(h, b);
    PhysFrame(h, Detach(h, b), b);
    ClassFrame(h, Detach(h, b));
    DetachListInv(h, b, c);
  }

  lemma DetachListInv(h: Heap, b: Addr, c: Class)
    requires ListInv(h) && Listed(h, b, c) && LinksOk(h, b) && c in h.heads && c.fl in h.sl && NULL_BLOCK !in h.nodes
    ensures ListInv(Detach(h, b))
  {
    var h' := Detach(h, b);
    DetachNodes(h, b);
    forall x | x in h'.nodes
      ensures LinksOk(h', x)
    {
      assert LinksOk(h, x);
      DetachLinks(h, h', b, x);
    }
    forall d | InTable(d)
      ensures HeadOk(h', d)
    {
      DetachHeads(h, b, c, d);
    }
    DetachBits(h, b, c);
  }

  lemma DetachBits(h: Heap, b: Addr, c: Class)
    requires ListInv(h) && Listed(h, b, c) && LinksOk(h, b) && c in h.heads && c.fl in h.sl
    ensures BitmapsOk(Detach(h, b))
  {
  }

  lemma DetachHeads(h: Heap, b: Addr, c: Class, d: Class)
    requires ListInv(h) && Listed(h, b, c) && InTable(c) && InTable(d) && c in h.heads && c.fl in h.sl
             && b != NULL_BLOCK
    ensures HeadOk(Detach(h, b), d)
  {
    assert HeadOk(h, d) && HeadOk(h, c) && LinksOk(h, b);
  }

  lemma AttachLinks(h: Heap, b: Addr, x: Addr)
    requires ListInv(h) && b in h.nodes && h.nodes[b].free && b in h.floats && x in h.nodes && x != NULL_BLOCK
             && b != NULL_BLOCK
    requires InTable(h.nodes[b].cls) && h.nodes[b].cls in h.heads && h.nodes[b].cls.fl in h.sl
    ensures LinksOk(Attach(h, b), x)
  {
    assert LinksOk(h, x);
    assert HeadOk(h, h.nodes[b].cls);
    var current := h.heads[h.nodes[b].cls];
    if current != NULL_BLOCK {
      assert LinksOk(h, current);
    }
  }

  /** A floating block may be listed when none of its neighbours is. */
  lemma AttachInv(h: Heap, b: Addr)
    requires Inv(h) && b in h.floats && Lonely(h, b)
    ensures h.nodes[b].cls in h.heads && h.nodes[b].cls.fl in h.sl && Inv(Attach(h, b))
    ensures SameLayout(h, Attach(h, b))
  {
    assert PhysOk(h, b);
    SizeInTable(h, b);
    assert HeadOk(h, h.nodes[b].cls);
    NullIsNoBlock(h);
    PhysFrame(h, Attach(h, b), b);
    ClassFrame(h, Attach(h, b));
    AttachListInv(h, b);
  }

  lemma AttachListInv(h: Heap, b: Addr)
    requires ListInv(h) && b in h.nodes && h.nodes[b].free && b in h.floats && NULL_BLOCK !in h.nodes
    requires InTable(h.nodes[b].cls) && h.nodes[b].cls in h.heads && h.nodes[b].cls.fl in h.sl
    ensures ListInv(Attach(h, b))
  {
    var h' := Attach(h, b);
    forall x | x in h'.nodes
      ensures LinksOk(h', x)
    {
      AttachLinks(h, b, x);
    }
    forall d | InTable(d)
      ensures HeadOk(h', d)
    {
      assert HeadOk(h, d);
    }
  }

  /** Block sizes stay below block_size_max, so their classes are in the table. */
  lemma SizeInTable(h: Heap, b: Addr)
    requires PhysInv(h) && ClassInv(h) && b in h.nodes
    ensures h.nodes[b].size < BLOCK_SIZE_MAX && InTable(h.nodes[b].cls)
  {
    assert PhysOk(h, b) && ClassOk(h, b);
    var n := h.nodes[b];
    if n.size != 0 {
      assert PhysOk(h, Next(h, b));
    }
    InTableExactly(n.size);
  }

  lemma NullIsNoBlock(h: Heap)
    requires PhysInv(h)
    ensures NULL_BLOCK !in h.nodes
  {
    forall b | b in h.nodes
      ensures b >= LOWEST
    {
      assert PhysOk(h, b);
    }
  }

  // Marking, splitting, merging

  /** The neighbourhood of a block that is not a sentinel. */
  lemma Neighbours(h: Heap, b: Addr)
    requires PhysInv(h) && b in h.nodes && h.nodes[b].size != 0
    ensures Next(h, b) in h.nodes && Next(h, b) >= b + 32
    ensures PhysOk(h, b) && PhysOk(h, Next(h, b))
  {
    assert PhysOk(h, b);
  }

  /** Different blocks have different successors. */
  lemma NextInjective(h: Heap, x: Addr, b: Addr)
    requires PhysInv(h) && x in h.nodes && b in h.nodes && x != b
    ensures Next(h, x) != Next(h, b)
  {
    assert Apart(h, x, b) && Apart(h, b, x);
    assert PhysOk(h, x) && PhysOk(h, b);
  }

  lemma MarkFreePhys(h: Heap, b: Addr, x: Addr)
    requires PhysInv(h) && b in h.nodes && !h.nodes[b].free && h.nodes[b].size != 0
    requires Next(h, b) in h.nodes && Next(h, b) != b && x in MarkFree(h, b).nodes
    ensures PhysOk(MarkFree(h, b), x)
  {
    assert PhysOk(h, x) && PhysOk(h, b);
    if x != b {
      NextInjective(h, x, b);
    }
  }

  lemma MarkFreePhysInv(h: Heap, b: Addr)
    requires PhysInv(h) && b in h.nodes && !h.nodes[b].free && h.nodes[b].size != 0 && Next(h, b) in h.nodes
             && Next(h, b) != b
    ensures PhysInv(MarkFree(h, b))
  {
    var h' := MarkFree(h, b);
    forall x | x in h'.nodes
      ensures PhysOk(h', x)
    {
      MarkFreePhys(h, b, x);
    }
    forall x, y | x in h'.nodes && y in h'.nodes
      ensures Apart(h', x, y)
    {
      assert Apart(h, x, y);
    }
  }

  lemma MarkFreeLists(h: Heap, b: Addr)
    requires b in h.nodes && !h.nodes[b].free && h.nodes[b].size != 0 && Next(h, b) in h.nodes && Next(h, b) != b
    ensures SameLists(h, MarkFree(h, b))
  {
  }

  lemma MarkFreeInv(h: Heap, b: Addr)
    requires Inv(h) && b in h.nodes && !h.nodes[b].free && h.nodes[b].size != 0
    ensures Next(h, b) in h.nodes && Next(h, b) != b && Inv(MarkFree(h, b))
  {
    Neighbours(h, b);
    MarkFreePhysInv(h, b);
    MarkFreeLists(h, b);
    ListFrame(h, MarkFree(h, b));
    ClassFrame(h, MarkFree(h, b));
  }

  lemma MarkUsedPhys(h: Heap, b: Addr, x: Addr)
    requires PhysInv(h) && b in h.nodes && b in h.floats && h.nodes[b].size != 0
    requires Next(h, b) in h.nodes && Next(h, b) != b && x in MarkUsed(h, b).nodes
    ensures PhysOk(MarkUsed(h, b), x)
  {
    assert PhysOk(h, x) && PhysOk(h, b);
    if x != b {
      NextInjective(h, x, b);
    }
  }

  lemma MarkUsedPhysInv(h: Heap, b: Addr)
    requires PhysInv(h) && b in h.nodes && b in h.floats && h.nodes[b].size != 0 && Next(h, b) in h.nodes
             && Next(h, b) != b
    ensures PhysInv(MarkUsed(h, b))
  {
    var h' := MarkUsed(h, b);
    forall x | x in h'.nodes
      ensures PhysOk(h', x)
    {
      MarkUsedPhys(h, b, x);
    }
    forall x, y | x in h'.nodes && y in h'.nodes
      ensures Apart(h', x, y)
    {
      assert Apart(h, x, y);
    }
  }

  lemma MarkUsedLists(h: Heap, b: Addr)
    requires b in h.nodes && b in h.floats && h.nodes[b].size != 0 && Next(h, b) in h.nodes && Next(h, b) != b
    ensures SameLists(h, MarkUsed(h, b))
  {
  }

  lemma MarkUsedInv(h: Heap, b: Addr)
    requires Inv(h) && b in h.nodes && b in h.floats && h.nodes[b].size != 0
    ensures Next(h, b) in h.nodes && Next(h, b) != b && Inv(MarkUsed(h, b))
  {
    Neighbours(h, b);
    MarkUsedPhysInv(h, b);
    MarkUsedLists(h, b);
    ListFrame(h, MarkUsed(h, b));
    ClassFrame(h, MarkUsed(h, b));
  }

  /** A block may be cut where both parts are at least of the minimum size. */
  ghost predicate CanCut(h: Heap, b: Addr, size: nat) {
    && b in h.nodes && (b in h.floats || !h.nodes[b].free)
    && size >= BLOCK_SIZE_MIN && size % 8 == 0 && h.nodes[b].size >= size + 32
  }

  /** There is no block inside another one. */
  lemma NothingInside(h: Heap, b: Addr, a: Addr)
    requires PhysInv(h) && b in h.nodes && b < a < Next(h, b)
    ensures a !in h.nodes
  {
    forall c | c in h.nodes
      ensures !(b < c < Next(h, b))
    {
      assert Apart(h, b, c);
    }
  }

  /** The two parts of a cut block. */
  lemma SplitParts(h: Heap, b: Addr, size: nat)
    requires PhysInv(h) && CanCut(h, b, size) && Next(h, b) in h.nodes
    ensures PhysOk(Split(h, b, size), b) && PhysOk(Split(h, b, size), b + OVERHEAD + size)
  {
    assert PhysOk(h, b) && PhysOk(h, Next(h, b));
    NothingInside(h, b, b + OVERHEAD + size);
    if h.nodes[b].prevFree {
      NextInjective(h, h.nodes[b].prevPhys, b);
    }
  }

  lemma SplitOthers(h: Heap, b: Addr, size: nat, x: Addr)
    requires PhysInv(h) && CanCut(h, b, size) && Next(h, b) in h.nodes && x in h.nodes && x != b
    ensures PhysOk(Split(h, b, size), x)
  {
    assert PhysOk(h, b) && PhysOk(h, x);
    NothingInside(h, b, b + OVERHEAD + size);
    NextInjective(h, x, b);
  }

  lemma SplitPhys(h: Heap, b: Addr, size: nat, x: Addr)
    requires PhysInv(h) && CanCut(h, b, size)
    requires Next(h, b) in h.nodes && h.nodes[b].size >= size + OVERHEAD && x in Split(h, b, size).nodes
    ensures PhysOk(Split(h, b, size), x)
  {
    if x == b || x == b + OVERHEAD + size {
      SplitParts(h, b, size);
    } else {
      SplitOthers(h, b, size, x);
    }
  }

  lemma SplitApart(h: Heap, b: Addr, size: nat, x: Addr, y: Addr)
    requires PhysInv(h) && CanCut(h, b, size) && Next(h, b) in h.nodes
    requires x in Split(h, b, size).nodes && y in Split(h, b, size).nodes
    ensures Apart(Split(h, b, size), x, y)
  {
    var r := b + OVERHEAD + size;
    NothingInside(h, b, r);
    assert PhysOk(h, b);
    if x != r && y != r {
      assert Apart(h, x, y);
    } else if x == r && y != r {
      assert Apart(h, b, y);
    } else if x != r && x != b {
      assert Apart(h, x, b) && Apart(h, b, x);
      assert PhysOk(h, x);
    }
  }

  lemma SplitPhysInv(h: Heap, b: Addr, size: nat)
    requires PhysInv(h) && CanCut(h, b, size) && Next(h, b) in h.nodes && h.nodes[b].size >= size + OVERHEAD
    ensures PhysInv(Split(h, b, size))
  {
    var h' := Split(h, b, size);
    forall x | x in h'.nodes
      ensures PhysOk(h', x)
    {
      SplitPhys(h, b, size, x);
    }
    forall x, y | x in h'.nodes && y in h'.nodes
      ensures Apart(h', x, y)
    {
      SplitApart(h, b, size, x, y);
    }
  }

  lemma SplitLists(h: Heap, b: Addr, size: nat)
    requires PhysInv(h) && CanCut(h, b, size) && Next(h, b) in h.nodes && h.nodes[b].size >= size + OVERHEAD
    ensures SameLists(h, Split(h, b, size))
  {
    NothingInside(h, b, b + OVERHEAD + size);
    assert PhysOk(h, b);
  }

  lemma SplitInv(h: Heap, b: Addr, size: nat)
    requires Inv(h) && CanCut(h, b, size)
    ensures Next(h, b) in h.nodes && h.nodes[b].size >= size + OVERHEAD && Inv(Split(h, b, size))
  {
    Neighbours(h, b);
    SplitPhysInv(h, b, size);
    SplitLists(h, b, size);
    ListFrame(h, Split(h, b, size));
    ClassFrame(h, Split(h, b, size));
  }

  lemma AbsorbPhys(h: Heap, b: Addr, x: Addr)
    requires PhysInv(h) && b in h.nodes && b in h.floats && Next(h, b) in h.floats
    requires Next(h, b) in h.nodes && Next(h, Next(h, b)) in h.nodes && x in Absorb(h, b).nodes
    ensures PhysOk(Absorb(h, b), x)
  {
    assert PhysOk(h, b) && PhysOk(h, Next(h, b));
    AbsorbNeighbours(h, b, x);
    if x == b {
      AbsorbSelf(h, b);
    }
  }

  /** What the three blocks involved in a merge, and another block x, say about each other. */
  lemma AbsorbNeighbours(h: Heap, b: Addr, x: Addr)
    requires PhysInv(h) && b in h.nodes && x in h.nodes && h.nodes[b].size != 0
    requires Next(h, b) in h.nodes && h.nodes[Next(h, b)].free && Next(h, Next(h, b)) in h.nodes
    ensures var c := Next(h, b);
            && PhysOk(h, x) && PhysOk(h, b) && PhysOk(h, c) && PhysOk(h, Next(h, c))
            && b < c < Next(h, c)
            && (x != b ==> Next(h, x) != c) && (x != c ==> Next(h, x) != Next(h, c))
            && (x != b && x != c && x != Next(h, c) ==> h.nodes[x].prevFree ==>
                h.nodes[x].prevPhys != b
                && h.nodes[x].prevPhys != c)
  {
    var c := Next(h, b);
    assert PhysOk(h, x) && PhysOk(h, b) && PhysOk(h, c) && PhysOk(h, Next(h, c));
    if x != b {
      NextInjective(h, x, b);
    }
    if x != c {
      NextInjective(h, x, c);
    }
  }

  lemma AbsorbSelf(h: Heap, b: Addr)
    requires PhysInv(h) && b in h.nodes && b in h.floats && Next(h, b) in h.floats
    requires Next(h, b) in h.nodes && Next(h, Next(h, b)) in h.nodes
    ensures PhysOk(Absorb(h, b), b)
  {
    var c := Next(h, b);
    assert PhysOk(h, b) && PhysOk(h, c) && PhysOk(h, Next(h, c));
  }

  lemma AbsorbPhysInv(h: Heap, b: Addr)
    requires PhysInv(h) && b in h.nodes && b in h.floats && Next(h, b) in h.floats && Next(h, b) in h.nodes
             && Next(h, Next(h, b)) in h.nodes
    ensures PhysInv(Absorb(h, b))
  {
    var h' := Absorb(h, b);
    assert PhysOk(h, b) && PhysOk(h, Next(h, b));
    forall x | x in h'.nodes
      ensures PhysOk(h', x)
    {
      AbsorbPhys(h, b, x);
    }
    forall x, y | x in h'.nodes && y in h'.nodes
      ensures Apart(h', x, y)
    {
      AbsorbApart(h, b, x, y);
    }
  }

  lemma AbsorbApart(h: Heap, b: Addr, x: Addr, y: Addr)
    requires PhysInv(h) && b in h.nodes && Next(h, b) in h.nodes && Next(h, Next(h, b)) in h.nodes
    requires x in h.nodes && y in h.nodes && x != Next(h, b) && y != Next(h, b)
    requires h.nodes[b].size != 0 && h.nodes[Next(h, b)].size != 0
    ensures Apart(Absorb(h, b), x, y) && Apart(AbsorbUsed(h, b), x, y)
  {
    assert PhysOk(h, b) && PhysOk(h, Next(h, b));
    assert Apart(h, x, y);
    assert Apart(h, Next(h, b), y);
  }

  lemma AbsorbLists(h: Heap, b: Addr)
    requires PhysInv(h) && b in h.nodes && b in h.floats && Next(h, b) in h.floats && Next(h, b) in h.nodes
             && Next(h, Next(h, b)) in h.nodes
    ensures SameLists(h, Absorb(h, b))
  {
    assert PhysOk(h, b) && PhysOk(h, Next(h, b));
  }

  lemma AbsorbInv(h: Heap, b: Addr)
    requires Inv(h) && b in h.nodes && b in h.floats && Next(h, b) in h.floats
    ensures Next(h, b) in h.nodes && Next(h, Next(h, b)) in h.nodes && Inv(Absorb(h, b))
  {
    assert PhysOk(h, b) && PhysOk(h, Next(h, b));
    AbsorbPhysInv(h, b);
    AbsorbLists(h, b);
    ListFrame(h, Absorb(h, b));
    ClassFrame(h, Absorb(h, b));
  }

  lemma AbsorbUsedPhys(h: Heap, b: Addr, x: Addr)
    requires PhysInv(h) && b in h.nodes && !h.nodes[b].free && h.nodes[b].size != 0 && Next(h, b) in h.floats
    requires Next(h, b) in h.nodes && Next(h, Next(h, b)) in h.nodes && x in AbsorbUsed(h, b).nodes
    ensures PhysOk(AbsorbUsed(h, b), x)
  {
    assert PhysOk(h, Next(h, b));
    AbsorbNeighbours(h, b, x);
    if x == b {
      AbsorbUsedSelf(h, b);
    }
  }

  lemma AbsorbUsedSelf(h: Heap, b: Addr)
    requires PhysInv(h) && b in h.nodes && !h.nodes[b].free && h.nodes[b].size != 0 && Next(h, b) in h.floats
    requires Next(h, b) in h.nodes && Next(h, Next(h, b)) in h.nodes
    ensures PhysOk(AbsorbUsed(h, b), b)
  {
    var c := Next(h, b);
    assert PhysOk(h, b) && PhysOk(h, c) && PhysOk(h, Next(h, c));
  }

  lemma AbsorbUsedPhysInv(h: Heap, b: Addr)
    requires PhysInv(h) && b in h.nodes && !h.nodes[b].free && h.nodes[b].size != 0 && Next(h, b) in h.floats
             && Next(h, b) in h.nodes && Next(h, Next(h, b)) in h.nodes
    ensures PhysInv(AbsorbUsed(h, b))
  {
    var h' := AbsorbUsed(h, b);
    assert PhysOk(h, b) && PhysOk(h, Next(h, b));
    forall x | x in h'.nodes
      ensures PhysOk(h', x)
    {
      AbsorbUsedPhys(h, b, x);
    }
    forall x, y | x in h'.nodes && y in h'.nodes
      ensures Apart(h', x, y)
    {
      AbsorbApart(h, b, x, y);
    }
  }

  lemma AbsorbUsedLists(h: Heap, b: Addr)
    requires PhysInv(h) && b in h.nodes && !h.nodes[b].free && h.nodes[b].size != 0 && Next(h, b) in h.floats
             && Next(h, b) in h.nodes && Next(h, Next(h, b)) in h.nodes
    ensures SameLists(h, AbsorbUsed(h, b))
  {
    assert PhysOk(h, b) && PhysOk(h, Next(h, b));
  }

  lemma AbsorbUsedInv(h: Heap, b: Addr)
    requires Inv(h) && b in h.nodes && !h.nodes[b].free && h.nodes[b].size != 0 && Next(h, b) in h.floats
    ensures Next(h, b) in h.nodes && Next(h, Next(h, b)) in h.nodes && Inv(AbsorbUsed(h, b))
  {
    assert PhysOk(h, b) && PhysOk(h, Next(h, b));
    AbsorbUsedPhysInv(h, b);
    AbsorbUsedLists(h, b);
    ListFrame(h, AbsorbUsed(h, b));
    ClassFrame(h, AbsorbUsed(h, b));
  }

  // ---------------------------------------------------------------- pools

  /** tlsf_add_pool, before the new block is listed: one free block and a zero-size sentinel. */
  function AddPool(h: Heap, start: Addr, size: nat): Heap {
    var pool := Pool(start, start + OVERHEAD + size);
    h.(nodes := h.nodes[start := Node(size, true, false, 0, NULL_BLOCK, NULL_BLOCK, pool, MappingInsert(size), 0)]
                       [pool.end := Node(0, false, true, start, NULL_BLOCK, NULL_BLOCK, pool, MappingInsert(0), 0)],
       floats := h.floats + {start})
  }

  /** The memory of a new pool is not part of any other pool. */
  ghost predicate Unused(h: Heap, start: Addr, size: nat) {
    forall b | b in h.nodes :: Next(h, b) <= start || start + OVERHEAD + size + OVERHEAD <= b
  }

  lemma AddPoolPhys(h: Heap, start: Addr, size: nat)
    requires PhysInv(h) && Unused(h, start, size) && start >= LOWEST && start % 8 == 0
    requires BLOCK_SIZE_MIN <= size < BLOCK_SIZE_MAX && size % 8 == 0 && start + size + 24 <= SIZE_T
    ensures PhysInv(AddPool(h, start, size))
  {
    var h' := AddPool(h, start, size);
    forall x | x in h'.nodes
      ensures PhysOk(h', x)
    {
      AddPoolOk(h, start, size, x);
    }
    forall x, y | x in h'.nodes && y in h'.nodes
      ensures Apart(h', x, y)
    {
      if x in h.nodes && y in h.nodes {
        assert Apart(h, x, y);
      }
    }
  }

  lemma AddPoolOk(h: Heap, start: Addr, size: nat, x: Addr)
    requires PhysInv(h) && Unused(h, start, size) && start >= LOWEST && start % 8 == 0
             && x in AddPool(h, start, size).nodes
    requires BLOCK_SIZE_MIN <= size < BLOCK_SIZE_MAX && size % 8 == 0 && start + size + 24 <= SIZE_T
    ensures PhysOk(AddPool(h, start, size), x)
  {
    if x in h.nodes {
      assert PhysOk(h, x);
    }
  }

  lemma AddPoolInv(h: Heap, start: Addr, size: nat)
    requires Inv(h) && Unused(h, start, size) && start >= LOWEST && start % 8 == 0
    requires BLOCK_SIZE_MIN <= size < BLOCK_SIZE_MAX && size % 8 == 0 && start + size + 24 <= SIZE_T
    ensures Inv(AddPool(h, start, size))
    ensures Lonely(AddPool(h, start, size), start)
  {
    AddPoolPhys(h, start, size);
    ListFrame(h, AddPool(h, start, size));
    ClassFrame(h, AddPool(h, start, size));
  }

  /** control_construct: empty lists, clear bitmaps, no blocks. */
  function Empty(): Heap {
    Heap(map[], map c | c in AllClasses() :: NULL_BLOCK, {},
         map i | i in Rows(FL_INDEX_COUNT) :: {}, {}, 0)
  }

  function Rows(n: nat): (s: set<int>)
    ensures forall i :: i in s <==> 0 <= i < n
  {
    if n == 0 then {} else Rows(n - 1) + {n - 1}
  }

  function AllClasses(): (s: set<Class>)
    ensures forall c :: c in s <==> InTable(c)
  {
    set i, j | 0 <= i < FL_INDEX_COUNT && 0 <= j < SL_INDEX_COUNT :: Class(i, j)
  }

  lemma EmptyInv()
    ensures Inv(Empty())
  {
  }

  // ---------------------------------------------------------------- what is in use

  /** A block the user holds. */
  predicate InUse(h: Heap, u: Addr) {
    u in h.nodes && !h.nodes[u].free && h.nodes[u].size != 0
  }

  function Used(h: Heap): set<Addr> {
    set u | u in h.nodes && InUse(h, u)
  }

  /** The pools, by their sentinels. */
  function Pools(h: Heap): map<Addr, Pool> {
    map b | b in h.nodes && h.nodes[b].size == 0 :: h.nodes[b].pool
  }

  /** Listing and unlisting. */
  lemma SameLayoutUsed(h: Heap, h': Heap)
    requires SameLayout(h, h')
    ensures Used(h') == Used(h) && Pools(h') == Pools(h)
  {
    forall u | u in h.nodes
      ensures InUse(h, u) == InUse(h', u) && h'.nodes[u].size == h.nodes[u].size && h'.nodes[u].pool == h.nodes[u].pool
    {
      assert SamePhys(h.nodes[u], h'.nodes[u]);
    }
    forall u
      ensures u in Pools(h') <==> u in Pools(h)
    {
      assert u in h.nodes.Keys <==> u in h'.nodes.Keys;
    }
    assert forall u | u in Pools(h) :: Pools(h')[u] == Pools(h)[u];
  }

  lemma MarkUsedSets(h: Heap, b: Addr)
    requires b in h.nodes && h.nodes[b].size != 0 && Next(h, b) in h.nodes && Next(h, b) != b
    ensures Used(MarkFree(h, b)) == Used(h) - {b} && Pools(MarkFree(h, b)) == Pools(h)
    ensures Used(MarkUsed(h, b)) == Used(h) + {b} && Pools(MarkUsed(h, b)) == Pools(h)
  {
  }

  lemma SplitSets(h: Heap, b: Addr, size: nat)
    requires PhysInv(h) && CanCut(h, b, size) && Next(h, b) in h.nodes && h.nodes[b].size >= size + OVERHEAD
    ensures Used(Split(h, b, size)) == Used(h) && Pools(Split(h, b, size)) == Pools(h)
  {
    NothingInside(h, b, b + OVERHEAD + size);
  }

  lemma AbsorbSets(h: Heap, b: Addr)
    requires PhysInv(h) && b in h.nodes && h.nodes[b].size != 0
    requires Next(h, b) in h.nodes && h.nodes[Next(h, b)].free && Next(h, Next(h, b)) in h.nodes
    ensures Used(Absorb(h, b)) == Used(h) && Pools(Absorb(h, b)) == Pools(h)
    ensures Used(AbsorbUsed(h, b)) == Used(h) && Pools(AbsorbUsed(h, b)) == Pools(h)
  {
    assert PhysOk(h, Next(h, b)) && PhysOk(h, b);
  }

  lemma AddPoolSets(h: Heap, start: Addr, size: nat)
    requires Unused(h, start, size) && size != 0
    ensures var end := start + OVERHEAD + size;
            && Used(AddPool(h, start, size)) == Used(h)
            && Pools(AddPool(h, start, size)) == Pools(h)[end := Pool(start, end)]
  {
  }

  // ---------------------------------------------------------------- what the lists contain

  /** The free list of a class, from block b on. */
  ghost function ListFrom(h: Heap, b: Addr, c: Class): seq<Addr>
    requires ListInv(h) && (b == NULL_BLOCK || Listed(h, b, c))
    decreases if b == NULL_BLOCK then 0 else h.nodes[b].age + 1
  {
    if b == NULL_BLOCK then []
    else
      assert LinksOk(h, b);
      [b] + ListFrom(h, h.nodes[b].nextFree, c)
  }

  /** Lists are ordered by age, so no block occurs twice, and hold blocks of their class only. */
  lemma {:induction false} ListFromSorted(h: Heap, b: Addr, c: Class)
    requires ListInv(h) && (b == NULL_BLOCK || Listed(h, b, c))
    ensures var s := ListFrom(h, b, c);
            && (forall x | x in s :: Listed(h, x, c) && h.nodes[x].age <= h.nodes[b].age)
            && forall i, j | 0 <= i < j < |s| :: s[i] in h.nodes && s[j] in h.nodes
                && h.nodes[s[j]].age < h.nodes[s[i]].age
    decreases if b == NULL_BLOCK then 0 else h.nodes[b].age + 1
  {
    if b != NULL_BLOCK {
      assert LinksOk(h, b);
      var n := h.nodes[b].nextFree;
      ListFromSorted(h, n, c);
      var s, t := ListFrom(h, b, c), ListFrom(h, n, c);
      assert s == [b] + t;
      forall x | x in s
        ensures Listed(h, x, c) && h.nodes[x].age <= h.nodes[b].age
      {
        assert x == b || x in t;
      }
      forall i, j | 0 <= i < j < |s|
        ensures s[i] in h.nodes && s[j] in h.nodes && h.nodes[s[j]].age < h.nodes[s[i]].age
      {
        assert s[j] == t[j - 1] && s[j] in t;
        if i > 0 {
          assert s[i] == t[i - 1];
        }
      }
    }
  }

  lemma {:induction false} ListFromTail(h: Heap, b: Addr, c: Class, x: Addr)
    requires ListInv(h) && (b == NULL_BLOCK || Listed(h, b, c)) && Listed(h, x, c) && x in ListFrom(h, b, c)
    requires h.nodes[x].nextFree != NULL_BLOCK
    ensures h.nodes[x].nextFree in ListFrom(h, b, c)
    decreases if b == NULL_BLOCK then 0 else h.nodes[b].age + 1
  {
    if b != NULL_BLOCK {
      assert LinksOk(h, b);
      if x == b {
        assert ListFrom(h, b, c)[1] == h.nodes[x].nextFree;
      } else {
        ListFromTail(h, h.nodes[b].nextFree, c, x);
      }
    }
  }

  /** Every free block is on the list of its class, which therefore is not empty. */
  lemma {:induction false} FreeIsListed(h: Heap, x: Addr, c: Class)
    requires Inv(h) && Listed(h, x, c)
    ensures c in h.heads && h.heads[c] != NULL_BLOCK && Listed(h, h.heads[c], c)
    ensures x in ListFrom(h, h.heads[c], c)
    decreases h.clock - h.nodes[x].age
  {
    assert LinksOk(h, x) && PhysOk(h, x);
    assert HeadOk(h, c);
    var p := h.nodes[x].prevLink;
    if p == NULL_BLOCK {
      assert ListFrom(h, x, c)[0] == x;
    } else {
      assert LinksOk(h, p);
      FreeIsListed(h, p, c);
      NullIsNoBlock(h);
      ListFromTail(h, h.heads[c], c, p);
    }
  }

  /**
   The lists hold exactly the free blocks, each once, on the list of its size: the claim behind
   the first half of tlsf_check.
  */
  lemma ListsAreExact(h: Heap, c: Class, x: Addr)
    requires Inv(h) && h.floats == {} && InTable(c)
    ensures c in h.heads && (h.heads[c] == NULL_BLOCK || Listed(h, h.heads[c], c))
    ensures x in ListFrom(h, h.heads[c], c) <==>
              x in h.nodes && h.nodes[x].free && MappingInsert(h.nodes[x].size) == c
    ensures var s := ListFrom(h, h.heads[c], c); forall i, j | 0 <= i < j < |s| :: s[i] != s[j]
  {
    assert HeadOk(h, c);
    ListFromSorted(h, h.heads[c], c);
    if x in h.nodes {
      assert ClassOk(h, x);
      if h.nodes[x].free && h.nodes[x].cls == c {
        FreeIsListed(h, x, c);
      }
    }
  }
}
