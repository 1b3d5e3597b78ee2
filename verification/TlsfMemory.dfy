/**
 Block headers in memory: which word of which block is stored where, and why writing the words of
 one block never damages another block or the payload of a block in use. In particular the
 prev_phys word of a header lies inside the payload of the block before it.
*/
module TlsfMemory {
  import opened TlsfMapping
  import opened TlsfBlocks

  /**
   A 64-bit word, split into its two low bits and the rest. Sizes and addresses have both bits
   clear; in a size word bit 0 says "free" and bit 1 says "previous block is free".
  */
  datatype Word = Word(high: int, prevFree: bool, free: bool)

  type Memory = map<Addr, Word>

  /** The number a word stands for, and the word of a number. */
  function Value(w: Word): int {
    w.high + (if w.prevFree then 2 else 0) + (if w.free then 1 else 0)
  }

  function WordOf(v: int): Word {
    Word(v - v % 4, v % 4 >= 2, v % 4 == 1 || v % 4 == 3)
  }

  /**
   What the code computes from the number in a size word is what the parts of the Word say: `& ~3` is
   the size; `|` and `& ~` with 1 or 2 set and clear one bit; block_set_size keeps the two low bits.
  */
  lemma WordOperations(v: nat, size: int)
    requires size % 4 == 0
    ensures Value(WordOf(v)) == v && WordOf(v).high == v - v % 4
    ensures Value(WordOf(v).(free := true)) == (if v % 2 == 1 then v else v + 1)
    ensures Value(WordOf(v).(free := false)) == v - v % 2
    ensures Value(WordOf(v).(prevFree := true)) == (if v / 2 % 2 == 1 then v else v + 2)
    ensures Value(WordOf(v).(prevFree := false)) == (if v / 2 % 2 == 1 then v - 2 else v)
    ensures Value(WordOf(v).(high := size)) == size + v % 4
  {
    TwoBits(v / 4, v % 4, v);
  }

  lemma TwoBits(q: nat, r: nat, v: nat)
    requires v == 4 * q + r && r < 4
    ensures v % 4 == r && v % 2 == r % 2 && v / 2 % 2 == r / 2
  {
    assert v == 2 * (2 * q + r / 2) + r % 2;
    assert v / 2 == 2 * q + r / 2;
  }

  /** Reading a word; memory that was never written holds zero. */
  function Rd(m: Memory, a: Addr): Word {
    if a in m then m[a] else Word(0, false, false)
  }

  /** A word holding an address. */
  function Ptr(a: Addr): Word {
    Word(a, false, false)
  }

  // ---------------------------------------------------------------- memory and blocks

  /** The header words of b that mean something are in memory. */
  ghost predicate Stored(m: Memory, h: Heap, b: Addr)
    requires b in h.nodes
  {
    var n := h.nodes[b];
    && Rd(m, b + 8) == Word(n.size, n.prevFree, n.free)
    && (n.prevFree ==> Rd(m, b) == Ptr(n.prevPhys))
    && (n.free && b !in h.floats ==> Rd(m, b + 16) == Ptr(n.nextFree) && Rd(m, b + 24) == Ptr(n.prevLink))
  }

  ghost predicate Matches(m: Memory, h: Heap) {
    forall b {:trigger Stored(m, h, b)} | b in h.nodes :: Stored(m, h, b)
  }

  /** The words that belong to the header of b. */
  predicate Cell(h: Heap, b: Addr, a: Addr)
    requires b in h.nodes
  {
    || a == b + 8
    || (h.nodes[b].prevFree && a == b)
    || (h.nodes[b].free && (a == b + 16 || a == b + 24))
  }

  /** The words a user of block b may write: up to and including the prev_phys word of the next block. */
  predicate Payload(h: Heap, b: Addr, a: Addr)
    requires b in h.nodes
  {
    b + 16 <= a < Next(h, b) + 8
  }

  /** Headers of different blocks share no word that means something. */
  lemma CellsApart(h: Heap, x: Addr, y: Addr, a: Addr)
    requires PhysInv(h) && x in h.nodes && y in h.nodes && x != y && Cell(h, x, a)
    ensures !Cell(h, y, a)
  {
    assert PhysOk(h, x) && PhysOk(h, y);
    assert Apart(h, x, y) && Apart(h, y, x);
    if h.nodes[x].prevFree {
      var p := h.nodes[x].prevPhys;
      assert PhysOk(h, p) && Apart(h, p, y) && Apart(h, y, p);
    }
    if h.nodes[y].prevFree {
      var p := h.nodes[y].prevPhys;
      assert PhysOk(h, p) && Apart(h, p, x) && Apart(h, x, p);
    }
  }

  /** No header word lies in the payload of a block in use. */
  lemma PayloadClear(h: Heap, u: Addr, y: Addr, a: Addr)
    requires PhysInv(h) && u in h.nodes && y in h.nodes && !h.nodes[u].free && Cell(h, y, a)
    ensures h.nodes[u].size != 0 ==> !Payload(h, u, a)
  {
    assert PhysOk(h, u) && PhysOk(h, y);
    assert Apart(h, u, y) && Apart(h, y, u);
    if h.nodes[y].prevFree && y == Next(h, u) {
      NextInjective2(h, u, h.nodes[y].prevPhys);
    }
  }

  lemma NextInjective2(h: Heap, x: Addr, b: Addr)
    requires PhysInv(h) && x in h.nodes && b in h.nodes && Next(h, x) == Next(h, b)
    ensures x == b
  {
    if x != b {
      NextInjective(h, x, b);
    }
  }

  // ---------------------------------------------------------------- blocks in use are left alone

  /** A block in use stays where it is, as it is, with its contents. */
  ghost predicate Kept(m: Memory, m': Memory, h: Heap, h': Heap, u: Addr)
    requires u in h.nodes
  {
    && u in h'.nodes && !h'.nodes[u].free && h'.nodes[u].size == h.nodes[u].size
    && forall a | Payload(h, u, a) :: Rd(m', a) == Rd(m, a)
  }

  /** All blocks in use, except possibly one, are left alone. */
  ghost predicate AllKept(m: Memory, m': Memory, h: Heap, h': Heap, except: Addr) {
    forall u {:trigger Kept(m, m', h, h', u)} | InUse(h, u) && u != except :: Kept(m, m', h, h', u)
  }

  lemma KeptTwice(m: Memory, m1: Memory, m2: Memory, h: Heap, h1: Heap, h2: Heap, e1: Addr, e2: Addr, except: Addr)
    requires AllKept(m, m1, h, h1, e1) && AllKept(m1, m2, h1, h2, e2)
    requires (e1 == except || !InUse(h, e1)) && (e2 == except || !InUse(h, e2))
    ensures AllKept(m, m2, h, h2, except)
  {
    forall u | InUse(h, u) && u != except
      ensures Kept(m, m2, h, h2, u)
    {
      assert Kept(m, m1, h, h1, u);
      assert InUse(h1, u) && Kept(m1, m2, h1, h2, u);
      forall a | Payload(h, u, a)
        ensures Rd(m2, a) == Rd(m, a)
      {
        assert Payload(h1, u, a);
      }
    }
  }

  /** A header word of some block, or a word of the control structure. */
  ghost predicate Header(h: Heap, a: Addr) {
    a < LOWEST || exists y :: y in h.nodes && Cell(h, y, a)
  }

  /** Writing header words only, whether of the old or of the new blocks, leaves the blocks in use alone. */
  lemma HeadersOnly(m: Memory, m': Memory, h: Heap, h': Heap, except: Addr)
    requires PhysInv(h) && PhysInv(h')
    requires forall a | Rd(m', a) != Rd(m, a) :: Header(h, a) || Header(h', a)
    requires forall u | InUse(h, u) && u != except :: InUse(h', u) && h'.nodes[u].size == h.nodes[u].size
    ensures AllKept(m, m', h, h', except)
  {
    forall u | InUse(h, u) && u != except
      ensures Kept(m, m', h, h', u)
    {
      assert InUse(h', u) && PhysOk(h, u);
      forall a | Payload(h, u, a)
        ensures Rd(m', a) == Rd(m, a)
      {
        if Rd(m', a) != Rd(m, a) {
          if Header(h, a) {
            var y :| y in h.nodes && Cell(h, y, a);
            PayloadClear(h, u, y, a);
          } else {
            var y :| y in h'.nodes && Cell(h', y, a);
            PayloadClear(h', u, y, a);
          }
          assert false;
        }
      }
    }
  }

  // ---------------------------------------------------------------- the primitives in memory

  /** If the header words of x are where they were and mean what they meant, x is still stored. */
  lemma StillStored(m: Memory, m': Memory, h: Heap, h': Heap, x: Addr)
    requires x in h.nodes && x in h'.nodes && h'.nodes[x] == h.nodes[x]
             && (x in h.floats ==> x in h'.floats || !h.nodes[x].free)
    requires Stored(m, h, x)
    requires forall a | Cell(h, x, a) :: Rd(m', a) == Rd(m, a)
    ensures Stored(m', h', x)
  {
    assert Cell(h, x, x + 8);
    if h.nodes[x].prevFree { assert Cell(h, x, x); }
    if h.nodes[x].free { assert Cell(h, x, x + 16) && Cell(h, x, x + 24); }
  }

  lemma LowAddressesAreNoCells(h: Heap, x: Addr, a: Addr)
    requires PhysInv(h) && x in h.nodes && a < LOWEST
    ensures !Cell(h, x, a)
  {
    assert PhysOk(h, x);
  }

  /** What remove_free_block writes: one link of each list neighbour. */
  function DetachMemory(m: Memory, n: Node): Memory {
    m[n.nextFree + 24 := Ptr(n.prevLink)][n.prevLink + 16 := Ptr(n.nextFree)]
  }

  lemma DetachStored(m: Memory, h: Heap, b: Addr, h': Heap, x: Addr)
    requires PhysInv(h) && x in h.nodes && b in h.nodes && Stored(m, h, x) && PhysOk(h, x)
    requires var n := h.nodes[b];
             && n.nextFree !in h.floats && n.prevLink !in h.floats
             && (n.nextFree == NULL_BLOCK || (n.nextFree in h.nodes && h.nodes[n.nextFree].free))
             && (n.prevLink == NULL_BLOCK || (n.prevLink in h.nodes && h.nodes[n.prevLink].free))
             && (n.nextFree == n.prevLink ==> n.nextFree == NULL_BLOCK)
    requires NULL_BLOCK !in h.nodes && h'.floats == h.floats + {b}
    requires var n := h.nodes[b];
             x in h'.nodes &&
             h'.nodes[x] == if x == n.nextFree then h.nodes[x].(prevLink := n.prevLink)
                            else if x == n.prevLink then h.nodes[x].(nextFree := n.nextFree)
                            else h.nodes[x]
    ensures Stored(DetachMemory(m, h.nodes[b]), h', x)
  {
    var n := h.nodes[b];
    LinkCells(h, n.nextFree, n.prevLink, x);
    assert Cell(h, x, x + 8);
    assert h.nodes[x].free ==> Cell(h, x, x + 16) && Cell(h, x, x + 24);
    assert h.nodes[x].prevFree ==> Cell(h, x, x);
  }

  lemma DetachMatches(m: Memory, h: Heap, b: Addr, c: Class)
    requires Inv(h) && Listed(h, b, c) && Matches(m, h)
    ensures c in h.heads && c.fl in h.sl && Inv(Detach(h, b)) && Matches(DetachMemory(m, h.nodes[b]), Detach(h, b))
    ensures AllKept(m, DetachMemory(m, h.nodes[b]), h, Detach(h, b), NULL_BLOCK) && SameLayout(h, Detach(h, b))
  {
    DetachInv(h, b, c);
    NullIsNoBlock(h);
    assert LinksOk(h, b);
    DetachAllStored(m, h, b);
    DetachKept(m, h, b);
  }

  lemma DetachAllStored(m: Memory, h: Heap, b: Addr)
    requires PhysInv(h) && Matches(m, h) && b in h.nodes && h.nodes[b].free && b !in h.floats && LinksOk(h, b)
             && NULL_BLOCK !in h.nodes
    requires h.nodes[b].cls in h.heads && h.nodes[b].cls.fl in h.sl
    ensures Matches(DetachMemory(m, h.nodes[b]), Detach(h, b))
  {
    var n, h', m' := h.nodes[b], Detach(h, b), DetachMemory(m, h.nodes[b]);
    DetachNodes(h, b);
    forall x | x in h'.nodes
      ensures Stored(m', h', x)
    {
      assert Stored(m, h, x) && PhysOk(h, x);
      DetachStored(m, h, b, h', x);
    }
  }

  lemma DetachKept(m: Memory, h: Heap, b: Addr)
    requires PhysInv(h) && b in h.nodes && h.nodes[b].free && b !in h.floats && LinksOk(h, b)
    requires h.nodes[b].cls in h.heads && h.nodes[b].cls.fl in h.sl && PhysInv(Detach(h, b))
             && SameLayout(h, Detach(h, b))
    ensures AllKept(m, DetachMemory(m, h.nodes[b]), h, Detach(h, b), NULL_BLOCK)
  {
    var n := h.nodes[b];
    assert n.nextFree != NULL_BLOCK ==> Cell(h, n.nextFree, n.nextFree + 24);
    assert n.prevLink != NULL_BLOCK ==> Cell(h, n.prevLink, n.prevLink + 16);
    HeadersOnly(m, DetachMemory(m, n), h, Detach(h, b), NULL_BLOCK);
  }

  /** The link words of two listed blocks (or of the null block) are not words of a third block. */
  lemma LinkCells(h: Heap, y: Addr, z: Addr, x: Addr)
    requires PhysInv(h) && x in h.nodes
    requires y == NULL_BLOCK || (y in h.nodes && h.nodes[y].free)
    requires z == NULL_BLOCK || (z in h.nodes && h.nodes[z].free)
    ensures x != y ==> !Cell(h, x, y + 24)
    ensures x != z ==> !Cell(h, x, z + 16)
  {
    LowAddressesAreNoCells(h, x, NULL_BLOCK + 24);
    LowAddressesAreNoCells(h, x, NULL_BLOCK + 16);
    if x != y && y != NULL_BLOCK {
      CellsApart(h, y, x, y + 24);
    }
    if x != z && z != NULL_BLOCK {
      CellsApart(h, z, x, z + 16);
    }
  }

  /** What insert_free_block writes: its own links, and one link of the block that was first. */
  function AttachMemory(m: Memory, b: Addr, current: Addr): Memory {
    m[b + 16 := Ptr(current)][b + 24 := Ptr(NULL_BLOCK)][current + 24 := Ptr(b)]
  }

  lemma AttachStored(m: Memory, h: Heap, b: Addr, current: Addr, h': Heap, x: Addr)
    requires PhysInv(h) && x in h.nodes && b in h.nodes && h.nodes[b].free && Stored(m, h, x) && PhysOk(h, x)
             && current != b
    requires current == NULL_BLOCK || (current in h.nodes && h.nodes[current].free)
    requires NULL_BLOCK !in h.nodes && h'.floats == h.floats - {b} && x in h'.nodes
    requires h'.nodes[x] == if x == b then h.nodes[b].(nextFree := current, prevLink := NULL_BLOCK, age := h.clock)
                            else if x == current then h.nodes[x].(prevLink := b)
                            else h.nodes[x]
    ensures Stored(AttachMemory(m, b, current), h', x)
  {
    LinkCells(h, b, b, x);
    LinkCells(h, current, current, x);
    if current != NULL_BLOCK {
      LinkCells(h, current, current, b);
      LinkCells(h, b, b, current);
    }
    assert PhysOk(h, b);
    assert Cell(h, x, x + 8);
    assert h.nodes[x].free ==> Cell(h, x, x + 16) && Cell(h, x, x + 24);
    assert h.nodes[x].prevFree ==> Cell(h, x, x);
  }

  lemma AttachMatches(m: Memory, h: Heap, b: Addr)
    requires Inv(h) && Matches(m, h) && b in h.floats && Lonely(h, b)
    ensures var c := h.nodes[b].cls;
            && c in h.heads && c.fl in h.sl && Inv(Attach(h, b))
            && Matches(AttachMemory(m, b, h.heads[c]), Attach(h, b))
            && AllKept(m, AttachMemory(m, b, h.heads[c]), h, Attach(h, b), NULL_BLOCK)
            && SameLayout(h, Attach(h, b))
  {
    AttachInv(h, b);
    NullIsNoBlock(h);
    SizeInTable(h, b);
    assert HeadOk(h, h.nodes[b].cls) && PhysOk(h, b);
    AttachAllStored(m, h, b);
    AttachKept(m, h, b);
  }

  lemma AttachAllStored(m: Memory, h: Heap, b: Addr)
    requires PhysInv(h) && Matches(m, h) && b in h.floats && b in h.nodes && h.nodes[b].free && NULL_BLOCK !in h.nodes
    requires h.nodes[b].cls in h.heads && h.nodes[b].cls.fl in h.sl && HeadOk(h, h.nodes[b].cls)
    ensures Matches(AttachMemory(m, b, h.heads[h.nodes[b].cls]), Attach(h, b))
  {
    var current, h' := h.heads[h.nodes[b].cls], Attach(h, b);
    forall x | x in h'.nodes
      ensures Stored(AttachMemory(m, b, current), h', x)
    {
      assert Stored(m, h, x) && PhysOk(h, x);
      AttachStored(m, h, b, current, h', x);
    }
  }

  lemma AttachKept(m: Memory, h: Heap, b: Addr)
    requires PhysInv(h) && b in h.floats && b in h.nodes && h.nodes[b].free
    requires h.nodes[b].cls in h.heads && h.nodes[b].cls.fl in h.sl && HeadOk(h, h.nodes[b].cls)
    requires PhysInv(Attach(h, b)) && SameLayout(h, Attach(h, b))
    ensures AllKept(m, AttachMemory(m, b, h.heads[h.nodes[b].cls]), h, Attach(h, b), NULL_BLOCK)
  {
    var current := h.heads[h.nodes[b].cls];
    assert Cell(h, b, b + 16) && Cell(h, b, b + 24);
    assert current != NULL_BLOCK ==> Cell(h, current, current + 24);
    HeadersOnly(m, AttachMemory(m, b, current), h, Attach(h, b), NULL_BLOCK);
  }

  // Marking and cutting. The memory afterwards is described word by word.

  /** block_mark_as_free */
  lemma MarkFreeMatches(m: Memory, m': Memory, h: Heap, b: Addr)
    requires Inv(h) && Matches(m, h) && b in h.nodes && !h.nodes[b].free && h.nodes[b].size != 0
    requires Next(h, b) in h.nodes
    requires var n, c := h.nodes[b], Next(h, b);
             && Rd(m', b + 8) == Word(n.size, n.prevFree, true)
             && Rd(m', c) == Ptr(b) && Rd(m', c + 8) == Word(h.nodes[c].size, true, h.nodes[c].free)
             && forall a | a != b + 8 && a != c && a != c + 8 :: Rd(m', a) == Rd(m, a)
    ensures Next(h, b) != b && Inv(MarkFree(h, b)) && Matches(m', MarkFree(h, b))
    ensures AllKept(m, m', h, MarkFree(h, b), b)
  {
    MarkFreeInv(h, b);
    var c, h' := Next(h, b), MarkFree(h, b);
    forall x | x in h'.nodes
      ensures Stored(m', h', x)
    {
      assert Stored(m, h, x);
      HeaderCells(h', b, c, x);
      if x != b && x != c {
        StillStored(m, m', h, h', x);
      } else {
        assert Cell(h', x, x + 8);
        assert h'.nodes[x].free ==> Cell(h', x, x + 16) && Cell(h', x, x + 24);
        assert h'.nodes[x].prevFree ==> Cell(h', x, x);
      }
    }
    assert Cell(h', b, b + 8) && Cell(h', c, c) && Cell(h', c, c + 8);
    HeadersOnly(m, m', h, h', b);
  }

  /** block_mark_as_used */
  lemma MarkUsedMatches(m: Memory, m': Memory, h: Heap, b: Addr)
    requires Inv(h) && Matches(m, h) && b in h.floats && b in h.nodes && h.nodes[b].size != 0
    requires Next(h, b) in h.nodes
    requires var n, c := h.nodes[b], Next(h, b);
             && Rd(m', b + 8) == Word(n.size, n.prevFree, false)
             && Rd(m', c + 8) == Word(h.nodes[c].size, false, h.nodes[c].free)
             && forall a | a != b + 8 && a != c + 8 :: Rd(m', a) == Rd(m, a)
    ensures Next(h, b) != b && Inv(MarkUsed(h, b)) && Matches(m', MarkUsed(h, b))
    ensures AllKept(m, m', h, MarkUsed(h, b), NULL_BLOCK)
  {
    MarkUsedInv(h, b);
    assert PhysOk(h, b);
    var c, h' := Next(h, b), MarkUsed(h, b);
    forall x | x in h'.nodes
      ensures Stored(m', h', x)
    {
      assert Stored(m, h, x);
      HeaderCells(h, b, c, x);
      assert Cell(h, x, x + 8);
      assert h.nodes[x].free ==> Cell(h, x, x + 16) && Cell(h, x, x + 24);
      assert h.nodes[x].prevFree ==> Cell(h, x, x);
    }
    assert Cell(h', b, b + 8) && Cell(h', c, c + 8);
    HeadersOnly(m, m', h, h', NULL_BLOCK);
  }

  /** What block_split and the flag its caller sets next leave in memory. */
  ghost predicate SplitWords(m: Memory, m': Memory, h: Heap, b: Addr, size: nat)
    requires b in h.nodes && Next(h, b) in h.nodes
  {
    var n, c, r := h.nodes[b], Next(h, b), b + OVERHEAD + size;
    && Rd(m', b + 8) == Word(size, n.prevFree, n.free)
    && Rd(m', r + 8) == Word(n.size - size - OVERHEAD, n.free, true)
    && (n.free ==> Rd(m', r) == Ptr(b))
    && Rd(m', c) == Ptr(r) && Rd(m', c + 8) == Word(h.nodes[c].size, true, h.nodes[c].free)
    && forall a | a != b + 8 && a != r + 8 && (a == r ==> !n.free) && a != c && a != c + 8 :: Rd(m', a) == Rd(m, a)
  }

  lemma SplitStored(m: Memory, m': Memory, h: Heap, b: Addr, size: nat, x: Addr)
    requires PhysInv(h) && Matches(m, h) && CanCut(h, b, size) && Next(h, b) in h.nodes
             && h.nodes[b].size >= size + OVERHEAD
    requires SplitWords(m, m', h, b, size) && PhysInv(Split(h, b, size)) && x in Split(h, b, size).nodes
    ensures Stored(m', Split(h, b, size), x)
  {
    var c, r, h' := Next(h, b), b + OVERHEAD + size, Split(h, b, size);
    NothingInside(h, b, r);
    assert PhysOk(h, b);
    HeaderCells(h', b, c, x);
    HeaderCells(h', b, r, x);
    if x in h.nodes {
      assert Stored(m, h, x);
    }
    assert Cell(h', x, x + 8);
    assert h'.nodes[x].free ==> Cell(h', x, x + 16) && Cell(h', x, x + 24);
    assert h'.nodes[x].prevFree ==> Cell(h', x, x);
  }

  lemma SplitMatches(m: Memory, m': Memory, h: Heap, b: Addr, size: nat)
    requires Inv(h) && Matches(m, h) && CanCut(h, b, size) && Next(h, b) in h.nodes
    requires SplitWords(m, m', h, b, size)
    ensures h.nodes[b].size >= size + OVERHEAD && Inv(Split(h, b, size)) && Matches(m', Split(h, b, size))
    ensures AllKept(m, m', h, Split(h, b, size), b)
  {
    SplitInv(h, b, size);
    var c, r, h' := Next(h, b), b + OVERHEAD + size, Split(h, b, size);
    forall x | x in h'.nodes
      ensures Stored(m', h', x)
    {
      SplitStored(m, m', h, b, size, x);
    }
    NothingInside(h, b, r);
    assert PhysOk(h, b);
    assert Cell(h', b, b + 8) && Cell(h', c, c) && Cell(h', c, c + 8) && Cell(h', r, r + 8);
    assert h.nodes[b].free ==> Cell(h', r, r);
    HeadersOnly(m, m', h, h', b);
  }

  /** What block_absorb into a free block leaves in memory. */
  ghost predicate AbsorbWords(m: Memory, m': Memory, h: Heap, b: Addr)
    requires b in h.nodes && Next(h, b) in h.nodes
  {
    var n, c := h.nodes[b], Next(h, b);
    var d := Next(h, c);
    && Rd(m', b + 8) == Word(n.size + h.nodes[c].size + OVERHEAD, n.prevFree, n.free)
    && Rd(m', d) == Ptr(b)
    && forall a | a != b + 8 && a != d :: Rd(m', a) == Rd(m, a)
  }

  lemma AbsorbMatches(m: Memory, m': Memory, h: Heap, b: Addr)
    requires Inv(h) && Matches(m, h) && b in h.nodes && b in h.floats && Next(h, b) in h.floats && Next(h, b) in h.nodes
    requires AbsorbWords(m, m', h, b)
    ensures Next(h, Next(h, b)) in h.nodes && Inv(Absorb(h, b)) && Matches(m', Absorb(h, b))
    ensures AllKept(m, m', h, Absorb(h, b), NULL_BLOCK)
  {
    AbsorbInv(h, b);
    assert PhysOk(h, b) && PhysOk(h, Next(h, b));
    var d, h' := Next(h, Next(h, b)), Absorb(h, b);
    forall x | x in h'.nodes
      ensures Stored(m', h', x)
    {
      assert Stored(m, h, x);
      HeaderCells(h', b, d, x);
      assert Cell(h', x, x + 8);
      assert h'.nodes[x].free ==> Cell(h', x, x + 16) && Cell(h', x, x + 24);
      assert h'.nodes[x].prevFree ==> Cell(h', x, x);
    }
    assert Cell(h', b, b + 8) && Cell(h', d, d);
    HeadersOnly(m, m', h, h', NULL_BLOCK);
  }

  /** What block_absorb into a used block, and marking the result as used, leave in memory. */
  ghost predicate AbsorbUsedWords(m: Memory, m': Memory, h: Heap, b: Addr)
    requires b in h.nodes && Next(h, b) in h.nodes && Next(h, Next(h, b)) in h.nodes
  {
    var n, c := h.nodes[b], Next(h, b);
    var d := Next(h, c);
    && Rd(m', b + 8) == Word(n.size + h.nodes[c].size + OVERHEAD, n.prevFree, false)
    && Rd(m', d) == Ptr(b) && Rd(m', d + 8) == Word(h.nodes[d].size, false, h.nodes[d].free)
    && forall a | a != b + 8 && a != d && a != d + 8 :: Rd(m', a) == Rd(m, a)
  }

  lemma AbsorbUsedMatches(m: Memory, m': Memory, h: Heap, b: Addr)
    requires Inv(h) && Matches(m, h) && InUse(h, b) && Next(h, b) in h.floats && Next(h, b) in h.nodes
    requires Next(h, Next(h, b)) in h.nodes && AbsorbUsedWords(m, m', h, b)
    ensures Inv(AbsorbUsed(h, b)) && Matches(m', AbsorbUsed(h, b))
    ensures AllKept(m, m', h, AbsorbUsed(h, b), b)
  {
    AbsorbUsedInv(h, b);
    assert PhysOk(h, b) && PhysOk(h, Next(h, b));
    var d, h' := Next(h, Next(h, b)), AbsorbUsed(h, b);
    forall x | x in h'.nodes
      ensures Stored(m', h', x)
    {
      assert Stored(m, h, x);
      HeaderCells(h, b, d, x);
      HeaderCells(h', b, d, x);
      assert Cell(h', x, x + 8) && Cell(h, x, x + 8);
      assert h'.nodes[x].free ==> Cell(h, x, x + 16) && Cell(h, x, x + 24);
      assert h'.nodes[x].prevFree ==> Cell(h, x, x);
    }
    assert Cell(h', b, b + 8) && Cell(h, d, d) && Cell(h', d, d + 8);
    HeadersOnly(m, m', h, h', b);
  }

  /** What tlsf_add_pool writes besides listing the block. */
  ghost predicate AddPoolWords(m: Memory, m': Memory, start: Addr, size: nat) {
    var end := start + OVERHEAD + size;
    && Rd(m', start + 8) == Word(size, false, true)
    && Rd(m', end) == Ptr(start) && Rd(m', end + 8) == Word(0, true, false)
    && forall a | a != start + 8 && a != end && a != end + 8 :: Rd(m', a) == Rd(m, a)
  }

  lemma AddPoolMatches(m: Memory, m': Memory, h: Heap, start: Addr, size: nat)
    requires Inv(h) && Matches(m, h) && Unused(h, start, size) && start >= LOWEST && start % 8 == 0
    requires BLOCK_SIZE_MIN <= size < BLOCK_SIZE_MAX && size % 8 == 0 && start + size + 24 <= SIZE_T
    requires AddPoolWords(m, m', start, size)
    ensures Inv(AddPool(h, start, size)) && Matches(m', AddPool(h, start, size))
    ensures AllKept(m, m', h, AddPool(h, start, size), NULL_BLOCK)
  {
    AddPoolInv(h, start, size);
    var end, h' := start + OVERHEAD + size, AddPool(h, start, size);
    forall x | x in h'.nodes
      ensures Stored(m', h', x)
    {
      HeaderCells(h', start, end, x);
      if x in h.nodes {
        assert Stored(m, h, x);
        assert Cell(h', x, x + 8);
        assert h'.nodes[x].free ==> Cell(h', x, x + 16) && Cell(h', x, x + 24);
        assert h'.nodes[x].prevFree ==> Cell(h', x, x);
      }
    }
    assert Cell(h', start, start + 8) && Cell(h', end, end) && Cell(h', end, end + 8);
    HeadersOnly(m, m', h, h', NULL_BLOCK);
  }

  /** The size words of b and c, and the prev_phys word of c when it counts, are words of no third block. */
  lemma HeaderCells(h: Heap, b: Addr, c: Addr, x: Addr)
    requires PhysInv(h) && x in h.nodes && b in h.nodes && c in h.nodes
    ensures x != b ==> !Cell(h, x, b + 8)
    ensures x != c ==> !Cell(h, x, c + 8) && (h.nodes[c].prevFree ==> !Cell(h, x, c))
  {
    if x != b {
      CellsApart(h, b, x, b + 8);
    }
    if x != c {
      CellsApart(h, c, x, c + 8);
      if h.nodes[c].prevFree {
        CellsApart(h, c, x, c);
      }
    }
  }

  /** A user who writes to the payload of a block in use harms nobody else. */
  lemma PayloadWrites(m: Memory, m': Memory, h: Heap, u: Addr)
    requires PhysInv(h) && Matches(m, h) && InUse(h, u)
    requires forall a | Rd(m', a) != Rd(m, a) :: Payload(h, u, a)
    ensures Matches(m', h) && AllKept(m, m', h, h, u)
  {
    forall x | x in h.nodes
      ensures Stored(m', h, x)
    {
      assert Stored(m, h, x);
      forall a | Cell(h, x, a)
        ensures Rd(m', a) == Rd(m, a)
      {
        PayloadClear(h, u, x, a);
      }
      StillStored(m, m', h, h, x);
    }
    forall v | InUse(h, v) && v != u
      ensures Kept(m, m', h, h, v)
    {
      assert PhysOk(h, v) && PhysOk(h, u);
      assert Apart(h, u, v) && Apart(h, v, u);
    }
  }
}
