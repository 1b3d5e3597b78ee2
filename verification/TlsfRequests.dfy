/** Request sizes and alignment in kernel/mem/tlsf.c: arithmetic on size_t, where sums may wrap around. */
module TlsfRequests {
  import opened TlsfMapping
  import opened Multiples

  const GAP_MINIMUM := 32                   // sizeof(block_header_t)
  const TOP_BIT := 0x8000_0000_0000_0000

  /** The sum or difference of two numbers of type size_t: modulo 2^64, without a division. */
  function Wrap(x: int): (r: nat)
    requires -SIZE_T <= x < 2 * SIZE_T
    ensures r < SIZE_T
  {
    if x < 0 then x + SIZE_T else if x >= SIZE_T then x - SIZE_T else x
  }

  // ---------------------------------------------------------------- powers of two

  lemma {:induction false} DividesEight(a: nat, x: nat)
    requires a > 0 && a % 8 == 0 && Divides(a, x)
    ensures x % 8 == 0
  {
    if x > 0 {
      DividesEight(a, x - a);
    }
  }

  /** Alignments are powers of two, as align_up asserts. */
  ghost predicate IsPow2(align: nat) {
    exists k: nat :: align == Pow2(k)
  }

  lemma {:induction false} Pow2Divides(k: nat, n: nat)
    requires k <= n
    ensures Divides(Pow2(k), Pow2(n))
  {
    if k < n {
      Pow2Divides(k, n - 1);
      DividesSum(Pow2(k), Pow2(n - 1), Pow2(n - 1));
    } else {
      assert Divides(Pow2(k), 0);
    }
  }

  /** The powers of two that fit into a word, and what they divide. */
  lemma Pow2Ladder(align: nat)
    requires IsPow2(align) && align < SIZE_T
    ensures align == 1 || align == 2 || align == 4 || align == 8 || (align >= 16 && align % 8 == 0)
    ensures align == 16 || align < 16 || align >= 32
    ensures align < TOP_BIT ==> align <= 0x4000_0000_0000_0000
    ensures align >= TOP_BIT ==> align == TOP_BIT
    ensures align > 0 && Divides(align, SIZE_T)
  {
    var k: nat :| align == Pow2(k);
    Pow2Known();
    assert Pow2(64) == 2 * Pow2(63) && Pow2(63) == 2 * Pow2(62);
    if k >= 64 { Pow2Monotone(64, k); }
    if k <= 62 { Pow2Monotone(k, 62); }
    Pow2Divides(k, 64);
    Pow2Small(k);
  }

  lemma Pow2Small(k: nat)
    ensures k < 4 ==> Pow2(k) == 1 || Pow2(k) == 2 || Pow2(k) == 4 || Pow2(k) == 8
    ensures k >= 4 ==> Pow2(k) % 8 == 0 && (Pow2(k) == 16 || Pow2(k) >= 32)
  {
    assert Pow2(0) == 1 && Pow2(1) == 2 && Pow2(2) == 4 && Pow2(3) == 8 && Pow2(4) == 16;
    if k >= 5 { Pow2Monotone(5, k); }
    if k >= 3 {
      Pow2Divides(3, k);
      DividesEight(8, Pow2(k));
    }
  }

  // ---------------------------------------------------------------- alignment

  /** align_up */
  function AlignUp(x: nat, align: nat): nat
    requires 0 < align < SIZE_T && x < SIZE_T
  {
    AlignDown(Wrap(x + align - 1), align)
  }

  /** align_down: what is left of x without the bits below a power of two. */
  function AlignDown(x: nat, align: nat): nat
    requires align > 0
  {
    if x < align then 0 else align + AlignDown(x - align, align)
  }

  lemma {:induction false} AlignDownFacts(x: nat, align: nat)
    requires align > 0
    ensures Divides(align, AlignDown(x, align)) && AlignDown(x, align) <= x < AlignDown(x, align) + align
  {
    if x >= align {
      AlignDownFacts(x - align, align);
    }
  }

  /** align_up away from the end of the address space. */
  lemma AlignUpFacts(x: nat, align: nat)
    requires 0 < align < SIZE_T && x + align <= SIZE_T
    ensures Divides(align, AlignUp(x, align)) && x <= AlignUp(x, align) < x + align
  {
    AlignDownFacts(x + align - 1, align);
  }

  /** align_up of a multiple changes nothing, even next to the end of the address space. */
  lemma AlignUpMultiple(x: nat, align: nat)
    requires IsPow2(align) && 0 < align < SIZE_T && Divides(align, x) && x < SIZE_T
    ensures AlignUp(x, align) == x
  {
    Pow2Ladder(align);
    MultiplesApart(align, x, SIZE_T);
    AlignUpFacts(x, align);
    if x < AlignUp(x, align) {
      MultiplesApart(align, x, AlignUp(x, align));
    }
  }

  // ---------------------------------------------------------------- request sizes

  /** adjust_request_size; zero means that the request cannot be satisfied. */
  function AdjustRequestSize(size: nat, align: nat): nat
    requires 0 < align < SIZE_T && size < SIZE_T
  {
    if size == 0 then 0
    else
      var aligned := AlignUp(size, align);
      if aligned < BLOCK_SIZE_MAX then (if aligned < BLOCK_SIZE_MIN then BLOCK_SIZE_MIN else aligned) else 0
  }

  /** What a size adjusted to a multiple of eight looks like. */
  lemma AdjustedShape(size: nat, align: nat)
    requires size < SIZE_T && 0 < align < SIZE_T && align % 8 == 0
    ensures var a := AdjustRequestSize(size, align);
            a % 8 == 0 && (a == 0 || BLOCK_SIZE_MIN <= a < BLOCK_SIZE_MAX)
  {
    if size > 0 {
      AlignDownFacts(Wrap(size + align - 1), align);
      DividesEight(align, AlignUp(size, align));
    }
  }

  /**
   An adjusted size covers the request exactly when rounding up does not wrap around. For the last
   seven values of size_t it does, and the request is silently cut down to the minimum block.
  */
  lemma AdjustCoversExactly(size: nat)
    requires size < SIZE_T && AdjustRequestSize(size, ALIGN_SIZE) != 0
    ensures AdjustRequestSize(size, ALIGN_SIZE) >= size <==> size + ALIGN_SIZE - 1 < SIZE_T
  {
    if size + ALIGN_SIZE - 1 < SIZE_T {
      AlignDownFacts(size + ALIGN_SIZE - 1, ALIGN_SIZE);
    }
  }

  lemma AdjustWraps()
    ensures AdjustRequestSize(SIZE_T - 1, ALIGN_SIZE) == BLOCK_SIZE_MIN
  {
    assert Wrap(SIZE_T - 1 + ALIGN_SIZE - 1) == 6;
  }

  /** Below the wrap-around, an adjusted size wastes less than one alignment unit beyond the minimum. */
  lemma AdjustIsTight(size: nat)
    requires 0 < size && size + ALIGN_SIZE - 1 < SIZE_T
    ensures var a := AdjustRequestSize(size, ALIGN_SIZE);
            && (a == 0 <==> size > BLOCK_SIZE_MAX - ALIGN_SIZE)
            && (a != 0 ==> size <= a && (a == BLOCK_SIZE_MIN || a < size + ALIGN_SIZE))
  {
    AlignDownFacts(size + ALIGN_SIZE - 1, ALIGN_SIZE);
    DividesEight(ALIGN_SIZE, AlignUp(size, ALIGN_SIZE));
  }

  /** The requests that are turned down: from seven below block_size_max up to where rounding up wraps around. */
  lemma AdjustRejects(size: nat)
    requires 0 < size < SIZE_T
    ensures AdjustRequestSize(size, ALIGN_SIZE) == 0 <==> BLOCK_SIZE_MAX - ALIGN_SIZE < size <= SIZE_T - ALIGN_SIZE
  {
    if size + ALIGN_SIZE - 1 < SIZE_T {
      AdjustIsTight(size);
    } else {
      var x := Wrap(size + ALIGN_SIZE - 1);
      assert x < ALIGN_SIZE;
      AlignDownFacts(x, ALIGN_SIZE);
    }
  }

  /** A request that outgrows a block whose size is a multiple of eight does so before and after adjusting. */
  lemma OutgrowsBlock(size: nat, block: nat)
    requires size < SIZE_T && block % 8 == 0 && block >= BLOCK_SIZE_MIN && AdjustRequestSize(size, ALIGN_SIZE) > block
    ensures size > block
  {
    AlignDownFacts(Wrap(size + ALIGN_SIZE - 1), ALIGN_SIZE);
    DividesEight(ALIGN_SIZE, AlignUp(size, ALIGN_SIZE));
  }

  // ---------------------------------------------------------------- aligned requests

  /** The size tlsf_memalign searches for. */
  function AlignedSize(align: nat, size: nat): nat
    requires 0 < align < SIZE_T && size < SIZE_T
  {
    var adjust := AdjustRequestSize(size, ALIGN_SIZE);
    if adjust != 0 && align > ALIGN_SIZE then AdjustRequestSize(Wrap(adjust + align + GAP_MINIMUM), align) else adjust
  }

  /**
   The size searched for leaves room for the gap and the request exactly when the alignment is below
   2^63. At 2^63 the sum wraps around, and tlsf_memalign looks for a block of the minimum size.
  */
  lemma GapRoomExactly(align: nat, size: nat)
    requires IsPow2(align) && ALIGN_SIZE < align < SIZE_T && size < SIZE_T && AlignedSize(align, size) != 0
    ensures AlignedSize(align, size) >= AdjustRequestSize(size, ALIGN_SIZE) + align + GAP_MINIMUM <==> align < TOP_BIT
    ensures align >= TOP_BIT ==> AlignedSize(align, size) == BLOCK_SIZE_MIN
  {
    AdjustedShape(size, ALIGN_SIZE);
    Pow2Ladder(align);
    var x := AdjustRequestSize(size, ALIGN_SIZE) + align + GAP_MINIMUM;
    if align < TOP_BIT {
      AlignUpFacts(x, align);
    } else {
      NoRoom(x);
    }
  }

  /** The first multiple of align from x on. */
  ghost predicate NextMultiple(align: nat, x: nat, s: nat)
    requires align > 0
  {
    Divides(align, s) && x <= s < x + align
  }

  lemma OneNextMultiple(align: nat, x: nat, s: nat, r: nat)
    requires align > 0 && NextMultiple(align, x, s) && NextMultiple(align, x, r)
    ensures s == r
  {
    if s < r {
      MultiplesApart(align, s, r);
    } else if r < s {
      MultiplesApart(align, r, s);
    }
  }

  /**
   For alignments below 2^63 the size searched for is the next multiple of the alignment from request,
   alignment and minimal gap together on, and nothing beyond it; it is zero exactly if that multiple
   reaches block_size_max.
  */
  lemma AlignedSizeExactly(align: nat, size: nat, s: nat)
    requires IsPow2(align) && ALIGN_SIZE < align < TOP_BIT && size < SIZE_T
    requires AdjustRequestSize(size, ALIGN_SIZE) != 0
    requires NextMultiple(align, AdjustRequestSize(size, ALIGN_SIZE) + align + GAP_MINIMUM, s)
    ensures AlignedSize(align, size) == if s < BLOCK_SIZE_MAX then s else 0
    ensures AlignedSize(align, size) < AdjustRequestSize(size, ALIGN_SIZE) + 2 * align + GAP_MINIMUM
  {
    AdjustedShape(size, ALIGN_SIZE);
    Pow2Ladder(align);
    var x := AdjustRequestSize(size, ALIGN_SIZE) + align + GAP_MINIMUM;
    AlignUpFacts(x, align);
    OneNextMultiple(align, x, s, AlignUp(x, align));
  }

  /** There is such a multiple. */
  lemma HasNextMultiple(align: nat, size: nat) returns (s: nat)
    requires IsPow2(align) && ALIGN_SIZE < align < TOP_BIT && size < SIZE_T
    ensures NextMultiple(align, AdjustRequestSize(size, ALIGN_SIZE) + align + GAP_MINIMUM, s)
  {
    AdjustedShape(size, ALIGN_SIZE);
    Pow2Ladder(align);
    s := AlignUp(AdjustRequestSize(size, ALIGN_SIZE) + align + GAP_MINIMUM, align);
    AlignUpFacts(AdjustRequestSize(size, ALIGN_SIZE) + align + GAP_MINIMUM, align);
  }

  lemma AlignedShape(align: nat, size: nat)
    requires IsPow2(align) && align < SIZE_T && size < SIZE_T
    ensures align > 0 && AlignedSize(align, size) % 8 == 0
    ensures AlignedSize(align, size) == 0 || BLOCK_SIZE_MIN <= AlignedSize(align, size) < BLOCK_SIZE_MAX
  {
    Pow2Ladder(align);
    AdjustedShape(size, ALIGN_SIZE);
    if AdjustRequestSize(size, ALIGN_SIZE) != 0 && align > ALIGN_SIZE {
      AdjustedShape(Wrap(AdjustRequestSize(size, ALIGN_SIZE) + align + GAP_MINIMUM), align);
    }
  }

  lemma NoRoom(x: nat)
    requires TOP_BIT < x < TOP_BIT + BLOCK_SIZE_MAX + GAP_MINIMUM
    ensures AdjustRequestSize(x, TOP_BIT) == BLOCK_SIZE_MIN
  {
    assert Wrap(x + TOP_BIT - 1) == x - TOP_BIT - 1;
    assert AlignUp(x, TOP_BIT) == 0;
  }

  /** A request that meets the wrap-around: 4096 bytes aligned to 2^63 are searched for as 24 bytes. */
  lemma GapRoomWraps()
    ensures IsPow2(TOP_BIT) && AlignedSize(TOP_BIT, 4096) == BLOCK_SIZE_MIN
    ensures AdjustRequestSize(4096, ALIGN_SIZE) == 4096
  {
    Pow2Known();
    assert Pow2(64) == 2 * Pow2(63);
    AdjustIsTight(4096);
    AdjustedShape(4096, ALIGN_SIZE);
    NoRoom(4096 + TOP_BIT + GAP_MINIMUM);
  }

  /**
   A gap that leads to an aligned address, and either vanishes or holds a whole block of at least the minimum
   size.
  */
  predicate GoodGap(ptr: nat, align: nat, gap: nat)
    requires align > 0
  {
    (gap == 0 || GAP_MINIMUM <= gap <= align + 24) && gap % 8 == 0 && Divides(align, ptr + gap)
  }

  /**
   How far tlsf_memalign moves a pointer up: to the next multiple of the alignment, or further if a
   block would not fit into the gap. With an alignment of 2^63 the sums wrap around and the address
   reached need not be aligned, but even then the gap is never too small for a block.
  */
  method AlignmentGap(ptr: nat, align: nat) returns (gap: nat)
    requires IsPow2(align) && align < SIZE_T
    requires ptr % 8 == 0 && 64 <= ptr && ptr + GAP_MINIMUM <= SIZE_T
    requires ALIGN_SIZE < align < TOP_BIT ==> ptr + align + 56 <= SIZE_T
    ensures gap % 8 == 0 && (gap == 0 || GAP_MINIMUM <= gap < SIZE_T - 63)
    ensures align > 0 && (align < TOP_BIT ==> GoodGap(ptr, align, gap))
    ensures align <= ALIGN_SIZE ==> gap == 0
  {
    FirstStep(ptr, align);
    var aligned := AlignUp(ptr, align);
    gap := Wrap(aligned - ptr);
    Distance(ptr, align, aligned);
    if gap != 0 && gap < GAP_MINIMUM {
      var remain := GAP_MINIMUM - gap;
      var offset := if remain > align then remain else align;
      var next := Wrap(aligned + offset);
      if align < TOP_BIT {
        SecondStep(ptr, align, aligned, next);
      } else {
        TopMultiples(TOP_BIT - 1);
      }
      aligned := AlignUp(next, align);
      gap := Wrap(aligned - ptr);
      Distance(ptr, align, aligned);
    }
  }

  /** The distance from one address to another, around the end of the address space if need be. */
  lemma Distance(ptr: nat, align: nat, aligned: nat)
    requires ptr % 8 == 0 && aligned % 8 == 0 && ptr < SIZE_T && aligned < SIZE_T && align > 0
    ensures Wrap(aligned - ptr) % 8 == 0
    ensures ptr <= aligned ==> Wrap(aligned - ptr) == aligned - ptr
    ensures ptr <= aligned && Divides(align, aligned) ==> Divides(align, ptr + Wrap(aligned - ptr))
    ensures aligned < ptr ==> Wrap(aligned - ptr) == SIZE_T - (ptr - aligned)
  {
  }

  lemma FirstStep(ptr: nat, align: nat)
    requires IsPow2(align) && align < SIZE_T
    requires ptr % 8 == 0 && 64 <= ptr && ptr + GAP_MINIMUM <= SIZE_T
    requires ALIGN_SIZE < align < TOP_BIT ==> ptr + align + 56 <= SIZE_T
    ensures 0 < align <= TOP_BIT && AlignUp(ptr, align) < SIZE_T && AlignUp(ptr, align) % 8 == 0
    ensures align <= ALIGN_SIZE ==> AlignUp(ptr, align) == ptr
    ensures align < TOP_BIT ==> Divides(align, AlignUp(ptr, align)) && ptr <= AlignUp(ptr, align) < ptr + align
    ensures align == TOP_BIT ==> AlignUp(ptr, align) == if ptr <= TOP_BIT then TOP_BIT else 0
  {
    Pow2Ladder(align);
    if align <= ALIGN_SIZE {
      SmallDivides(ptr, align);
      AlignUpMultiple(ptr, align);
    } else if align < TOP_BIT {
      AlignUpFacts(ptr, align);
      DividesEight(align, AlignUp(ptr, align));
    } else {
      TopMultiples(Wrap(ptr + TOP_BIT - 1));
    }
  }

  /** The second step goes from one multiple to the next. */
  lemma SecondStep(ptr: nat, align: nat, aligned: nat, next: nat)
    requires IsPow2(align) && ALIGN_SIZE < align < TOP_BIT && ptr % 8 == 0 && aligned % 8 == 0
    requires ptr < aligned < ptr + GAP_MINIMUM && aligned < ptr + align && Divides(align, aligned)
             && ptr + align + 56 <= SIZE_T
    requires next == aligned + if ptr + GAP_MINIMUM - aligned > align then ptr + GAP_MINIMUM - aligned else align
    ensures ptr + GAP_MINIMUM <= AlignUp(next, align) <= ptr + align + 24
    ensures Divides(align, AlignUp(next, align)) && AlignUp(next, align) % 8 == 0
  {
    Pow2Ladder(align);
    if align == 16 {
      assert next == aligned + 24;
      SecondStep16(aligned);
    } else {
      assert next == aligned + align;
      SecondStepWide(aligned, align);
    }
    DividesEight(align, AlignUp(next, align));
  }

  lemma SecondStep16(aligned: nat)
    requires Divides(16, aligned) && aligned + 40 <= SIZE_T
    ensures AlignUp(aligned + 24, 16) == aligned + 32 && Divides(16, aligned + 32)
  {
    assert Divides(16, 16) && Divides(16, 32);
    DividesSum(16, aligned, 16);
    DividesSum(16, aligned, 32);
    AlignUpFacts(aligned + 24, 16);
    var next := AlignUp(aligned + 24, 16);
    if next > aligned + 32 {
      MultiplesApart(16, aligned + 32, next);
    } else if next < aligned + 32 {
      MultiplesApart(16, aligned + 16, next);
    }
  }

  lemma SecondStepWide(aligned: nat, align: nat)
    requires IsPow2(align) && 0 < align < SIZE_T && Divides(align, aligned) && aligned + align < SIZE_T
    ensures AlignUp(aligned + align, align) == aligned + align && Divides(align, aligned + align)
  {
    assert Divides(align, align);
    DividesSum(align, aligned, align);
    AlignUpMultiple(aligned + align, align);
  }

  lemma TopMultiples(x: nat)
    requires x < SIZE_T
    ensures AlignDown(x, TOP_BIT) == if x < TOP_BIT then 0 else TOP_BIT
  {
    if x >= TOP_BIT {
      assert AlignDown(x - TOP_BIT, TOP_BIT) == 0;
    }
  }

  lemma {:induction false} SmallDivides(x: nat, align: nat)
    requires x % 8 == 0 && (align == 1 || align == 2 || align == 4 || align == 8)
    ensures Divides(align, x)
  {
    if x > 0 {
      SmallDivides(x - 8, align);
      assert Divides(align, 8) by {
        if align == 1 {
          assert Divides(1, 4);
        } else if align == 2 {
          assert Divides(2, 4);
        }
      }
      DividesSum(align, x - 8, 8);
    }
  }
}
