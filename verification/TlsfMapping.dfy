/** The size arithmetic of kernel/mem/tlsf.c: request sizes, size classes and their bounds. */
module TlsfMapping {

  const ALIGN_SIZE := 8
  const SMALL_BLOCK_SIZE := 256
  const FL_INDEX_COUNT := 25
  const SL_INDEX_COUNT := 32
  const BLOCK_SIZE_MIN := 24
  const BLOCK_SIZE_MAX := 0x1_0000_0000
  const SIZE_T := 0x1_0000_0000_0000_0000      // size_t arithmetic is modulo this

  // ---------------------------------------------------------------- powers of two

  function Pow2(n: nat): (p: nat)
    ensures p >= 1
  {
    if n == 0 then 1 else 2 * Pow2(n - 1)
  }

  lemma {:induction false} Pow2Monotone(a: nat, b: nat)
    requires a <= b
    ensures Pow2(a) <= Pow2(b)
    ensures a < b ==> 2 * Pow2(a) <= Pow2(b)
  {
    if a < b {
      Pow2Monotone(a, b - 1);
    }
  }

  lemma Pow2At5(n: nat)
    ensures Pow2(n + 5) == 32 * Pow2(n)
  {
    assert Pow2(n + 5) == 2 * Pow2(n + 4) == 4 * Pow2(n + 3) == 8 * Pow2(n + 2) == 16 * Pow2(n + 1);
  }

  lemma Pow2At8()
    ensures Pow2(3) == 8 && Pow2(8) == 256
  {
    Pow2At5(3);
  }

  lemma Pow2Known()
    ensures Pow2(3) == 8 && Pow2(8) == 256 && Pow2(32) == BLOCK_SIZE_MAX && Pow2(64) == SIZE_T
  {
    Pow2At5(3);
    Pow2At5(8);
    Pow2At5(13);
    Pow2At5(18);
    Pow2At5(23);
    assert Pow2(32) == 16 * Pow2(28);
    Pow2Sum(32, 32);
  }

  lemma {:induction false} Pow2Sum(a: nat, b: nat)
    ensures Pow2(a + b) == Pow2(a) * Pow2(b)
  {
    if b > 0 {
      Pow2Sum(a, b - 1);
      assert Pow2(a + b) == 2 * Pow2(a + (b - 1));
      assert Pow2(a) * Pow2(b) == 2 * (Pow2(a) * Pow2(b - 1));
    }
  }

  /** tlsf_fls: the position of the highest set bit. */
  function Fls(x: nat): (r: nat)
    requires x > 0
    ensures Pow2(r) <= x < Pow2(r + 1)
  {
    FlsFrom(x, 0)
  }

  function FlsFrom(x: nat, k: nat): (r: nat)
    requires Pow2(k) <= x
    ensures Pow2(r) <= x < Pow2(r + 1)
    decreases x - Pow2(k)
  {
    if x < Pow2(k + 1) then k else FlsFrom(x, k + 1)
  }

  lemma FlsUnique(x: nat, r: nat)
    requires Pow2(r) <= x < Pow2(r + 1)
    ensures Fls(x) == r
  {
    if Fls(x) < r {
      Pow2Monotone(Fls(x) + 1, r);
    } else if Fls(x) > r {
      Pow2Monotone(r + 1, Fls(x));
    }
  }

  /** x << k */
  function Shl(x: nat, k: nat): nat {
    if k == 0 then x else 2 * Shl(x, k - 1)
  }

  /** x >> k, that is, how many times 2^k fits into x */
  function Shr(x: nat, k: nat): nat {
    if x < Pow2(k) then 0 else 1 + Shr(x - Pow2(k), k)
  }

  lemma {:induction false} ShlFacts(x: nat, k: nat)
    ensures Shl(x + 1, k) == Shl(x, k) + Pow2(k)
    ensures Shl(x, k) >= x
    ensures Shl(1, k) == Pow2(k)
    ensures Shl(32, k) == Pow2(k + 5) && Shl(64, k) == Pow2(k + 6)
  {
    if k > 0 {
      ShlFacts(x, k - 1);
    } else {
      Pow2At5(0);
    }
  }

  lemma {:induction false} ShlMonotone(x: nat, y: nat, k: nat)
    requires x <= y
    ensures Shl(x, k) <= Shl(y, k)
  {
    if k > 0 {
      ShlMonotone(x, y, k - 1);
    }
  }

  /** Shifting down and up again loses only the bits shifted out. */
  lemma {:induction false} ShrRange(x: nat, k: nat)
    ensures Shl(Shr(x, k), k) <= x < Shl(Shr(x, k), k) + Pow2(k)
    decreases x
  {
    if x < Pow2(k) {
      ShlZero(k);
    } else {
      ShrRange(x - Pow2(k), k);
      ShlFacts(Shr(x - Pow2(k), k), k);
    }
  }

  lemma {:induction false} ShlZero(k: nat)
    ensures Shl(0, k) == 0
  {
    if k > 0 {
      ShlZero(k - 1);
    }
  }

  // ---------------------------------------------------------------- size classes

  datatype Class = Class(fl: int, sl: int)

  predicate InTable(c: Class) {
    0 <= c.fl < FL_INDEX_COUNT && 0 <= c.sl < SL_INDEX_COUNT
  }

  predicate Proper(c: Class) {
    0 <= c.fl && 0 <= c.sl < SL_INDEX_COUNT
  }

  /** Lexicographic order: first by row, then by column. */
  predicate Below(c: Class, d: Class) {
    c.fl < d.fl || (c.fl == d.fl && c.sl <= d.sl)
  }

  /** mapping_insert; the exclusive or with 32 clears the leading bit of a number in [32, 64). */
  function MappingInsert(size: nat): Class {
    if size < SMALL_BLOCK_SIZE then Class(0, size / 8)   // SMALL_BLOCK_SIZE / SL_INDEX_COUNT == 8
    else
      RowIsLarge(size);
      Class(Fls(size) - 7, Shr(size, Fls(size) - 5) - 32)
  }

  /** mapping_search: round up to the next class before mapping. */
  function MappingSearch(size: nat): Class {
    MappingInsert(if size >= SMALL_BLOCK_SIZE then Rounded(size) else size)
  }

  /** The size that mapping_search maps in place of a large one. */
  function Rounded(size: nat): nat
    requires size >= SMALL_BLOCK_SIZE
  {
    RowIsLarge(size);
    size + Pow2(Fls(size) - 5) - 1
  }

  lemma RowIsLarge(size: nat)
    requires size >= SMALL_BLOCK_SIZE
    ensures Fls(size) >= 8
  {
    Pow2At8();
    if Fls(size) < 8 {
      Pow2Monotone(Fls(size) + 1, 8);
    }
  }

  /** The width of the classes in a row. */
  function Width(fl: nat): nat {
    if fl == 0 then 8 else Pow2(fl + 2)
  }

  /** The smallest size in a class. */
  function ClassMin(c: Class): nat
    requires Proper(c)
  {
    if c.fl == 0 then 8 * c.sl else Shl(32 + c.sl, c.fl + 2)
  }

  /** A class of a row beyond the first lies within the powers of two of its row. */
  lemma RowBounds(c: Class)
    requires Proper(c) && c.fl >= 1
    ensures Pow2(c.fl + 7) <= ClassMin(c) && ClassMin(c) + Width(c.fl) <= Pow2(c.fl + 8)
  {
    ShlFacts(32 + c.sl, c.fl + 2);
    ShlMonotone(32, 32 + c.sl, c.fl + 2);
    ShlMonotone(32 + c.sl + 1, 64, c.fl + 2);
  }

  /** The class of a size is the one whose range contains it. */
  lemma ClassRange(size: nat)
    ensures var c := MappingInsert(size);
            Proper(c) && ClassMin(c) <= size < ClassMin(c) + Width(c.fl)
    ensures size >= SMALL_BLOCK_SIZE ==> Fls(size) >= 8 && MappingInsert(size).fl == Fls(size) - 7
  {
    if size >= SMALL_BLOCK_SIZE {
      RowIsLarge(size);
      var k := Fls(size) - 5;
      ShrRange(size, k);
      ShlFacts(Shr(size, k), k);
      if Shr(size, k) < 32 {
        ShlMonotone(Shr(size, k) + 1, 32, k);
      } else if Shr(size, k) >= 64 {
        ShlMonotone(64, Shr(size, k), k);
      }
    }
  }

  /** Classes lie one after the other: a class that is not below d starts after d ends. */
  lemma ClassesInOrder(c: Class, d: Class)
    requires Proper(c) && Proper(d) && !Below(c, d)
    ensures ClassMin(d) + Width(d.fl) <= ClassMin(c)
  {
    Pow2At8();
    if c.fl == d.fl {
      ShlFacts(32 + d.sl, c.fl + 2);
      ShlMonotone(32 + d.sl + 1, 32 + c.sl, c.fl + 2);
    } else {
      RowBounds(c);
      if d.fl == 0 {
        Pow2Monotone(8, c.fl + 7);
      } else {
        RowBounds(d);
        Pow2Monotone(d.fl + 8, c.fl + 7);
      }
    }
  }

  /** mapping_insert is monotone. */
  lemma MappingMonotone(a: nat, b: nat)
    requires a <= b
    ensures Below(MappingInsert(a), MappingInsert(b))
  {
    ClassRange(a);
    ClassRange(b);
    if !Below(MappingInsert(a), MappingInsert(b)) {
      ClassesInOrder(MappingInsert(a), MappingInsert(b));
    }
  }

  /** A size stays inside the table of lists exactly while it is below block_size_max. */
  lemma InTableExactly(size: nat)
    ensures InTable(MappingInsert(size)) <==> size < BLOCK_SIZE_MAX
  {
    ClassRange(size);
    Pow2Known();
    if size >= SMALL_BLOCK_SIZE {
      var f := Fls(size);
      if size < BLOCK_SIZE_MAX {
        if f >= 32 { Pow2Monotone(32, f); }
      } else {
        if f < 32 { Pow2Monotone(f + 1, 32); }
      }
    }
  }

  /** The rounded size stays in the row of the size or reaches the next one. */
  lemma RoundedRow(size: nat)
    requires size >= SMALL_BLOCK_SIZE
    ensures Fls(size) >= 8
    ensures var f, x := Fls(size), Rounded(size);
            x >= size && x == size + Pow2(f - 5) - 1 && Fls(x) == if x < Pow2(f + 1) then f else f + 1
  {
    RowIsLarge(size);
    var f := Fls(size);
    Pow2At5(f - 5);
    var x := Rounded(size);
    if x < Pow2(f + 1) {
      FlsUnique(x, f);
    } else {
      assert Pow2(f + 2) == 2 * Pow2(f + 1);
      FlsUnique(x, f + 1);
    }
  }

  /** The row and the range of the class of a large size. */
  lemma LargeRange(x: nat, f: nat)
    requires x >= SMALL_BLOCK_SIZE && Fls(x) == f
    ensures var c := MappingInsert(x);
            && f >= 8 && Proper(c) && c.fl == f - 7
            && ClassMin(c) <= x < ClassMin(c) + Pow2(f - 5)
  {
    ClassRange(x);
  }

  /** What mapping_search finds for a large size. */
  lemma SearchedRange(size: nat, f: nat)
    requires size >= SMALL_BLOCK_SIZE && f == Fls(size)
    ensures f >= 8 && Proper(MappingSearch(size))
    ensures ClassMin(MappingSearch(size)) <= size + Pow2(f - 5) - 1
    ensures size <= ClassMin(MappingSearch(size))
  {
    RoundedRow(size);
    if Rounded(size) < Pow2(f + 1) {
      LargeRange(Rounded(size), f);
    } else {
      LargeRange(Rounded(size), f + 1);
      RowBounds(MappingSearch(size));
    }
  }

  lemma SearchedSmall(size: nat)
    requires size < SMALL_BLOCK_SIZE
    ensures MappingSearch(size) == Class(0, size / 8)
    ensures Proper(Class(0, size / 8)) && ClassMin(Class(0, size / 8)) == 8 * (size / 8)
  {
  }

  /**
   The searched class starts at or above the size. Small sizes must be multiples of the alignment, as adjusted
   sizes are.
  */
  lemma SearchedClassMin(size: nat)
    requires size % 8 == 0 || size >= SMALL_BLOCK_SIZE
    ensures Proper(MappingSearch(size)) && size <= ClassMin(MappingSearch(size))
  {
    if size >= SMALL_BLOCK_SIZE {
      SearchedRange(size, Fls(size));
    } else {
      SearchedSmall(size);
    }
  }

  /** Any size whose class is at or above the searched class is large enough. */
  lemma SearchIsSound(size: nat, s: nat)
    requires size % 8 == 0 || size >= SMALL_BLOCK_SIZE
    requires Below(MappingSearch(size), MappingInsert(s))
    ensures s >= size
  {
    var c, d := MappingSearch(size), MappingInsert(s);
    ClassRange(s);
    SearchedClassMin(size);
    if c != d {
      ClassesInOrder(d, c);
    }
  }

  lemma RoundedMonotone(a: nat, b: nat)
    requires SMALL_BLOCK_SIZE <= a <= b
    ensures Rounded(a) <= Rounded(b)
  {
    RowIsLarge(a);
    RowIsLarge(b);
    if Fls(a) > Fls(b) {
      Pow2Monotone(Fls(b), Fls(a) - 1);
    }
    Pow2Monotone(Fls(a) - 5, Fls(b) - 5);
  }

  /** The search for a larger size starts at the same list or at a later one. */
  lemma SearchMonotone(a: nat, b: nat)
    requires a <= b
    ensures Below(MappingSearch(a), MappingSearch(b))
  {
    if a >= SMALL_BLOCK_SIZE {
      RoundedMonotone(a, b);
      MappingMonotone(Rounded(a), Rounded(b));
    } else if b >= SMALL_BLOCK_SIZE {
      RowIsLarge(b);
      MappingMonotone(a, Rounded(b));
    } else {
      MappingMonotone(a, b);
    }
  }

  /** A class that ends at or below the rounded size starts below the size. */
  lemma BelowRounded(size: nat, c: Class, f: nat)
    requires Proper(c)
    requires f >= 8 && Pow2(f) <= size && ClassMin(c) + Width(c.fl) <= size + Pow2(f - 5) - 1
    ensures ClassMin(c) < size
  {
    if c.fl + 7 >= f {
      Pow2Monotone(f - 5, c.fl + 2);
    } else {
      Pow2At8();
      if c.fl >= 1 {
        RowBounds(c);
      }
      Pow2Monotone(c.fl + 8, f);
    }
  }

  lemma TightLarge(size: nat, c: Class)
    requires Proper(c) && !Below(MappingSearch(size), c) && size >= SMALL_BLOCK_SIZE
    ensures ClassMin(c) < size
  {
    SearchedRange(size, Fls(size));
    ClassesInOrder(MappingSearch(size), c);
    BelowRounded(size, c, Fls(size));
  }

  lemma TightSmall(size: nat, c: Class)
    requires Proper(c) && !Below(MappingSearch(size), c) && size < SMALL_BLOCK_SIZE
    ensures ClassMin(c) < size
  {
    SearchedSmall(size);
    ClassesInOrder(MappingSearch(size), c);
  }

  /**
   The searched class is the first that is large enough throughout: any class below it has sizes that are too
   small.
  */
  lemma SearchIsTight(size: nat, c: Class)
    requires Proper(c) && !Below(MappingSearch(size), c)
    ensures ClassMin(c) < size
  {
    if size >= SMALL_BLOCK_SIZE {
      TightLarge(size, c);
    } else {
      TightSmall(size, c);
    }
  }
}
