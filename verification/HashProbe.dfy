/**
 The order in which the hash table of kernel/util/stb_ds.h looks at its slots. They come in buckets of
 eight; the number of buckets is a power of two, and the step from bucket to bucket grows by one bucket
 each time.
*/
module HashProbe {
  import opened Multiples
  import opened Permutation

  predicate Power(n: nat) {
    n == 1 || (n > 1 && n % 2 == 0 && Power(n / 2))
  }

  /** How many buckets k steps have passed. */
  function Triangle(k: nat): nat {
    if k == 0 then 0 else Triangle(k - 1) + k
  }

  /** The bucket after k steps. */
  function Bucket(start: nat, buckets: nat, k: nat): nat
    requires buckets > 0
  {
    (start + Triangle(k)) % buckets
  }

  lemma NextBucket(start: nat, buckets: nat, k: nat)
    requires buckets > 0
    ensures Bucket(start, buckets, k + 1) == (Bucket(start, buckets, k) + k + 1) % buckets
  {
    var x := start + Triangle(k);
    assert start + Triangle(k + 1) == x + (k + 1);
    ReduceFirst(x, k + 1, buckets);
  }

  // ---------------------------------------------------------------- all buckets are visited

  lemma {:induction false} OddFactor(n: nat, c: nat, x: nat)
    requires Power(n) && c % 2 == 1 && Divides(n, c * x)
    ensures Divides(n, x)
    decreases n
  {
    if n == 1 {
      AllDividedByOne(x);
    } else {
      var k := Cofactor(n, c * x);
      var h := n / 2;
      Halve(k, h, c, x);
      DividesMultiple(h, k);
      OddFactor(h, c, x / 2);
      Twice(h, x / 2);
    }
  }

  lemma {:induction false} AllDividedByOne(x: nat)
    ensures Divides(1, x)
  {
    if x > 0 {
      AllDividedByOne(x - 1);
    }
  }

  lemma Halve(k: nat, h: nat, c: nat, x: nat)
    requires k * (2 * h) == c * x && c % 2 == 1
    ensures x % 2 == 0 && c * (x / 2) == k * h
  {
    var b, y := c / 2, x / 2;
    Distributes(b, b, x);
    Distributes(2 * b, 1, x);
    assert x == 2 * (k * h - b * x);
    Distributes(y, y, c);
    Distributes(h, h, k);
  }

  lemma {:induction false} Twice(h: nat, y: nat)
    requires h > 0 && Divides(h, y)
    ensures Divides(2 * h, 2 * y)
  {
    if y > 0 {
      Twice(h, y - h);
    }
  }

  lemma {:induction false} TrianglesApart(i: nat, j: nat)
    requires i <= j
    ensures Triangle(i) <= Triangle(j) && 2 * (Triangle(j) - Triangle(i)) == (j - i) * (i + j + 1)
    decreases j
  {
    if i < j {
      TrianglesApart(i, j - 1);
      assert (j - 1 - i) * (i + j) + 2 * j == (j - i) * (i + j + 1);
    }
  }

  lemma PowerTwice(n: nat)
    requires Power(n)
    ensures Power(2 * n)
  {
  }

  /** In as many steps as there are buckets, the search comes to no bucket twice. */
  lemma BucketsDiffer(start: nat, buckets: nat, i: nat, j: nat)
    requires Power(buckets) && i < j < buckets
    ensures Bucket(start, buckets, i) != Bucket(start, buckets, j)
  {
    TrianglesNotDivided(buckets, i, j);
    RemaindersDiffer(start + Triangle(i), start + Triangle(j), buckets);
  }

  lemma RemaindersDiffer(x: nat, y: nat, n: nat)
    requires n > 0 && x <= y && !Divides(n, y - x)
    ensures x % n != y % n
  {
    if x % n == y % n {
      SameRemainder(x, y, n);
      assert false;
    }
  }

  lemma TrianglesNotDivided(n: nat, i: nat, j: nat)
    requires Power(n) && i < j < n
    ensures Triangle(i) <= Triangle(j) && !Divides(n, Triangle(j) - Triangle(i))
  {
    var a, b := j - i, i + j + 1;
    OddSum(a, b, j);
    TrianglesApart(i, j);
    NotDivided(n, Triangle(j) - Triangle(i), a, b);
  }

  lemma OddSum(a: nat, b: nat, j: nat)
    requires a + b == 2 * j + 1
    ensures a % 2 != b % 2
  {
  }

  lemma NotDivided(n: nat, d: nat, a: nat, b: nat)
    requires Power(n) && 2 * d == a * b && 0 < a < n && 0 < b < 2 * n && a % 2 != b % 2
    ensures !Divides(n, d)
  {
    if Divides(n, d) {
      Twice(n, d);
      PowerTwice(n);
      FactorsTooSmall(2 * n, a, b);
    }
  }

  lemma FactorsTooSmall(n: nat, a: nat, b: nat)
    requires Power(n) && Divides(n, a * b) && 0 < a < n && 0 < b < n
    ensures a % 2 == b % 2
  {
    if a % 2 == 1 && b % 2 == 0 {
      OddFactor(n, a, b);
    } else if a % 2 == 0 && b % 2 == 1 {
      Commutes(a, b);
      OddFactor(n, b, a);
    }
  }

  lemma Commutes(a: nat, b: nat)
    ensures a * b == b * a
  {
  }

  lemma AllBuckets(start: nat, buckets: nat, b: nat) returns (k: nat)
    requires Power(buckets) && b < buckets
    ensures k < buckets && Bucket(start, buckets, k) == b
  {
    var order := seq(buckets, k requires 0 <= k => Bucket(start, buckets, k));
    forall i, j | 0 <= i < j < buckets
      ensures order[i] != order[j]
    {
      BucketsDiffer(start, buckets, i, j);
    }
    Pigeonhole(order, buckets);
    assert b in order;
    k :| 0 <= k < buckets && order[k] == b;
  }

  // ---------------------------------------------------------------- slots

  /**
   The v-th slot of a search that starts at the slot start: each bucket from there to its end, then from its
   beginning.
  */
  function Slot(start: nat, buckets: nat, v: nat): (s: nat)
    requires buckets > 0
    ensures s < 8 * buckets
  {
    8 * Bucket(start / 8, buckets, v / 8) + (start % 8 + v % 8) % 8
  }

  /** The v-th slot is in the bucket at offset i. */
  lemma SlotIs(start: nat, buckets: nat, k: nat, i: nat)
    requires buckets > 0 && i < 8
    ensures var o := start % 8;
            var v := if i >= o then 8 * k + i - o else 8 * k + 8 - o + i;
            Slot(start, buckets, v) == 8 * Bucket(start / 8, buckets, k) + i
  {
  }

  /** The slots in the order of a search that starts at the slot start. */
  function Path(start: nat, buckets: nat): (path: seq<nat>)
    requires buckets > 0
    ensures |path| == 8 * buckets && forall v | 0 <= v < |path| :: path[v] < 8 * buckets
  {
    seq(8 * buckets, v requires 0 <= v => Slot(start, buckets, v))
  }

  /** The search comes to every slot. */
  lemma AllSlots(start: nat, buckets: nat, s: nat) returns (v: nat)
    requires Power(buckets) && s < 8 * buckets
    ensures v < 8 * buckets && Path(start, buckets)[v] == s
  {
    var k := AllBuckets(start / 8, buckets, s / 8);
    var o, i := start % 8, s % 8;
    SlotIs(start, buckets, k, i);
    v := if i >= o then 8 * k + i - o else 8 * k + 8 - o + i;
  }

  /** The offset i of a bucket is visited in round k from offset o on. */
  predicate Visited(path: seq<nat>, k: nat, base: nat, o: nat, i: nat)
    requires i < 8 && o < 8 && 8 * k + 8 <= |path|
  {
    path[if i >= o then 8 * k + i - o else 8 * k + 8 - o + i] == base + i
  }

  /** Round k of a search goes through the bucket that begins at the slot base, from offset o on. */
  predicate Round(path: seq<nat>, k: nat, base: nat, o: nat) {
    8 * k + 8 <= |path| && o < 8 && forall i: nat | i < 8 :: Visited(path, k, base, o, i)
  }

  lemma PathRound(start: nat, buckets: nat, k: nat)
    requires k < buckets
    ensures Bucket(start / 8, buckets, k) < buckets
    ensures Round(Path(start, buckets), k, 8 * Bucket(start / 8, buckets, k), start % 8)
  {
    forall i: nat | i < 8
      ensures Visited(Path(start, buckets), k, 8 * Bucket(start / 8, buckets, k), start % 8, i)
    {
      SlotIs(start, buckets, k, i);
    }
  }

  /** What `pos += step; pos &= slot_count - 1` does, for the step of k + 1 buckets. */
  lemma NextPos(start: nat, buckets: nat, k: nat, pos: nat)
    requires buckets > 0 && pos == 8 * Bucket(start / 8, buckets, k) + start % 8
    ensures (pos + 8 * (k + 1)) % (8 * buckets) == 8 * Bucket(start / 8, buckets, k + 1) + start % 8
  {
    var b := Bucket(start / 8, buckets, k) + k + 1;
    NextBucket(start / 8, buckets, k);
    ScaledMod(b, start % 8, buckets);
  }

  lemma {:induction false} ScaledMod(b: nat, o: nat, n: nat)
    requires n > 0 && o < 8
    ensures (8 * b + o) % (8 * n) == 8 * (b % n) + o
    decreases b
  {
    if b < n {
      SmallRemainder(b, n);
      SmallRemainder(8 * b + o, 8 * n);
    } else {
      ScaledMod(b - n, o, n);
      AddMod(b - n, n);
      AddMod(8 * (b - n) + o, 8 * n);
    }
  }
}
