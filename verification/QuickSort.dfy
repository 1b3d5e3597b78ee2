/** The three-way quicksort of kernel/libc/qsort.c, in place, for any comparator that is a total preorder. */
module QuickSort {
  import opened Permutation

  /** exch: swaps two elements of `size` bytes that are the same or do not overlap. */
  method Exchange(base: array<int>, size: nat, x: nat, y: nat)
    requires x + size <= base.Length && y + size <= base.Length && (x == y || x + size <= y || y + size <= x)
    modifies base
    ensures base[x..x + size] == old(base[y..y + size]) && base[y..y + size] == old(base[x..x + size])
    ensures forall k | 0 <= k < base.Length && !(x <= k < x + size) && !(y <= k < y + size) :: base[k] == old(base[k])
  {
    var n := 0;
    while n < size
      invariant 0 <= n <= size
      invariant forall k | x <= k < x + n :: base[k] == old(base[y + (k - x)])
      invariant forall k | y <= k < y + n :: base[k] == old(base[x + (k - y)])
      invariant forall k | 0 <= k < base.Length && !(x <= k < x + n) && !(y <= k < y + n) :: base[k] == old(base[k])
    {
      var z := base[x + n];
      base[x + n] := base[y + n];
      base[y + n] := z;
      n := n + 1;
    }
  }

  // ---------------------------------------------------------------- comparators

  /** What the caller's comparison function has to be. */
  ghost predicate TotalPreorder<T(!new)>(cmp: (T, T) -> int) {
    && (forall a, b :: cmp(a, b) < 0 <==> cmp(b, a) > 0)
    && (forall a, b, c {:trigger Chain(cmp, a, b, c)} :: Chain(cmp, a, b, c))
  }

  predicate Chain<T>(cmp: (T, T) -> int, a: T, b: T, c: T) {
    cmp(a, b) <= 0 && cmp(b, c) <= 0 ==> cmp(a, c) <= 0
  }

  ghost predicate Sorted<T>(cmp: (T, T) -> int, s: seq<T>, l: int, r: int)
    requires 0 <= l && r <= |s|
  {
    forall x, y | l <= x < y < r :: cmp(s[x], s[y]) <= 0
  }

  predicate Below<T>(cmp: (T, T) -> int, s: seq<T>, v: T, l: int, r: int)
    requires 0 <= l && r <= |s|
  {
    forall x | l <= x < r :: cmp(s[x], v) < 0
  }

  predicate Above<T>(cmp: (T, T) -> int, s: seq<T>, v: T, l: int, r: int)
    requires 0 <= l && r <= |s|
  {
    forall x | l <= x < r :: cmp(v, s[x]) < 0
  }

  predicate Equal<T>(cmp: (T, T) -> int, s: seq<T>, v: T, l: int, r: int)
    requires 0 <= l && r <= |s|
  {
    forall x | l <= x < r :: cmp(s[x], v) == 0
  }

  predicate AtMost<T>(cmp: (T, T) -> int, s: seq<T>, v: T, l: int, r: int)
    requires 0 <= l && r <= |s|
  {
    forall x | l <= x < r :: cmp(s[x], v) <= 0
  }

  predicate AtLeast<T>(cmp: (T, T) -> int, s: seq<T>, v: T, l: int, r: int)
    requires 0 <= l && r <= |s|
  {
    forall x | l <= x < r :: cmp(v, s[x]) <= 0
  }

  // ---------------------------------------------------------------- rearrangements

  /** t is s with the elements from l up to r rearranged. */
  ghost predicate Rearranged<T>(s: seq<T>, t: seq<T>, l: int, r: int) {
    && |s| == |t| && 0 <= l <= r <= |s|
    && s[..l] == t[..l] && s[r..] == t[r..] && multiset(s[l..r]) == multiset(t[l..r])
  }

  lemma SwapRearranges<T>(s: seq<T>, i: int, j: int, l: int, r: int)
    requires 0 <= l <= i < r <= |s| && l <= j < r
    ensures Rearranged(s, Swap(s, i, j), l, r)
  {
    var t := Swap(s, i, j);
    assert t[l..r] == s[l..r][i - l := s[j]][j - l := s[i]];
    var m := s[l..r];
    assert multiset(m[i - l := m[j - l]]) == multiset(m) - multiset{m[i - l]} + multiset{m[j - l]};
  }

  lemma RearrangedTwice<T>(s: seq<T>, t: seq<T>, u: seq<T>, l: int, r: int, l2: int, r2: int)
    requires Rearranged(s, t, l, r) && Rearranged(t, u, l2, r2) && l <= l2 && r2 <= r
    ensures Rearranged(s, u, l, r)
  {
    RearrangedWider(t, u, l2, r2, l, r);
  }

  lemma RearrangedWider<T>(s: seq<T>, t: seq<T>, l: int, r: int, l1: int, r1: int)
    requires Rearranged(s, t, l, r) && 0 <= l1 <= l && r <= r1 <= |s|
    ensures Rearranged(s, t, l1, r1)
  {
    assert s[l1..r1] == s[..l][l1..] + s[l..r] + s[r..][..r1 - r];
    assert t[l1..r1] == t[..l][l1..] + t[l..r] + t[r..][..r1 - r];
    assert s[..l1] == s[..l][..l1] && t[..l1] == t[..l][..l1];
    assert s[r1..] == s[r..][r1 - r..] && t[r1..] == t[r..][r1 - r..];
  }

  /** Every element of the rearranged part was there before. */
  lemma RearrangedFrom<T>(s: seq<T>, t: seq<T>, l: int, r: int, x: int) returns (y: int)
    requires Rearranged(s, t, l, r) && l <= x < r
    ensures l <= y < r && s[y] == t[x]
  {
    assert t[l..r][x - l] == t[x];
    assert t[x] in multiset(t[l..r]);
    assert t[x] in s[l..r];
    var k :| 0 <= k < r - l && s[l..r][k] == t[x];
    y := l + k;
  }

  lemma RearrangedOutside<T>(s: seq<T>, t: seq<T>, l: int, r: int, x: int)
    requires Rearranged(s, t, l, r) && 0 <= x < |s| && (x < l || r <= x)
    ensures s[x] == t[x]
  {
    if x < l {
      assert s[..l][x] == t[..l][x];
    } else {
      assert s[r..][x - r] == t[r..][x - r];
    }
  }

  // ---------------------------------------------------------------- partitioning

  /** while (++i != r && compar(a[i], v) < 0) */
  method ScanUp<T(!new)>(a: array<T>, cmp: (T, T) -> int, v: T, from: int, r: int) returns (i: int)
    requires -1 <= from < r < a.Length
    ensures from < i <= r && Below(cmp, a[..], v, from + 1, i) && (i == r || cmp(a[i], v) >= 0)
  {
    i := from + 1;
    while i != r && cmp(a[i], v) < 0
      invariant from < i <= r && Below(cmp, a[..], v, from + 1, i)
    {
      i := i + 1;
    }
  }

  /** while (compar(v, a[--j]) < 0) if (j == l) break */
  method ScanDown<T(!new)>(a: array<T>, cmp: (T, T) -> int, v: T, l: int, from: int) returns (j: int)
    requires 0 <= l < from <= a.Length
    ensures l <= j < from && Above(cmp, a[..], v, j + 1, from) && (cmp(v, a[j]) < 0 ==> j == l)
  {
    j := from - 1;
    while cmp(v, a[j]) < 0
      invariant l <= j < from && Above(cmp, a[..], v, j + 1, from)
      decreases j
    {
      if j == l {
        break;
      }
      j := j - 1;
    }
  }

  /** Equal keys at both ends, smaller ones next to the left, larger ones next to the right. */
  ghost predicate Parted<T>(cmp: (T, T) -> int, s: seq<T>, v: T, l: int, r: int, p: int, i: int, j: int, q: int)
    requires 0 <= l <= p + 1 <= i + 1 && i < |s| && 0 <= j <= q <= r < |s|
  {
    && Equal(cmp, s, v, l, p + 1) && Below(cmp, s, v, p + 1, i + 1)
    && Above(cmp, s, v, j, q) && Equal(cmp, s, v, q, r) && s[r] == v
  }

  lemma SwapInward<T(!new)>(cmp: (T, T) -> int, s: seq<T>, v: T, l: int, r: int, p: int, i0: int, i: int, j: int,
                     j0: int, q: int)
    requires TotalPreorder(cmp) && 0 <= l <= p + 1 <= i0 + 1 <= i && i < j < j0 <= q <= r < |s|
    requires Parted(cmp, s, v, l, r, p, i0, j0, q)
    requires Below(cmp, s, v, i0 + 1, i) && Above(cmp, s, v, j + 1, j0) && cmp(s[i], v) >= 0 && cmp(v, s[j]) >= 0
    ensures var t := Swap(s, i, j);
            && Equal(cmp, t, v, l, p + 1) && Below(cmp, t, v, p + 1, i) && cmp(t[i], v) <= 0
            && cmp(v, t[j]) <= 0 && Above(cmp, t, v, j + 1, q) && Equal(cmp, t, v, q, r) && t[r] == v
  {
  }

  /** An element equal to v moves to the block of equal ones on the left, or else belongs to the smaller ones. */
  lemma MoveLeft<T(!new)>(cmp: (T, T) -> int, s: seq<T>, v: T, l: int, p: int, i: int)
    requires TotalPreorder(cmp) && 0 <= l <= p + 1 <= i < |s| && Equal(cmp, s, v, l, p + 1)
             && Below(cmp, s, v, p + 1, i) && cmp(s[i], v) <= 0
    ensures cmp(s[i], v) == 0 ==>
            Equal(cmp, Swap(s, p + 1, i), v, l, p + 2)
            && Below(cmp, Swap(s, p + 1, i), v, p + 2, i + 1)
    ensures cmp(s[i], v) != 0 ==> Below(cmp, s, v, p + 1, i + 1)
  {
  }

  lemma MoveRight<T(!new)>(cmp: (T, T) -> int, s: seq<T>, v: T, r: int, q: int, j: int)
    requires TotalPreorder(cmp) && 0 <= j < q <= r <= |s| && Equal(cmp, s, v, q, r) && Above(cmp, s, v, j + 1, q)
             && cmp(v, s[j]) <= 0
    ensures cmp(v, s[j]) == 0 ==>
            Equal(cmp, Swap(s, j, q - 1), v, q - 1, r)
            && Above(cmp, Swap(s, j, q - 1), v, j, q - 1)
    ensures cmp(v, s[j]) != 0 ==> Above(cmp, s, v, j, q)
  {
  }

  /** exch, on elements. */
  method Exch<T>(a: array<T>, i: int, j: int, ghost l: int, ghost r: int)
    requires 0 <= l <= i < r <= a.Length && l <= j < r
    modifies a
    ensures a[..] == Swap(old(a[..]), i, j) && Rearranged(old(a[..]), a[..], l, r)
  {
    SwapRearranges(a[..], i, j, l, r);
    a[i], a[j] := a[j], a[i];
  }

  /** if (compar(a[i], v) == 0) exch(++p, i) */
  method CollectLeft<T(!new)>(a: array<T>, cmp: (T, T) -> int, v: T, ghost l: int, ghost r: int, p: int, i: int)
    returns (p': int)
    requires 0 <= l <= p + 1 <= i < r <= a.Length
    modifies a
    ensures p' == (if cmp(old(a[i]), v) == 0 then p + 1 else p)
    ensures a[..] == (if p' == p then old(a[..]) else Swap(old(a[..]), p', i)) && Rearranged(old(a[..]), a[..], l, r)
  {
    p' := p;
    if cmp(a[i], v) == 0 {
      p' := p + 1;
      Exch(a, p', i, l, r);
    }
  }

  /** if (compar(v, a[j]) == 0) exch(j, --q) */
  method CollectRight<T(!new)>(a: array<T>, cmp: (T, T) -> int, v: T, ghost l: int, ghost r: int, j: int, q: int)
    returns (q': int)
    requires 0 <= l <= j < q <= r <= a.Length
    modifies a
    ensures q' == (if cmp(v, old(a[j])) == 0 then q - 1 else q)
    ensures a[..] == (if q' == q then old(a[..]) else Swap(old(a[..]), j, q')) && Rearranged(old(a[..]), a[..], l, r)
  {
    q' := q;
    if cmp(v, a[j]) == 0 {
      q' := q - 1;
      Exch(a, j, q', l, r);
    }
  }

  /** After the exchanges of one round the array is parted again. */
  lemma Collected<T(!new)>(cmp: (T, T) -> int, s: seq<T>, t: seq<T>, u: seq<T>, v: T, l: int, r: int, p: int, i: int,
                    j: int, q: int, p': int, q': int)
    requires TotalPreorder(cmp) && 0 <= l <= p + 1 <= i < j < q <= r < |s|
    requires Equal(cmp, s, v, l, p + 1) && Below(cmp, s, v, p + 1, i) && cmp(s[i], v) <= 0
    requires cmp(v, s[j]) <= 0 && Above(cmp, s, v, j + 1, q) && Equal(cmp, s, v, q, r) && s[r] == v
    requires p' == (if cmp(s[i], v) == 0 then p + 1 else p) && t == (if p' == p then s else Swap(s, p', i))
    requires q' == (if cmp(v, t[j]) == 0 then q - 1 else q) && u == (if q' == q then t else Swap(t, j, q'))
    ensures l <= p' + 1 <= i + 1 && j <= q' <= r && Parted(cmp, u, v, l, r, p', i, j, q')
  {
    MoveLeft(cmp, s, v, l, p, i);
    assert forall x | i < x < |s| :: t[x] == s[x];
    assert Equal(cmp, t, v, l, p' + 1) && Below(cmp, t, v, p' + 1, i + 1);
    MoveRight(cmp, t, v, r, q, j);
    assert forall x | 0 <= x <= i :: u[x] == t[x];
  }

  /** What the partitioning loop leaves: i is where the pivot belongs, p and q where the equal keys end. */
  ghost predicate Divided<T>(cmp: (T, T) -> int, s: seq<T>, v: T, l: int, r: int, p: int, i: int, q: int) {
    && 0 <= l <= p + 1 <= i <= q <= r < |s|
    && Equal(cmp, s, v, l, p + 1) && Below(cmp, s, v, p + 1, i)
    && cmp(v, s[i]) <= 0 && Above(cmp, s, v, i + 1, q) && Equal(cmp, s, v, q, r) && s[r] == v
  }

  /** The scans have met: at most one element is between them, and it is equal to the pivot. */
  lemma Crossed<T(!new)>(cmp: (T, T) -> int, s: seq<T>, v: T, l: int, r: int, p: int, i0: int, i: int, j: int,
                  j0: int, q: int)
    requires TotalPreorder(cmp) && 0 <= l <= p + 1 <= i0 + 1 <= i <= r < |s| && l <= j < j0 <= q <= r && j <= i
             && i0 < j0
    requires Parted(cmp, s, v, l, r, p, i0, j0, q)
    requires Below(cmp, s, v, i0 + 1, i) && (i == r || cmp(s[i], v) >= 0)
    requires Above(cmp, s, v, j + 1, j0) && (cmp(v, s[j]) < 0 ==> j == l)
    ensures Divided(cmp, s, v, l, r, p, i, q)
  {
    if q < r {
      assert cmp(s[q], v) == 0;
    }
  }

  /** The loop that partitions a[l..r] around its last element. */
  method Partition<T(!new)>(a: array<T>, cmp: (T, T) -> int, l: int, r: int) returns (p: int, i: int, q: int)
    requires TotalPreorder(cmp) && 0 <= l < r < a.Length
    modifies a
    ensures Rearranged(old(a[..]), a[..], l, r) && Divided(cmp, a[..], old(a[r]), l, r, p, i, q)
  {
    var v := a[r];
    ghost var was := a[..];
    i, p, q := l - 1, l - 1, r;
    var j := r;
    while true
      invariant l <= p + 1 <= i + 1 && i < j <= q <= r && l < j
      invariant Rearranged(was, a[..], l, r) && Parted(cmp, a[..], v, l, r, p, i, j, q)
      decreases j - i
    {
      ghost var i0, j0, s := i, j, a[..];
      i := ScanUp(a, cmp, v, i, r);
      j := ScanDown(a, cmp, v, l, j);
      if i >= j {
        Crossed(cmp, s, v, l, r, p, i0, i, j, j0, q);
        break;
      }
      SwapInward(cmp, s, v, l, r, p, i0, i, j, j0, q);
      Exch(a, i, j, l, r);
      ghost var t := a[..];
      ghost var p0 := p;
      p := CollectLeft(a, cmp, v, l, r, p, i);
      ghost var u := a[..];
      ghost var q0 := q;
      q := CollectRight(a, cmp, v, l, r, j, q);
      Collected(cmp, t, u, a[..], v, l, r, p0, i, j, q0, p, q);
      RearrangedTwice(was, s, t, l, r, l, r);
      RearrangedTwice(was, t, u, l, r, l, r);
      RearrangedTwice(was, u, a[..], l, r, l, r);
    }
  }

  // ---------------------------------------------------------------- gathering the equal keys

  /** Keys equal to v fill a[..k] and a(j..i), and nothing larger than v is on the left of i. */
  ghost predicate LeftGathering<T>(cmp: (T, T) -> int, s: seq<T>, v: T, l: int, p: int, i: int, k: int, j: int) {
    && 0 <= l <= k && l - 1 <= j < i <= |s| && p < i && k - l == i - 1 - j && AtMost(cmp, s, v, l, i)
    && Equal(cmp, s, v, j + 1, i)
    && (forall x | k <= x <= p && x <= j :: cmp(s[x], v) == 0)
    && (forall x | l <= x < k && i - 1 - (x - l) <= p :: cmp(s[x], v) == 0)
  }

  lemma LeftStep<T(!new)>(cmp: (T, T) -> int, s: seq<T>, v: T, l: int, p: int, i: int, k: int, j: int)
    requires LeftGathering(cmp, s, v, l, p, i, k, j) && k < p
    ensures l <= j && LeftGathering(cmp, Swap(s, k, j), v, l, p, i, k + 1, j - 1)
  {
    assert cmp(s[k], v) == 0;
    assert j <= p && j < k ==> cmp(s[j], v) == 0 by {
      if j <= p && j < k {
        assert i - 1 - (j - l) == k;
      }
    }
  }

  /**
   The first exchange loop moves the equal keys on the left, all but one, next to the pivot. The
   two indices may meet and pass each other; then the exchanges undo themselves.
  */
  method GatherLeft<T(!new)>(a: array<T>, cmp: (T, T) -> int, v: T, l: int, p: int, i: int) returns (j: int)
    requires 0 <= l <= p + 1 <= i <= a.Length && Equal(cmp, a[..], v, l, p + 1) && AtMost(cmp, a[..], v, l, i)
    modifies a
    ensures l - 1 <= j < i && Equal(cmp, a[..], v, j + 1, i) && AtMost(cmp, a[..], v, l, i)
    ensures Rearranged(old(a[..]), a[..], l, i)
  {
    j := i - 1;
    var k := l;
    while k < p
      invariant LeftGathering(cmp, a[..], v, l, p, i, k, j) && Rearranged(old(a[..]), a[..], l, i)
      decreases p - k
    {
      ghost var s := a[..];
      LeftStep(cmp, s, v, l, p, i, k, j);
      Exch(a, k, j, l, i);
      RearrangedTwice(old(a[..]), s, a[..], l, i, l, i);
      k := k + 1;
      j := j - 1;
    }
  }

  ghost predicate RightGathering<T>(cmp: (T, T) -> int, s: seq<T>, v: T, r: int, q: int, i0: int, k: int, i: int) {
    && 0 <= i0 < i <= r < |s| && i0 <= q && i0 <= k < r && i - i0 - 1 == r - 1 - k && AtLeast(cmp, s, v, i0 + 1, r + 1)
    && Equal(cmp, s, v, i0 + 1, i)
    && (forall x | q <= x <= k && i <= x :: cmp(s[x], v) == 0)
    && (forall x | k < x < r && i0 + 1 + (r - 1 - x) >= q :: cmp(s[x], v) == 0)
  }

  lemma RightStep<T(!new)>(cmp: (T, T) -> int, s: seq<T>, v: T, r: int, q: int, i0: int, k: int, i: int)
    requires TotalPreorder(cmp) && RightGathering(cmp, s, v, r, q, i0, k, i) && q < k
    ensures i < r && RightGathering(cmp, Swap(s, i, k), v, r, q, i0, k - 1, i + 1)
  {
    assert cmp(s[k], v) == 0;
    assert i >= q && k < i ==> cmp(s[i], v) == 0 by {
      if i >= q && k < i {
        assert i0 + 1 + (r - 1 - i) == k;
      }
    }
  }

  /** The second exchange loop, on the other side of the pivot. */
  method GatherRight<T(!new)>(a: array<T>, cmp: (T, T) -> int, v: T, r: int, q: int, i0: int) returns (i: int)
    requires TotalPreorder(cmp) && 0 <= i0 <= q <= r < a.Length && Equal(cmp, a[..], v, q, r)
             && AtLeast(cmp, a[..], v, i0 + 1, r + 1)
    modifies a
    ensures i0 < i <= r + 1 && Equal(cmp, a[..], v, i0 + 1, i) && AtLeast(cmp, a[..], v, i0 + 1, r + 1)
    ensures i0 < r ==> Rearranged(old(a[..]), a[..], i0 + 1, r)
    ensures i0 == r ==> a[..] == old(a[..])
  {
    i := i0 + 1;
    var k := r - 1;
    if i0 == r {
      return;
    }
    while k > q
      invariant RightGathering(cmp, a[..], v, r, q, i0, k, i) && Rearranged(old(a[..]), a[..], i0 + 1, r)
      decreases k - q
    {
      ghost var s := a[..];
      RightStep(cmp, s, v, r, q, i0, k, i);
      Exch(a, i, k, i0 + 1, r);
      RearrangedTwice(old(a[..]), s, a[..], i0 + 1, r, i0 + 1, r);
      k := k - 1;
      i := i + 1;
    }
  }

  // ---------------------------------------------------------------- sorting

  /** Between the recursive calls: the two ranges that remain to be sorted, and what lies between them. */
  ghost predicate Divided2<T>(cmp: (T, T) -> int, s: seq<T>, v: T, l: int, r: int, j: int, i: int) {
    && 0 <= l <= j + 1 <= i <= r + 1 <= |s|
    && AtMost(cmp, s, v, l, j + 1) && Equal(cmp, s, v, j + 1, i) && AtLeast(cmp, s, v, i, r + 1)
  }

  /** Rearranging one of the two ranges keeps them apart. */
  lemma RearrangedPart<T(!new)>(cmp: (T, T) -> int, s: seq<T>, t: seq<T>, v: T, l: int, r: int, j: int, i: int,
                         from: int, to: int)
    requires Divided2(cmp, s, v, l, r, j, i) && Rearranged(s, t, from, to)
    requires (from == l && to == j + 1) || (from == i && to == r + 1)
    ensures Divided2(cmp, t, v, l, r, j, i)
  {
    forall x | l <= x < r + 1
      ensures x < j + 1 ==> cmp(t[x], v) <= 0
      ensures j + 1 <= x < i ==> cmp(t[x], v) == 0
      ensures i <= x ==> cmp(v, t[x]) <= 0
    {
      if from <= x < to {
        var y := RearrangedFrom(s, t, from, to, x);
      } else {
        RearrangedOutside(s, t, from, to, x);
      }
    }
  }

  lemma SortedStays<T(!new)>(cmp: (T, T) -> int, s: seq<T>, t: seq<T>, l: int, m: int, from: int, to: int)
    requires 0 <= l <= m <= from && Rearranged(s, t, from, to) && m <= |s| && Sorted(cmp, s, l, m)
    ensures Sorted(cmp, t, l, m)
  {
    forall x, y | l <= x < y < m
      ensures cmp(t[x], t[y]) <= 0
    {
      RearrangedOutside(s, t, from, to, x);
      RearrangedOutside(s, t, from, to, y);
    }
  }

  lemma AllSorted<T(!new)>(cmp: (T, T) -> int, s: seq<T>, v: T, l: int, r: int, j: int, i: int)
    requires TotalPreorder(cmp) && Divided2(cmp, s, v, l, r, j, i) && Sorted(cmp, s, l, j + 1)
             && Sorted(cmp, s, i, r + 1)
    ensures Sorted(cmp, s, l, r + 1)
  {
    forall x, y | l <= x < y < r + 1
      ensures cmp(s[x], s[y]) <= 0
    {
      assert Chain(cmp, s[x], v, s[y]);
      assert x < i ==> cmp(s[x], v) <= 0;
      assert y > j ==> cmp(v, s[y]) <= 0;
    }
  }

  /** What the pivot's exchange makes of the divided array. */
  lemma PivotPlaced<T(!new)>(cmp: (T, T) -> int, s: seq<T>, v: T, l: int, r: int, p: int, i: int, q: int)
    requires TotalPreorder(cmp) && Divided(cmp, s, v, l, r, p, i, q)
    ensures var t := Swap(s, i, r);
            && t[i] == v && AtMost(cmp, t, v, l, i) && AtLeast(cmp, t, v, i + 1, r + 1)
            && Equal(cmp, t, v, l, p + 1) && Equal(cmp, t, v, q, r)
  {
  }

  lemma GatheredLeft<T(!new)>(cmp: (T, T) -> int, s: seq<T>, t: seq<T>, v: T, l: int, r: int, m: int, q: int)
    requires 0 <= l <= m <= q <= r < |s| && Rearranged(s, t, l, m) && s[m] == v
    requires AtLeast(cmp, s, v, m + 1, r + 1) && Equal(cmp, s, v, q, r)
    ensures t[m] == v && AtLeast(cmp, t, v, m + 1, r + 1) && Equal(cmp, t, v, q, r)
  {
    forall x | m <= x <= r
      ensures s[x] == t[x]
    {
      RearrangedOutside(s, t, l, m, x);
    }
  }

  lemma GatheredRight<T(!new)>(cmp: (T, T) -> int, s: seq<T>, t: seq<T>, v: T, l: int, r: int, m: int, j: int, i: int)
    requires TotalPreorder(cmp) && 0 <= l <= j + 1 <= m < i <= r + 1 && m <= r < |s|
    requires (m < r ==> Rearranged(s, t, m + 1, r)) && (m == r ==> t == s) && s[m] == v
    requires AtMost(cmp, s, v, l, m) && Equal(cmp, s, v, j + 1, m)
    requires |t| == |s| && Equal(cmp, t, v, m + 1, i) && AtLeast(cmp, t, v, m + 1, r + 1)
    ensures Divided2(cmp, t, v, l, r, j, i)
  {
    forall x | l <= x <= m
      ensures s[x] == t[x]
    {
      if m < r {
        RearrangedOutside(s, t, m + 1, r, x);
      }
    }
  }

  /** Partitioning, and putting the pivot where it belongs. */
  method PlacePivot<T(!new)>(a: array<T>, cmp: (T, T) -> int, l: int, r: int) returns (p: int, m: int, q: int)
    requires TotalPreorder(cmp) && 0 <= l < r < a.Length
    modifies a
    ensures l <= p + 1 <= m <= q <= r && Rearranged(old(a[..]), a[..], l, r + 1)
    ensures AtMost(cmp, a[..], a[m], l, m) && AtLeast(cmp, a[..], a[m], m + 1, r + 1)
    ensures Equal(cmp, a[..], a[m], l, p + 1) && Equal(cmp, a[..], a[m], q, r)
  {
    ghost var s0, v := a[..], a[r];
    p, m, q := Partition(a, cmp, l, r);
    ghost var s1 := a[..];
    PivotPlaced(cmp, s1, v, l, r, p, m, q);
    Exch(a, m, r, l, r + 1);
    RearrangedWider(s0, s1, l, r, l, r + 1);
    RearrangedTwice(s0, s1, a[..], l, r + 1, l, r + 1);
  }

  /** Everything that happens before the recursive calls. */
  method Divide<T(!new)>(a: array<T>, cmp: (T, T) -> int, l: int, r: int) returns (j: int, i: int, ghost v: T)
    requires TotalPreorder(cmp) && 0 <= l < r < a.Length
    modifies a
    ensures l <= j + 1 < i <= r + 1 && Divided2(cmp, a[..], v, l, r, j, i) && Rearranged(old(a[..]), a[..], l, r + 1)
  {
    ghost var s0 := a[..];
    var p, m, q := PlacePivot(a, cmp, l, r);
    v := a[m];
    ghost var s1 := a[..];
    j := GatherLeft(a, cmp, a[m], l, p, m);
    ghost var s2 := a[..];
    GatheredLeft(cmp, s1, s2, v, l, r, m, q);
    i := GatherRight(a, cmp, a[m], r, q, m);
    DivideSteps(cmp, s0, s1, s2, a[..], v, l, r, m, j, i);
  }

  lemma DivideSteps<T(!new)>(cmp: (T, T) -> int, s0: seq<T>, s1: seq<T>, s2: seq<T>, s3: seq<T>, v: T, l: int, r: int,
                      m: int, j: int, i: int)
    requires TotalPreorder(cmp) && 0 <= l <= j + 1 <= m < i <= r + 1 && m <= r < |s0| == |s1| == |s2| == |s3|
    requires Rearranged(s0, s1, l, r + 1) && Rearranged(s1, s2, l, m)
    requires (m < r ==> Rearranged(s2, s3, m + 1, r)) && (m == r ==> s3 == s2) && s2[m] == v
    requires AtMost(cmp, s2, v, l, m) && Equal(cmp, s2, v, j + 1, m)
    requires Equal(cmp, s3, v, m + 1, i) && AtLeast(cmp, s3, v, m + 1, r + 1)
    ensures Divided2(cmp, s3, v, l, r, j, i) && Rearranged(s0, s3, l, r + 1)
  {
    GatheredRight(cmp, s2, s3, v, l, r, m, j, i);
    RearrangedTwice(s0, s1, s2, l, r + 1, l, m);
    if m < r {
      RearrangedTwice(s0, s2, s3, l, r + 1, m + 1, r);
    }
  }

  lemma QuickSteps<T(!new)>(cmp: (T, T) -> int, s0: seq<T>, s1: seq<T>, s2: seq<T>, s3: seq<T>, v: T, l: int, r: int,
                     j: int, i: int)
    requires TotalPreorder(cmp) && Divided2(cmp, s1, v, l, r, j, i) && j < i
    requires Rearranged(s0, s1, l, r + 1) && Rearranged(s1, s2, l, j + 1) && Rearranged(s2, s3, i, r + 1)
    requires Sorted(cmp, s2, l, j + 1) && Sorted(cmp, s3, i, r + 1)
    ensures Sorted(cmp, s3, l, r + 1) && Rearranged(s0, s3, l, r + 1)
  {
    RearrangedPart(cmp, s1, s2, v, l, r, j, i, l, j + 1);
    RearrangedPart(cmp, s2, s3, v, l, r, j, i, i, r + 1);
    SortedStays(cmp, s2, s3, l, j + 1, i, r + 1);
    AllSorted(cmp, s3, v, l, r, j, i);
    RearrangedTwice(s0, s1, s2, l, r + 1, l, j + 1);
    RearrangedTwice(s0, s2, s3, l, r + 1, i, r + 1);
  }

  /** quicksort: sorts a[l..r], wherever the equal keys are. */
  method Quicksort<T(!new)>(a: array<T>, cmp: (T, T) -> int, l: int, r: int)
    requires TotalPreorder(cmp) && 0 <= l <= r + 1 <= a.Length
    modifies a
    ensures Sorted(cmp, a[..], l, r + 1) && Rearranged(old(a[..]), a[..], l, r + 1)
    decreases r - l + 1
  {
    if r <= l {
      return;
    }
    ghost var s0 := a[..];
    var j, i;
    ghost var v;
    j, i, v := Divide(a, cmp, l, r);
    ghost var s1 := a[..];
    Quicksort(a, cmp, l, j);
    ghost var s2 := a[..];
    Quicksort(a, cmp, i, r);
    QuickSteps(cmp, s0, s1, s2, a[..], v, l, r, j, i);
  }

  const LIMIT := 0x7fff_ffff_ffff_ffff     // ((size_t) -1) >> 1

  /** qsort: sorts the whole array; of one that claims to be impossibly large it leaves everything as it is. */
  method Sort<T(!new)>(a: array<T>, size: nat, cmp: (T, T) -> int)
    requires TotalPreorder(cmp)
    modifies a
    ensures a.Length < LIMIT && size < LIMIT ==> Sorted(cmp, a[..], 0, a.Length)
    ensures a.Length >= LIMIT || size >= LIMIT ==> a[..] == old(a[..])
    ensures multiset(a[..]) == multiset(old(a[..]))
  {
    if a.Length >= LIMIT || size >= LIMIT {
      return;
    }
    if a.Length > 1 {
      Quicksort(a, cmp, 0, a.Length - 1);
      assert old(a[..])[0..a.Length] == old(a[..]) && a[..][0..a.Length] == a[..];
    }
  }
}
