/**
 The hash table of kernel/util/stb_ds.h as two sequences: for every slot the hash and the index of the
 item there. hk holds the hash of every item of the element array.
*/
module HashTable {
  import opened HashProbe
  import opened Multiples

  const EMPTY := -1
  const DELETED := -2

  /** A slot is empty, a tombstone, or in use by an item with that hash. */
  predicate SlotOk(hash: nat, index: int, hk: seq<nat>) {
    || (hash == 0 && index == EMPTY)
    || (hash == 1 && index == DELETED)
    || (hash >= 2 && 0 <= index < |hk| && hk[index] == hash)
  }

  ghost predicate Once(ix: seq<int>) {
    forall s, t | 0 <= s < t < |ix| && ix[s] >= 0 :: ix[s] != ix[t]
  }

  /** The slots in the order of a search for the hash, which begins at `hash & (slot_count - 1)`. */
  function PathOf(hash: nat, buckets: nat): (path: seq<nat>)
    requires buckets > 0
    ensures |path| == 8 * buckets && forall v | 0 <= v < |path| :: path[v] < 8 * buckets
  {
    Path(hash % (8 * buckets), buckets)
  }

  /** The first v slots of a path are not empty. */
  ghost predicate NoneEmpty(hs: seq<nat>, path: seq<nat>, v: nat) {
    v <= |path| && forall u | 0 <= u < v :: path[u] < |hs| && hs[path[u]] != 0
  }

  /** A search comes to slot s without having met an empty one. */
  ghost predicate Reached(hs: seq<nat>, path: seq<nat>, s: nat) {
    exists v :: ReachedAt(hs, path, s, v)
  }

  ghost predicate ReachedAt(hs: seq<nat>, path: seq<nat>, s: nat, v: nat) {
    v < |path| && path[v] == s && NoneEmpty(hs, path, v)
  }

  /** Every item in the table has one slot, and a search for its hash reaches that. */
  ghost predicate Table(hs: seq<nat>, ix: seq<int>, hk: seq<nat>, buckets: nat) {
    && Power(buckets) && |hs| == |ix| == 8 * buckets
    && (forall s | 0 <= s < |hs| :: SlotOk(hs[s], ix[s], hk))
    && Once(ix)
    && (forall s | 0 <= s < |hs| && hs[s] >= 2 :: Reached(hs, PathOf(hs[s], buckets), s))
  }

  /** The first n items are in the table. */
  ghost predicate Full(ix: seq<int>, n: nat) {
    forall i | 0 <= i < n :: i in ix
  }

  // ---------------------------------------------------------------- changes of a slot

  /** Filling a slot leaves every other item where a search reaches it. */
  lemma StillReached(hs: seq<nat>, path: seq<nat>, s: nat, h: nat, t: nat)
    requires s < |hs| && h != 0 && Reached(hs, path, t)
    ensures Reached(hs[s := h], path, t)
  {
    var v :| ReachedAt(hs, path, t, v);
    assert ReachedAt(hs[s := h], path, t, v);
  }

  /** Item i is put into a slot that is not in use. */
  lemma SlotPut(hs: seq<nat>, ix: seq<int>, hk: seq<nat>, buckets: nat, i: nat, s: nat, v: nat)
    requires Table(hs, ix, hk, buckets) && i < |hk| && hk[i] >= 2 && i !in ix
    requires s < |hs| && hs[s] < 2 && ReachedAt(hs, PathOf(hk[i], buckets), s, v)
    ensures Table(hs[s := hk[i]], ix[s := i], hk, buckets)
    ensures forall j | j >= 0 :: j in ix[s := i] <==> j in ix || j == i
  {
    var hs', ix' := hs[s := hk[i]], ix[s := i];
    forall t | 0 <= t < |hs'| && hs'[t] >= 2
      ensures Reached(hs', PathOf(hs'[t], buckets), t)
    {
      if t == s {
        assert ReachedAt(hs', PathOf(hk[i], buckets), s, v);
      } else {
        StillReached(hs, PathOf(hs[t], buckets), s, hk[i], t);
      }
    }
    MembersSet(ix, s, i);
  }

  lemma MembersSet(ix: seq<int>, s: nat, i: int)
    requires s < |ix| && Once(ix)
    ensures forall j | j >= 0 :: j in ix[s := i] <==> (j in ix && j != ix[s]) || j == i
  {
    var ix' := ix[s := i];
    forall j | j >= 0
      ensures j in ix' <==> (j in ix && j != ix[s]) || j == i
    {
      if j in ix && j != ix[s] {
        var t :| 0 <= t < |ix| && ix[t] == j;
        assert ix'[t] == j;
      }
      assert ix'[s] == i;
    }
  }

  /** The item of a slot is taken out; the slot becomes a tombstone. */
  lemma SlotDeleted(hs: seq<nat>, ix: seq<int>, hk: seq<nat>, buckets: nat, s: nat)
    requires Table(hs, ix, hk, buckets) && s < |hs|
    ensures Table(hs[s := 1], ix[s := DELETED], hk, buckets)
    ensures forall j | j >= 0 :: j in ix[s := DELETED] <==> j in ix && j != ix[s]
  {
    var hs' := hs[s := 1];
    forall t | 0 <= t < |hs'| && hs'[t] >= 2
      ensures Reached(hs', PathOf(hs'[t], buckets), t)
    {
      StillReached(hs, PathOf(hs[t], buckets), s, 1, t);
    }
    MembersSet(ix, s, DELETED);
  }

  /** An item that is not in the table comes last. */
  lemma ItemAppended(hs: seq<nat>, ix: seq<int>, hk: seq<nat>, buckets: nat, h: nat)
    requires Table(hs, ix, hk, buckets)
    ensures Table(hs, ix, hk + [h], buckets) && |hk| !in ix
  {
  }

  /** The last item has taken the place of item i, which is not in the table. */
  function Without<T>(s: seq<T>, i: nat): (t: seq<T>)
    requires i < |s|
    ensures |t| == |s| - 1 && forall k | 0 <= k < |t| :: t[k] == if k == i then s[|s| - 1] else s[k]
  {
    s[i := s[|s| - 1]][..|s| - 1]
  }

  /** An item that is not in the table may become any other. */
  lemma ItemOverwritten(hs: seq<nat>, ix: seq<int>, hk: seq<nat>, buckets: nat, i: nat, h: nat)
    requires Table(hs, ix, hk, buckets) && i < |hk| && i !in ix
    ensures Table(hs, ix, hk[i := h], buckets)
  {
    forall t | 0 <= t < |hs|
      ensures SlotOk(hs[t], ix[t], hk[i := h])
    {
      assert ix[t] in ix;
    }
  }

  lemma LastMoved(hs: seq<nat>, ix: seq<int>, hk: seq<nat>, buckets: nat, i: nat, s: nat)
    requires Table(hs, ix, hk, buckets) && i < |hk| - 1 && i !in ix && s < |ix| && ix[s] == |hk| - 1
    ensures Table(hs, ix[s := i], Without(hk, i), buckets)
    ensures forall j | j >= 0 :: j in ix[s := i] <==> (j in ix && j != |hk| - 1) || j == i
  {
    MembersSet(ix, s, i);
    var ix', hk' := ix[s := i], Without(hk, i);
    forall t | 0 <= t < |hs|
      ensures SlotOk(hs[t], ix'[t], hk')
    {
      assert ix[t] != i;
    }
  }

  lemma LastDropped(hs: seq<nat>, ix: seq<int>, hk: seq<nat>, buckets: nat)
    requires Table(hs, ix, hk, buckets) && hk != [] && |hk| - 1 !in ix
    ensures Table(hs, ix, Without(hk, |hk| - 1), buckets)
  {
    var hk' := Without(hk, |hk| - 1);
    forall t | 0 <= t < |hs|
      ensures SlotOk(hs[t], ix[t], hk')
    {
      assert ix[t] in ix;
    }
  }

  // ---------------------------------------------------------------- searches

  /** A search for the key goes on at slot s. */
  ghost predicate Passes<K>(hs: seq<nat>, ix: seq<int>, keys: seq<K>, h: nat, key: K, s: nat)
    requires s < |hs| == |ix|
  {
    hs[s] != 0 && (hs[s] == h && 0 <= ix[s] < |keys| ==> keys[ix[s]] != key)
  }

  /** It goes on at the first v slots of its path. */
  ghost predicate Passed<K>(hs: seq<nat>, ix: seq<int>, keys: seq<K>, h: nat, key: K, path: seq<nat>, v: nat)
    requires |hs| == |ix|
  {
    v <= |path| && forall u | 0 <= u < v :: path[u] < |hs| && Passes(hs, ix, keys, h, key, path[u])
  }

  /** A search that comes to an empty slot has not missed an item with the key. */
  lemma EmptyMeansAbsent<K>(hs: seq<nat>, ix: seq<int>, hk: seq<nat>, keys: seq<K>, h: nat, key: K, buckets: nat,
                            v: nat)
    requires Table(hs, ix, hk, buckets) && |keys| == |hk|
    requires forall i | 0 <= i < |keys| && keys[i] == key :: hk[i] == h
    requires v < 8 * buckets && Passed(hs, ix, keys, h, key, PathOf(h, buckets), v) && hs[PathOf(h, buckets)[v]] == 0
    ensures forall i | 0 <= i < |keys| && keys[i] == key :: i !in ix
  {
    forall i | 0 <= i < |keys| && keys[i] == key
      ensures i !in ix
    {
      if i in ix {
        assert false;
      }
    }
  }

  /** The index of a slot in use is that of an item with its hash. */
  lemma InUse(hs: seq<nat>, ix: seq<int>, hk: seq<nat>, buckets: nat, s: nat)
    requires Table(hs, ix, hk, buckets) && s < |hs| && hs[s] >= 2
    ensures 0 <= ix[s] < |hk| && hk[ix[s]] == hs[s]
  {
    assert SlotOk(hs[s], ix[s], hk);
  }

  lemma PassedIsFilled<K>(hs: seq<nat>, ix: seq<int>, keys: seq<K>, h: nat, key: K, path: seq<nat>, v: nat)
    requires |hs| == |ix| && Passed(hs, ix, keys, h, key, path, v)
    ensures NoneEmpty(hs, path, v)
  {
  }

  /** While there is an empty slot, a search ends before it has passed as many slots as there are. */
  lemma SearchEnds(hs: seq<nat>, buckets: nat, h: nat, v: nat, free: nat)
    requires Power(buckets) && |hs| == 8 * buckets && free < |hs| && hs[free] == 0
    requires NoneEmpty(hs, PathOf(h, buckets), v)
    ensures v < 8 * buckets
  {
    var u := AllSlots(h % (8 * buckets), buckets, free);
    assert !(u < v);
  }

  // ---------------------------------------------------------------- rounds of a search

  /** A search for the hash begins its round k, in bucket k of its path, at the slot pos. */
  ghost predicate InRound(hash: nat, buckets: nat, k: nat, pos: nat)
    requires buckets > 0
  {
    var start := hash % (8 * buckets);
    pos == 8 * Bucket(start / 8, buckets, k) + start % 8
  }

  lemma FirstRound(hash: nat, buckets: nat)
    requires buckets > 0
    ensures InRound(hash, buckets, 0, hash % (8 * buckets))
  {
    var start := hash % (8 * buckets);
    SmallRemainder(start / 8, buckets);
  }

  lemma ThisRound(hash: nat, buckets: nat, k: nat, pos: nat)
    requires k < buckets && InRound(hash, buckets, k, pos)
    ensures pos - pos % 8 + 8 <= 8 * buckets && Round(PathOf(hash, buckets), k, pos - pos % 8, pos % 8)
  {
    var start := hash % (8 * buckets);
    PathRound(start, buckets, k);
    assert pos % 8 == start % 8 && pos - pos % 8 == 8 * Bucket(start / 8, buckets, k);
  }

  lemma NextRound(hash: nat, buckets: nat, k: nat, pos: nat)
    requires buckets > 0 && InRound(hash, buckets, k, pos)
    ensures InRound(hash, buckets, k + 1, (pos + 8 * (k + 1)) % (8 * buckets))
  {
    NextPos(hash % (8 * buckets), buckets, k, pos);
  }

  // ---------------------------------------------------------------- counting slots

  function Kind(index: int): int {
    if index >= 0 then 0 else index
  }

  /** How many slots are of a kind: in use, EMPTY or DELETED. */
  function Count(ix: seq<int>, kind: int): (n: nat)
    ensures n <= |ix|
  {
    if ix == [] then 0 else Count(ix[..|ix| - 1], kind) + if Kind(ix[|ix| - 1]) == kind then 1 else 0
  }

  lemma {:induction false} CountSet(ix: seq<int>, s: nat, x: int, kind: int)
    requires s < |ix|
    ensures Count(ix[s := x], kind) == Count(ix, kind) - (if Kind(ix[s]) == kind then 1 else 0)
            + (if Kind(x) == kind then 1 else 0)
  {
    var n := |ix| - 1;
    if s == n {
      assert ix[s := x][..n] == ix[..n];
    } else {
      assert ix[s := x][..n] == ix[..n][s := x];
      CountSet(ix[..n], s, x, kind);
    }
  }

  lemma {:induction false} AllOneKind(ix: seq<int>, kind: int)
    requires forall s | 0 <= s < |ix| :: Kind(ix[s]) == kind
    ensures Count(ix, kind) == |ix| && forall other | other != kind :: Count(ix, other) == 0
  {
    if ix != [] {
      AllOneKind(ix[..|ix| - 1], kind);
    }
  }

  lemma {:induction false} FreeSlot(hs: seq<nat>, ix: seq<int>, hk: seq<nat>) returns (s: nat)
    requires |hs| == |ix| && (forall t | 0 <= t < |hs| :: SlotOk(hs[t], ix[t], hk))
    requires Count(ix, 0) + Count(ix, DELETED) < |ix|
    ensures s < |hs| && hs[s] == 0
  {
    var n := |ix| - 1;
    assert SlotOk(hs[n], ix[n], hk);
    if ix[n] == EMPTY {
      s := n;
    } else {
      s := FreeSlot(hs[..n], ix[..n], hk);
    }
  }
}
