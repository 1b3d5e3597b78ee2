/** The hash maps of kernel/util/stb_ds.h: an array of items, and a hash table that finds them by their keys. */
module HashMap {
  import opened HashTable
  import opened HashProbe
  import opened Permutation

  datatype Item<K, V> = Item(key: K, value: V)

  /** What one bucket says to a search. */
  datatype Seen = Found(slot: nat) | Empty(slot: nat) | Nothing

  /** stbds_hash_index. */
  class HashIndex {
    const buckets: nat
    const hash: array<nat>
    const index: array<int>
    const usedThreshold: int
    const tombstoneThreshold: int
    const shrinkThreshold: int
    var usedCount: int
    var tombstoneCount: int

    ghost predicate Shape()
      reads hash, index
    {
      && Power(buckets) && hash.Length == index.Length == 8 * buckets && (hash as object) != (index as object)
      && usedThreshold == 8 * buckets - 2 * buckets
      && tombstoneThreshold == buckets + buckets / 2
      && shrinkThreshold == if buckets <= 1 then 0 else 2 * buckets
    }

    /** The table holds items with the hashes hk. */
    ghost predicate Stores(hk: seq<nat>)
      reads hash, index
    {
      Shape() && Table(hash[..], index[..], hk, buckets)
    }

    /** How many slots are not empty. */
    ghost function Taken(): nat
      reads index
    {
      Count(index[..], 0) + Count(index[..], DELETED)
    }

    /** The table holds all the items with the hashes hk, and its counts are right. */
    ghost predicate Holds(hk: seq<nat>)
      reads this, hash, index
    {
      && Stores(hk) && Full(index[..], |hk|)
      && usedCount == Count(index[..], 0) == |hk| && tombstoneCount == Count(index[..], DELETED)
    }

    /** ... and it is not too full. */
    ghost predicate Valid(hk: seq<nat>)
      reads this, hash, index
    {
      Holds(hk) && usedCount <= usedThreshold && tombstoneCount <= tombstoneThreshold
    }

    /** An empty table of this many buckets. */
    constructor (buckets: nat)
      requires Power(buckets)
      ensures Shape() && this.buckets == buckets && usedCount == 0 && tombstoneCount == 0 && fresh(hash) && fresh(index)
      ensures forall s | 0 <= s < 8 * buckets :: hash[s] == 0 && index[s] == EMPTY
    {
      var slotCount := 8 * buckets;
      this.buckets := buckets;
      hash := new nat[slotCount](_ => 0);
      index := new int[slotCount](_ => EMPTY);
      tombstoneCount := 0;
      usedCount := 0;
      usedThreshold := slotCount - slotCount / 4;
      tombstoneThreshold := slotCount / 8 + slotCount / 16;
      shrinkThreshold := if slotCount <= 8 then 0 else slotCount / 4;
    }

    /** A new table holds nothing. */
    lemma NewStores(hk: seq<nat>)
      requires Shape() && forall s | 0 <= s < 8 * buckets :: hash[s] == 0 && index[s] == EMPTY
      ensures Stores(hk) && Taken() == Count(index[..], 0) == 0 && forall i | i >= 0 :: i !in index[..]
    {
      AllOneKind(index[..], EMPTY);
      forall s | 0 <= s < 8 * buckets
        ensures SlotOk(hash[..][s], index[..][s], hk)
      {
      }
    }

    lemma HasEmptySlot(hk: seq<nat>) returns (s: nat)
      requires Stores(hk) && Taken() < 8 * buckets
      ensures s < 8 * buckets && hash[s] == 0
    {
      s := FreeSlot(hash[..], index[..], hk);
      assert hash[..][s] == hash[s];
    }

    /**
     Between two operations the slots in use and the tombstones leave at least one slot empty, where a search
     ends.
    */
    lemma NeverFull(hk: seq<nat>) returns (s: nat)
      requires Valid(hk)
      ensures usedCount + tombstoneCount < 8 * buckets && s < 8 * buckets && hash[s] == 0
    {
      s := HasEmptySlot(hk);
    }

    // -------------------------------------------------------------- searching

    /** A search for the key goes on at the first v slots of its path. */
    ghost predicate GoesOn<K(!new), V>(items: seq<Item<K, V>>, h: nat, key: K, path: seq<nat>, v: nat)
      requires Shape()
      reads hash, index
    {
      Passed(hash[..], index[..], Keys(items), h, key, path, v)
    }

    /** ... and comes to an empty slot then. */
    ghost predicate StopsAt<K(!new), V>(items: seq<Item<K, V>>, h: nat, key: K, path: seq<nat>, v: nat, s: nat)
      requires Shape()
      reads hash, index
    {
      s < 8 * buckets && hash[s] == 0 && v < |path| && path[v] == s && GoesOn(items, h, key, path, v)
    }

    predicate Hits<K(==), V>(items: seq<Item<K, V>>, h: nat, key: K, s: nat)
      requires Shape()
      reads hash, index
    {
      s < 8 * buckets && hash[s] == h && 0 <= index[s] < |items| && items[index[s]].key == key
    }

    /** One of the two loops of stbds_hm_find_slot over a bucket: the first from offset o on, the second up to it. */
    method FindRange<K(==, !new), V>(items: seq<Item<K, V>>, h: nat, key: K, base: nat, from: nat, to: nat,
                                     ghost hk: seq<nat>, ghost path: seq<nat>, ghost k: nat, ghost o: nat)
      returns (seen: Seen, ghost at: nat)
      requires Stores(hk) && |hk| == |items| && h >= 2 && base + 8 <= 8 * buckets && Round(path, k, base, o)
      requires (from == o && to == 8) || (from == 0 && to == o)
      requires GoesOn(items, h, key, path, RoundStart(k, o, from))
      ensures match seen
              case Found(s) => Hits(items, h, key, s)
              case Empty(s) => StopsAt(items, h, key, path, at, s)
              case Nothing => GoesOn(items, h, key, path, RoundStart(k, o, from) + to - from)
    {
      var i := from;
      at := RoundStart(k, o, from);
      while i < to
        invariant from <= i <= to && at == RoundStart(k, o, from) + i - from && GoesOn(items, h, key, path, at)
      {
        var s := base + i;
        assert Visited(path, k, base, o, i);
        if hash[s] == h {
          InUse(hash[..], index[..], hk, buckets, s);
          if items[index[s]].key == key {
            return Found(s), at;
          }
        } else if hash[s] == 0 {
          return Empty(s), at;
        }
        i, at := i + 1, at + 1;
      }
      seen := Nothing;
    }

    /** One round of stbds_hm_find_slot: the bucket at pos, from there to its end and then from its beginning. */
    method FindRound<K(==, !new), V>(items: seq<Item<K, V>>, h: nat, key: K, pos: nat, ghost hk: seq<nat>,
                       ghost path: seq<nat>, ghost k: nat)
      returns (seen: Seen, ghost at: nat)
      requires Stores(hk) && |hk| == |items| && h >= 2 && pos - pos % 8 + 8 <= 8 * buckets
               && Round(path, k, pos - pos % 8, pos % 8)
      requires GoesOn(items, h, key, path, 8 * k)
      ensures match seen
              case Found(s) => Hits(items, h, key, s)
              case Empty(s) => StopsAt(items, h, key, path, at, s)
              case Nothing => GoesOn(items, h, key, path, 8 * k + 8)
    {
      var o := pos % 8;
      seen, at := FindRange(items, h, key, pos - o, o, 8, hk, path, k, o);
      if seen.Nothing? {
        seen, at := FindRange(items, h, key, pos - o, 0, o, hk, path, k, o);
      }
    }

    /** stbds_hm_find_slot */
    method FindSlot<K(==, !new), V>(items: seq<Item<K, V>>, h: nat, key: K, ghost hk: seq<nat>) returns (slot: int)
      requires Stores(hk) && |hk| == |items| && h >= 2 && Taken() < 8 * buckets
      requires forall i | 0 <= i < |items| && items[i].key == key :: hk[i] == h
      ensures slot == -1 || (slot >= 0 && Hits(items, h, key, slot))
      ensures slot == -1 ==> forall i | 0 <= i < |items| && items[i].key == key :: i !in index[..]
    {
      var step := 8;
      var pos := h % (8 * buckets);
      ghost var k, path := 0, PathOf(h, buckets);
      ghost var free := HasEmptySlot(hk);
      FirstRound(h, buckets);
      while true
        invariant pos >= 0 && InRound(h, buckets, k, pos) && step == 8 * (k + 1) && GoesOn(items, h, key, path, 8 * k)
        decreases buckets - k
      {
        PassedIsFilled(hash[..], index[..], Keys(items), h, key, path, 8 * k);
        SearchEnds(hash[..], buckets, h, 8 * k, free);
        ThisRound(h, buckets, k, pos);
        var seen;
        ghost var at;
        seen, at := FindRound(items, h, key, pos, hk, path, k);
        if seen.Found? {
          return seen.slot;
        }
        if seen.Empty? {
          EmptyMeansAbsent(hash[..], index[..], hk, Keys(items), h, key, buckets, at);
          return -1;
        }
        NextRound(h, buckets, k, pos);
        pos := (pos + step) % (8 * buckets);
        step := step + 8;
        k := k + 1;
      }
    }

    // -------------------------------------------------------------- searching for a slot to fill

    /** The first v slots of a path are no tombstones. */
    ghost predicate NoTombstone(path: seq<nat>, v: nat)
      requires Shape()
      reads hash, index
    {
      forall w | 0 <= w < v && w < |path| && path[w] < 8 * buckets :: hash[path[w]] != 1
    }

    /** The first tombstone, to which a search has come with visit u, before visit v, if any. */
    ghost predicate PassedTombstone(path: seq<nat>, v: nat, tombstone: int, u: nat)
      requires Shape()
      reads hash, index
    {
      if tombstone == -1 then NoTombstone(path, v)
      else && 0 <= tombstone < 8 * buckets && hash[tombstone] == 1 && u < v && u < |path|
           && path[u] == tombstone && NoTombstone(path, u)
    }

    /** One slot in the search of stbds_hmput_key. */
    method PutVisit<K(==, !new), V>(items: seq<Item<K, V>>, h: nat, key: K, s: nat, tombstone: int, ghost u: nat,
                                    ghost hk: seq<nat>, ghost path: seq<nat>, ghost at: nat)
      returns (seen: Seen, tombstone': int, ghost u': nat)
      requires Stores(hk) && |hk| == |items| && h >= 2 && s < 8 * buckets && at < |path| && path[at] == s
      requires GoesOn(items, h, key, path, at) && PassedTombstone(path, at, tombstone, u)
      ensures match seen
              case Found(r) => Hits(items, h, key, r)
              case Empty(r) => StopsAt(items, h, key, path, at, r) && PassedTombstone(path, at, tombstone', u')
              case Nothing => GoesOn(items, h, key, path, at + 1) && PassedTombstone(path, at + 1, tombstone', u')
    {
      assert SlotOk(hash[..][s], index[..][s], hk);
      seen, tombstone', u' := Nothing, tombstone, u;
      if hash[s] == h {
        if items[index[s]].key == key {
          seen := Found(s);
        }
      } else if hash[s] == 0 {
        seen := Empty(s);
      } else if tombstone < 0 {
        if index[s] == DELETED {
          tombstone', u' := s, at;
        }
      }
    }

    /** One of the two loops of stbds_hmput_key over a bucket. */
    method PutRange<K(==, !new), V>(items: seq<Item<K, V>>, h: nat, key: K, base: nat, from: nat, to: nat,
                      tombstone: int, ghost u: nat,
                                    ghost hk: seq<nat>, ghost path: seq<nat>, ghost k: nat, ghost o: nat)
      returns (seen: Seen, tombstone': int, ghost u': nat, ghost at: nat)
      requires Stores(hk) && |hk| == |items| && h >= 2 && base + 8 <= 8 * buckets && Round(path, k, base, o)
      requires (from == o && to == 8) || (from == 0 && to == o)
      requires GoesOn(items, h, key, path, RoundStart(k, o, from))
               && PassedTombstone(path, RoundStart(k, o, from), tombstone, u)
      ensures match seen
              case Found(s) => Hits(items, h, key, s)
              case Empty(s) => StopsAt(items, h, key, path, at, s) && PassedTombstone(path, at, tombstone', u')
              case Nothing =>
                var v := RoundStart(k, o, from) + to - from;
                    GoesOn(items, h, key, path, v)
                    && PassedTombstone(path, v, tombstone', u')
    {
      var i := from;
      at := RoundStart(k, o, from);
      seen, tombstone', u' := Nothing, tombstone, u;
      while i < to
        invariant from <= i <= to && at == RoundStart(k, o, from) + i - from
        invariant GoesOn(items, h, key, path, at) && PassedTombstone(path, at, tombstone', u') && seen.Nothing?
      {
        VisitOf(path, k, base, o, from, to, i);
        seen, tombstone', u' := PutVisit(items, h, key, base + i, tombstone', u', hk, path, at);
        if !seen.Nothing? {
          return;
        }
        i, at := i + 1, at + 1;
      }
    }

    /** One round of stbds_hmput_key. */
    method PutRound<K(==, !new), V>(items: seq<Item<K, V>>, h: nat, key: K, pos: nat, tombstone: int, ghost u: nat,
                                    ghost hk: seq<nat>, ghost path: seq<nat>, ghost k: nat)
      returns (seen: Seen, tombstone': int, ghost u': nat, ghost at: nat)
      requires Stores(hk) && |hk| == |items| && h >= 2 && pos - pos % 8 + 8 <= 8 * buckets
               && Round(path, k, pos - pos % 8, pos % 8)
      requires GoesOn(items, h, key, path, 8 * k) && PassedTombstone(path, 8 * k, tombstone, u)
      ensures match seen
              case Found(s) => Hits(items, h, key, s)
              case Empty(s) => StopsAt(items, h, key, path, at, s) && PassedTombstone(path, at, tombstone', u')
              case Nothing => GoesOn(items, h, key, path, 8 * k + 8) && PassedTombstone(path, 8 * k + 8, tombstone', u')
    {
      var o := pos % 8;
      seen, tombstone', u', at := PutRange(items, h, key, pos - o, o, 8, tombstone, u, hk, path, k, o);
      if seen.Nothing? && o > 0 {
        seen, tombstone', u', at := PutRange(items, h, key, pos - o, 0, o, tombstone', u', hk, path, k, o);
      }
    }

    /**
     The search of stbds_hmput_key: the slot of the key, or the first on its path that is not in use: a tombstone
     or the empty slot.
    */
    method SearchToPut<K(==, !new), V>(items: seq<Item<K, V>>, h: nat, key: K, ghost hk: seq<nat>)
      returns (found: bool, slot: nat, reused: bool, ghost at: nat)
      requires Stores(hk) && Full(index[..], |hk|) && |hk| == |items| && h >= 2 && Taken() < 8 * buckets
      requires forall i | 0 <= i < |items| && items[i].key == key :: hk[i] == h
      ensures found <==> key in Keys(items)
      ensures found ==> Hits(items, h, key, slot)
      ensures !found ==>
              slot < 8 * buckets && hash[slot] == (if reused then 1 else 0)
              && ReachedAt(hash[..], PathOf(h, buckets), slot, at) && NoTombstone(PathOf(h, buckets), at)
    {
      var step := 8;
      var pos := h % (8 * buckets);
      var tombstone := -1;
      ghost var k, u, path := 0, 0, PathOf(h, buckets);
      ghost var free := HasEmptySlot(hk);
      FirstRound(h, buckets);
      while true
        invariant pos >= 0 && InRound(h, buckets, k, pos) && step == 8 * (k + 1)
        invariant GoesOn(items, h, key, path, 8 * k) && PassedTombstone(path, 8 * k, tombstone, u)
        decreases buckets - k
      {
        PassedIsFilled(hash[..], index[..], Keys(items), h, key, path, 8 * k);
        SearchEnds(hash[..], buckets, h, 8 * k, free);
        ThisRound(h, buckets, k, pos);
        var seen;
        seen, tombstone, u, at := PutRound(items, h, key, pos, tombstone, u, hk, path, k);
        if seen.Found? {
          return true, seen.slot, false, at;
        }
        if seen.Empty? {
          EmptyMeansAbsent(hash[..], index[..], hk, Keys(items), h, key, buckets, at);
          PassedIsFilled(hash[..], index[..], Keys(items), h, key, path, at);
          if tombstone >= 0 {
            return false, tombstone, true, u;
          }
          return false, seen.slot, false, at;
        }
        NextRound(h, buckets, k, pos);
        pos := (pos + step) % (8 * buckets);
        step := step + 8;
        k := k + 1;
      }
    }

    // -------------------------------------------------------------- rebuilding

    /** One of the two loops of stbds_make_hash_index over a bucket. */
    method EmptyRange(base: nat, from: nat, to: nat, ghost path: seq<nat>, ghost k: nat, ghost o: nat)
      returns (seen: Seen, ghost at: nat)
      requires Shape() && base + 8 <= 8 * buckets && Round(path, k, base, o)
               && NoneEmpty(hash[..], path, RoundStart(k, o, from))
      requires (from == o && to == 8) || (from == 0 && to == o)
      ensures !seen.Found?
      ensures seen.Empty? ==>
              seen.slot < 8 * buckets && hash[seen.slot] == 0
              && ReachedAt(hash[..], path, seen.slot, at)
      ensures seen.Nothing? ==> NoneEmpty(hash[..], path, RoundStart(k, o, from) + to - from)
    {
      var z := from;
      at := RoundStart(k, o, from);
      while z < to
        invariant from <= z <= to && at == RoundStart(k, o, from) + z - from && NoneEmpty(hash[..], path, at)
      {
        assert Visited(path, k, base, o, z);
        if hash[base + z] == 0 {
          return Empty(base + z), at;
        }
        z, at := z + 1, at + 1;
      }
      seen := Nothing;
    }

    /** One round of stbds_make_hash_index. */
    method EmptyRound(pos: nat, ghost path: seq<nat>, ghost k: nat) returns (seen: Seen, ghost at: nat)
      requires Shape() && pos - pos % 8 + 8 <= 8 * buckets && Round(path, k, pos - pos % 8, pos % 8)
               && NoneEmpty(hash[..], path, 8 * k)
      ensures !seen.Found?
      ensures seen.Empty? ==>
              seen.slot < 8 * buckets && hash[seen.slot] == 0
              && ReachedAt(hash[..], path, seen.slot, at)
      ensures seen.Nothing? ==> NoneEmpty(hash[..], path, 8 * k + 8)
    {
      var o := pos % 8;
      seen, at := EmptyRange(pos - o, o, 8, path, k, o);
      if seen.Nothing? && o > 0 {
        seen, at := EmptyRange(pos - o, 0, o, path, k, o);
      }
    }

    /** The search of stbds_make_hash_index for a place for a hash. */
    method SearchEmpty(h: nat, ghost hk: seq<nat>) returns (slot: nat, ghost at: nat)
      requires Stores(hk) && Taken() < 8 * buckets
      ensures slot < 8 * buckets && hash[slot] == 0 && ReachedAt(hash[..], PathOf(h, buckets), slot, at)
    {
      var step := 8;
      var pos := h % (8 * buckets);
      ghost var k, path := 0, PathOf(h, buckets);
      ghost var free := HasEmptySlot(hk);
      FirstRound(h, buckets);
      while true
        invariant pos >= 0 && InRound(h, buckets, k, pos) && step == 8 * (k + 1) && NoneEmpty(hash[..], path, 8 * k)
        decreases buckets - k
      {
        SearchEnds(hash[..], buckets, h, 8 * k, free);
        ThisRound(h, buckets, k, pos);
        var seen;
        seen, at := EmptyRound(pos, path, k);
        if seen.Empty? {
          return seen.slot, at;
        }
        NextRound(h, buckets, k, pos);
        pos := (pos + step) % (8 * buckets);
        step := step + 8;
        k := k + 1;
      }
    }

    // -------------------------------------------------------------- filling slots

    /** Puts item i into a slot. */
    method Fill(slot: nat, h: nat, i: nat, ghost hk: seq<nat>, ghost at: nat)
      requires Stores(hk) && i < |hk| && hk[i] == h && h >= 2 && i !in index[..]
      requires slot < 8 * buckets && hash[slot] < 2 && ReachedAt(hash[..], PathOf(h, buckets), slot, at)
      modifies hash, index
      ensures Stores(hk) && forall j | j >= 0 :: j in index[..] <==> j in old(index[..]) || j == i
      ensures Count(index[..], 0) == old(Count(index[..], 0)) + 1
      ensures Count(index[..], DELETED) == old(Count(index[..], DELETED)) - old(hash[slot])
    {
      ghost var hs, ix := hash[..], index[..];
      assert SlotOk(hs[slot], ix[slot], hk);
      SlotPut(hs, ix, hk, buckets, i, slot, at);
      CountSet(ix, slot, i, 0);
      CountSet(ix, slot, i, DELETED);
      hash[slot] := h;
      index[slot] := i;
      assert hash[..] == hs[slot := h] && index[..] == ix[slot := i];
    }

    /** The end of stbds_hmput_key: item i, which comes last, is put into a slot it may have from a tombstone. */
    method Insert(slot: nat, h: nat, i: nat, reused: bool, ghost hk: seq<nat>, ghost at: nat)
      requires Valid(hk) && usedCount < usedThreshold && i == |hk| && h >= 2
      requires slot < 8 * buckets && hash[slot] == (if reused then 1 else 0)
               && ReachedAt(hash[..], PathOf(h, buckets), slot, at)
      modifies this, hash, index
      ensures Valid(hk + [h])
    {
      ItemAppended(hash[..], index[..], hk, buckets, h);
      if reused {
        tombstoneCount := tombstoneCount - 1;
      }
      usedCount := usedCount + 1;
      Fill(slot, h, i, hk + [h], at);
    }

    /** Makes a tombstone of a slot in use. */
    method Clear(slot: nat, ghost hk: seq<nat>)
      requires Stores(hk) && slot < 8 * buckets && index[slot] >= 0
      modifies this, hash, index
      ensures Stores(hk) && forall j | j >= 0 :: j in index[..] <==> j in old(index[..]) && j != old(index[slot])
      ensures Count(index[..], 0) == old(Count(index[..], 0)) - 1 && usedCount == old(usedCount) - 1
      ensures Count(index[..], DELETED) == old(Count(index[..], DELETED)) + 1
              && tombstoneCount == old(tombstoneCount) + 1
    {
      ghost var hs, ix := hash[..], index[..];
      SlotDeleted(hs, ix, hk, buckets, slot);
      CountSet(ix, slot, DELETED, 0);
      CountSet(ix, slot, DELETED, DELETED);
      usedCount := usedCount - 1;
      tombstoneCount := tombstoneCount + 1;
      hash[slot] := 1;
      index[slot] := DELETED;
      assert hash[..] == hs[slot := 1] && index[..] == ix[slot := DELETED];
    }

    /** After the last item has been moved to index i: its slot has to say so. */
    method Redirect(slot: nat, i: nat, ghost hk: seq<nat>)
      requires Stores(hk) && i < |hk| - 1 && i !in index[..] && slot < 8 * buckets && index[slot] == |hk| - 1
      modifies index
      ensures Stores(Without(hk, i)) && forall j | j >= 0 ::
              j in index[..]
              <==> (j in old(index[..]) && j != |hk| - 1) || j == i
      ensures forall kind :: Count(index[..], kind) == old(Count(index[..], kind))
    {
      ghost var ix := index[..];
      LastMoved(hash[..], ix, hk, buckets, i, slot);
      forall kind
        ensures Count(ix[slot := i], kind) == Count(ix, kind)
      {
        CountSet(ix, slot, i, kind);
      }
      index[slot] := i;
      assert index[..] == ix[slot := i];
    }

    /** The table holds what the slots of another one with these indices hold, and no tombstones. */
    ghost predicate Copied(ix: seq<int>, hk: seq<nat>)
      reads hash, index
    {
      && Stores(hk) && Count(index[..], 0) == Count(ix, 0) && Count(index[..], DELETED) == 0
      && forall x | x >= 0 :: x in index[..] <==> x in ix
    }

    /** A slot in use of the old table in stbds_make_hash_index. */
    method CopySlot(h: nat, i: int, ghost ix: seq<int>, ghost j: nat, ghost hk: seq<nat>)
      requires j < |ix| && ix[j] == i && Copied(ix[..j], hk) && Count(ix, 0) < 8 * buckets && i !in ix[..j]
      requires 0 <= i < |hk| && hk[i] == h && h >= 2
      modifies hash, index
      ensures Copied(ix[..j + 1], hk)
    {
      PrefixStep(ix, j);
      PrefixCount(ix, j + 1);
      var slot;
      ghost var at;
      slot, at := SearchEmpty(h, hk);
      Fill(slot, h, i, hk, at);
    }

    /** The copying of stbds_make_hash_index: takes over every item of the old table; tombstones stay behind. */
    method CopyFrom(ot: HashIndex, ghost hk: seq<nat>)
      requires {hash as object, index as object} !! {ot.hash as object, ot.index as object}
      requires ot.Stores(hk) && Full(ot.index[..], |hk|) && Count(ot.index[..], 0) < 8 * buckets
      requires Shape() && forall s | 0 <= s < 8 * buckets :: hash[s] == 0 && index[s] == EMPTY
      modifies hash, index
      ensures Stores(hk) && Full(index[..], |hk|)
      ensures Count(index[..], 0) == Count(ot.index[..], 0) && Count(index[..], DELETED) == 0
    {
      NewStores(hk);
      ghost var oix, ohs := ot.index[..], ot.hash[..];
      var j := 0;
      while j < ot.index.Length
        invariant 0 <= j <= ot.index.Length && ot.index[..] == oix && ot.hash[..] == ohs && Copied(oix[..j], hk)
      {
        assert SlotOk(ohs[j], oix[j], hk) && ot.hash[j] == ohs[j] && ot.index[j] == oix[j];
        if ot.index[j] >= 0 {
          assert ot.index[j] !in oix[..j];
          CopySlot(ot.hash[j], ot.index[j], oix, j, hk);
        } else {
          PrefixStep(oix, j);
        }
        j := j + 1;
      }
      assert oix[..j] == oix;
    }
  }

  lemma PrefixStep(ix: seq<int>, j: nat)
    requires j < |ix|
    ensures Count(ix[..j + 1], 0) == Count(ix[..j], 0) + (if ix[j] >= 0 then 1 else 0)
    ensures forall x :: x in ix[..j + 1] <==> x in ix[..j] || x == ix[j]
  {
    assert ix[..j + 1] == ix[..j] + [ix[j]];
    assert ix[..j + 1][..j] == ix[..j];
  }

  lemma {:induction false} PrefixCount(ix: seq<int>, j: nat)
    requires j <= |ix|
    ensures Count(ix[..j], 0) <= Count(ix, 0)
    decreases |ix| - j
  {
    if j == |ix| {
      assert ix[..j] == ix;
    } else {
      PrefixStep(ix, j);
      PrefixCount(ix, j + 1);
    }
  }

  /** stbds_make_hash_index; without an old table, or with one whose items it takes over. */
  method MakeHashIndex(buckets: nat, ot: HashIndex?, ghost hk: seq<nat>) returns (t: HashIndex)
    requires Power(buckets)
    requires if ot == null then hk == [] else ot.Holds(hk) && |hk| < 8 * buckets
    ensures fresh(t) && fresh(t.hash) && fresh(t.index) && t.buckets == buckets && t.Holds(hk) && t.tombstoneCount == 0
  {
    t := new HashIndex(buckets);
    if ot != null {
      t.usedCount := ot.usedCount;
      t.CopyFrom(ot, hk);
    } else {
      t.NewStores(hk);
    }
  }

  /** The number of visits before offset `from` of the bucket of round k. */
  ghost function RoundStart(k: nat, o: nat, from: nat): nat
    requires o < 8
  {
    if from == o then 8 * k else 8 * k + 8 - o
  }

  /** Offset i is visited so many visits after offset `from`. */
  lemma VisitOf(path: seq<nat>, k: nat, base: nat, o: nat, from: nat, to: nat, i: nat)
    requires Round(path, k, base, o) && from <= i < to && ((from == o && to == 8) || (from == 0 && to == o))
    ensures var v := RoundStart(k, o, from) + i - from; v < |path| && path[v] == base + i
  {
    assert Visited(path, k, base, o, i);
  }

  function Keys<K, V>(items: seq<Item<K, V>>): (keys: seq<K>)
    ensures |keys| == |items| && forall i | 0 <= i < |items| :: keys[i] == items[i].key
  {
    seq(|items|, i requires 0 <= i < |items| => items[i].key)
  }

  function Values<K, V>(items: seq<Item<K, V>>): (values: seq<V>)
    ensures |values| == |items| && forall i | 0 <= i < |items| :: values[i] == items[i].value
  {
    seq(|items|, i requires 0 <= i < |items| => items[i].value)
  }

  // ---------------------------------------------------------------- the map that the items are

  /** Each key is mapped to the value with the same index. */
  ghost predicate IsMap<K(!new), V>(keys: seq<K>, values: seq<V>, m: map<K, V>) {
    && |keys| == |values| && Distinct(keys)
    && (forall i | 0 <= i < |keys| :: keys[i] in m && m[keys[i]] == values[i])
    && (forall k | k in m :: k in keys)
  }

  lemma ReplacedMap<K(!new), V>(keys: seq<K>, values: seq<V>, m: map<K, V>, i: nat, v: V)
    requires IsMap(keys, values, m) && i < |keys|
    ensures IsMap(keys, values[i := v], m[keys[i] := v])
  {
  }

  lemma AppendedMap<K(!new), V>(keys: seq<K>, values: seq<V>, m: map<K, V>, k: K, v: V)
    requires IsMap(keys, values, m) && k !in keys
    ensures IsMap(keys + [k], values + [v], m[k := v])
  {
  }

  lemma WithoutMap<K(!new), V>(keys: seq<K>, values: seq<V>, m: map<K, V>, i: nat)
    requires IsMap(keys, values, m) && i < |keys|
    ensures IsMap(Without(keys, i), Without(values, i), m - {keys[i]})
  {
    var left, n := Without(keys, i), |keys| - 1;
    forall k | k in m && k != keys[i]
      ensures k in left
    {
      var j :| 0 <= j < |keys| && keys[j] == k;
      assert left[if j == n then i else j] == k;
    }
  }

  // ---------------------------------------------------------------- the hash map

  class Map<K(==, !new), V> {
    const seeded: K -> nat                // the hash of a key under the seed of the table, whatever it is
    var items: seq<Item<K, V>>
    var table: HashIndex?
    ghost var model: map<K, V>            // the map that the items are

    /** The hash that is stored: 0 and 1 stand for empty slots and tombstones. */
    function HashOf(key: K): (h: nat)
      ensures h >= 2
    {
      var h := seeded(key);
      if h < 2 then h + 2 else h
    }

    function Hashes(items: seq<Item<K, V>>): (hk: seq<nat>)
      ensures |hk| == |items| && forall i | 0 <= i < |items| :: hk[i] == HashOf(items[i].key)
    {
      seq(|items|, i requires 0 <= i < |items| => HashOf(items[i].key))
    }

    function Footprint(): set<object>
      reads this
    {
      if table == null then {} else {table, table.hash, table.index}
    }

    ghost predicate Valid()
      reads this, Footprint()
    {
      && IsMap(Keys(items), Values(items), model)
      && if table == null then items == [] else table.Valid(Hashes(items)) && Dense()
    }

    /** The table has at most four slots for each item, unless it is as small as can be. */
    predicate Dense()
      requires table != null
      reads this
    {
      table.buckets == 1 || 8 * table.buckets <= 4 * |items|
    }

    constructor (seeded: K -> nat)
      ensures Valid() && model == map[] && this.seeded == seeded && table == null
    {
      this.seeded := seeded;
      items := [];
      table := null;
      model := map[];
    }

    /** A table with more than four slots for each of its n items is cut to half its size, down to eight slots. */
    predicate Halved(was: HashIndex, now: HashIndex, n: nat) {
      if was.buckets > 1 && 8 * was.buckets > 4 * n then 2 * now.buckets == was.buckets else now.buckets == was.buckets
    }

    /** The first table has eight slots; a table three quarters full doubles before an item comes in. */
    predicate Doubled(was: HashIndex?, now: HashIndex, n: nat) {
      if was == null then now.buckets == 1
      else if 4 * n >= 3 * (8 * was.buckets) then now.buckets == 2 * was.buckets
      else now.buckets == was.buckets
    }

    /** stbds_hmget_key: the index of the item with the key, or -1. */
    method GetIndex(key: K) returns (index: int)
      requires Valid()
      ensures index == -1 || 0 <= index < |items|
      ensures index >= 0 <==> key in model
      ensures index >= 0 ==> items[index].key == key && items[index].value == model[key]
    {
      if table == null {
        return -1;
      }
      var slot := table.FindSlot(items, HashOf(key), key, Hashes(items));
      if slot < 0 {
        return -1;
      }
      index := table.index[slot];
      assert Keys(items)[index] == key;
    }

    /** A new table of this many buckets for the items. */
    method Rebuild(buckets: nat)
      requires IsMap(Keys(items), Values(items), model) && Power(buckets)
      requires if table == null then items == [] else table.Holds(Hashes(items)) && |items| < 8 * buckets
      modifies `table
      ensures items == old(items) && model == old(model) && table != null && fresh(Footprint())
      ensures IsMap(Keys(items), Values(items), model) && table.Holds(Hashes(items))
      ensures table.buckets == buckets && table.tombstoneCount == 0
    {
      assert table == null ==> Hashes(items) == [];
      table := MakeHashIndex(buckets, table, Hashes(items));
    }

    /** The beginning of stbds_hmput_key: there is a table, with room for one more item. */
    method MakeRoom()
      requires Valid()
      modifies this, Footprint()
      ensures Valid() && items == old(items) && model == old(model) && fresh(Footprint() - old(Footprint()))
      ensures table != null && table.usedCount < table.usedThreshold && Doubled(old(table), table, |items|)
    {
      if table == null || table.usedCount >= table.usedThreshold {
        var buckets := if table == null then 1 else table.buckets * 2;
        Rebuild(buckets);
      }
    }

    /** stbds_hmput_key for a key that is there, and the storing of the value after it. */
    method Replace(index: nat, value: V)
      requires Valid() && index < |items|
      modifies `items, `model
      ensures Valid() && model == old(model)[old(items)[index].key := value]
              && items == old(items)[index := Item(old(items)[index].key, value)]
    {
      ghost var keys, values, key := Keys(items), Values(items), items[index].key;
      ReplacedMap(keys, values, model, index, value);
      ghost var hk := Hashes(items);
      items := items[index := Item(items[index].key, value)];
      model := model[key := value];
      assert Hashes(items) == hk && Keys(items) == keys && Values(items) == values[index := value];
    }

    /** stbds_hmput_key for a key that is not there, and the storing of the value after it. */
    method Append(key: K, value: V, slot: nat, reused: bool, ghost at: nat)
      requires Valid() && key !in model && table != null && table.usedCount < table.usedThreshold
      requires slot < 8 * table.buckets && table.hash[slot] == (if reused then 1 else 0)
      requires ReachedAt(table.hash[..], PathOf(HashOf(key), table.buckets), slot, at)
      modifies this, Footprint()
      ensures Valid() && model == old(model)[key := value] && items == old(items) + [Item(key, value)]
              && table == old(table)
    {
      ghost var keys, values, hk, h := Keys(items), Values(items), Hashes(items), HashOf(key);
      AppendedMap(keys, values, model, key, value);
      table.Insert(slot, HashOf(key), |items|, reused, hk, at);
      items := items + [Item(key, value)];
      model := model[key := value];
      assert Hashes(items) == hk + [h] && Keys(items) == keys + [key] && Values(items) == values + [value];
    }

    /** stbds_hmput_key, and the storing of the value after it; returns the index of the item. */
    method Put(key: K, value: V) returns (index: int)
      requires Valid()
      modifies this, Footprint()
      ensures Valid() && model == old(model)[key := value] && fresh(Footprint() - old(Footprint()))
      ensures 0 <= index < |items| && items[index] == Item(key, value)
      ensures if key in old(model) then index < |old(items)| && items == old(items)[index := Item(key, value)]
              else items == old(items) + [Item(key, value)]
      ensures table != null && Doubled(old(table), table, |old(items)|)
    {
      MakeRoom();
      var found, slot, reused;
      ghost var at;
      found, slot, reused, at := table.SearchToPut(items, HashOf(key), key, Hashes(items));
      if found {
        index := table.index[slot];
        assert Keys(items)[index] == key;
        Replace(index, value);
      } else {
        index := |items|;
        Append(key, value, slot, reused, at);
      }
    }

    /** stbds_hmdel_key; returns whether there was such a key. */
    method Delete(key: K) returns (deleted: bool)
      requires Valid()
      modifies this, Footprint()
      ensures Valid() && model == old(model) - {key} && deleted == (key in old(model))
              && fresh(Footprint() - old(Footprint()))
      ensures !deleted ==> items == old(items) && table == old(table)
      ensures deleted ==> old(table) != null && table != null && Halved(old(table), table, |items|)
      ensures deleted ==> exists i | 0 <= i < |old(items)| ::
              old(items)[i].key == key
              && items == Without(old(items), i)
    {
      deleted := false;
      if table != null {
        var slot := table.FindSlot(items, HashOf(key), key, Hashes(items));
        if slot >= 0 {
          RemoveAt(slot);
          ShrinkOrRebuild();
          deleted := true;
        }
      }
    }

    /** The items are a map and the table holds them all, but there may be one tombstone too many. */
    ghost predicate AlmostValid()
      reads this, Footprint()
    {
      && IsMap(Keys(items), Values(items), model) && table != null && table.Holds(Hashes(items))
      && table.usedCount <= table.usedThreshold && table.tombstoneCount <= table.tombstoneThreshold + 1
      && (table.buckets == 1 || 8 * table.buckets <= 4 * (|items| + 1))
    }

    /** The deletion in stbds_hmdel_key: the last item takes the place of the deleted one. */
    method RemoveAt(slot: nat)
      requires Valid() && table != null && slot < 8 * table.buckets && 0 <= table.index[slot] < |items|
      modifies this, Footprint()
      ensures AlmostValid() && table == old(table)
      ensures var i := old(table.index[slot]);
              items == Without(old(items), i)
              && model == old(model) - {old(items)[i].key}
    {
      ghost var was := items;
      var i := table.index[slot];
      WithoutItem(items, i);
      WithoutMap(Keys(items), Values(items), model, i);
      Unlink(slot, i, Hashes(items));
      items := items[..|items| - 1];
      model := model - {was[i].key};
      assert items == Without(was, i);
    }

    lemma WithoutItem(items: seq<Item<K, V>>, i: nat)
      requires i < |items|
      ensures var left := Without(items, i);
              && Hashes(left) == Without(Hashes(items), i)
              && Keys(left) == Without(Keys(items), i) && Values(left) == Without(Values(items), i)
    {
    }

    /** Takes item i, which the slot holds, out of the table and copies the last item into its place. */
    method Unlink(slot: nat, i: nat, ghost hk: seq<nat>)
      requires table != null && table.Valid(hk) && hk == Hashes(items) && Distinct(Keys(items))
      requires i < |items| && slot < 8 * table.buckets && table.index[slot] == i
      modifies `items, table, table.hash, table.index
      ensures items == old(items)[i := old(items)[|old(items)| - 1]]
      ensures table.Holds(Without(hk, i))
      ensures table.usedCount == old(table.usedCount) - 1 && table.tombstoneCount == old(table.tombstoneCount) + 1
    {
      assert table.index[..][slot] == i;
      var finalIndex := |items| - 1;
      table.Clear(slot, hk);
      if i != finalIndex {
        FillGap(i, hk);
      } else {
        LastDropped(table.hash[..], table.index[..], hk, table.buckets);
        assert items == old(items)[i := old(items)[|old(items)| - 1]];
      }
    }

    /** The swap of stbds_hmdel_key, after item i has left the table. */
    method FillGap(i: nat, ghost hk: seq<nat>)
      requires table != null && table.Stores(hk) && table.Taken() < 8 * table.buckets && hk == Hashes(items)
               && Distinct(Keys(items))
      requires i < |items| - 1 && i !in table.index[..] && forall j | 0 <= j < |items| && j != i :: j in table.index[..]
      modifies `items, table.index
      ensures items == old(items)[i := old(items)[|old(items)| - 1]]
      ensures table.Stores(Without(hk, i)) && Full(table.index[..], |hk| - 1)
      ensures forall kind :: Count(table.index[..], kind) == old(Count(table.index[..], kind))
    {
      LastIsAlone(items, i);
      items := items[i := items[|items| - 1]];
      assert Hashes(items) == hk[i := hk[|hk| - 1]];
      MoveLast(i, hk);
    }

    lemma LastIsAlone(items: seq<Item<K, V>>, i: nat)
      requires Distinct(Keys(items)) && i < |items| - 1
      ensures var items' := items[i := items[|items| - 1]];
              forall j | 0 <= j < |items| && j != i && items'[j].key == items'[i].key :: j == |items| - 1
    {
      var keys := Keys(items);
      assert forall j | 0 <= j < |items| && keys[j] == keys[|items| - 1] :: j == |items| - 1;
    }

    /** The slot of the last item is found by its key, which is now at index i too, and says i from then on. */
    method MoveLast(i: nat, ghost hk: seq<nat>)
      requires table != null && table.Stores(hk) && table.Taken() < 8 * table.buckets && |hk| == |items|
               && i < |items| - 1
      requires Hashes(items) == hk[i := hk[|hk| - 1]] && items[i] == items[|items| - 1]
      requires i !in table.index[..] && |items| - 1 in table.index[..]
      requires forall j | 0 <= j < |items| && j != i && items[j].key == items[i].key :: j == |items| - 1
      modifies table.index
      ensures table.Stores(Without(hk, i)) && forall kind ::
              Count(table.index[..], kind) == old(Count(table.index[..], kind))
      ensures forall j | j >= 0 :: j in table.index[..] <==> (j in old(table.index[..]) && j != |hk| - 1) || j == i
    {
      ItemOverwritten(table.hash[..], table.index[..], hk, table.buckets, i, hk[|hk| - 1]);
      var slot := table.FindSlot(items, HashOf(items[i].key), items[i].key, Hashes(items));
      assert table.index[..][slot] == table.index[slot];
      table.Redirect(slot, i, hk);
    }

    /** The end of stbds_hmdel_key: a table that has become too empty, or has too many tombstones, is built anew. */
    method ShrinkOrRebuild()
      requires AlmostValid()
      modifies `table
      ensures Valid() && items == old(items) && model == old(model) && (table == old(table) || fresh(Footprint()))
      ensures table != null && Halved(old(table), table, |items|)
    {
      if table.usedCount < table.shrinkThreshold && table.buckets > 1 {
        Rebuild(table.buckets / 2);
      } else if table.tombstoneCount > table.tombstoneThreshold {
        Rebuild(table.buckets);
      }
    }
  }
}
