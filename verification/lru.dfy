/** The fixed-capacity least-recently-used map the service caches file contents in.
    Entries are kept in recency order, least recent first; `get` promotes a hit to most
    recent, `put` replaces or inserts, evicting the least recent entry when full. */
module Lru {
  import opened Io

  /** A capacity is never zero (`NonZeroUsize`). */
  type Capacity = n: nat | n > 0 witness 1

  datatype Slot<K, V> = Slot(key: K, value: V)

  /** No key occurs twice. */
  predicate Distinct<K(==), V>(es: seq<Slot<K, V>>)
  {
    forall i, j :: 0 <= i < j < |es| ==> es[i].key != es[j].key
  }

  /** The cache invariant: distinct keys, at most `cap` of them. */
  predicate Fits<K(==), V>(es: seq<Slot<K, V>>, cap: Capacity)
  {
    Distinct(es) && |es| <= cap
  }

  /** The value stored under `k`, if any: a hit is a slot of `es`, a miss means no slot has the key. */
  function Lookup<K(==), V>(es: seq<Slot<K, V>>, k: K): (r: Option<V>)
    ensures r.Some? ==> Slot(k, r.value) in es
    ensures r.None? ==> forall i :: 0 <= i < |es| ==> es[i].key != k
  {
    if es == [] then None
    else if es[0].key == k then Some(es[0].value)
    else Lookup(es[1..], k)
  }

  /** The entries without the one for `k`, the others in their order. */
  function Remove<K(==), V>(es: seq<Slot<K, V>>, k: K): (r: seq<Slot<K, V>>)
    ensures |r| <= |es|
    ensures |r| == |es| <==> forall i :: 0 <= i < |es| ==> es[i].key != k
    ensures forall i :: 0 <= i < |r| ==> r[i] in es && r[i].key != k
  {
    if es == [] then []
    else if es[0].key == k then Remove(es[1..], k)
    else [es[0]] + Remove(es[1..], k)
  }

  /** `get`: a present key moves to the most-recent end; a miss changes nothing. */
  function Promote<K(==), V>(es: seq<Slot<K, V>>, k: K): (r: seq<Slot<K, V>>)
    ensures |r| <= |es|
    ensures Lookup(r, k) == Lookup(es, k)
    ensures Lookup(es, k).None? ==> r == es
  {
    match Lookup(es, k)
    case None => es
    case Some(v) =>
      LookupRemove(es, k, k);
      LookupAppend(Remove(es, k), k, v, k);
      Remove(es, k) + [Slot(k, v)]
  }

  /** `put`: a present key is replaced and becomes most recent; a new key is appended
      as most recent, after dropping the least recent entry when the cache is full. */
  function Insert<K(==), V>(es: seq<Slot<K, V>>, cap: Capacity, k: K, v: V): (r: seq<Slot<K, V>>)
    ensures |es| <= cap ==> |r| <= cap
    ensures Lookup(r, k) == Some(v)
  {
    if Lookup(es, k).Some? then
      LookupRemove(es, k, k);
      LookupAppend(Remove(es, k), k, v, k);
      Remove(es, k) + [Slot(k, v)]
    else if |es| == cap then
      LookupAbsent(es[1..], k);
      LookupAppend(es[1..], k, v, k);
      es[1..] + [Slot(k, v)]
    else
      LookupAppend(es, k, v, k);
      es + [Slot(k, v)]
  }

  lemma {:induction false} LookupRemove<K, V>(es: seq<Slot<K, V>>, k: K, k': K)
    ensures Lookup(Remove(es, k), k') == if k' == k then None else Lookup(es, k')
  {
    if es != [] {
      LookupRemove(es[1..], k, k');
      if es[0].key != k {
        assert ([es[0]] + Remove(es[1..], k))[1..] == Remove(es[1..], k);
      }
    }
  }

  lemma {:induction false} LookupAppend<K, V>(es: seq<Slot<K, V>>, k: K, v: V, k': K)
    ensures Lookup(es + [Slot(k, v)], k') ==
      if Lookup(es, k').Some? then Lookup(es, k') else if k' == k then Some(v) else None
  {
    if es == [] {
      assert es + [Slot(k, v)] == [Slot(k, v)];
      assert [Slot(k, v)][1..] == [];
    } else {
      assert (es + [Slot(k, v)])[1..] == es[1..] + [Slot(k, v)];
      LookupAppend(es[1..], k, v, k');
    }
  }

  /** A key at no position is not found. */
  lemma {:induction false} LookupAbsent<K, V>(es: seq<Slot<K, V>>, k: K)
    requires forall i :: 0 <= i < |es| ==> es[i].key != k
    ensures Lookup(es, k) == None
  {
    if es != [] {
      LookupAbsent(es[1..], k);
    }
  }

  /** Removing keeps the remaining keys distinct, drops `k`, and shortens by one exactly when `k` was there. */
  lemma {:induction false} RemoveShape<K, V>(es: seq<Slot<K, V>>, k: K)
    requires Distinct(es)
    ensures Distinct(Remove(es, k))
    ensures forall i :: 0 <= i < |Remove(es, k)| ==> Remove(es, k)[i].key != k
    ensures |Remove(es, k)| == if Lookup(es, k).Some? then |es| - 1 else |es|
    ensures forall i :: 0 <= i < |Remove(es, k)| ==> Remove(es, k)[i] in es
  {
    if es != [] {
      RemoveShape(es[1..], k);
      if es[0].key == k {
        assert forall i :: 0 <= i < |es[1..]| ==> es[1..][i].key != k;
        LookupAbsent(es[1..], k);
      } else {
        var r := Remove(es[1..], k);
        forall i | 0 <= i < |r| ensures r[i].key != es[0].key {
          var j :| 0 <= j < |es[1..]| && es[1..][j] == r[i];
          assert es[j + 1] == r[i];
        }
      }
    }
  }

  /** `r[i]` is the entry of `es` at position `idx[i]`, and none of them is keyed `k`. */
  ghost predicate Picked<K, V>(es: seq<Slot<K, V>>, k: K, r: seq<Slot<K, V>>, idx: seq<nat>)
  {
    |idx| == |r| && forall i :: 0 <= i < |idx| ==> idx[i] < |es| && es[idx[i]] == r[i] && es[idx[i]].key != k
  }

  ghost predicate Increasing(idx: seq<nat>)
  {
    forall i, j :: 0 <= i < j < |idx| ==> idx[i] < idx[j]
  }

  /** Every position of `es` whose key is not `k` is among `idx`. */
  ghost predicate Covers<K, V>(es: seq<Slot<K, V>>, k: K, idx: seq<nat>)
  {
    forall a :: 0 <= a < |es| && es[a].key != k ==> a in idx
  }

  /** `r` is `es` with the entries keyed `k` dropped and the others kept in their order:
      `r[i]` is `es[idx[i]]`, the positions `idx` strictly increase, and they are exactly
      the positions of `es` whose key is not `k`. */
  ghost predicate KeptInOrder<K, V>(es: seq<Slot<K, V>>, k: K, r: seq<Slot<K, V>>, idx: seq<nat>)
  {
    Picked(es, k, r, idx) && Increasing(idx) && Covers(es, k, idx)
  }

  /** The positions `idx` shifted by one, with position 0 in front when the first entry is kept. */
  function Shifted(idx: seq<nat>, keepFirst: bool): (r: seq<nat>)
    ensures |r| == |idx| + (if keepFirst then 1 else 0)
  {
    var off := if keepFirst then 1 else 0;
    seq(|idx| + off, i requires 0 <= i < |idx| + off => if i < off then 0 else idx[i - off] + 1)
  }

  lemma PickedStep<K, V>(es: seq<Slot<K, V>>, k: K, r: seq<Slot<K, V>>, idx: seq<nat>)
    requires es != [] && Picked(es[1..], k, r, idx)
    ensures Picked(es, k, if es[0].key == k then r else [es[0]] + r, Shifted(idx, es[0].key != k))
  {
    var keep := es[0].key != k;
    var off := if keep then 1 else 0;
    var r' := if keep then [es[0]] + r else r;
    var idx' := Shifted(idx, keep);
    forall i | 0 <= i < |idx'|
      ensures idx'[i] < |es| && es[idx'[i]] == r'[i] && es[idx'[i]].key != k
    {
      if i >= off {
        assert idx'[i] == idx[i - off] + 1 && r'[i] == r[i - off];
        assert es[idx'[i]] == es[1..][idx[i - off]];
      }
    }
  }

  lemma IncreasingStep(idx: seq<nat>, keep: bool)
    requires Increasing(idx)
    ensures Increasing(Shifted(idx, keep))
  {
    var off := if keep then 1 else 0;
    var idx' := Shifted(idx, keep);
    forall i, j | 0 <= i < j < |idx'| ensures idx'[i] < idx'[j] {
      assert idx'[j] == idx[j - off] + 1;
      if i >= off {
        assert idx'[i] == idx[i - off] + 1;
        assert idx[i - off] < idx[j - off];
      }
    }
  }

  lemma CoversStep<K, V>(es: seq<Slot<K, V>>, k: K, idx: seq<nat>)
    requires es != [] && Covers(es[1..], k, idx)
    ensures Covers(es, k, Shifted(idx, es[0].key != k))
  {
    var keep := es[0].key != k;
    var off := if keep then 1 else 0;
    var idx' := Shifted(idx, keep);
    forall a | 0 <= a < |es| && es[a].key != k ensures a in idx' {
      if a == 0 {
        assert idx'[0] == 0;
      } else {
        assert es[1..][a - 1] == es[a];
        assert a - 1 in idx;
        var i :| 0 <= i < |idx| && idx[i] == a - 1;
        assert idx'[i + off] == a;
      }
    }
  }

  /** `Remove` keeps the other entries in their order and drops nothing else. */
  lemma {:induction false} RemoveKeepsOrder<K, V>(es: seq<Slot<K, V>>, k: K) returns (idx: seq<nat>)
    ensures KeptInOrder(es, k, Remove(es, k), idx)
  {
    if es == [] {
      idx := [];
    } else {
      var rest := RemoveKeepsOrder(es[1..], k);
      PickedStep(es, k, Remove(es[1..], k), rest);
      IncreasingStep(rest, es[0].key != k);
      CoversStep(es, k, rest);
      idx := Shifted(rest, es[0].key != k);
    }
  }

  /** After a hit, the entries other than the promoted one are `Remove(es, k)`, in their old order. */
  lemma PromoteKeepsOrder<K, V>(es: seq<Slot<K, V>>, k: K)
    requires Lookup(es, k).Some?
    ensures Promote(es, k)[..|Promote(es, k)| - 1] == Remove(es, k)
  {
    assert (Remove(es, k) + [Slot(k, Lookup(es, k).value)])[..|Remove(es, k)|] == Remove(es, k);
  }

  /** Before its new last entry, `put` leaves `Remove(es, k)` when the key was present,
      `es` without its least recent entry when a new key meets a full cache, and `es` otherwise. */
  lemma InsertKeepsOrder<K, V>(es: seq<Slot<K, V>>, cap: Capacity, k: K, v: V)
    ensures Insert(es, cap, k, v)[..|Insert(es, cap, k, v)| - 1] ==
      if Lookup(es, k).Some? then Remove(es, k)
      else if |es| == cap then es[1..]
      else es
  {
    var pre := if Lookup(es, k).Some? then Remove(es, k) else if |es| == cap then es[1..] else es;
    assert Insert(es, cap, k, v) == pre + [Slot(k, v)];
    assert (pre + [Slot(k, v)])[..|pre|] == pre;
  }

  /** Appending a key absent from a distinct list keeps the keys distinct. */
  lemma AppendDistinct<K, V>(es: seq<Slot<K, V>>, k: K, v: V)
    requires Distinct(es)
    requires forall i :: 0 <= i < |es| ==> es[i].key != k
    ensures Distinct(es + [Slot(k, v)])
  {
  }

  /** `put` keeps the cache invariant: keys stay distinct and never exceed the capacity. */
  lemma InsertFits<K, V>(es: seq<Slot<K, V>>, cap: Capacity, k: K, v: V)
    requires Fits(es, cap)
    ensures Fits(Insert(es, cap, k, v), cap)
  {
    if Lookup(es, k).Some? {
      RemoveShape(es, k);
      AppendDistinct(Remove(es, k), k, v);
    } else {
      if |es| == cap {
        AppendDistinct(es[1..], k, v);
      } else {
        AppendDistinct(es, k, v);
      }
    }
  }

  /** `get` keeps the cache invariant and the same key-value pairs: only the order changes. */
  lemma PromoteKeepsContents<K, V>(es: seq<Slot<K, V>>, cap: Capacity, k: K, k': K)
    requires Fits(es, cap)
    ensures Fits(Promote(es, k), cap)
    ensures Lookup(Promote(es, k), k') == Lookup(es, k')
  {
    match Lookup(es, k)
    case None =>
    case Some(v) =>
      RemoveShape(es, k);
      AppendDistinct(Remove(es, k), k, v);
      LookupAppend(Remove(es, k), k, v, k');
      LookupRemove(es, k, k');
  }

  /** After a hit, the key is the most recent entry. */
  lemma PromoteMakesMostRecent<K, V>(es: seq<Slot<K, V>>, k: K)
    requires Lookup(es, k).Some?
    ensures |Promote(es, k)| > 0 && Promote(es, k)[|Promote(es, k)| - 1] == Slot(k, Lookup(es, k).value)
  {
  }

  /** After `put`, the key maps to the new value and is the most recent entry. */
  lemma InsertStores<K, V>(es: seq<Slot<K, V>>, cap: Capacity, k: K, v: V)
    requires Fits(es, cap)
    ensures Lookup(Insert(es, cap, k, v), k) == Some(v)
    ensures Insert(es, cap, k, v)[|Insert(es, cap, k, v)| - 1] == Slot(k, v)
  {
  }

  /** `put` leaves every other key as it was, except that inserting a new key into a full
      cache evicts the least recent entry, which is then gone. */
  lemma InsertKeepsOthers<K, V>(es: seq<Slot<K, V>>, cap: Capacity, k: K, v: V, k': K)
    requires Fits(es, cap)
    requires k' != k
    ensures Lookup(Insert(es, cap, k, v), k') ==
      if Lookup(es, k).None? && |es| == cap && es[0].key == k' then None else Lookup(es, k')
  {
    if Lookup(es, k).Some? {
      LookupAppend(Remove(es, k), k, v, k');
      LookupRemove(es, k, k');
    } else if |es| == cap {
      LookupAppend(es[1..], k, v, k');
      if es[0].key == k' {
        forall i | 0 <= i < |es[1..]| ensures es[1..][i].key != k' {
          assert es[1..][i] == es[i + 1];
        }
        LookupAbsent(es[1..], k');
      } else {
        assert Lookup(es, k') == Lookup(es[1..], k');
      }
    } else {
      LookupAppend(es, k, v, k');
    }
  }

  /** `LruCache<K, V>`: a recency-ordered list of entries with a fixed capacity. */
  class LruCache<K(==), V> {
    const cap: Capacity
    var entries: seq<Slot<K, V>>

    ghost predicate Valid()
      reads this
    {
      Fits(entries, cap)
    }

    /** `LruCache::new(cap)`: an empty cache. */
    constructor (cap: Capacity)
      ensures Valid()
      ensures this.cap == cap && entries == []
    {
      this.cap := cap;
      entries := [];
    }

    /** `get(k)`: the value under `k`, promoting it to most recent. */
    method Get(k: K) returns (v: Option<V>)
      requires Valid()
      modifies this
      ensures Valid()
      ensures v == Lookup(old(entries), k)
      ensures entries == Promote(old(entries), k)
      ensures forall k' :: Lookup(entries, k') == Lookup(old(entries), k')
    {
      var before := entries;
      v := Lookup(entries, k);
      entries := Promote(entries, k);
      forall k' ensures Fits(entries, cap) && Lookup(entries, k') == Lookup(before, k') {
        PromoteKeepsContents(before, cap, k, k');
      }
    }

    /** `put(k, v)`: store `v` under `k` as most recent, evicting the least recent entry
        when a new key meets a full cache. */
    method Put(k: K, v: V)
      requires Valid()
      modifies this
      ensures Valid()
      ensures entries == Insert(old(entries), cap, k, v)
      ensures Lookup(entries, k) == Some(v)
    {
      InsertFits(entries, cap, k, v);
      InsertStores(entries, cap, k, v);
      entries := Insert(entries, cap, k, v);
    }
  }
}
