/**
 * `PersistentCache<T>` (src/cache.ts): a key -> {value, timestamp} store with a
 * dirty flag and a size-bounded prune that runs when the cache is saved.
 *
 * The JavaScript `Map` is modelled by two fields: `entries`, the key -> entry
 * mapping, and `order`, the Map's iteration (insertion) order. `Date.now()` is
 * the `now` parameter of `Get` and `Set`, and the exact serialized byte size
 * (`getSerializedSize`) is the abstract function `measure` of the mapping.
 */
module Cache {
  import opened Js

  /** A stored value and the clock reading of its last `get` or `set`. */
  datatype Entry<T> = Entry(value: T, timestamp: int)

  /** One `[key, entry]` element of `Array.from(cache.entries())`. */
  type Pair<T> = (string, Entry<T>)

  // ---------------------------------------------------------------------------
  // The stable sort by timestamp used by `pruneCache`
  // ---------------------------------------------------------------------------

  predicate SortedByTimestamp<T>(s: seq<Pair<T>>)
  {
    forall i, j :: 0 <= i < j < |s| ==> s[i].1.timestamp <= s[j].1.timestamp
  }

  /** Puts `p` in front of the first element whose timestamp is not smaller. */
  function Insert<T(==)>(p: Pair<T>, s: seq<Pair<T>>): (r: seq<Pair<T>>)
    ensures multiset(r) == multiset(s) + multiset{p}
  {
    if s == [] || p.1.timestamp <= s[0].1.timestamp then [p] + s
    else
      assert s == [s[0]] + s[1..];
      [s[0]] + Insert(p, s[1..])
  }

  lemma {:induction false} InsertKeepsSorted<T>(p: Pair<T>, s: seq<Pair<T>>)
    requires SortedByTimestamp(s)
    ensures SortedByTimestamp(Insert(p, s))
  {
    if !(s == [] || p.1.timestamp <= s[0].1.timestamp) {
      var rest := Insert(p, s[1..]);
      InsertKeepsSorted(p, s[1..]);
      forall i | 0 <= i < |rest| ensures s[0].1.timestamp <= rest[i].1.timestamp {
        assert rest[i] in multiset(rest);
        if rest[i] != p {
          assert rest[i] in multiset(s[1..]);
          var j :| 0 <= j < |s[1..]| && s[1..][j] == rest[i];
          assert s[j + 1] == rest[i];
        }
      }
    }
  }

  /**
   * `entries.sort((a, b) => a[1].timestamp - b[1].timestamp)`: ascending by
   * timestamp; the sort is stable (see `SortIsStable`).
   */
  function SortByTimestamp<T(==)>(s: seq<Pair<T>>): (r: seq<Pair<T>>)
    ensures multiset(r) == multiset(s)
    ensures SortedByTimestamp(r)
  {
    if s == [] then []
    else
      assert s == [s[0]] + s[1..];
      InsertKeepsSorted(s[0], SortByTimestamp(s[1..]));
      Insert(s[0], SortByTimestamp(s[1..]))
  }

  /** The pairs of `s` whose timestamp is `t`, in their order in `s`. */
  function WithTimestamp<T>(s: seq<Pair<T>>, t: int): seq<Pair<T>>
  {
    if s == [] then []
    else (if s[0].1.timestamp == t then [s[0]] else []) + WithTimestamp(s[1..], t)
  }

  lemma {:induction false} InsertKeepsTies<T>(p: Pair<T>, s: seq<Pair<T>>, t: int)
    ensures WithTimestamp(Insert(p, s), t)
         == (if p.1.timestamp == t then [p] else []) + WithTimestamp(s, t)
  {
    if s == [] || p.1.timestamp <= s[0].1.timestamp {
      assert ([p] + s)[1..] == s;
    } else {
      var rest := Insert(p, s[1..]);
      assert ([s[0]] + rest)[1..] == rest;
      InsertKeepsTies(p, s[1..], t);
    }
  }

  /** Stability: among entries with equal timestamps the sort keeps the input order. */
  lemma {:induction false} SortIsStable<T>(s: seq<Pair<T>>, t: int)
    ensures WithTimestamp(SortByTimestamp(s), t) == WithTimestamp(s, t)
  {
    if s != [] {
      SortIsStable(s[1..], t);
      InsertKeepsTies(s[0], SortByTimestamp(s[1..]), t);
    }
  }

  // ---------------------------------------------------------------------------
  // Map contents, iteration order and the prune policy
  // ---------------------------------------------------------------------------

  /** The keys of a sequence of pairs. */
  function KeySet<T(==)>(ps: seq<Pair<T>>): set<string>
  {
    set p | p in ps :: p.0
  }

  lemma KeySetSnoc<T>(ps: seq<Pair<T>>, i: nat)
    requires i < |ps|
    ensures KeySet(ps[..i + 1]) == KeySet(ps[..i]) + {ps[i].0}
  {
    assert ps[..i + 1] == ps[..i] + [ps[i]];
  }

  /** `Array.from(cache.entries())`: the pairs in the Map's iteration order. */
  function PairsOf<T>(order: seq<string>, m: map<string, Entry<T>>): (r: seq<Pair<T>>)
    requires forall k :: k in order ==> k in m
    ensures |r| == |order|
    ensures forall i :: 0 <= i < |r| ==> r[i] == (order[i], m[order[i]])
  {
    seq(|order|, i requires 0 <= i < |order| => (order[i], m[order[i]]))
  }

  /** The keys of `o` that are in `keep`, in their order in `o`. */
  function Filtered(o: seq<string>, keep: set<string>): (r: seq<string>)
    ensures forall x :: x in r <==> x in o && x in keep
    ensures Distinct(o) ==> Distinct(r)
  {
    if o == [] then []
    else
      var rest := Filtered(o[1..], keep);
      assert o == [o[0]] + o[1..];
      if o[0] in keep then [o[0]] + rest else rest
  }

  lemma {:induction false} FilteredKeepingAll(o: seq<string>, keep: set<string>)
    requires forall x :: x in o ==> x in keep
    ensures Filtered(o, keep) == o
  {
    if o != [] {
      FilteredKeepingAll(o[1..], keep);
      assert o == [o[0]] + o[1..];
    }
  }

  lemma FilteredRestriction<T>(o: seq<string>, m0: map<string, Entry<T>>, m: map<string, Entry<T>>)
    requires Distinct(o) && (forall k :: k in o <==> k in m0) && m.Keys <= m0.Keys
    ensures Distinct(Filtered(o, m.Keys))
    ensures forall k :: k in Filtered(o, m.Keys) <==> k in m
  {
  }

  lemma {:induction false} FilteredTwice(o: seq<string>, a: set<string>, b: set<string>)
    requires b <= a
    ensures Filtered(Filtered(o, a), b) == Filtered(o, b)
  {
    if o != [] {
      FilteredTwice(o[1..], a, b);
      if o[0] in a {
        assert Filtered(o, a) == [o[0]] + Filtered(o[1..], a);
        assert ([o[0]] + Filtered(o[1..], a))[1..] == Filtered(o[1..], a);
      }
    }
  }

  /**
   * The number of entries `pruneCache` deletes when it walks `victims` from
   * position `i` on, having deleted `victims[..i]` from `m` already: it stops
   * right after the first deletion that brings the size to at most `max`, or
   * when no victim is left (see `EvictCountIsFirstFit`).
   */
  function EvictCount<T(==)>(m: map<string, Entry<T>>, victims: seq<Pair<T>>, i: nat,
                             max: int, measure: map<string, Entry<T>> -> nat): (r: nat)
    requires i <= |victims|
    decreases |victims| - i
    ensures i <= r <= |victims|
  {
    if i == |victims| then i
    else if measure(m - KeySet(victims[..i + 1])) <= max then i + 1
    else EvictCount(m, victims, i + 1, max, measure)
  }

  /**
   * The walk deletes at least one entry when one is left, every shorter walk
   * leaves the size above `max`, and it ends within `max` unless every victim
   * was deleted.
   */
  lemma {:induction false} EvictCountIsFirstFit<T>(m: map<string, Entry<T>>, victims: seq<Pair<T>>, i: nat,
                                                  max: int, measure: map<string, Entry<T>> -> nat)
    requires i <= |victims|
    decreases |victims| - i
    ensures var r := EvictCount(m, victims, i, max, measure);
      && (r == i <==> i == |victims|)
      && (forall j :: i < j < r ==> measure(m - KeySet(victims[..j])) > max)
      && (r < |victims| ==> measure(m - KeySet(victims[..r])) <= max)
  {
    if i < |victims| && measure(m - KeySet(victims[..i + 1])) > max {
      EvictCountIsFirstFit(m, victims, i + 1, max, measure);
    }
  }

  /**
   * What the deletion walk leaves of `m` when it deletes the keys of `victims`
   * in turn, stopping right after the first deletion that brings the size to
   * at most `max`.
   */
  function Evicted<T(==)>(m: map<string, Entry<T>>, victims: seq<Pair<T>>, max: int,
                          measure: map<string, Entry<T>> -> nat): (r: map<string, Entry<T>>)
    ensures r.Keys <= m.Keys
    ensures forall k :: k in r ==> r[k] == m[k]
    ensures victims != [] ==> victims[0].0 !in r
  {
    if victims == [] then m
    else
      var m' := m - {victims[0].0};
      if measure(m') <= max then m' else Evicted(m', victims[1..], max, measure)
  }

  /** The walk from position `i` removes the prefix of length `EvictCount`. */
  lemma {:induction false} EvictedIsPrefix<T>(m: map<string, Entry<T>>, victims: seq<Pair<T>>, i: nat,
                                              max: int, measure: map<string, Entry<T>> -> nat)
    requires i <= |victims|
    decreases |victims| - i
    ensures Evicted(m - KeySet(victims[..i]), victims[i..], max, measure)
         == m - KeySet(victims[..EvictCount(m, victims, i, max, measure)])
  {
    if i < |victims| {
      KeySetSnoc(victims, i);
      assert (m - KeySet(victims[..i])) - {victims[i].0} == m - KeySet(victims[..i + 1]);
      assert victims[i..][0] == victims[i];
      assert victims[i..][1..] == victims[i + 1..];
      EvictedIsPrefix(m, victims, i + 1, max, measure);
    }
  }

  /** The whole walk removes the prefix of length `EvictCount` from position 0. */
  lemma EvictedFromStart<T>(m: map<string, Entry<T>>, victims: seq<Pair<T>>,
                            max: int, measure: map<string, Entry<T>> -> nat)
    ensures Evicted(m, victims, max, measure)
         == m - KeySet(victims[..EvictCount(m, victims, 0, max, measure)])
  {
    EvictedIsPrefix(m, victims, 0, max, measure);
    assert victims[..0] == [] && victims[0..] == victims;
    assert m - KeySet(victims[..0]) == m;
  }

  /** The oldest-first deletion order `pruneCache` walks. */
  function Oldest<T(==)>(order: seq<string>, m: map<string, Entry<T>>): seq<Pair<T>>
    requires forall k :: k in order ==> k in m
  {
    SortByTimestamp(PairsOf(order, m))
  }

  /** The contents after `pruneIfNeeded`. */
  function Pruned<T(==)>(m: map<string, Entry<T>>, order: seq<string>, max: int,
                         measure: map<string, Entry<T>> -> nat): (r: map<string, Entry<T>>)
    requires forall k :: k in order ==> k in m
    ensures r.Keys <= m.Keys
    ensures forall k :: k in r ==> r[k] == m[k]
    ensures max <= 0 || measure(m) <= max ==> r == m
  {
    if max <= 0 || measure(m) <= max then m
    else
      Evicted(m, Oldest(order, m), max, measure)
  }

  lemma OldestCoversAll<T>(order: seq<string>, m: map<string, Entry<T>>)
    requires forall k :: k in order <==> k in m
    ensures KeySet(Oldest(order, m)) == m.Keys
    ensures forall p :: p in Oldest(order, m) ==> p.0 in m && m[p.0] == p.1
  {
    var ps := PairsOf(order, m);
    var victims := Oldest(order, m);
    forall p | p in victims ensures p in ps {
      assert p in multiset(victims);
    }
    forall k | k in m ensures k in KeySet(victims) {
      var i :| 0 <= i < |order| && order[i] == k;
      assert ps[i] in multiset(ps);
      assert ps[i] in victims;
    }
  }

  /** After a prune with a positive ceiling, the size is within it or the cache is empty. */
  lemma PruneFitsOrEmpties<T>(m: map<string, Entry<T>>, order: seq<string>, max: int,
                                  measure: map<string, Entry<T>> -> nat)
    requires forall k :: k in order <==> k in m
    requires max > 0
    ensures var r := Pruned(m, order, max, measure); measure(r) <= max || r == map[]
  {
    if measure(m) > max {
      var victims := Oldest(order, m);
      var k := EvictCount(m, victims, 0, max, measure);
      EvictedFromStart(m, victims, max, measure);
      EvictCountIsFirstFit(m, victims, 0, max, measure);
      if k == |victims| {
        OldestCoversAll(order, m);
        assert victims[..k] == victims;
        assert (m - KeySet(victims)).Keys == {};
      }
    }
  }

  /** In a timestamp-sorted deletion order, a deleted prefix is never younger than the rest. */
  lemma RemovedPrefixIsOldest<T>(m: map<string, Entry<T>>, victims: seq<Pair<T>>, k: nat)
    requires k <= |victims|
    requires SortedByTimestamp(victims)
    requires KeySet(victims) == m.Keys
    requires forall p :: p in victims ==> p.0 in m && m[p.0] == p.1
    ensures forall g, s :: g in KeySet(victims[..k]) && s in m && s !in KeySet(victims[..k]) ==>
              m[g].timestamp <= m[s].timestamp
  {
    forall g, s | g in KeySet(victims[..k]) && s in m && s !in KeySet(victims[..k])
      ensures m[g].timestamp <= m[s].timestamp
    {
      var pg :| pg in victims[..k] && pg.0 == g;
      var a :| 0 <= a < k && victims[a] == pg;
      var ps :| ps in victims && ps.0 == s;
      var b :| 0 <= b < |victims| && victims[b] == ps;
    }
  }

  /** Every entry the prune deletes is at least as old as every entry it keeps. */
  lemma PruneEvictsOldestFirst<T>(m: map<string, Entry<T>>, order: seq<string>, max: int,
                                  measure: map<string, Entry<T>> -> nat)
    requires forall k :: k in order <==> k in m
    ensures var r := Pruned(m, order, max, measure);
      forall g, s :: g in m && g !in r && s in r ==> m[g].timestamp <= m[s].timestamp
  {
    if !(max <= 0 || measure(m) <= max) {
      var victims := Oldest(order, m);
      var k := EvictCount(m, victims, 0, max, measure);
      EvictedFromStart(m, victims, max, measure);
      OldestCoversAll(order, m);
      RemovedPrefixIsOldest(m, victims, k);
    }
  }

  // ---------------------------------------------------------------------------
  // The cache object
  // ---------------------------------------------------------------------------

  class PersistentCache<T(==)> {
    /** `cache`: key -> {value, timestamp}. */
    var entries: map<string, Entry<T>>
    /** Iteration order of the `cache` Map (insertion order of the live keys). */
    var order: seq<string>
    var dirty: bool
    var currentSizeBytes: int
    const filePath: string
    const maxSizeBytes: int
    /** Byte length of `JSON.stringify` of the contents. */
    const measure: map<string, Entry<T>> -> nat

    ghost predicate Valid()
      reads this
    {
      Distinct(order) && (forall k :: k in order <==> k in entries)
    }

    /** A fresh cache; loading from `filePath` is not part of the model. */
    constructor (filePath: string, maxSizeBytes: int, measure: map<string, Entry<T>> -> nat)
      ensures Valid()
      ensures entries == map[] && order == [] && !dirty && currentSizeBytes == 0
      ensures this.filePath == filePath && this.maxSizeBytes == maxSizeBytes
      ensures this.measure == measure
    {
      this.filePath := filePath;
      this.maxSizeBytes := maxSizeBytes;
      this.measure := measure;
      entries := map[];
      order := [];
      dirty := false;
      currentSizeBytes := 0;
    }

    /** `get`: a hit refreshes the entry's timestamp and marks the cache dirty. */
    method Get(key: string, now: int) returns (r: Option<T>)
      requires Valid()
      modifies this
      ensures Valid()
      ensures key in old(entries) ==>
        && r == Some(old(entries)[key].value)
        && entries == old(entries)[key := Entry(old(entries)[key].value, now)]
        && dirty
      ensures key !in old(entries) ==> r == None && entries == old(entries) && dirty == old(dirty)
      ensures order == old(order) && currentSizeBytes == old(currentSizeBytes)
    {
      if key in entries {
        var entry := entries[key];
        entries := entries[key := entry.(timestamp := now)];
        dirty := true;
        return Some(entry.value);
      }
      return None;
    }

    /** `set`: inserts or overwrites with the current time; a new key goes last. */
    method Set(key: string, value: T, now: int)
      requires Valid()
      modifies this
      ensures Valid()
      ensures entries == old(entries)[key := Entry(value, now)] && dirty
      ensures order == if key in old(entries) then old(order) else old(order) + [key]
      ensures |entries| == |old(entries)| + (if key in old(entries) then 0 else 1)
      ensures currentSizeBytes == old(currentSizeBytes)
    {
      if key !in entries {
        order := order + [key];
      }
      entries := entries[key := Entry(value, now)];
      dirty := true;
    }

    /** `has`: a presence check that changes nothing. */
    method Has(key: string) returns (b: bool)
      ensures b <==> key in entries
    {
      b := key in entries;
    }

    /** `size`: the number of entries, changing nothing. */
    method Size() returns (n: nat)
      requires Valid()
      ensures n == |entries|
      ensures n == |order|
    {
      n := |order|;
      SizeIsOrderLength(order, entries);
    }

    /**
     * `saveToFile`: nothing happens without a file path or when nothing changed;
     * otherwise prune (positive ceiling only) and write, which either succeeds
     * (`writeOk`, the dirty flag is cleared) or is caught and logged.
     */
    method SaveToFile(writeOk: bool)
      requires Valid()
      modifies this
      ensures Valid()
      ensures filePath == "" || !old(dirty) ==>
        && entries == old(entries) && order == old(order)
        && dirty == old(dirty) && currentSizeBytes == old(currentSizeBytes)
      ensures filePath != "" && old(dirty) ==>
        && entries == Pruned(old(entries), old(order), maxSizeBytes, measure)
        && order == Filtered(old(order), entries.Keys)
        && dirty == !writeOk
        && currentSizeBytes == (if writeOk then measure(entries) else old(currentSizeBytes))
    {
      if filePath == "" || !dirty {
        return;
      }
      if maxSizeBytes > 0 {
        PruneIfNeeded();
      } else {
        FilteredKeepingAll(order, entries.Keys);
      }
      if writeOk {
        currentSizeBytes := measure(entries);
        dirty := false;
      }
    }

    /** `pruneIfNeeded`: prunes only when the ceiling is positive and exceeded. */
    method PruneIfNeeded()
      requires Valid()
      modifies this
      ensures Valid()
      ensures entries == Pruned(old(entries), old(order), maxSizeBytes, measure)
      ensures order == Filtered(old(order), entries.Keys)
      ensures dirty == old(dirty) && currentSizeBytes == old(currentSizeBytes)
    {
      FilteredKeepingAll(order, entries.Keys);
      if maxSizeBytes <= 0 {
        return;
      }
      var currentSize := measure(entries);
      if currentSize > maxSizeBytes {
        PruneCache(currentSize);
      }
    }

    /** `cache.delete(key)`: the key leaves the mapping and the iteration order. */
    method Delete(key: string)
      modifies this
      ensures entries == old(entries) - {key}
      ensures order == Filtered(old(order), entries.Keys)
      ensures dirty == old(dirty) && currentSizeBytes == old(currentSizeBytes)
    {
      entries := entries - {key};
      order := Filtered(order, entries.Keys);
    }

    /**
     * `pruneCache`: deletes entries oldest first, measuring after each
     * deletion, until the size is within the ceiling or nothing is left.
     * `currentSize` only feeds the log lines, which are not modelled.
     */
    method PruneCache(currentSize: int)
      requires Valid()
      modifies this
      ensures Valid()
      ensures maxSizeBytes <= 0 ==> entries == old(entries)
      ensures maxSizeBytes > 0 ==>
        entries == Evicted(old(entries), Oldest(old(order), old(entries)), maxSizeBytes, measure)
      ensures order == Filtered(old(order), entries.Keys)
      ensures dirty == old(dirty) && currentSizeBytes == old(currentSizeBytes)
    {
      ghost var m0, o0 := entries, order;
      if maxSizeBytes <= 0 {
        FilteredKeepingAll(order, entries.Keys);
        return;
      }
      EvictInOrder(Oldest(order, entries));
      FilteredRestriction(o0, m0, entries);
    }

    /**
     * The loop of `pruneCache`: deletes the keys of `victims` in turn and
     * stops as soon as the measured size is within the ceiling.
     */
    method EvictInOrder(victims: seq<Pair<T>>)
      requires forall k :: k in order ==> k in entries
      modifies this
      ensures entries == Evicted(old(entries), victims, maxSizeBytes, measure)
      ensures order == Filtered(old(order), entries.Keys)
      ensures dirty == old(dirty) && currentSizeBytes == old(currentSizeBytes)
    {
      ghost var m0, o0 := entries, order;
      FilteredKeepingAll(order, entries.Keys);
      var i := 0;
      while i < |victims|
        invariant 0 <= i <= |victims|
        invariant Evicted(entries, victims[i..], maxSizeBytes, measure)
               == Evicted(m0, victims, maxSizeBytes, measure)
        invariant order == Filtered(o0, entries.Keys)
        invariant dirty == old(dirty) && currentSizeBytes == old(currentSizeBytes)
      {
        var key := victims[i].0;
        assert victims[i..][0] == victims[i];
        assert victims[i..][1..] == victims[i + 1..];
        FilteredTwice(o0, entries.Keys, (entries - {key}).Keys);
        Delete(key);
        i := i + 1;
        var newSize := measure(entries);
        if newSize <= maxSizeBytes {
          return;
        }
      }
    }
  }

  lemma {:induction false} SizeIsOrderLength<T>(order: seq<string>, m: map<string, Entry<T>>)
    requires Distinct(order) && forall k :: k in order <==> k in m
    ensures |m| == |order|
  {
    if order == [] {
      assert m.Keys == {};
    } else {
      var last := order[|order| - 1];
      var rest := order[..|order| - 1];
      var m' := m - {last};
      assert last !in rest;
      forall k ensures k in rest <==> k in m' {
        assert order == rest + [last];
      }
      SizeIsOrderLength(rest, m');
      assert m'.Keys == m.Keys - {last};
    }
  }
}
