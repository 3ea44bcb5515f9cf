/**
 * `deepRemoveBy(obj, predicate)` of utils/common.ts: a deep copy of a
 * JSON-like value from which every entry whose key and value satisfy the
 * predicate is deleted, at every level. The predicate sees each entry as it
 * is when the loop reaches it, that is before its own contents are filtered.
 *
 * Values are immutable here, so the deep clone is the value itself and the
 * caller's object is never changed. Object keys are unique and kept in the
 * order of the fields; an array is a sequence of slots, and a deleted
 * element leaves a hole, as `delete` does on a JavaScript array.
 */
module Common {
  import opened Js

  datatype Json =
    | Null
    | Bool(b: bool)
    | Num(n: int)
    | Str(s: string)
    | Arr(items: seq<Slot>)
    | Obj(fields: seq<Field>)

  /** An array element, or the hole a `delete` leaves. */
  datatype Slot = Hole | Item(value: Json)

  datatype Field = Field(key: string, value: Json)

  /** `typeof v === "object"`: objects, arrays and `null`. */
  predicate IsObject(v: Json)
  {
    v.Null? || v.Arr? || v.Obj?
  }

  /** No two fields of an object share a key. */
  predicate UniqueKeys(fs: seq<Field>)
  {
    forall i, j :: 0 <= i < j < |fs| ==> fs[i].key != fs[j].key
  }

  /** `obj[key]` on an object: the value under `key`, if any. */
  function Lookup(fs: seq<Field>, key: string): Option<Json>
  {
    if fs == [] then None
    else if fs[|fs| - 1].key == key then Some(fs[|fs| - 1].value)
    else Lookup(fs[..|fs| - 1], key)
  }

  function Digit(d: nat): char
    requires d < 10
  {
    "0123456789"[d]
  }

  /** The decimal key under which `for ... in` hands out array index `n`. */
  function IndexKey(n: nat): string
  {
    if n < 10 then [Digit(n)] else IndexKey(n / 10) + [Digit(n % 10)]
  }

  /** `deepRemoveBy(v, predicate)`; `null` and the primitives come back as they are. */
  function Removed(v: Json, pred: (string, Json) -> bool): Json
    decreases v, 1
  {
    match v
    case Arr(items) => Arr(RemovedSlots(items, pred))
    case Obj(fields) => Obj(RemovedFields(fields, pred))
    case _ => v
  }

  /** The value a kept entry ends up with: filtered when it is an object, unchanged otherwise. */
  function Kept(v: Json, pred: (string, Json) -> bool): Json
    decreases v, 2
  {
    if IsObject(v) then Removed(v, pred) else v
  }

  /** A visited field: deleted when the predicate accepts it, else kept with its value filtered. */
  function VisitedField(f: Field, pred: (string, Json) -> bool): seq<Field>
    decreases f
  {
    if pred(f.key, f.value) then [] else [Field(f.key, Kept(f.value, pred))]
  }

  /** The slot at index `n` after its visit; a hole is not visited. */
  function VisitedSlot(n: nat, s: Slot, pred: (string, Json) -> bool): Slot
    decreases s
  {
    if s.Hole? || pred(IndexKey(n), s.value) then Hole else Item(Kept(s.value, pred))
  }

  /** The loop over the fields `fs` of an object. */
  function RemovedFields(fs: seq<Field>, pred: (string, Json) -> bool): seq<Field>
    decreases fs
  {
    if fs == [] then [] else RemovedFields(fs[..|fs| - 1], pred) + VisitedField(fs[|fs| - 1], pred)
  }

  /** The loop over the elements `items` of an array. */
  function RemovedSlots(items: seq<Slot>, pred: (string, Json) -> bool): seq<Slot>
    decreases items
  {
    if items == [] then []
    else RemovedSlots(items[..|items| - 1], pred) + [VisitedSlot(|items| - 1, items[|items| - 1], pred)]
  }

  lemma FieldsStep(fs: seq<Field>, i: nat, pred: (string, Json) -> bool)
    requires i < |fs|
    ensures RemovedFields(fs[..i + 1], pred) == RemovedFields(fs[..i], pred) + VisitedField(fs[i], pred)
  {
    assert fs[..i + 1][..i] == fs[..i];
  }

  lemma SlotsStep(items: seq<Slot>, i: nat, pred: (string, Json) -> bool)
    requires i < |items|
    ensures RemovedSlots(items[..i + 1], pred) == RemovedSlots(items[..i], pred) + [VisitedSlot(i, items[i], pred)]
    ensures |RemovedSlots(items[..i + 1], pred)| == |RemovedSlots(items[..i], pred)| + 1
  {
    assert items[..i + 1][..i] == items[..i];
  }

  /**
   * `deepRemoveBy(obj, predicate)`: the clone's entries are visited by a
   * `for ... in` loop, over the fields of an object or the elements of an
   * array.
   */
  method DeepRemoveBy(obj: Json, pred: (string, Json) -> bool) returns (r: Json)
    ensures r == Removed(obj, pred)
    decreases obj
  {
    match obj
    case Obj(fields) =>
      var out := FilterFields(fields, pred);
      r := Obj(out);
    case Arr(items) =>
      var out := FilterSlots(items, pred);
      r := Arr(out);
    case _ =>
      r := obj;
  }

  /** The state of the loop over `fields` after `i` keys: `out` is the kept prefix, then the rest as cloned. */
  ghost predicate FieldsScanned(fields: seq<Field>, pred: (string, Json) -> bool, i: nat, j: nat, out: seq<Field>)
  {
    && i <= |fields|
    && j == |RemovedFields(fields[..i], pred)|
    && out == RemovedFields(fields[..i], pred) + fields[i..]
  }

  lemma FieldsScannedStart(fields: seq<Field>, pred: (string, Json) -> bool)
    ensures FieldsScanned(fields, pred, 0, 0, fields)
  {
    assert fields[..0] == [] && fields[0..] == fields;
  }

  /** The next key sits at `out[j]`, and visiting it moves the state on by one key. */
  lemma FieldsScannedNext(fields: seq<Field>, pred: (string, Json) -> bool, i: nat, j: nat, out: seq<Field>)
    requires FieldsScanned(fields, pred, i, j, out) && i < |fields|
    ensures j < |out| && out[j] == fields[i]
    ensures FieldsScanned(fields, pred, i + 1, j + |VisitedField(out[j], pred)|,
                          out[..j] + VisitedField(out[j], pred) + out[j + 1..])
  {
    FieldsStep(fields, i, pred);
    assert fields[i..] == [fields[i]] + fields[i + 1..];
    Splice(RemovedFields(fields[..i], pred), fields[i], fields[i + 1..], VisitedField(fields[i], pred));
  }

  lemma FieldsScannedDone(fields: seq<Field>, pred: (string, Json) -> bool, j: nat, out: seq<Field>)
    requires FieldsScanned(fields, pred, |fields|, j, out)
    ensures out == RemovedFields(fields, pred)
  {
    assert fields[..|fields|] == fields;
  }

  /** The loop over an object's keys. Deleting closes the gap in `out`, so `fields[i]` sits at `out[j]`. */
  method FilterFields(fields: seq<Field>, pred: (string, Json) -> bool) returns (out: seq<Field>)
    ensures out == RemovedFields(fields, pred)
    decreases fields
  {
    out := fields;
    var i, j := 0, 0;
    FieldsScannedStart(fields, pred);
    while i < |fields|
      invariant FieldsScanned(fields, pred, i, j, out)
      decreases |fields| - i
    {
      FieldsScannedNext(fields, pred, i, j, out);
      out, j := VisitField(out, j, pred);
      i := i + 1;
    }
    FieldsScannedDone(fields, pred, j, out);
  }

  /**
   * One turn of that loop at `out[j]`: `delete` when the predicate accepts
   * the entry, otherwise an object value is replaced by its filtered copy.
   */
  method VisitField(out: seq<Field>, j: nat, pred: (string, Json) -> bool) returns (next: seq<Field>, k: nat)
    requires j < |out|
    ensures next == out[..j] + VisitedField(out[j], pred) + out[j + 1..]
    ensures k == j + |VisitedField(out[j], pred)|
    decreases out[j]
  {
    var field := out[j];
    if pred(field.key, field.value) {
      next, k := out[..j] + out[j + 1..], j;
    } else if IsObject(field.value) {
      var filtered := DeepRemoveBy(field.value, pred);
      next, k := out[j := Field(field.key, filtered)], j + 1;
    } else {
      next, k := out, j + 1;
    }
  }

  /** The state of the loop over `items` after `i` indices. */
  ghost predicate SlotsScanned(items: seq<Slot>, pred: (string, Json) -> bool, i: nat, out: seq<Slot>)
  {
    && i <= |items|
    && i == |RemovedSlots(items[..i], pred)|
    && out == RemovedSlots(items[..i], pred) + items[i..]
  }

  lemma SlotsScannedStart(items: seq<Slot>, pred: (string, Json) -> bool)
    ensures SlotsScanned(items, pred, 0, items)
  {
    assert items[..0] == [] && items[0..] == items;
  }

  lemma SlotsScannedNext(items: seq<Slot>, pred: (string, Json) -> bool, i: nat, out: seq<Slot>)
    requires SlotsScanned(items, pred, i, out) && i < |items|
    ensures i < |out| && out[i] == items[i]
    ensures SlotsScanned(items, pred, i + 1, out[..i] + [VisitedSlot(i, out[i], pred)] + out[i + 1..])
  {
    SlotsStep(items, i, pred);
    assert items[i..] == [items[i]] + items[i + 1..];
    Splice(RemovedSlots(items[..i], pred), items[i], items[i + 1..], [VisitedSlot(i, items[i], pred)]);
  }

  lemma SlotsScannedDone(items: seq<Slot>, pred: (string, Json) -> bool, out: seq<Slot>)
    requires SlotsScanned(items, pred, |items|, out)
    ensures out == RemovedSlots(items, pred)
  {
    assert items[..|items|] == items;
  }

  /** The loop over an array's indices. */
  method FilterSlots(items: seq<Slot>, pred: (string, Json) -> bool) returns (out: seq<Slot>)
    ensures out == RemovedSlots(items, pred)
    decreases items
  {
    out := items;
    SlotsScannedStart(items, pred);
    for i := 0 to |items|
      invariant SlotsScanned(items, pred, i, out)
    {
      SlotsScannedNext(items, pred, i, out);
      out := VisitSlot(out, i, pred);
    }
    SlotsScannedDone(items, pred, out);
  }

  /** One turn of that loop at index `i`: a deleted element leaves a hole. */
  method VisitSlot(out: seq<Slot>, i: nat, pred: (string, Json) -> bool) returns (next: seq<Slot>)
    requires i < |out|
    ensures next == out[..i] + [VisitedSlot(i, out[i], pred)] + out[i + 1..]
    decreases out[i]
  {
    var slot := out[i];
    next := out;
    if slot.Item? {
      var key := IndexKey(i);
      if pred(key, slot.value) {
        next := out[i := Hole];
      } else if IsObject(slot.value) {
        var filtered := DeepRemoveBy(slot.value, pred);
        next := out[i := Item(filtered)];
      }
    }
    assert next == next[..i] + [next[i]] + next[i + 1..];
  }

  /** An array keeps its length; slot `i` is a hole if it was one or the predicate accepted it, else its filtered value. */
  lemma {:induction false} RemovedSlotsAt(items: seq<Slot>, pred: (string, Json) -> bool)
    ensures |RemovedSlots(items, pred)| == |items|
    ensures forall i :: 0 <= i < |items| ==>
      RemovedSlots(items, pred)[i] == (if items[i].Hole? || pred(IndexKey(i), items[i].value) then Hole
                                       else Item(Kept(items[i].value, pred)))
    decreases |items|
  {
    if items != [] {
      RemovedSlotsAt(items[..|items| - 1], pred);
    }
  }

  lemma {:induction false} LookupAbsent(fs: seq<Field>, key: string)
    requires forall i :: 0 <= i < |fs| ==> fs[i].key != key
    ensures Lookup(fs, key) == None
    decreases |fs|
  {
    if fs != [] {
      LookupAbsent(fs[..|fs| - 1], key);
    }
  }

  /** Appending fields under other keys does not change a lookup. */
  lemma LookupPastOthers(fs: seq<Field>, more: seq<Field>, key: string)
    requires |more| <= 1 && forall f :: f in more ==> f.key != key
    ensures Lookup(fs + more, key) == Lookup(fs, key)
  {
    if more != [] {
      assert (fs + more)[..|fs + more| - 1] == fs;
    } else {
      assert fs + more == fs;
    }
  }

  /**
   * Reading a key of the result: present exactly when the key was present
   * and the predicate spared its value, and then its value is the
   * filtered copy of an object, or the same primitive.
   */
  lemma {:induction false} LookupRemoved(fs: seq<Field>, pred: (string, Json) -> bool, key: string)
    requires UniqueKeys(fs)
    ensures var before := Lookup(fs, key);
      Lookup(RemovedFields(fs, pred), key)
        == if before.Some? && !pred(key, before.value) then Some(Kept(before.value, pred)) else None
    decreases |fs|
  {
    if fs != [] {
      var init, last := fs[..|fs| - 1], fs[|fs| - 1];
      LookupRemoved(init, pred, key);
      var visited := VisitedField(last, pred);
      if last.key != key {
        LookupPastOthers(RemovedFields(init, pred), visited, key);
      } else if pred(last.key, last.value) {
        LookupAbsent(init, key);
        assert RemovedFields(init, pred) + visited == RemovedFields(init, pred);
      } else {
        var kept := RemovedFields(init, pred) + visited;
        assert kept[..|kept| - 1] == RemovedFields(init, pred);
      }
    }
  }

  /** `f` comes from a field of `fs` that the predicate spared, with that field's value filtered. */
  ghost predicate FromSpared(fs: seq<Field>, pred: (string, Json) -> bool, f: Field)
  {
    exists j :: 0 <= j < |fs| && f.key == fs[j].key && !pred(fs[j].key, fs[j].value) && f.value == Kept(fs[j].value, pred)
  }

  /** Every field of the result comes from a spared field of the input; keys stay unique. */
  lemma {:induction false} RemovedFieldsFrom(fs: seq<Field>, pred: (string, Json) -> bool)
    ensures forall f :: f in RemovedFields(fs, pred) ==> FromSpared(fs, pred, f)
    ensures UniqueKeys(fs) ==> UniqueKeys(RemovedFields(fs, pred))
    decreases |fs|
  {
    if fs != [] {
      var init, last := fs[..|fs| - 1], fs[|fs| - 1];
      RemovedFieldsFrom(init, pred);
      var before := RemovedFields(init, pred);
      var out := RemovedFields(fs, pred);
      assert out == before + VisitedField(last, pred);
      forall f | f in out ensures FromSpared(fs, pred, f) {
        if f in before {
          var j :| 0 <= j < |init| && f.key == init[j].key && !pred(init[j].key, init[j].value)
                   && f.value == Kept(init[j].value, pred);
          assert init[j] == fs[j];
        } else {
          assert f == Field(last.key, Kept(last.value, pred)) && fs[|fs| - 1] == last;
        }
      }
      if UniqueKeys(fs) {
        forall a, b | 0 <= a < b < |out| ensures out[a].key != out[b].key {
          if b >= |before| {
            assert out[a] == before[a] && out[a] in before;
            var j :| 0 <= j < |init| && before[a].key == init[j].key && !pred(init[j].key, init[j].value)
                     && before[a].value == Kept(init[j].value, pred);
            assert init[j] == fs[j] && out[b].key == fs[|fs| - 1].key;
          } else {
            assert out[a] == before[a] && out[b] == before[b];
          }
        }
      }
    }
  }

  /**
   * `r` is what may remain of `v`: at every level its keys are keys of
   * `v` whose entries the predicate spared when they were visited, and
   * whatever is not an object or array is as it was.
   */
  ghost predicate Pruned(r: Json, v: Json, pred: (string, Json) -> bool)
    decreases v
  {
    match v
    case Obj(vfs) => r.Obj? && forall f :: f in r.fields ==> PrunedFrom(f, vfs, pred)
    case Arr(vs) =>
      r.Arr? && |r.items| == |vs| && forall i :: 0 <= i < |vs| && r.items[i].Item? ==>
        vs[i].Item? && !pred(IndexKey(i), vs[i].value) && Pruned(r.items[i].value, vs[i].value, pred)
    case _ => r == v
  }

  /** The field `f` may remain of a field of `vfs` under the same key that the predicate spared. */
  ghost predicate PrunedFrom(f: Field, vfs: seq<Field>, pred: (string, Json) -> bool)
    decreases vfs
  {
    exists j :: 0 <= j < |vfs| && f.key == vfs[j].key && !pred(vfs[j].key, vfs[j].value) && Pruned(f.value, vfs[j].value, pred)
  }

  /** The result of `deepRemoveBy` is pruned from its input at every level. */
  lemma {:induction false} RemovedIsPruned(v: Json, pred: (string, Json) -> bool)
    ensures Pruned(Removed(v, pred), v, pred)
    decreases v, 1
  {
    match v
    case Obj(vfs) =>
      var out := RemovedFields(vfs, pred);
      assert Removed(v, pred).fields == out;
      RemovedFieldsFrom(vfs, pred);
      forall f | f in out ensures PrunedFrom(f, vfs, pred) {
        var j :| 0 <= j < |vfs| && f.key == vfs[j].key && !pred(vfs[j].key, vfs[j].value)
                 && f.value == Kept(vfs[j].value, pred);
        KeptIsPruned(vfs[j].value, pred);
      }
    case Arr(vs) =>
      var out := RemovedSlots(vs, pred);
      assert Removed(v, pred).items == out;
      RemovedSlotsAt(vs, pred);
      forall i | 0 <= i < |vs| && out[i].Item?
        ensures vs[i].Item? && !pred(IndexKey(i), vs[i].value) && Pruned(out[i].value, vs[i].value, pred)
      {
        KeptIsPruned(vs[i].value, pred);
      }
    case _ =>
  }

  lemma {:induction false} KeptIsPruned(v: Json, pred: (string, Json) -> bool)
    ensures Pruned(Kept(v, pred), v, pred)
    decreases v, 2
  {
    if IsObject(v) {
      RemovedIsPruned(v, pred);
    }
  }

  /** Deletes key `b` anywhere, and any entry whose value is the empty object. */
  predicate DropBOrEmpty(key: string, v: Json)
  {
    key == "b" || v == Obj([])
  }

  /**
   * The predicate sees a value before its own entries are filtered: in
   * `{a: {b: 1}}` the entry `a` is kept because `{b: 1}` is not empty, and
   * then ends up holding the empty object that the predicate would delete.
   */
  lemma SeesValueBeforeFiltering()
    ensures var input := Obj([Field("a", Obj([Field("b", Num(1))]))]);
      Removed(input, DropBOrEmpty) == Obj([Field("a", Obj([]))]) && DropBOrEmpty("a", Obj([]))
  {
    var inner := [Field("b", Num(1))];
    assert inner[..0] == [];
    assert RemovedFields(inner, DropBOrEmpty) == [];
    var outer := [Field("a", Obj(inner))];
    assert outer[..0] == [];
  }
}
