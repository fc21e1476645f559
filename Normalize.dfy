/**
 * `normalizeFormikValues`: before submission, delete every property that
 * holds a blank string the user touched and that had no initial value, so
 * that a strictly typed server receives an absent field rather than "".
 * The test looks the property's own key up in the top-level touched and
 * initial-values trees, whatever the depth of the property.
 */
module Normalize {
  import opened JsValues
  import opened FormStore

  /** The helper deletes the primitive value `v` found under `key`. */
  predicate Deletes(s: Snapshot, key: string, v: Json) {
    && Truthy(Get(s.touched, key))
    && Get(s.initialValues, key) == Undefined
    && v.Str? && IsBlank(v.s)
  }

  /**
   * A value after normalization: objects lose the properties `Deletes`
   * selects and recurse into the others, arrays recurse into their object
   * items, and every other value is left as it is.
   */
  function NormalizedValue(s: Snapshot, v: Json): (r: Json)
    requires NoNestedArrays(v)
    ensures NoNestedArrays(r)
    ensures r.Obj? <==> v.Obj?
    ensures r.Arr? <==> v.Arr?
    ensures !v.Obj? && !v.Arr? ==> r == v
    ensures v.Obj? ==> r.fields.Keys <= v.fields.Keys
    ensures v.Arr? ==> |r.items| == |v.items|
    ensures v.Arr? ==> forall i :: 0 <= i < |v.items| && !v.items[i].Obj? ==> r.items[i] == v.items[i]
  {
    match v
    case Obj(m) => Obj(map k | k in m && !Deletes(s, k, m[k]) :: NormalizedValue(s, m[k]))
    case Arr(items) =>
      Arr(seq(|items|, i requires 0 <= i < |items| => if items[i].Obj? then NormalizedValue(s, items[i]) else items[i]))
    case _ => v
  }

  /** The object `recursiveNormalize(obj)` leaves behind. */
  function NormalizedObj(s: Snapshot, obj: map<string, Json>): (r: map<string, Json>)
    requires NoNestedArrays(Obj(obj))
    ensures r.Keys <= obj.Keys
    ensures forall k :: k in obj ==> (k !in r <==> Deletes(s, k, obj[k]))
  {
    NormalizedValue(s, Obj(obj)).fields
  }

  /**
   * The walk itself: visit every property of `obj`, put back the normalized
   * nested object or the mapped array, and delete the selected primitives.
   * JavaScript does this to `obj` in place and returns `obj`; here the value
   * returned is the object's new state.
   */
  method NormalizeObj(s: Snapshot, obj: map<string, Json>) returns (r: map<string, Json>)
    requires NoNestedArrays(Obj(obj))
    ensures r == NormalizedObj(s, obj)
    decreases Obj(obj)
  {
    r := obj;
    var pending := obj.Keys;
    while pending != {}
      invariant pending <= obj.Keys
      invariant WalkedExcept(s, obj, r, pending)
      decreases pending
    {
      var key :| key in pending;
      var value := obj[key];
      var r' := r;
      if value.Obj? {
        var nested := NormalizeObj(s, value.fields);
        r' := r[key := Obj(nested)];
      } else if value.Arr? {
        var mapped := NormalizeItems(s, value.items);
        r' := r[key := Arr(mapped)];
      } else if Deletes(s, key, value) {
        r' := r - {key};
      }
      WalkStep(s, obj, r, pending, key, r');
      r, pending := r', pending - {key};
    }
    WalkedAll(s, obj, r);
  }

  /**
   * `r` is `obj` with every property outside `pending` visited: deleted when
   * `Deletes` selects it, else normalized; the pending ones are as they were.
   */
  predicate WalkedExcept(s: Snapshot, obj: map<string, Json>, r: map<string, Json>, pending: set<string>)
    requires NoNestedArrays(Obj(obj))
  {
    && r.Keys <= obj.Keys
    && (forall k :: k in pending && k in obj ==> k in r && r[k] == obj[k])
    && (forall k :: k in obj && k !in pending ==> (k in r <==> !Deletes(s, k, obj[k])))
    && (forall k :: k in r && k !in pending ==> r[k] == NormalizedValue(s, obj[k]))
  }

  /** Visiting one more property keeps the walk's invariant. */
  lemma WalkStep(s: Snapshot, obj: map<string, Json>, r: map<string, Json>, pending: set<string>,
                 key: string, r': map<string, Json>)
    requires NoNestedArrays(Obj(obj)) && WalkedExcept(s, obj, r, pending) && key in pending && key in obj
    requires obj[key].Obj? || obj[key].Arr? ==> r' == r[key := NormalizedValue(s, obj[key])]
    requires !obj[key].Obj? && !obj[key].Arr? ==> r' == if Deletes(s, key, obj[key]) then r - {key} else r
    ensures WalkedExcept(s, obj, r', pending - {key})
  {
  }

  /** Once every property is visited, the walk has produced the normalized object. */
  lemma WalkedAll(s: Snapshot, obj: map<string, Json>, r: map<string, Json>)
    requires NoNestedArrays(Obj(obj)) && WalkedExcept(s, obj, r, {})
    ensures r == NormalizedObj(s, obj)
  {
  }

  /** `value.map(...)` over an array: object items are normalized, other items kept. */
  method NormalizeItems(s: Snapshot, items: seq<Json>) returns (r: seq<Json>)
    requires NoNestedArrays(Arr(items))
    ensures r == NormalizedValue(s, Arr(items)).items
    ensures |r| == |items|
    ensures forall i :: 0 <= i < |items| && items[i].Obj? ==> r[i] == Obj(NormalizedObj(s, items[i].fields))
    ensures forall i :: 0 <= i < |items| && !items[i].Obj? ==> r[i] == items[i]
    decreases Arr(items)
  {
    r := [];
    for i := 0 to |items|
      invariant |r| == i
      invariant forall j :: 0 <= j < i ==> r[j] == NormalizedValue(s, Arr(items)).items[j]
    {
      var item := items[i];
      if item.Obj? {
        var nested := NormalizeObj(s, item.fields);
        r := r + [Obj(nested)];
      } else {
        r := r + [item];
      }
    }
  }

  /**
   * Exactly the blank strings the user touched and that had no initial
   * value are deleted; nested objects come back normalized, every other
   * kept primitive unchanged. Arrays are `NormalizeKeepsArrayItems`.
   */
  lemma NormalizeDeletesExactly(s: Snapshot, obj: map<string, Json>)
    requires NoNestedArrays(Obj(obj))
    ensures NormalizedObj(s, obj).Keys <= obj.Keys
    ensures forall k :: k in obj ==>
      (k !in NormalizedObj(s, obj) <==>
        obj[k].Str? && IsBlank(obj[k].s) && Truthy(Get(s.touched, k)) && Get(s.initialValues, k) == Undefined)
    ensures forall k :: k in NormalizedObj(s, obj) && obj[k].Obj? ==>
      NormalizedObj(s, obj)[k] == Obj(NormalizedObj(s, obj[k].fields))
    ensures forall k :: k in NormalizedObj(s, obj) && !obj[k].Obj? && !obj[k].Arr? ==>
      NormalizedObj(s, obj)[k] == obj[k]
  {
  }

  /**
   * An array property is kept, with its length; its object items come back
   * normalized and its other items as they were. (`NoNestedArrays(obj[k])`
   * follows from the precondition; it is repeated so that the items'
   * normalization is defined.)
   */
  lemma NormalizeKeepsArrayItems(s: Snapshot, obj: map<string, Json>)
    requires NoNestedArrays(Obj(obj))
    ensures forall k :: k in obj && obj[k].Arr? ==> k in NormalizedObj(s, obj)
    ensures forall k :: k in obj && obj[k].Arr? && NoNestedArrays(obj[k]) ==>
      && NormalizedObj(s, obj)[k].Arr?
      && |NormalizedObj(s, obj)[k].items| == |obj[k].items|
      && (forall i :: 0 <= i < |obj[k].items| && obj[k].items[i].Obj? ==>
            NormalizedObj(s, obj)[k].items[i] == Obj(NormalizedObj(s, obj[k].items[i].fields)))
      && (forall i :: 0 <= i < |obj[k].items| && !obj[k].items[i].Obj? ==>
            NormalizedObj(s, obj)[k].items[i] == obj[k].items[i])
  {
    forall k | k in obj && obj[k].Arr? && NoNestedArrays(obj[k])
      ensures forall i :: 0 <= i < |obj[k].items| && obj[k].items[i].Obj? ==>
        NormalizedObj(s, obj)[k].items[i] == Obj(NormalizedObj(s, obj[k].items[i].fields))
    {
      forall i | 0 <= i < |obj[k].items| && obj[k].items[i].Obj?
        ensures NormalizedObj(s, obj)[k].items[i] == Obj(NormalizedObj(s, obj[k].items[i].fields))
      {
        assert NormalizedObj(s, obj)[k] == NormalizedValue(s, obj[k]);
      }
    }
  }

  /** No property anywhere in `v` is one the helper would delete. */
  predicate Clean(s: Snapshot, v: Json) {
    match v
    case Obj(m) => forall k :: k in m ==> !Deletes(s, k, m[k]) && Clean(s, m[k])
    case Arr(items) => forall i :: 0 <= i < |items| ==> Clean(s, items[i])
    case _ => true
  }

  /** Normalization leaves nothing more to delete. */
  lemma {:induction false} NormalizedIsClean(s: Snapshot, v: Json)
    requires NoNestedArrays(v)
    ensures Clean(s, NormalizedValue(s, v))
  {
    match v
    case Obj(m) =>
      var r := NormalizedValue(s, v).fields;
      forall k | k in r ensures !Deletes(s, k, r[k]) && Clean(s, r[k]) {
        NormalizedIsClean(s, m[k]);
      }
    case Arr(items) =>
      var r := NormalizedValue(s, v).items;
      forall i | 0 <= i < |r| ensures Clean(s, r[i]) {
        if items[i].Obj? {
          NormalizedIsClean(s, items[i]);
        }
      }
    case _ =>
  }

  /** A tree with nothing to delete is left exactly as it is. */
  lemma {:induction false} CleanIsFixpoint(s: Snapshot, v: Json)
    requires NoNestedArrays(v) && Clean(s, v)
    ensures NormalizedValue(s, v) == v
  {
    match v
    case Obj(m) =>
      var r := NormalizedValue(s, v).fields;
      forall k | k in m ensures k in r && r[k] == m[k] {
        CleanIsFixpoint(s, m[k]);
      }
      assert r == m;
    case Arr(items) =>
      var r := NormalizedValue(s, v).items;
      forall i | 0 <= i < |items| ensures r[i] == items[i] {
        if items[i].Obj? {
          CleanIsFixpoint(s, items[i]);
        }
      }
      assert r == items;
    case _ =>
  }

  /** Normalizing twice is normalizing once. */
  lemma NormalizeIdempotent(s: Snapshot, obj: map<string, Json>)
    requires NoNestedArrays(Obj(obj))
    ensures NormalizedObj(s, NormalizedObj(s, obj)) == NormalizedObj(s, obj)
  {
    NormalizedIsClean(s, Obj(obj));
    CleanIsFixpoint(s, NormalizedValue(s, Obj(obj)));
  }

  /** With `touched = {a: true}` and `initialValues = {}`, `{a: "   "}` loses `a`. */
  lemma NormalizeTouchedBlankExample()
    ensures NormalizedObj(Snapshot(map[], map["a" := Bool(true)], map[]), map["a" := Str("   ")]) == map[]
  {
  }

  /** With `touched = {a: true}` and `initialValues = {a: "x"}`, `{a: ""}` keeps `a`. */
  lemma NormalizeInitialValueExample()
    ensures NormalizedObj(Snapshot(map[], map["a" := Bool(true)], map["a" := Str("x")]), map["a" := Str("")])
         == map["a" := Str("")]
  {
  }

  /**
   * A nested blank string is deleted by its own key's top-level entries:
   * with `touched = {a: true}`, `{o: {a: " "}}` becomes `{o: {}}` although
   * nothing under `touched.o` was ever marked.
   */
  lemma NormalizeNestedKeyExample()
    ensures NormalizedObj(Snapshot(map[], map["a" := Bool(true)], map[]), map["o" := Obj(map["a" := Str(" ")])])
         == map["o" := EmptyObj]
  {
  }
}
