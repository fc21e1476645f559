/**
 * `setTouchedRecursive`: the touched tree that marks every field of a value
 * tree as touched. It has the value tree's shape (the same keys in every
 * object, the same length in every array) and `true` at every leaf.
 */
module TouchedTree {
  import opened JsValues

  /**
   * The touched counterpart of one value: arrays map object items to their
   * touched counterpart and every other item to `true`, objects recurse, and
   * every other value, `null` included, becomes `true`.
   */
  function TouchedValue(v: Json): (r: Json)
    requires NoNestedArrays(v)
    ensures r.Obj? <==> v.Obj?
    ensures r.Arr? <==> v.Arr?
    ensures v.Obj? ==> r.fields.Keys == v.fields.Keys
    ensures v.Arr? ==> |r.items| == |v.items|
    ensures !v.Obj? && !v.Arr? ==> r == Bool(true)
  {
    match v
    case Arr(items) =>
      Arr(seq(|items|, i requires 0 <= i < |items| => if items[i].Obj? then TouchedValue(items[i]) else Bool(true)))
    case Obj(m) => Obj(map k | k in m :: TouchedValue(m[k]))
    case _ => Bool(true)
  }

  /** `setTouchedRecursive(obj)` for an object `obj`: a fresh tree, `obj` is left as it was. */
  function SetTouchedRecursive(obj: map<string, Json>): (r: map<string, Json>)
    requires NoNestedArrays(Obj(obj))
    ensures r.Keys == obj.Keys
  {
    TouchedValue(Obj(obj)).fields
  }

  /** Every leaf of `t` is `true`. */
  predicate AllLeavesTrue(t: Json) {
    match t
    case Arr(items) => forall i :: 0 <= i < |items| ==> AllLeavesTrue(items[i])
    case Obj(m) => forall k :: k in m ==> AllLeavesTrue(m[k])
    case _ => t == Bool(true)
  }

  /**
   * `t` has the shape of `v`: an object with the same keys where `v` is an
   * object, an array of the same length where `v` is an array, and a leaf
   * where `v` is a leaf; `null` is a leaf.
   */
  predicate SameShape(v: Json, t: Json) {
    match v
    case Arr(items) =>
      t.Arr? && |t.items| == |items| && forall i :: 0 <= i < |items| ==> SameShape(items[i], t.items[i])
    case Obj(m) =>
      t.Obj? && t.fields.Keys == m.Keys && forall k :: k in m ==> SameShape(m[k], t.fields[k])
    case _ => !t.Arr? && !t.Obj?
  }

  /** The touched counterpart has the value's shape and only `true` leaves. */
  lemma {:induction false} TouchedValueShape(v: Json)
    requires NoNestedArrays(v)
    ensures SameShape(v, TouchedValue(v)) && AllLeavesTrue(TouchedValue(v))
  {
    match v
    case Arr(items) =>
      forall i | 0 <= i < |items|
        ensures SameShape(items[i], TouchedValue(v).items[i]) && AllLeavesTrue(TouchedValue(v).items[i])
      {
        if items[i].Obj? {
          TouchedValueShape(items[i]);
        }
      }
    case Obj(m) =>
      forall k | k in m
        ensures SameShape(m[k], TouchedValue(v).fields[k]) && AllLeavesTrue(TouchedValue(v).fields[k])
      {
        TouchedValueShape(m[k]);
      }
    case _ =>
  }

  /** Conversely, a tree of the value's shape with only `true` leaves is its touched counterpart. */
  lemma {:induction false} TouchedValueUnique(v: Json, t: Json)
    requires NoNestedArrays(v) && SameShape(v, t) && AllLeavesTrue(t)
    ensures t == TouchedValue(v)
  {
    match v
    case Arr(items) =>
      var r := TouchedValue(v).items;
      forall i | 0 <= i < |items| ensures t.items[i] == r[i] {
        TouchedValueUnique(items[i], t.items[i]);
      }
      assert t.items == r;
    case Obj(m) =>
      var r := TouchedValue(v).fields;
      forall k | k in m ensures t.fields[k] == r[k] {
        TouchedValueUnique(m[k], t.fields[k]);
      }
      assert t.fields == r;
    case _ =>
  }

  /** The touched tree marks every field: same keys, same shape, `true` at every leaf. */
  lemma SetTouchedRecursiveMarksAll(obj: map<string, Json>)
    requires NoNestedArrays(Obj(obj))
    ensures SameShape(Obj(obj), Obj(SetTouchedRecursive(obj)))
    ensures AllLeavesTrue(Obj(SetTouchedRecursive(obj)))
    ensures forall t :: SameShape(Obj(obj), Obj(t)) && AllLeavesTrue(Obj(t)) ==> t == SetTouchedRecursive(obj)
  {
    TouchedValueShape(Obj(obj));
    forall t | SameShape(Obj(obj), Obj(t)) && AllLeavesTrue(Obj(t)) ensures t == SetTouchedRecursive(obj) {
      TouchedValueUnique(Obj(obj), Obj(t));
    }
  }

  /** `{a: 1, b: [1, {c: 2}], d: {e: 3}}` becomes `{a: true, b: [true, {c: true}], d: {e: true}}`. */
  lemma SetTouchedRecursiveExample()
    ensures var input := map["a" := Num(1), "b" := Arr([Num(1), Obj(map["c" := Num(2)])]), "d" := Obj(map["e" := Num(3)])];
      SetTouchedRecursive(input)
      == map["a" := Bool(true), "b" := Arr([Bool(true), Obj(map["c" := Bool(true)])]), "d" := Obj(map["e" := Bool(true)])]
  {
    var c, e := Obj(map["c" := Num(2)]), Obj(map["e" := Num(3)]);
    var b := Arr([Num(1), c]);
    var c', e' := Obj(map["c" := Bool(true)]), Obj(map["e" := Bool(true)]);
    var b' := Arr([Bool(true), c']);
    var input := map["a" := Num(1), "b" := b, "d" := e];
    var expected := map["a" := Bool(true), "b" := b', "d" := e'];
    assert SameShape(c, c') && AllLeavesTrue(c');
    assert SameShape(e, e') && AllLeavesTrue(e');
    assert SameShape(b, b') && AllLeavesTrue(b') by {
      assert b.items[1] == c && b'.items[1] == c';
    }
    assert input.Keys == expected.Keys;
    assert SameShape(Obj(input), Obj(expected)) && AllLeavesTrue(Obj(expected));
    TouchedValueUnique(Obj(input), Obj(expected));
  }
}
