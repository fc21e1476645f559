/**
 * Changes to a field whose value is an array of items: add an item, remove
 * the item at an index, or set one field of the item at an index, keeping a
 * parallel array of touched records under the same name in the touched
 * tree; and the touched-only change, which marks one field of one item
 * touched and pads the touched array forward to reach it.
 */
module ArrayItems {
  import opened JsValues
  import opened FormTypes
  import opened FormStore

  /** A copy of the array under `name`, or `[]` when the value there is not an array. */
  function ArrayUnder(m: map<string, Json>, name: string): seq<Json> {
    var v := Get(m, name);
    if v.Arr? then v.items else []
  }

  /** `typeof index === 'number' && index >= 0 && index < n` */
  predicate ValidIndex(index: Option<int>, n: nat) {
    index.Some? && 0 <= index.value < n
  }

  /** `field` is given and is not the empty string, so it is truthy. */
  predicate FieldGiven(field: Option<string>) {
    field.Some? && field.value != ""
  }

  /** The request takes the update branch with a usable index and field. */
  predicate IsValidUpdate(s: Snapshot, req: ArrayItemChange) {
    && Get(s.values, req.name).Arr?
    && req.action.None?
    && ValidIndex(req.index, |Get(s.values, req.name).items|)
    && FieldGiven(req.field)
  }

  /** The two entries a valid update spreads are ones this model spreads exactly. */
  predicate UpdateSpreadable(s: Snapshot, req: ArrayItemChange) {
    IsValidUpdate(s, req) ==>
      var i := req.index.value;
      && Spreadable(Get(s.values, req.name).items[i])
      && Spreadable(At(ArrayUnder(s.touched, req.name), i))
  }

  /**
   * The writes that end a change: the whole touched tree with `name`
   * replaced by the new touched array, then the new value array.
   */
  function ArrayWrites(s: Snapshot, name: string, items: seq<Json>, touchedItems: seq<Json>): seq<Command> {
    [SetTouched(s.touched[name := Arr(touchedItems)]), SetFieldValue(name, Arr(items))]
  }

  /** `{...entry, [f]: x}` */
  function WithField(entry: Json, f: string, x: Json): Json
    requires Spreadable(entry)
  {
    Obj(Spread(entry)[f := x])
  }

  /**
   * What `onKeyValueChangeByNameIndexFieldValueMemoized` issues. An invalid
   * add or remove logs and still writes both arrays unchanged; only a value
   * that is not an array, or an invalid update, writes nothing.
   */
  function ArrayChange(s: Snapshot, req: ArrayItemChange): (r: Outcome)
    requires UpdateSpreadable(s, req)
    ensures !Get(s.values, req.name).Arr? ==> r == Outcome([], true)
    ensures r.writes == [] ==> r.errorLogged
    ensures r.writes != [] ==>
      && TouchedThenValue(r) && r.writes[1].field == req.name && r.writes[1].value.Arr?
      && OnlyKeyChanged(s.touched, r.writes[0].tree, req.name)
  {
    var v := Get(s.values, req.name);
    if !v.Arr? then Outcome([], true)
    else
      var items, t := v.items, ArrayUnder(s.touched, req.name);
      match req.action
      case Some(Add) =>
        if Truthy(req.newItem) then Outcome(ArrayWrites(s, req.name, items + [req.newItem], t + [EmptyObj]), false)
        else Outcome(ArrayWrites(s, req.name, items, t), true)
      case Some(Remove) =>
        if ValidIndex(req.index, |items|) then
          Outcome(ArrayWrites(s, req.name, SpliceOut(items, req.index.value), SpliceOut(t, req.index.value)), false)
        else Outcome(ArrayWrites(s, req.name, items, t), true)
      case None =>
        if ValidIndex(req.index, |items|) && FieldGiven(req.field) then
          var i, f := req.index.value, req.field.value;
          Outcome(ArrayWrites(s, req.name,
                              items[i := WithField(items[i], f, req.value)],
                              AssignAt(t, i, WithField(At(t, i), f, Bool(true)))), false)
        else Outcome([], true)
  }

  /** The store after it has carried out the writes of the change. */
  function After(s: Snapshot, req: ArrayItemChange): Snapshot
    requires UpdateSpreadable(s, req)
  {
    ApplyAll(s, ArrayChange(s, req).writes)
  }

  /**
   * The change itself: copy the value array and the touched array, change
   * the copies with push, splice or an indexed assignment, and write both.
   */
  method ChangeArrayItem(s: Snapshot, req: ArrayItemChange) returns (out: Outcome)
    requires UpdateSpreadable(s, req)
    ensures out == ArrayChange(s, req)
  {
    var current := Get(s.values, req.name);
    if !current.Arr? {
      return Outcome([], true);
    }
    var updatedInfo := current.items;
    var updatedTouched := ArrayUnder(s.touched, req.name);
    var logged := false;
    match req.action {
      case Some(Add) =>
        if Truthy(req.newItem) {
          updatedInfo := updatedInfo + [req.newItem];
          updatedTouched := updatedTouched + [EmptyObj];
        } else {
          logged := true;
        }
      case Some(Remove) =>
        if ValidIndex(req.index, |updatedInfo|) {
          updatedInfo := SpliceOut(updatedInfo, req.index.value);
          updatedTouched := SpliceOut(updatedTouched, req.index.value);
        } else {
          logged := true;
        }
      case None =>
        if ValidIndex(req.index, |updatedInfo|) && FieldGiven(req.field) {
          var i, f := req.index.value, req.field.value;
          updatedInfo := updatedInfo[i := WithField(updatedInfo[i], f, req.value)];
          updatedTouched := AssignAt(updatedTouched, i, WithField(At(updatedTouched, i), f, Bool(true)));
        } else {
          return Outcome([], true);
        }
    }
    out := Outcome(ArrayWrites(s, req.name, updatedInfo, updatedTouched), logged);
  }

  /** Two writes: the touched tree first, then the value array. */
  predicate TouchedThenValue(out: Outcome) {
    |out.writes| == 2 && out.writes[0].SetTouched? && out.writes[1].SetFieldValue?
  }

  /**
   * `after` is `before` with the property `f` of its entry `i` set to `x`:
   * the entry becomes an object holding the entry's own properties and `f`;
   * an index past the end grows the array and leaves `undefined` between.
   */
  predicate FieldSetAt(before: seq<Json>, after: seq<Json>, i: nat, f: string, x: Json) {
    && i < |after|
    && Spreadable(At(before, i))
    && |after| == (if i < |before| then |before| else i + 1)
    && (forall j :: 0 <= j < |before| && j != i ==> after[j] == before[j])
    && (forall j :: |before| <= j < i ==> after[j] == Undefined)
    && after[i].Obj? && OnlyKeyChanged(Spread(At(before, i)), after[i].fields, f)
    && after[i].fields[f] == x
  }

  /** Without an array under `name`, the change logs and writes nothing. */
  lemma ArrayChangeNotAnArray(s: Snapshot, req: ArrayItemChange)
    requires UpdateSpreadable(s, req)
    requires !Get(s.values, req.name).Arr?
    ensures ArrayChange(s, req) == Outcome([], true)
  {
  }

  /**
   * A valid add appends `newItem` to the value array and `{}` to the touched
   * array; every other key of both trees keeps its value.
   */
  lemma ArrayChangeAdd(s: Snapshot, req: ArrayItemChange)
    requires Get(s.values, req.name).Arr? && req.action == Some(Add) && Truthy(req.newItem)
    ensures !ArrayChange(s, req).errorLogged && TouchedThenValue(ArrayChange(s, req))
    ensures var s' := After(s, req);
      && OnlyKeyChanged(s.values, s'.values, req.name)
      && s'.values[req.name] == Arr(Get(s.values, req.name).items + [req.newItem])
      && OnlyKeyChanged(s.touched, s'.touched, req.name)
      && s'.touched[req.name] == Arr(ArrayUnder(s.touched, req.name) + [EmptyObj])
      && s'.initialValues == s.initialValues
  {
    var items, t := Get(s.values, req.name).items, ArrayUnder(s.touched, req.name);
    ApplyAllTwo(s, SetTouched(s.touched[req.name := Arr(t + [EmptyObj])]),
                SetFieldValue(req.name, Arr(items + [req.newItem])));
  }

  /**
   * A valid remove deletes the item at `index` from the value array and, when
   * the touched array reaches that far, from the touched array; the later
   * entries shift left.
   */
  lemma ArrayChangeRemove(s: Snapshot, req: ArrayItemChange)
    requires Get(s.values, req.name).Arr? && req.action == Some(Remove)
    requires ValidIndex(req.index, |Get(s.values, req.name).items|)
    ensures !ArrayChange(s, req).errorLogged && TouchedThenValue(ArrayChange(s, req))
    ensures var s', i := After(s, req), req.index.value;
      var t := ArrayUnder(s.touched, req.name);
      && OnlyKeyChanged(s.values, s'.values, req.name) && s'.values[req.name].Arr?
      && RemovedAt(Get(s.values, req.name).items, s'.values[req.name].items, i)
      && OnlyKeyChanged(s.touched, s'.touched, req.name) && s'.touched[req.name].Arr?
      && (i < |t| ==> RemovedAt(t, s'.touched[req.name].items, i))
      && (i >= |t| ==> s'.touched[req.name].items == t)
      && s'.initialValues == s.initialValues
  {
    var items, t, i := Get(s.values, req.name).items, ArrayUnder(s.touched, req.name), req.index.value;
    ApplyAllTwo(s, SetTouched(s.touched[req.name := Arr(SpliceOut(t, i))]),
                SetFieldValue(req.name, Arr(SpliceOut(items, i))));
  }

  /**
   * A valid update sets `field` of item `index` to `value` and marks the same
   * field of touched entry `index` true; nothing else in the value array
   * changes, and the touched array only grows to reach `index`.
   */
  lemma ArrayChangeUpdate(s: Snapshot, req: ArrayItemChange)
    requires IsValidUpdate(s, req) && UpdateSpreadable(s, req)
    ensures !ArrayChange(s, req).errorLogged && TouchedThenValue(ArrayChange(s, req))
    ensures var s', i, f := After(s, req), req.index.value, req.field.value;
      && OnlyKeyChanged(s.values, s'.values, req.name) && s'.values[req.name].Arr?
      && FieldSetAt(Get(s.values, req.name).items, s'.values[req.name].items, i, f, req.value)
      && OnlyKeyChanged(s.touched, s'.touched, req.name) && s'.touched[req.name].Arr?
      && FieldSetAt(ArrayUnder(s.touched, req.name), s'.touched[req.name].items, i, f, Bool(true))
      && s'.initialValues == s.initialValues
  {
    var items, t := Get(s.values, req.name).items, ArrayUnder(s.touched, req.name);
    var i, f := req.index.value, req.field.value;
    var items', t' := items[i := WithField(items[i], f, req.value)], AssignAt(t, i, WithField(At(t, i), f, Bool(true)));
    ApplyAllTwo(s, SetTouched(s.touched[req.name := Arr(t')]), SetFieldValue(req.name, Arr(items')));
    assert At(items, i) == items[i];
  }

  /** An update without a usable index or field logs and writes nothing. */
  lemma ArrayChangeInvalidUpdate(s: Snapshot, req: ArrayItemChange)
    requires Get(s.values, req.name).Arr? && req.action.None?
    requires !(ValidIndex(req.index, |Get(s.values, req.name).items|) && FieldGiven(req.field))
    ensures ArrayChange(s, req) == Outcome([], true)
  {
  }

  /**
   * An add without a truthy `newItem`, or a remove without a valid index,
   * logs and still writes: the values come out unchanged, and the touched
   * tree too unless `touched[name]` was not an array, which becomes `[]`.
   */
  lemma ArrayChangeInvalidAddOrRemove(s: Snapshot, req: ArrayItemChange)
    requires Get(s.values, req.name).Arr?
    requires || (req.action == Some(Add) && !Truthy(req.newItem))
             || (req.action == Some(Remove) && !ValidIndex(req.index, |Get(s.values, req.name).items|))
    ensures ArrayChange(s, req).errorLogged && TouchedThenValue(ArrayChange(s, req))
    ensures After(s, req).values == s.values
    ensures After(s, req).touched == s.touched[req.name := Arr(ArrayUnder(s.touched, req.name))]
    ensures Get(s.touched, req.name).Arr? ==> After(s, req).touched == s.touched
    ensures After(s, req).initialValues == s.initialValues
  {
    var items, t := Get(s.values, req.name).items, ArrayUnder(s.touched, req.name);
    ApplyAllTwo(s, SetTouched(s.touched[req.name := Arr(t)]), SetFieldValue(req.name, Arr(items)));
  }

  /** Arrays under `name` in both trees, of the same length. */
  predicate Parallel(s: Snapshot, name: string) {
    && Get(s.values, name).Arr?
    && Get(s.touched, name).Arr?
    && |Get(s.values, name).items| == |Get(s.touched, name).items|
  }

  /** Every change keeps a value array and its touched array in step. */
  lemma ArrayChangeKeepsParallel(s: Snapshot, req: ArrayItemChange)
    requires UpdateSpreadable(s, req)
    requires Parallel(s, req.name)
    ensures Parallel(After(s, req), req.name)
  {
    var out := ArrayChange(s, req);
    if out.writes != [] {
      ApplyAllTwo(s, out.writes[0], out.writes[1]);
    }
  }

  /** Removing the item just added, at the old length, restores both trees. */
  lemma RemoveUndoesAdd(s: Snapshot, name: string, newItem: Json)
    requires Parallel(s, name) && Truthy(newItem)
    ensures var add := ArrayItemChange(name, None, None, Undefined, Some(Add), newItem);
      var remove := ArrayItemChange(name, Some(|Get(s.values, name).items|), None, Undefined, Some(Remove), Undefined);
      After(After(s, add), remove) == s
  {
    var items, t := Get(s.values, name).items, Get(s.touched, name).items;
    var add := ArrayItemChange(name, None, None, Undefined, Some(Add), newItem);
    ApplyAllTwo(s, SetTouched(s.touched[name := Arr(t + [EmptyObj])]), SetFieldValue(name, Arr(items + [newItem])));
    var s1 := After(s, add);
    assert s1 == s.(values := s.values[name := Arr(items + [newItem])], touched := s.touched[name := Arr(t + [EmptyObj])]);
    assert SpliceOut(items + [newItem], |items|) == items;
    assert SpliceOut(t + [EmptyObj], |items|) == t;
    ApplyAllTwo(s1, SetTouched(s1.touched[name := Arr(t)]), SetFieldValue(name, Arr(items)));
  }


  /**
   * `r` is what the touched-only change makes of the touched array `t`: `t`
   * padded with `{}` up to `index`, and entry `index` an object holding its
   * old properties and `field: true`.
   */
  predicate IsPadForward(t: seq<Json>, index: nat, field: string, r: seq<Json>) {
    && |r| == (if index < |t| then |t| else index + 1)
    && (forall j :: |t| <= j < index ==> r[j] == EmptyObj)
    && (forall j :: 0 <= j < |t| && j != index ==> r[j] == t[j])
    && Spreadable(At(t, index))
    && r[index].Obj? && OnlyKeyChanged(Spread(At(t, index)), r[index].fields, field)
    && r[index].fields[field] == Bool(true)
  }

  /**
   * `onKeyValueChangeByNameIndexFieldTouchedMemoized`: pad a copy of the
   * touched array forward to `index`, mark `field` of entry `index` true, and
   * write the touched tree with only `name` replaced. No value is written.
   */
  method MarkItemFieldTouched(s: Snapshot, req: ArrayItemTouch) returns (out: Outcome)
    requires Spreadable(At(ArrayUnder(s.touched, req.name), req.index))
    ensures !out.errorLogged && |out.writes| == 1 && out.writes[0].SetTouched?
    ensures OnlyKeyChanged(s.touched, out.writes[0].tree, req.name)
    ensures out.writes[0].tree[req.name].Arr?
    ensures IsPadForward(ArrayUnder(s.touched, req.name), req.index, req.field, out.writes[0].tree[req.name].items)
  {
    var updatedTouched := ArrayUnder(s.touched, req.name);
    ghost var original := updatedTouched;
    var i := |updatedTouched|;
    while i <= req.index
      invariant |original| <= i <= if req.index < |original| then |original| else req.index + 1
      invariant |updatedTouched| == i
      invariant forall j :: 0 <= j < |original| ==> updatedTouched[j] == original[j]
      invariant forall j :: |original| <= j < i ==> updatedTouched[j] == EmptyObj
      decreases req.index + 1 - i
    {
      var current := At(updatedTouched, i);
      updatedTouched := AssignAt(updatedTouched, i, if Truthy(current) then current else EmptyObj);
      i := i + 1;
    }
    updatedTouched := AssignAt(updatedTouched, req.index, WithField(updatedTouched[req.index], req.field, Bool(true)));
    out := Outcome([SetTouched(s.touched[req.name := Arr(updatedTouched)])], false);
  }

  /** The contract of the touched-only change leaves one possible touched array. */
  lemma PadForwardDeterminate(t: seq<Json>, index: nat, field: string, r1: seq<Json>, r2: seq<Json>)
    requires IsPadForward(t, index, field, r1) && IsPadForward(t, index, field, r2)
    ensures r1 == r2
  {
    assert r1[index].fields == r2[index].fields;
    forall j | 0 <= j < |r1| ensures r1[j] == r2[j] {
      if j == index {
        assert r1[j] == Obj(r1[j].fields);
      }
    }
  }

  /** Marking field "x" of entry 3 on an empty touched array gives `[{}, {}, {}, {x: true}]`. */
  lemma PadForwardExample()
    ensures IsPadForward([], 3, "x", [EmptyObj, EmptyObj, EmptyObj, Obj(map["x" := Bool(true)])])
  {
  }
}
