/**
 * The form-state store as the helper sees it: three snapshots it reads
 * synchronously, and the write requests it issues. `Apply` states what the
 * store is relied on to do with each request; field names are taken as
 * top-level keys.
 */
module FormStore {
  import opened JsValues

  /** The store's current values, touched tree and initial values. */
  datatype Snapshot = Snapshot(
    values: map<string, Json>,
    touched: map<string, Json>,
    initialValues: map<string, Json>)

  /** An input-change event, reduced to the target's name and new value. */
  datatype InputEvent = InputEvent(name: string, value: Json)

  /** A write request issued to the store. */
  datatype Command =
    | SetFieldTouched(field: string)
    | SetFieldValue(field: string, value: Json)
    | SetTouched(tree: map<string, Json>)
    | HandleChange(event: InputEvent)

  /** The writes an operation issues, in order, and whether it logged an error. */
  datatype Outcome = Outcome(writes: seq<Command>, errorLogged: bool)

  /** The write request concerns the single field `name`. */
  predicate Targets(c: Command, name: string) {
    match c
    case SetFieldTouched(f) => f == name
    case SetFieldValue(f, _) => f == name
    case HandleChange(e) => e.name == name
    case SetTouched(_) => false
  }

  /** The write request stores `v` as a field's value. */
  predicate WritesValue(c: Command, v: Json) {
    match c
    case SetFieldValue(_, x) => x == v
    case HandleChange(e) => e.value == v
    case _ => false
  }

  /** What the store does with one write request. */
  function Apply(s: Snapshot, c: Command): Snapshot {
    match c
    case SetFieldTouched(name) => s.(touched := s.touched[name := Bool(true)])
    case SetFieldValue(name, v) => s.(values := s.values[name := v])
    case SetTouched(tree) => s.(touched := tree)
    case HandleChange(e) => s.(values := s.values[e.name := e.value])
  }

  /** The store after it has carried out `cs` in order. */
  function ApplyAll(s: Snapshot, cs: seq<Command>): Snapshot
    decreases |cs|
  {
    if cs == [] then s else ApplyAll(Apply(s, cs[0]), cs[1..])
  }

  /** Carrying out two writes is carrying out the first, then the second. */
  lemma ApplyAllTwo(s: Snapshot, a: Command, b: Command)
    ensures ApplyAll(s, [a, b]) == Apply(Apply(s, a), b)
  {
    assert [a, b][1..] == [b];
    assert ApplyAll(s, [a, b]) == ApplyAll(Apply(s, a), [b]);
    assert [b][1..] == [];
    assert ApplyAll(Apply(s, a), [b]) == ApplyAll(Apply(Apply(s, a), b), []);
  }
}
