/**
 * Changes of a single scalar field: from an input-change event, or from a
 * name and a value given by the program. Each marks the field touched and
 * then writes its value; the memoized variants issue the same writes.
 */
module ScalarChanges {
  import opened JsValues
  import opened FormStore

  /** `onKeyValueChangeByEvent`: mark the event's target touched, then let the store take the event. */
  function ChangeByEvent(e: InputEvent): (r: seq<Command>)
    ensures |r| == 2 && Targets(r[0], e.name) && Targets(r[1], e.name)
    ensures r[0].SetFieldTouched? && WritesValue(r[1], e.value)
  {
    [SetFieldTouched(e.name), HandleChange(e)]
  }

  /** `onKeyValueChangeByNameValue`: mark `name` touched, then write `value` under it. */
  function ChangeByNameValue(name: string, value: Json): (r: seq<Command>)
    ensures |r| == 2 && Targets(r[0], name) && Targets(r[1], name)
    ensures r[0].SetFieldTouched? && WritesValue(r[1], value)
  {
    [SetFieldTouched(name), SetFieldValue(name, value)]
  }

  /** Two writes, the touched mark first; afterwards only `name` differs in both trees. */
  lemma ChangeByEventEffect(s: Snapshot, e: InputEvent)
    ensures |ChangeByEvent(e)| == 2 && ChangeByEvent(e)[0] == SetFieldTouched(e.name)
    ensures var s' := ApplyAll(s, ChangeByEvent(e));
      && OnlyKeyChanged(s.values, s'.values, e.name) && s'.values[e.name] == e.value
      && OnlyKeyChanged(s.touched, s'.touched, e.name) && s'.touched[e.name] == Bool(true)
      && s'.initialValues == s.initialValues
  {
    ApplyAllTwo(s, SetFieldTouched(e.name), HandleChange(e));
  }

  /** Two writes, the touched mark first; afterwards only `name` differs in both trees. */
  lemma ChangeByNameValueEffect(s: Snapshot, name: string, value: Json)
    ensures |ChangeByNameValue(name, value)| == 2
    ensures ChangeByNameValue(name, value)[0] == SetFieldTouched(name)
    ensures var s' := ApplyAll(s, ChangeByNameValue(name, value));
      && OnlyKeyChanged(s.values, s'.values, name) && s'.values[name] == value
      && OnlyKeyChanged(s.touched, s'.touched, name) && s'.touched[name] == Bool(true)
      && s'.initialValues == s.initialValues
  {
    ApplyAllTwo(s, SetFieldTouched(name), SetFieldValue(name, value));
  }
}
