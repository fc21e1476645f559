/**
 * `handleEagerTouchedInitialState`: when the initial values change, decide
 * whether to mark the whole initial-values tree touched, so that validation
 * errors show before the user interacts, and after what delay. A form that
 * creates an entity always does; a form that edits one does only once the
 * entity's data has arrived in the initial values.
 */
module EagerValidation {
  import opened JsValues
  import opened FormTypes
  import opened TouchedTree

  /** A `setTouched` write scheduled `delayMs` milliseconds later. */
  datatype ScheduledTouch = ScheduledTouch(delayMs: int, tree: map<string, Json>)

  /** `afterMileSeconds ? afterMileSeconds : 0` */
  function Delay(opts: EagerValidationInitialOptions): (d: int)
    ensures opts.afterMileSeconds.Some? ==> d == opts.afterMileSeconds.value
    ensures opts.afterMileSeconds.None? ==> d == 0
  {
    if opts.afterMileSeconds.Some? && opts.afterMileSeconds.value != 0 then opts.afterMileSeconds.value else 0
  }

  /** The decision takes the branch that schedules the write. */
  predicate Schedules(opts: Option<EagerValidationInitialOptions>, initialValues: map<string, Json>) {
    && opts.Some?
    && (opts.value.createOrUpdate == Update ==>
          Get(initialValues, opts.value.keyNameToCheckFetchedForUpdate) != Undefined)
  }

  /**
   * The write the decision schedules, if any: without options nothing; in
   * UPDATE mode only when `initialValues[keyNameToCheckFetchedForUpdate]` is
   * defined; in CREATE mode always. The write marks every initial value.
   */
  function EagerTouchedInitialState(opts: Option<EagerValidationInitialOptions>, initialValues: map<string, Json>)
    : (r: Option<ScheduledTouch>)
    requires Schedules(opts, initialValues) ==> NoNestedArrays(Obj(initialValues))
    ensures opts.None? ==> r.None?
    ensures opts.Some? && opts.value.createOrUpdate == Create ==> r.Some?
    ensures opts.Some? && opts.value.createOrUpdate == Update ==>
      (r.Some? <==> Get(initialValues, opts.value.keyNameToCheckFetchedForUpdate) != Undefined)
    ensures r.Some? ==> r.value.delayMs == Delay(opts.value)
    ensures r.Some? ==> r.value.tree.Keys == initialValues.Keys
    ensures r.Some? ==> SameShape(Obj(initialValues), Obj(r.value.tree)) && AllLeavesTrue(Obj(r.value.tree))
  {
    if opts.None? then None
    else if opts.value.createOrUpdate == Update then
      if Get(initialValues, opts.value.keyNameToCheckFetchedForUpdate) != Undefined then
        SetTouchedRecursiveMarksAll(initialValues);
        Some(ScheduledTouch(Delay(opts.value), SetTouchedRecursive(initialValues)))
      else None
    else
      SetTouchedRecursiveMarksAll(initialValues);
      Some(ScheduledTouch(Delay(opts.value), SetTouchedRecursive(initialValues)))
  }
}
