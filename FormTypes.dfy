/**
 * The option and argument records the helper is called with: the
 * eager-validation options, fixed when the form session starts, and the
 * argument records of the value and touched helpers.
 */
module FormTypes {
  import opened JsValues

  /** Whether the form creates a new entity or edits one being fetched. */
  datatype CreateOrUpdateMode = Create | Update

  /**
   * Eager-validation options. `afterMileSeconds` is the optional delay in
   * milliseconds; `keyNameToCheckFetchedForUpdate` names the initial value
   * whose presence shows that the entity to edit has arrived.
   */
  datatype EagerValidationInitialOptions = EagerValidationInitialOptions(
    afterMileSeconds: Option<int>,
    createOrUpdate: CreateOrUpdateMode,
    keyNameToCheckFetchedForUpdate: string)

  /** The action of an array-item change; no action means an update. */
  datatype ArrayAction = Add | Remove

  /**
   * Arguments of an array-item change. Every argument but `name` is optional:
   * a missing `index`, `field` or `action` is `None`, a missing `value` or
   * `newItem` is `Undefined`.
   */
  datatype ArrayItemChange = ArrayItemChange(
    name: string,
    index: Option<int>,
    field: Option<string>,
    value: Json,
    action: Option<ArrayAction>,
    newItem: Json)

  /** Arguments of the touched-only change of one field of one array item. */
  datatype ArrayItemTouch = ArrayItemTouch(name: string, index: nat, field: string)
}
