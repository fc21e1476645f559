# headless-formik-helper, modelled in Dafny

`useHeadlessFormikHelper` is a React hook that sits on top of a Formik form
store. It keeps a field's value and its "touched" flag in step. For fields
whose value is an array of records, it adds, removes and updates items and
keeps a parallel touched array. It can mark the whole initial-values tree
touched so that validation errors show at once (eager validation), in a
CREATE or an UPDATE mode. Before submission it normalises the values: a
blank string the user touched, with no initial value, is deleted, so that a
strict GraphQL server gets an absent field rather than `""`.

This project models what the hook computes, without React or Formik. The
operations read a snapshot of the store (`values`, `touched`,
`initialValues`) and return values:

- The single-field changes return the write requests they issue, in order.
- The array-item change and the touched-only change return an `Outcome`:
  the write requests, in order, and whether an error was logged.
- Normalisation returns the new state of the object it walked.
- The eager decision returns the `setTouched` write it schedules, with its
  delay, or nothing.

Files and modules:

- `JsValues.dfy`: the JSON-like JavaScript values (`Json`, with
  `Undefined` for a missing key or an array hole). It also holds the
  JavaScript operations the hook relies on: truthiness, `trim() === ''`,
  object spread, indexed assignment and `splice`.
- `FormTypes.dfy`: the options and argument records of `src/types.ts`.
- `FormStore.dfy`: the store snapshot, the write requests (`SetFieldTouched`,
  `SetFieldValue`, `SetTouched`, `HandleChange`) and `Apply`. `Apply` is
  the contract the hook relies on: set one key, or replace the touched
  tree. Lemmas use it to talk about the state after the writes.
- `ScalarChanges.dfy`: the single-field change helpers.
- `ArrayItems.dfy`: the array-item add/remove/update and the touched-only
  pad-forward.
- `TouchedTree.dfy`: `setTouchedRecursive`.
- `Normalize.dfy`: `normalizeFormikValues`.
- `EagerValidation.dfy`: `handleEagerTouchedInitialState`.

The forms follow the source. The array change and the pad-forward copy the
arrays they work on into local sequences and change those step by step, so
they are methods. `ChangeArrayItem` is proved equal to the function
`ArrayChange`, which the lemmas use.
`MarkItemFieldTouched` has a padding loop with invariants. The in-place walk
of `normalizeFormikValues` is a pair of mutually recursive methods
(`NormalizeObj`, `NormalizeItems`) with loops. They are proved equal to the
recursive function `NormalizedValue`. `setTouchedRecursive` and the eager
decision are pure, so they are functions.

Behaviour of the code worth knowing:

- An invalid add (falsy `newItem`) or an out-of-range remove logs an error
  but does not return. It still writes both arrays. The values come out
  unchanged. The touched tree also comes out unchanged, except that a
  `touched[name]` that was not an array becomes `[]`
  (`ArrayChangeInvalidAddOrRemove`).
- Add and remove keep the value and touched arrays of equal length if they
  had equal length before (`ArrayChangeKeepsParallel`). Unequal arrays can
  stay unequal: with no touched array, an add on a non-empty value array
  writes a touched array of length 1. They can also become equal: a remove
  reaching past the end of a shorter touched array removes nothing from it,
  so removing the last value item when the touched array is one shorter
  leaves both of the same length.
- The update branch does not pad the touched array. An index past its end
  leaves `undefined` holes (`FieldSetAt`).
- Normalisation takes the deletion test from the leaf's own key, looked up
  in the top-level `touched` and `initialValues`, not from the full path
  (`NormalizeNestedKeyExample`).

## Model

| member | source | states |
|---|---|---|
| `JsValues.AssignAt` | src/HeadlessFormikHelper.ts:133-136 | `a[i] = x`: inside the bounds only entry i changes; past the end the array grows to i+1 with `undefined` between the old end and i |
| `JsValues.SpliceOut` | src/HeadlessFormikHelper.ts:116-117 | `splice(i, 1)`: for i inside the bounds, entry i is removed, the length drops by one and later entries shift left; past the end nothing changes |
| `ScalarChanges.ChangeByEvent` | src/HeadlessFormikHelper.ts:31-36 | two writes, both to the event's target field: first the touched mark, then the event's value |
| `ScalarChanges.ChangeByEventEffect` | src/HeadlessFormikHelper.ts:31-36 | two writes, the touched mark of the target first; afterwards only the target's key differs: value set, touched true |
| `ScalarChanges.ChangeByNameValueEffect` | src/HeadlessFormikHelper.ts:38-51 | two writes, touched first, then the value; afterwards only `name` differs: `values[name] == value`, `touched[name] == true` |
| `ScalarChanges.ChangeByNameValue` | src/HeadlessFormikHelper.ts:38-51 | two writes, both to `name`: first the touched mark, then `value` |
| `ArrayItems.ArrayChange` | src/HeadlessFormikHelper.ts:95-154 | a value that is not an array gives no write and an error; nothing is written only when an error is logged; otherwise the touched tree is written first, changing only `name`, then an array value under `name` |
| `ArrayItems.ChangeArrayItem` | src/HeadlessFormikHelper.ts:79-157 | the step-by-step copy/push/splice/assign issues exactly the writes and error flag of `ArrayChange` |
| `ArrayItems.ArrayChangeNotAnArray` | src/HeadlessFormikHelper.ts:152-154 | when `values[name]` is not an array the change logs and writes nothing |
| `ArrayItems.ArrayChangeAdd` | src/HeadlessFormikHelper.ts:101-104 | a truthy `newItem` is appended to the value array and `{}` to the touched array (the old one or `[]`); touched is written before the value; every other key of both trees is kept; no error |
| `ArrayItems.ArrayChangeRemove` | src/HeadlessFormikHelper.ts:110-117 | a valid index is removed from the value array (length minus one, later items shift left) and from the touched array when it reaches that far, else that array is unchanged; other keys kept |
| `ArrayItems.ArrayChangeUpdate` | src/HeadlessFormikHelper.ts:123-136 | only `values[name][i][field]` changes, to `value`, keeping the item's other properties; `touched[name][i][field]` becomes true, the touched array only grows to reach i; other entries and keys kept |
| `ArrayItems.ArrayChangeInvalidUpdate` | src/HeadlessFormikHelper.ts:137-142 | an update without a valid index or a non-empty field logs and writes nothing |
| `ArrayItems.ArrayChangeInvalidAddOrRemove` | src/HeadlessFormikHelper.ts:105-122 | a falsy `newItem` or an out-of-range remove logs and still writes; values are unchanged, touched too unless `touched[name]` was not an array, which becomes `[]` |
| `ArrayItems.ArrayChangeKeepsParallel` | src/HeadlessFormikHelper.ts:96-151 | if the value and touched arrays under `name` have equal length, they still do after any change |
| `ArrayItems.RemoveUndoesAdd` | src/HeadlessFormikHelper.ts:101-117 | on parallel arrays, removing at the old length the item just added restores the whole snapshot |
| `ArrayItems.MarkItemFieldTouched` | src/HeadlessFormikHelper.ts:159-190 | one `setTouched` write, no value write, no error; only `touched[name]` changes, to an array of length max(old, index+1), `{}` between the old end and index, old entries kept, entry index holding its old properties plus `field: true` |
| `ArrayItems.PadForwardDeterminate` | src/HeadlessFormikHelper.ts:169-181 | the pad-forward contract leaves exactly one possible touched array |
| `ArrayItems.PadForwardExample` | src/HeadlessFormikHelper.ts:174-181 | marking field "x" of entry 3 on an empty touched array gives `[{}, {}, {}, {x: true}]` |
| `TouchedTree.TouchedValue` | src/HeadlessFormikHelper.ts:240-256 | objects map to objects with the same keys, arrays to arrays of the same length, every other value to `true` |
| `TouchedTree.SetTouchedRecursive` | src/HeadlessFormikHelper.ts:239-257 | the result has exactly the input's keys |
| `TouchedTree.TouchedValueShape` | src/HeadlessFormikHelper.ts:239-257 | the touched tree has the value's shape (same keys, same array lengths, null a leaf) and `true` at every leaf |
| `TouchedTree.TouchedValueUnique` | src/HeadlessFormikHelper.ts:232-238 | any tree with the value's shape and only `true` leaves is the touched tree: the documented "same structure, all values true" determines the result |
| `TouchedTree.SetTouchedRecursiveMarksAll` | src/HeadlessFormikHelper.ts:239-257 | for a whole object: same shape, all leaves true, and the only such tree |
| `TouchedTree.SetTouchedRecursiveExample` | src/HeadlessFormikHelper.ts:243-253 | `{a: 1, b: [1, {c: 2}], d: {e: 3}}` becomes `{a: true, b: [true, {c: true}], d: {e: true}}` |
| `Normalize.NormalizedValue` | src/HeadlessFormikHelper.ts:202-224 | objects stay objects (losing keys only), arrays stay arrays of the same length with primitive items unchanged, other values unchanged, no array ends up inside an array |
| `Normalize.NormalizedObj` | src/HeadlessFormikHelper.ts:198-230 | the object keeps only keys it had, and loses exactly the keys whose value the deletion test selects |
| `Normalize.NormalizeObj` | src/HeadlessFormikHelper.ts:198-230 | the in-place walk over the properties leaves the object `NormalizedObj` describes |
| `Normalize.NormalizeItems` | src/HeadlessFormikHelper.ts:206-212 | the array map keeps the length, turns each object item into its normalized object and keeps every other item as it was |
| `Normalize.NormalizeDeletesExactly` | src/HeadlessFormikHelper.ts:213-222 | a key is deleted iff its value is a blank string, top-level `touched[key]` is truthy and top-level `initialValues[key]` is undefined; nested objects come back normalized, other primitives unchanged |
| `Normalize.NormalizeKeepsArrayItems` | src/HeadlessFormikHelper.ts:206-212 | an array property is never deleted and keeps its length; its object items come back normalized, its other items as they were |
| `Normalize.NormalizedIsClean` | src/HeadlessFormikHelper.ts:202-226 | after normalization nothing anywhere in the tree meets the deletion test |
| `Normalize.CleanIsFixpoint` | src/HeadlessFormikHelper.ts:202-226 | a tree with nothing to delete comes back exactly as it was |
| `Normalize.NormalizeIdempotent` | src/HeadlessFormikHelper.ts:198-230 | normalizing twice gives the same as normalizing once |
| `Normalize.NormalizeTouchedBlankExample` | src/HeadlessFormikHelper.ts:215-221 | touched `{a: true}`, initial `{}`: `{a: "   "}` becomes `{}` |
| `Normalize.NormalizeInitialValueExample` | src/HeadlessFormikHelper.ts:215-221 | touched `{a: true}`, initial `{a: "x"}`: `{a: ""}` is kept |
| `Normalize.NormalizeNestedKeyExample` | src/HeadlessFormikHelper.ts:216-217 | touched `{a: true}`: `{o: {a: " "}}` becomes `{o: {}}`, the nested leaf being tested by its own key at top level |
| `EagerValidation.Delay` | src/HeadlessFormikHelper.ts:290-292 | the delay is `afterMileSeconds` when given (0 stays 0), else 0 |
| `EagerValidation.EagerTouchedInitialState` | src/HeadlessFormikHelper.ts:266-309 | no options: nothing scheduled; UPDATE: scheduled iff `initialValues[keyNameToCheckFetchedForUpdate]` is defined; CREATE: always; the payload has the initial values' keys and shape with all leaves true, after `Delay` |

## Left out

- React wiring is not modelled. This covers the `useRef` that captures the
  eager options once, the `useCallback` memoisation and the `useEffect` that
  reruns on a new `initialValues` identity. The memoized helpers issue the
  same writes as the plain ones, so one function models both.
- `setTimeout` is not modelled: the model returns the scheduled write and
  its delay. The browser's clamping of the delay is not modelled either.
- Promise rejections of store writes (`.catch(console.error)`) are not
  modelled. `errorLogged` records only the hook's own `console.error`
  calls.
- Formik's internals are not modelled. `Apply` takes field names as
  top-level keys. Formik's dotted or bracketed paths are not modelled,
  including the mismatch between `setFieldValue`'s path and the literal key
  in `{...touched, [name]: ...}`.
- `handleChange` is not modelled beyond "write the event's value under its
  name". Checkbox, select and number parsing are left out.
- `formikValuesChanged` (line 29) is left out. It calls lodash `isEqual`,
  which is foreign code. On `Json` it would be `values != initialValues`.
- NormalizeObj: JavaScript changes the caller's object in place and returns
  it. The model returns the object's new state. Aliasing and shared or
  cyclic sub-objects are not modelled. Property order is not modelled,
  because the result does not depend on it.
- ChangeArrayItem, ArrayChange, MarkItemFieldTouched: an entry that is then
  spread (`{...entry}`) must be `Spreadable`. Spreading a non-empty string
  or array gives index-keyed properties, which the model does not compute.
- NormalizeObj, NormalizedValue, SetTouchedRecursive, EagerTouchedInitialState: an
  array directly inside an array is excluded (`NoNestedArrays`). The source
  walks it with `Object.keys`/`Object.entries`, as an index-keyed object.
- MarkItemFieldTouched: `index` is a `nat`. A negative index makes
  JavaScript set a property such as `"-1"` on the array.
- Numbers are integers, so NaN, fractions and the truthiness of `-0` and
  NaN are not modelled. A fractional `index` is not modelled either
  (`splice` truncates it).
- Value and initial-value arrays are taken to have no holes. A hole there
  is modelled as an `undefined` element, but JavaScript's `map` skips holes:
  `setTouchedRecursive` keeps a hole as a hole where the model gives `true`,
  and normalisation keeps a hole where the model keeps `undefined`.
- Holes in touched arrays (left by an update past the end) are modelled as
  `undefined` elements. The only thing the modelled code does to such an
  entry is read it by index, which gives `undefined` either way.
- The whitespace set of `trim` is ECMAScript's WhiteSpace and
  LineTerminator code points, as listed in `JsValues.IsWhitespace`.
