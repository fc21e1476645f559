/**
 * The JavaScript values that the form state trees (values, touched,
 * initialValues) are made of, together with the few JavaScript operations
 * on them that the helper relies on: property lookup, truthiness, object
 * spread, `String.prototype.trim() === ''`, and indexed assignment and
 * `splice` on arrays.
 */
module JsValues {

  datatype Option<+T> = None | Some(value: T)

  /**
   * A JSON-like JavaScript value. `Undefined` is JavaScript's `undefined`:
   * what a missing property reads as, and what a hole left in an array by an
   * assignment past its end reads as. Numbers are integers.
   */
  datatype Json =
    | Undefined
    | Null
    | Bool(b: bool)
    | Num(n: int)
    | Str(s: string)
    | Arr(items: seq<Json>)
    | Obj(fields: map<string, Json>)

  /** `{}` */
  const EmptyObj: Json := Obj(map[])

  /** `obj[key]`: a missing key reads as `undefined`. */
  function Get(obj: map<string, Json>, key: string): Json {
    if key in obj then obj[key] else Undefined
  }

  /** `a[i]` on an array: `undefined` outside its bounds. */
  function At(a: seq<Json>, i: int): Json {
    if 0 <= i < |a| then a[i] else Undefined
  }

  /** JavaScript truthiness (numbers are integers here, so there is no NaN). */
  predicate Truthy(v: Json) {
    match v
    case Undefined => false
    case Null => false
    case Bool(b) => b
    case Num(n) => n != 0
    case Str(s) => s != ""
    case Arr(_) => true
    case Obj(_) => true
  }

  /**
   * The characters `String.prototype.trim` removes: ECMAScript's WhiteSpace
   * (tab, vertical tab, form feed, space, no-break space, the byte order
   * mark and the Unicode space separators) and LineTerminator (line feed,
   * carriage return, line and paragraph separator).
   */
  predicate IsWhitespace(c: char) {
    var n := c as int;
    || n == 0x09 || n == 0x0A || n == 0x0B || n == 0x0C || n == 0x0D
    || n == 0x20 || n == 0xA0 || n == 0x1680
    || (0x2000 <= n <= 0x200A)
    || n == 0x2028 || n == 0x2029 || n == 0x202F || n == 0x205F
    || n == 0x3000 || n == 0xFEFF
  }

  /** `s.trim() === ''` */
  predicate IsBlank(s: string) {
    forall i :: 0 <= i < |s| ==> IsWhitespace(s[i])
  }

  /**
   * Values whose object spread `{...v}` this model computes exactly: all but
   * non-empty strings and arrays, which spread into index-keyed properties.
   */
  predicate Spreadable(v: Json) {
    match v
    case Str(s) => s == ""
    case Arr(items) => items == []
    case _ => true
  }

  /** The own properties that `{...v}` copies. */
  function Spread(v: Json): map<string, Json>
    requires Spreadable(v)
  {
    if v.Obj? then v.fields else map[]
  }

  /**
   * No array sits directly inside an array. The helper walks such an inner
   * array with `Object.keys`/`Object.entries`, as an index-keyed object;
   * this model leaves that case out.
   */
  predicate NoNestedArrays(v: Json) {
    match v
    case Arr(items) => forall i :: 0 <= i < |items| ==> !items[i].Arr? && NoNestedArrays(items[i])
    case Obj(m) => forall k :: k in m ==> NoNestedArrays(m[k])
    case _ => true
  }

  /** `after` is `before` with only the property `key` set (added or replaced). */
  predicate OnlyKeyChanged<V(==)>(before: map<string, V>, after: map<string, V>, key: string) {
    && key in after
    && after.Keys == before.Keys + {key}
    && forall k :: k in before && k != key ==> after[k] == before[k]
  }

  /**
   * `a[i] = x` on a JavaScript array, for an index `i >= 0`: inside the bounds
   * one element is replaced; past the end the array grows to `i + 1` and
   * the positions between the old end and `i` read as `undefined`.
   */
  function AssignAt(a: seq<Json>, i: nat, x: Json): (r: seq<Json>)
    ensures |r| == if i < |a| then |a| else i + 1
    ensures r[i] == x
    ensures forall j :: 0 <= j < |a| && j != i ==> r[j] == a[j]
    ensures forall j :: |a| <= j < i ==> r[j] == Undefined
  {
    if i < |a| then a[i := x] else a + seq(i - |a|, _ => Undefined) + [x]
  }

  /** `r` is `a` without its element at `i`; the later elements shift left. */
  predicate RemovedAt(a: seq<Json>, r: seq<Json>, i: nat) {
    && i < |a|
    && |r| == |a| - 1
    && (forall j :: 0 <= j < i ==> r[j] == a[j])
    && (forall j :: i <= j < |r| ==> r[j] == a[j + 1])
  }

  /** `a.splice(i, 1)` for an index `i >= 0`: past the end it removes nothing. */
  function SpliceOut(a: seq<Json>, i: nat): (r: seq<Json>)
    ensures i < |a| ==> RemovedAt(a, r, i)
    ensures i >= |a| ==> r == a
  {
    if i < |a| then a[..i] + a[i + 1..] else a
  }
}
