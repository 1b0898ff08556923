/** The run-time values found in the rows of an uploaded table, and the
    few JavaScript coercions the table code applies to them. */
module JsValues {
  import opened Common
  import opened Text

  /** A JavaScript value as it can occur in a row cell or a filter value.
      Numbers are integers. Arrays and Date objects are objects, compared
      by identity: `ref` stands for that identity. */
  datatype Value =
    | Undefined
    | Null
    | Str(s: string)
    | Num(n: int)
    | Bool(b: bool)
    | Arr(ref: nat, items: seq<Value>)
    | DateObj(ref: nat, time: int)

  /** What `===`, `Set` and `Map` compare: primitives by value, objects by
      identity only. */
  function Ident(v: Value): (r: Value)
    ensures r.Arr? ==> r.items == []
  {
    match v
    case Arr(r, _) => Arr(r, [])
    case DateObj(r, _) => DateObj(r, 0)
    case _ => v
  }

  /** `a === b` (and SameValueZero, which agrees with it on integers). */
  predicate Same(a: Value, b: Value)
  {
    Ident(a) == Ident(b)
  }

  /** `Array.prototype.includes`: some element is the same value. */
  predicate Includes(xs: seq<Value>, v: Value)
  {
    exists i :: 0 <= i < |xs| && Same(xs[i], v)
  }

  /** JavaScript truthiness. */
  predicate Truthy(v: Value): (r: bool)
    ensures !r <==> v.Undefined? || v.Null? || v == Str("") || v == Num(0) || v == Bool(false)
  {
    match v
    case Undefined => false
    case Null => false
    case Str(s) => s != []
    case Num(n) => n != 0
    case Bool(b) => b
    case Arr(_, _) => true
    case DateObj(_, _) => true
  }

  /** `String(v)`. An array prints its elements joined by commas, with
      `undefined` and `null` elements printed empty. */
  function Display(v: Value): (r: string)
    ensures v.Num? ==> StringToNumber(r) == Some(v.n)
    ensures v.Bool? ==> StringToNumber(r) == None
    ensures v.Arr? && v.items == [] ==> r == []
  {
    match v
    case Undefined => "undefined"
    case Null => "null"
    case Str(s) => s
    case Num(n) => DecimalRoundTrip(n); Decimal(n)
    case Bool(b) => WordIsNaN(b); if b then "true" else "false"
    case Arr(_, items) =>
      Join(seq(|items|, i requires 0 <= i < |items| =>
             if items[i].Undefined? || items[i].Null? then "" else Display(items[i])), ',')
    case DateObj(_, t) => Decimal(t)
  }

  /** "true" and "false" are not numbers. */
  lemma WordIsNaN(b: bool)
    ensures StringToNumber(if b then "true" else "false") == None
  {
    var w := if b then "true" else "false";
    TrimUnchanged(w);
    assert DigitValue(w[0]) >= 10;
  }

  /** `Number(v)`; `None` is NaN. */
  function ToNumber(v: Value): (r: Option<int>)
    ensures v.Undefined? ==> r.None?
    ensures !Truthy(v) && !v.Undefined? ==> r == Some(0)
    ensures r.Some? && r.value != 0 ==> Truthy(v)
    ensures v.Arr? && v.items == [] ==> r == Some(0)
  {
    match v
    case Undefined => None
    case Null => Some(0)
    case Str(s) => StringToNumber(s)
    case Num(n) => Some(n)
    case Bool(b) => Some(if b then 1 else 0)
    case Arr(_, _) => StringToNumber(Display(v))
    case DateObj(_, t) => Some(t)
  }

  /** A parsed row: its own keys in insertion order and its cells. */
  datatype Row = Row(keys: seq<string>, cells: map<string, Value>)

  /** `row[key]`: a key the row does not have reads as `undefined`. */
  function Get(row: Row, key: string): Value
  {
    if key in row.cells then row.cells[key] else Undefined
  }

  /** The cells of one column, one per row, in row order. */
  function ColumnValues(rows: seq<Row>, key: string): (vs: seq<Value>)
    ensures |vs| == |rows|
    ensures forall i :: 0 <= i < |rows| ==> vs[i] == Get(rows[i], key)
  {
    seq(|rows|, i requires 0 <= i < |rows| => Get(rows[i], key))
  }
}
