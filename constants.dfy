/** Filter-field generation for the side panel and the colour hash used for
    tag badges. */
module Constants {
  import opened Common
  import opened Text
  import opened JsValues
  import opened Schema

  // ---------------------------------------------------------------------
  // generateColorFromName

  const Two32: int := 0x1_0000_0000
  const Two24: int := 0x100_0000

  /** ToInt32: the value modulo 2^32, read as a signed 32-bit integer. */
  function ToInt32(x: int): (r: int)
    ensures -0x8000_0000 <= r < 0x8000_0000
  {
    (x + 0x8000_0000) % Two32 - 0x8000_0000
  }

  /** ToInt32 changes a value by a multiple of 2^32 only. */
  lemma ToInt32Shift(x: int) returns (q: int)
    ensures ToInt32(x) == x + q * Two32
  {
    q := -((x + 0x8000_0000) / Two32);
  }

  /** `acc << 5`: both the operand and the result are 32-bit integers. */
  function ShiftLeft5(x: int): int
  {
    ToInt32(ToInt32(x) * 32)
  }

  /** One step of the reduce: `char.charCodeAt(0) + ((acc << 5) - acc)`.
      Only the shift wraps; the subtraction and addition are exact. */
  function HashStep(acc: int, code: nat): int
  {
    code + (ShiftLeft5(acc) - acc)
  }

  /** The reduce over the name's UTF-16 code units, from 0. */
  function HashFold(units: seq<nat>): int
  {
    if units == [] then 0 else HashStep(HashFold(units[..|units| - 1]), units[|units| - 1])
  }

  /** The textbook string hash `h <- 31 * h + c`, without any wrapping. */
  function PolyHash(units: seq<nat>): int
  {
    if units == [] then 0 else 31 * PolyHash(units[..|units| - 1]) + units[|units| - 1]
  }

  /** The wrapping fold and the polynomial hash agree modulo 2^32. */
  lemma {:induction false} HashFoldIsPolyHash(units: seq<nat>) returns (k: int)
    ensures HashFold(units) == PolyHash(units) + k * Two32
  {
    if units == [] {
      k := 0;
    } else {
      var init := units[..|units| - 1];
      var a := HashFold(init);
      var k0 := HashFoldIsPolyHash(init);
      var q1 := ToInt32Shift(a);
      var q2 := ToInt32Shift(ToInt32(a) * 32);
      k := 31 * k0 + 32 * q1 + q2;
    }
  }

  /** `hash & 0x00ffffff`: the low 24 bits of the 32-bit hash. */
  function Low24(hash: int): (r: nat)
    ensures r < Two24
  {
    ToInt32(hash) % Two24
  }

  /** The colour channel bits are the polynomial hash modulo 2^24. */
  lemma Low24IsPolyHash(units: seq<nat>)
    ensures Low24(HashFold(units)) == PolyHash(units) % Two24
  {
    var k := HashFoldIsPolyHash(units);
    var q := ToInt32Shift(HashFold(units));
    var p := PolyHash(units);
    assert ToInt32(HashFold(units)) == p + (k + q) * 256 * Two24;
    ModOfMultiple(p, (k + q) * 256);
  }

  lemma ModOfMultiple(x: int, j: int)
    ensures (x + j * Two24) % Two24 == x % Two24
  {
    var d, r := x / Two24, x % Two24;
    assert x + j * Two24 == (d + j) * Two24 + r;
  }

  /** `s.substring(start, end)`: both ends clamped to the string, swapped
      when out of order. */
  function Substring(s: string, start: int, end: int): (r: string)
    ensures |r| <= |s|
  {
    var a := if start < 0 then 0 else if start > |s| then |s| else start;
    var b := if end < 0 then 0 else if end > |s| then |s| else end;
    if a <= b then s[a..b] else s[b..a]
  }

  /** `generateColorFromName(name, opacity)` with `alpha` standing for
      `Math.round(opacity * 255)`. */
  function ColorFromName(name: string, alpha: nat): (r: string)
    ensures |r| == 7 + |Hex(alpha)| && r[0] == '#' && r[7..] == Hex(alpha)
    ensures AllDigits(r[1..7], 16) && FromBase(r[1..7], 16) == Low24(HashFold(CodeUnits(name)))
  {
    var n := Low24(HashFold(CodeUnits(name)));
    var c := Hex(n);
    HexColor(n, alpha);
    "#" + Substring("00000", 0, 6 - |c|) + c + Hex(alpha)
  }

  /** '#', a 24-bit number in six hex digits, then the alpha digits. */
  lemma HexColor(n: nat, alpha: nat)
    requires n < Two24
    ensures var c := Hex(n);
            var r := "#" + Substring("00000", 0, 6 - |c|) + c + Hex(alpha);
            |r| == 7 + |Hex(alpha)| && r[0] == '#' && r[7..] == Hex(alpha)
            && AllDigits(r[1..7], 16) && FromBase(r[1..7], 16) == n
  {
    var c := Hex(n);
    var w := Substring("00000", 0, 6 - |c|) + c;
    PaddedHex(n);
    assert "#" + Substring("00000", 0, 6 - |c|) + c + Hex(alpha) == "#" + w + Hex(alpha);
    ColorSlices("#" + w + Hex(alpha), w, Hex(alpha));
  }

  /** The six colour digits read as a number. */
  function ColorChannels(name: string): nat
  {
    PolyHash(CodeUnits(name)) % Two24
  }

  lemma {:induction false} FromBaseLeadingZeros(zeros: string, s: string)
    requires forall i :: 0 <= i < |zeros| ==> zeros[i] == '0'
    requires AllDigits(s, 16)
    ensures AllDigits(zeros + s, 16)
    ensures FromBase(zeros + s, 16) == FromBase(s, 16)
  {
    if s == [] {
      assert zeros + s == zeros;
      FromBaseZeros(zeros);
    } else {
      var init, c := s[..|s| - 1], s[|s| - 1];
      assert s == init + [c];
      assert AllDigits(init, 16);
      FromBaseLeadingZeros(zeros, init);
      FromBaseSnoc(zeros + init, c, 16);
      FromBaseSnoc(init, c, 16);
      assert zeros + s == (zeros + init) + [c];
    }
  }

  lemma {:induction false} FromBaseZeros(zeros: string)
    requires forall i :: 0 <= i < |zeros| ==> zeros[i] == '0'
    ensures AllDigits(zeros, 16) && FromBase(zeros, 16) == 0
  {
    if zeros != [] {
      FromBaseZeros(zeros[..|zeros| - 1]);
    }
  }

  /** The colour is `#`, six upper-case hex digits that read back as the
      hash modulo 2^24, and then the alpha in hex without padding. */
  lemma ColorFormat(name: string, alpha: nat)
    ensures var r := ColorFromName(name, alpha);
            |r| == 7 + |Hex(alpha)| && r[0] == '#'
            && AllDigits(r[1..7], 16) && FromBase(r[1..7], 16) == ColorChannels(name)
            && r[7..] == Hex(alpha)
  {
    Low24IsPolyHash(CodeUnits(name));
  }

  /** A 24-bit number padded with zeros to six hex digits reads back. */
  lemma PaddedHex(n: nat)
    requires n < Two24
    ensures var c := Hex(n);
            var w := Substring("00000", 0, 6 - |c|) + c;
            |w| == 6 && AllDigits(w, 16) && FromBase(w, 16) == n
  {
    var c := Hex(n);
    assert Pow(16, 6) == Two24;
    ToBaseLength(n, 16, 6, Two24);
    var zeros := Substring("00000", 0, 6 - |c|);
    assert |zeros| == 6 - |c|;
    BaseRoundTrip(n, 16);
    FromBaseLeadingZeros(zeros, c);
  }

  lemma ColorSlices(r: string, w: string, h: string)
    requires |w| == 6 && r == "#" + w + h
    ensures |r| == 7 + |h| && r[0] == '#' && r[1..7] == w && r[7..] == h
  {
  }

  /** The opacity changes the alpha digits only: the `#RRGGBB` prefix of a
      name's colour is the same for every opacity. */
  lemma OpacityKeepsChannels(name: string, alpha1: nat, alpha2: nat)
    ensures ColorFromName(name, alpha1)[..7] == ColorFromName(name, alpha2)[..7]
  {
    ColorFormat(name, alpha1);
    ColorFormat(name, alpha2);
    var units := CodeUnits(name);
    var c := Hex(Low24(HashFold(units)));
    var zeros := Substring("00000", 0, 6 - |c|);
    assert ColorFromName(name, alpha1)[..7] == "#" + zeros + c;
    assert ColorFromName(name, alpha2)[..7] == "#" + zeros + c;
  }

  /** An alpha of at most 255 takes one or two hex digits and reads back. */
  lemma AlphaDigits(alpha: nat)
    requires alpha <= 255
    ensures 1 <= |Hex(alpha)| <= 2
    ensures AllDigits(Hex(alpha), 16) && FromBase(Hex(alpha), 16) == alpha
  {
    assert Pow(16, 2) == 256;
    ToBaseLength(alpha, 16, 2, 256);
    BaseRoundTrip(alpha, 16);
  }

  // ---------------------------------------------------------------------
  // filterTypeMap and makeFilterFields

  /** The filter widget kinds a field can name. `NoWidget` is the `"none"`
      kind, which the type map never produces. */
  datatype FilterKind = Input | Slider | Checkbox | Timerange | NoWidget

  /** `filterTypeMap[type]`; a type outside the table reads as `undefined`. */
  function FilterTypeMap(t: ColumnType): (r: Option<FilterKind>)
    ensures r.None? <==> t.Unsupported?
    ensures r != Some(NoWidget)
  {
    match t
    case String => Some(Input)
    case Number => Some(Slider)
    case Boolean => Some(Checkbox)
    case Date => Some(Timerange)
    case Url => Some(Input)
    case Tags => Some(Checkbox)
    case Images => Some(Input)
    case Unsupported(_) => None
  }

  /** `Math.min`/`Math.max` results: an integer, an infinity or NaN. */
  datatype Extended = Finite(n: int) | PosInf | NegInf | NaN

  /** Some value converts to NaN. */
  predicate SomeNaN(vs: seq<Value>)
  {
    exists i :: 0 <= i < |vs| && ToNumber(vs[i]).None?
  }

  lemma SomeNaNSnoc(init: seq<Value>, last: Value)
    ensures SomeNaN(init + [last]) <==> SomeNaN(init) || ToNumber(last).None?
  {
    var vs := init + [last];
    if SomeNaN(init) {
      var i :| 0 <= i < |init| && ToNumber(init[i]).None?;
      assert vs[i] == init[i];
    }
    if ToNumber(last).None? {
      assert vs[|init|] == last;
    }
    if SomeNaN(vs) {
      var i :| 0 <= i < |vs| && ToNumber(vs[i]).None?;
      if i < |init| {
        assert vs[i] == init[i];
      }
    }
  }

  /** `Math.min(...values)`: NaN as soon as one argument is not a number,
      +Infinity with no arguments. */
  function MathMin(vs: seq<Value>): (r: Extended)
    ensures !r.NegInf?
    ensures r.PosInf? <==> vs == []
    ensures r.NaN? <==> SomeNaN(vs)
    ensures r.Finite? ==> forall i :: 0 <= i < |vs| ==> ToNumber(vs[i]).Some? && r.n <= ToNumber(vs[i]).value
    ensures r.Finite? ==> exists i :: 0 <= i < |vs| && ToNumber(vs[i]) == Some(r.n)
  {
    if vs == [] then PosInf
    else
      var init, last := vs[..|vs| - 1], vs[|vs| - 1];
      assert vs == init + [last];
      var m := MathMin(init);
      var x := ToNumber(last);
      SomeNaNSnoc(init, last);
      if m.NaN? || x.None? then NaN
      else if m.PosInf? || x.value < m.n then Finite(x.value)
      else m
  }

  /** `Math.max(...values)`: NaN as soon as one argument is not a number,
      -Infinity with no arguments. */
  function MathMax(vs: seq<Value>): (r: Extended)
    ensures !r.PosInf?
    ensures r.NegInf? <==> vs == []
    ensures r.NaN? <==> SomeNaN(vs)
    ensures r.Finite? ==> forall i :: 0 <= i < |vs| ==> ToNumber(vs[i]).Some? && ToNumber(vs[i]).value <= r.n
    ensures r.Finite? ==> exists i :: 0 <= i < |vs| && ToNumber(vs[i]) == Some(r.n)
  {
    if vs == [] then NegInf
    else
      var init, last := vs[..|vs| - 1], vs[|vs| - 1];
      assert vs == init + [last];
      var m := MathMax(init);
      var x := ToNumber(last);
      SomeNaNSnoc(init, last);
      if m.NaN? || x.None? then NaN
      else if m.NegInf? || x.value > m.n then Finite(x.value)
      else m
  }

  /** `item[key] || 0`. */
  function OrZero(v: Value): (r: Value)
    ensures Truthy(v) ==> r == v
    ensures !Truthy(v) ==> r == Num(0)
  {
    if Truthy(v) then v else Num(0)
  }

  /** The numbers the slider range is computed from. */
  function NumberCells(data: seq<Row>, key: string): (vs: seq<Value>)
    ensures |vs| == |data|
    ensures forall i :: 0 <= i < |data| ==> vs[i] == OrZero(Get(data[i], key))
  {
    seq(|data|, i requires 0 <= i < |data| => OrZero(Get(data[i], key)))
  }

  /** A `{ label, value }` option of a filter field (`label` is a keyword here, hence `title`). */
  datatype FieldOption = FieldOption(title: Value, value: Value)

  /** A generated filter field. `options`, `min` and `max` are absent where
      the field does not set them. */
  datatype FilterField = FilterField(
    title: string,
    value: string,
    kind: Option<FilterKind>,
    options: Option<seq<FieldOption>>,
    min: Option<Extended>,
    max: Option<Extended>,
    defaultOpen: bool,
    commandDisabled: bool)

  /** The cell values a tag-like column contributes: an array contributes
      its elements, anything else itself. */
  function CellItems(v: Value): seq<Value>
  {
    if v.Arr? then v.items else [v]
  }

  /** All cell values of a column with array cells flattened, in row order. */
  function FlattenColumn(rows: seq<Row>, key: string): seq<Value>
  {
    if rows == [] then []
    else FlattenColumn(rows[..|rows| - 1], key) + CellItems(Get(rows[|rows| - 1], key))
  }

  /** The values in first-seen order, dropping any value `===` an earlier one. */
  function Distinct(xs: seq<Value>): seq<Value>
  {
    if xs == [] then []
    else
      var d := Distinct(xs[..|xs| - 1]);
      if Includes(d, xs[|xs| - 1]) then d else d + [xs[|xs| - 1]]
  }

  /** No two values are `===`. */
  predicate NoSameTwice(vs: seq<Value>)
  {
    forall i, j :: 0 <= i < j < |vs| ==> !Same(vs[i], vs[j])
  }

  /** Distinct keeps one representative per `===` class: nothing twice, each
      input value represented, nothing that is not an input value. */
  lemma {:induction false} DistinctProperties(xs: seq<Value>)
    ensures NoSameTwice(Distinct(xs))
    ensures forall x :: x in xs ==> Includes(Distinct(xs), x)
    ensures forall y :: y in Distinct(xs) ==> y in xs
  {
    if xs != [] {
      var init := xs[..|xs| - 1];
      DistinctProperties(init);
      assert xs == init + [xs[|xs| - 1]];
      var d := Distinct(init);
      if !Includes(d, xs[|xs| - 1]) {
        var e := d + [xs[|xs| - 1]];
        forall x | x in xs
          ensures Includes(e, x)
        {
          if x in init {
            var k :| 0 <= k < |d| && Same(d[k], x);
            assert e[k] == d[k];
          } else {
            assert e[|d|] == x;
          }
        }
      }
    }
  }

  /** `idx[k]` is where `d[k]` first occurs in `xs`: no earlier value of
      `xs` is `===` to it, and the positions increase along `d`. */
  ghost predicate FirstSeenAt(xs: seq<Value>, d: seq<Value>, idx: seq<int>)
  {
    |idx| == |d|
    && (forall k :: 0 <= k < |d| ==> 0 <= idx[k] < |xs| && d[k] == xs[idx[k]])
    && (forall k, j :: 0 <= k < |d| && 0 <= j < idx[k] ==> !Same(xs[j], d[k]))
    && (forall k, l :: 0 <= k < l < |d| ==> idx[k] < idx[l])
  }

  /** Distinct lists the values in the order they are first seen: each kept
      value is the first of its `===` class in the input. */
  lemma {:induction false} DistinctFirstSeenOrder(xs: seq<Value>)
    ensures exists idx :: FirstSeenAt(xs, Distinct(xs), idx)
  {
    if xs == [] {
      assert Distinct(xs) == [];
      assert FirstSeenAt(xs, Distinct(xs), []);
    } else {
      var n := |xs| - 1;
      var init := xs[..n];
      var x := xs[n];
      assert xs == init + [x];
      DistinctFirstSeenOrder(init);
      var d := Distinct(init);
      var idx :| FirstSeenAt(init, d, idx);
      if Includes(d, x) {
        FirstSeenKeep(init, x, d, idx);
        assert FirstSeenAt(xs, Distinct(xs), idx);
      } else {
        NotSeenBefore(init, x);
        FirstSeenAppend(init, x, d, idx);
        assert FirstSeenAt(xs, Distinct(xs), idx + [n]);
      }
    }
  }

  /** A value that Distinct did not keep was never seen. */
  lemma NotSeenBefore(init: seq<Value>, x: Value)
    requires !Includes(Distinct(init), x)
    ensures forall j :: 0 <= j < |init| ==> !Same(init[j], x)
  {
    DistinctProperties(init);
    var d := Distinct(init);
    forall j | 0 <= j < |init|
      ensures !Same(init[j], x)
    {
      assert init[j] in init;
      var k :| 0 <= k < |d| && Same(d[k], init[j]);
    }
  }

  /** Appending a value to the input keeps every first position. */
  lemma FirstSeenKeep(init: seq<Value>, x: Value, d: seq<Value>, idx: seq<int>)
    requires FirstSeenAt(init, d, idx)
    ensures FirstSeenAt(init + [x], d, idx)
  {
    var xs := init + [x];
    forall k, j | 0 <= k < |d| && 0 <= j < idx[k]
      ensures !Same(xs[j], d[k])
    {
      assert xs[j] == init[j];
    }
    forall k | 0 <= k < |d|
      ensures 0 <= idx[k] < |xs| && d[k] == xs[idx[k]]
    {
      assert xs[idx[k]] == init[idx[k]];
    }
  }

  /** A value never seen before is first seen at the end. */
  lemma FirstSeenAppend(init: seq<Value>, x: Value, d: seq<Value>, idx: seq<int>)
    requires FirstSeenAt(init, d, idx)
    requires forall j :: 0 <= j < |init| ==> !Same(init[j], x)
    ensures FirstSeenAt(init + [x], d + [x], idx + [|init|])
  {
    FirstSeenKeep(init, x, d, idx);
    var xs := init + [x];
    var e := d + [x];
    var idx' := idx + [|init|];
    forall k, j | 0 <= k < |e| && 0 <= j < idx'[k]
      ensures !Same(xs[j], e[k])
    {
      if k < |d| {
        assert e[k] == d[k] && idx'[k] == idx[k];
      } else {
        assert xs[j] == init[j];
      }
    }
    forall k | 0 <= k < |e|
      ensures 0 <= idx'[k] < |xs| && e[k] == xs[idx'[k]]
    {
      if k < |d| {
        assert e[k] == d[k] && idx'[k] == idx[k];
      }
    }
    forall k, l | 0 <= k < l < |e|
      ensures idx'[k] < idx'[l]
    {
      if l < |d| {
        assert idx'[k] == idx[k] && idx'[l] == idx[l];
      }
    }
  }

  /** The values of a list of options, in order. */
  function OptionValues(opts: seq<FieldOption>): (vs: seq<Value>)
    ensures |vs| == |opts|
    ensures forall i :: 0 <= i < |opts| ==> vs[i] == opts[i].value
  {
    seq(|opts|, i requires 0 <= i < |opts| => opts[i].value)
  }

  /** Options whose label is their value. */
  function SelfLabelled(vs: seq<Value>): (opts: seq<FieldOption>)
    ensures |opts| == |vs|
    ensures forall i :: 0 <= i < |vs| ==> opts[i].title == opts[i].value == vs[i]
  {
    seq(|vs|, i requires 0 <= i < |vs| => FieldOption(vs[i], vs[i]))
  }

  /** The options of a string, tags or images column. */
  function TagOptions(data: seq<Row>, key: string): seq<FieldOption>
  {
    SelfLabelled(Distinct(FlattenColumn(data, key)))
  }

  /** `acc.some((option) => option.value === v)`. */
  predicate HasOption(acc: seq<FieldOption>, v: Value)
  {
    exists k :: 0 <= k < |acc| && Same(acc[k].value, v)
  }

  /** Pushing one more value: the option list grows exactly when no option
      holds a value `===` to it. */
  lemma PushStep(acc: seq<FieldOption>, xs: seq<Value>, v: Value)
    requires acc == SelfLabelled(Distinct(xs))
    ensures HasOption(acc, v) <==> Includes(Distinct(xs), v)
    ensures SelfLabelled(Distinct(xs + [v])) ==
              if Includes(Distinct(xs), v) then acc else acc + [FieldOption(v, v)]
  {
    assert (xs + [v])[..|xs|] == xs;
    var d := Distinct(xs);
    if Includes(d, v) {
      var k :| 0 <= k < |d| && Same(d[k], v);
      assert Same(acc[k].value, v);
    }
  }

  /** The options the `reduce` accumulates: it walks the rows and, inside an
      array cell, its elements, pushing each value that no option so far
      holds. */
  method CollectOptions(data: seq<Row>, key: string) returns (acc: seq<FieldOption>)
    ensures acc == TagOptions(data, key)
  {
    acc := [];
    var i := 0;
    assert data[..0] == [];
    assert SelfLabelled([]) == [];
    while i < |data|
      invariant 0 <= i <= |data|
      invariant acc == TagOptions(data[..i], key)
    {
      FlattenStep(data, i, key);
      acc := PushCell(acc, FlattenColumn(data[..i], key), Get(data[i], key));
      i := i + 1;
    }
    assert data[..i] == data;
  }

  /** One row of the `reduce`: an array cell pushes each of its elements
      that no option holds yet, any other cell pushes itself if no option
      holds it. `seen` are the values walked so far. */
  method PushCell(acc0: seq<FieldOption>, ghost seen: seq<Value>, values: Value) returns (acc: seq<FieldOption>)
    requires acc0 == SelfLabelled(Distinct(seen))
    ensures acc == SelfLabelled(Distinct(seen + CellItems(values)))
  {
    acc := acc0;
    if values.Arr? {
      var j := 0;
      assert seen + values.items[..0] == seen;
      while j < |values.items|
        invariant 0 <= j <= |values.items|
        invariant acc == SelfLabelled(Distinct(seen + values.items[..j]))
      {
        var value := values.items[j];
        PushItem(acc, seen, values.items, j);
        if !HasOption(acc, value) {
          acc := acc + [FieldOption(value, value)];
        }
        j := j + 1;
      }
      assert values.items[..j] == values.items == CellItems(values);
    } else {
      PushStep(acc, seen, values);
      if !HasOption(acc, values) {
        acc := acc + [FieldOption(values, values)];
      }
      assert CellItems(values) == [values];
    }
  }

  lemma PushItem(acc: seq<FieldOption>, seen: seq<Value>, items: seq<Value>, j: nat)
    requires j < |items|
    requires acc == SelfLabelled(Distinct(seen + items[..j]))
    ensures HasOption(acc, items[j]) <==>
              Includes(Distinct(seen + items[..j]), items[j])
    ensures SelfLabelled(Distinct(seen + items[..j + 1])) ==
              if Includes(Distinct(seen + items[..j]), items[j]) then acc
              else acc + [FieldOption(items[j], items[j])]
  {
    assert seen + items[..j + 1] == (seen + items[..j]) + [items[j]];
    PushStep(acc, seen + items[..j], items[j]);
  }

  lemma FlattenStep(data: seq<Row>, i: nat, key: string)
    requires i < |data|
    ensures FlattenColumn(data[..i + 1], key) == FlattenColumn(data[..i], key) + CellItems(Get(data[i], key))
  {
    assert data[..i + 1][..i] == data[..i];
  }

  /** One field of `makeFilterFields`, before the `satisfies` check. */
  function MakeFilterField(key: string, t: ColumnType, data: seq<Row>): (f: FilterField)
    ensures f.title == CapitalizeFirstLetter(key) && f.value == key && f.kind == FilterTypeMap(t)
  {
    var base := FilterField(CapitalizeFirstLetter(key), key, FilterTypeMap(t), None, None, None, false, false);
    match t
    case Url =>
      base.(options := Some(seq(|data|, i requires 0 <= i < |data| =>
                             FieldOption(Get(data[i], key), Get(data[i], key)))))
    case Boolean =>
      base.(options := Some([FieldOption(Str("true"), Bool(true)), FieldOption(Str("false"), Bool(false))]))
    case Images => base.(options := Some(TagOptions(data, key)))
    case Tags => base.(options := Some(TagOptions(data, key)))
    case String => base.(options := Some(TagOptions(data, key)))
    case Number =>
      var values := NumberCells(data, key);
      base.(min := Some(MathMin(values)), max := Some(MathMax(values)),
            options := Some(seq(|data|, i requires 0 <= i < |data| =>
                              FieldOption(Str(Display(Get(data[i], key))), Get(data[i], key)))))
    case Date => base.(defaultOpen := true, commandDisabled := true)
    case Unsupported(_) => base
  }

  /** `makeFilterFields`: one field per definition key, in key order. */
  function MakeFilterFields(def: Definition, data: seq<Row>): (fields: seq<FilterField>)
    requires def.Valid()
    ensures |fields| == |def.keys|
    ensures forall i :: 0 <= i < |fields| ==>
              fields[i].value == def.keys[i]
              && fields[i].title == CapitalizeFirstLetter(def.keys[i])
              && fields[i].kind == FilterTypeMap(def.types[def.keys[i]])
              && fields[i] == MakeFilterField(def.keys[i], def.types[def.keys[i]], data)
  {
    seq(|def.keys|, i requires 0 <= i < |def.keys| => MakeFilterField(def.keys[i], def.types[def.keys[i]], data))
  }

  /** A boolean column offers exactly `true` and `false`, labelled with
      their names, whatever the data. */
  lemma BooleanOptionsIgnoreData(key: string, data1: seq<Row>, data2: seq<Row>)
    ensures MakeFilterField(key, Boolean, data1) == MakeFilterField(key, Boolean, data2)
    ensures MakeFilterField(key, Boolean, data1).options ==
              Some([FieldOption(Str("true"), Bool(true)), FieldOption(Str("false"), Bool(false))])
  {
  }

  /** A string, tags or images column offers every value found in it, array
      cells flattened, once per `===` class, labelled with itself, and
      nothing that does not occur. */
  lemma TagLikeOptions(key: string, t: ColumnType, data: seq<Row>)
    requires t == String || t == Tags || t == Images
    ensures var f := MakeFilterField(key, t, data);
            f.options.Some?
            && var opts := f.options.value;
            (forall i :: 0 <= i < |opts| ==> opts[i].title == opts[i].value)
            && (forall i, j :: 0 <= i < j < |opts| ==> !Same(opts[i].value, opts[j].value))
            && (forall x :: x in FlattenColumn(data, key) ==>
                  exists i :: 0 <= i < |opts| && Same(opts[i].value, x))
            && (forall i :: 0 <= i < |opts| ==> opts[i].value in FlattenColumn(data, key))
            && (exists idx :: FirstSeenAt(FlattenColumn(data, key), OptionValues(opts), idx))
  {
    var xs := FlattenColumn(data, key);
    assert MakeFilterField(key, t, data).options == Some(SelfLabelled(Distinct(xs)));
    DistinctOptions(xs);
  }

  /** The options built from the distinct values of `xs`. */
  lemma DistinctOptions(xs: seq<Value>)
    ensures var opts := SelfLabelled(Distinct(xs));
            (forall i :: 0 <= i < |opts| ==> opts[i].title == opts[i].value)
            && (forall i, j :: 0 <= i < j < |opts| ==> !Same(opts[i].value, opts[j].value))
            && (forall x :: x in xs ==> exists i :: 0 <= i < |opts| && Same(opts[i].value, x))
            && (forall i :: 0 <= i < |opts| ==> opts[i].value in xs)
            && (exists idx :: FirstSeenAt(xs, OptionValues(opts), idx))
  {
    DistinctProperties(xs);
    DistinctFirstSeenOrder(xs);
    var d := Distinct(xs);
    var opts := SelfLabelled(d);
    forall x | x in xs
      ensures exists i :: 0 <= i < |opts| && Same(opts[i].value, x)
    {
      var k :| 0 <= k < |d| && Same(d[k], x);
      assert opts[k].value == d[k];
    }
    forall i | 0 <= i < |opts|
      ensures opts[i].value in xs
    {
      assert opts[i].value == d[i];
    }
    assert OptionValues(opts) == d;
  }

  /** A url column has one option per row, the cell as label and value, with
      repeats kept. */
  lemma UrlOptionsPerRow(key: string, data: seq<Row>)
    ensures var opts := MakeFilterField(key, Url, data).options;
            opts.Some? && |opts.value| == |data|
            && forall i :: 0 <= i < |data| ==>
                 opts.value[i].title == opts.value[i].value == Get(data[i], key)
  {
  }

  /** A number column's range covers every cell, with falsy cells counting
      as 0, and both ends are attained. */
  lemma NumberRangeCoversCells(key: string, data: seq<Row>)
    requires data != []
    requires forall i :: 0 <= i < |data| ==> ToNumber(OrZero(Get(data[i], key))).Some?
    ensures var f := MakeFilterField(key, Number, data);
            f.min.Some? && f.min.value.Finite? && f.max.Some? && f.max.value.Finite?
            && f.min.value.n <= f.max.value.n
            && (forall i :: 0 <= i < |data| ==>
                  f.min.value.n <= ToNumber(OrZero(Get(data[i], key))).value <= f.max.value.n)
            && (exists i :: 0 <= i < |data| && ToNumber(OrZero(Get(data[i], key))) == Some(f.min.value.n))
            && (exists i :: 0 <= i < |data| && ToNumber(OrZero(Get(data[i], key))) == Some(f.max.value.n))
  {
    var vs := NumberCells(data, key);
    var lo := MathMin(vs);
    var hi := MathMax(vs);
    assert lo.Finite? && hi.Finite? by {
      assert !SomeNaN(vs);
    }
    assert lo.n <= ToNumber(vs[0]).value <= hi.n;
  }

  /** A falsy cell (empty, missing, 0, false) pulls the range to include 0. */
  lemma FalsyCellCountsAsZero(key: string, data: seq<Row>, i: nat)
    requires i < |data| && !Truthy(Get(data[i], key))
    ensures var f := MakeFilterField(key, Number, data);
            f.min.Some? && f.max.Some?
            && (f.min.value.Finite? ==> f.min.value.n <= 0)
            && (f.max.value.Finite? ==> f.max.value.n >= 0)
  {
    var vs := NumberCells(data, key);
    assert vs[i] == Num(0);
  }

  /** Number options: one per row, labelled with the cell's string form. */
  lemma NumberOptionsPerRow(key: string, data: seq<Row>)
    ensures var opts := MakeFilterField(key, Number, data).options;
            opts.Some? && |opts.value| == |data|
            && forall i :: 0 <= i < |data| ==>
                 opts.value[i].title == Str(Display(Get(data[i], key)))
                 && opts.value[i].value == Get(data[i], key)
  {
  }

  /** A date column opens by default, disables the command palette and has
      no options; a type outside the map yields the base field only. */
  lemma DateAndUnknownFields(key: string, name: string, data: seq<Row>)
    ensures var f := MakeFilterField(key, Date, data);
            f.defaultOpen && f.commandDisabled && f.options.None? && f.min.None?
    ensures var f := MakeFilterField(key, Unsupported(name), data);
            f.kind.None? && f.options.None? && f.min.None? && f.max.None? && !f.defaultOpen
  {
  }
}
