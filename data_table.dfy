/** The table's custom filter functions and its facet-count override. */
module DataTable {
  import opened Common
  import opened Text
  import opened JsValues
  import opened Sorting

  /** A filter value as the table hands it over: a plain value, or an array
      object that a filter may reorder in place. */
  datatype FilterInput = ScalarFilter(v: Value) | ArrayFilter(items: array<Value>)

  /** Arrays travel as `ArrayFilter`, never inside a `ScalarFilter`. */
  predicate WellFormed(f: FilterInput)
  {
    f.ScalarFilter? ==> !f.v.Arr?
  }

  // ---------------------------------------------------------------------
  // filterNumber

  /** `isArrayOfNumbers` (utils is not part of this model): taken to hold
      when every element is a number. */
  predicate IsArrayOfNumbers(xs: seq<Value>)
  {
    forall i :: 0 <= i < |xs| ==> xs[i].Num?
  }

  /** The comparator key of `(a, b) => a - b`. */
  function NumberKey(v: Value): int
  {
    if v.Num? then v.n else 0
  }

  /** `sorted[0] <= rowValue && rowValue <= sorted[1]` after the sort. A
      missing bound is `undefined`, and every comparison with it is false;
      so is every comparison with a row value that is not a number. */
  predicate NumberRangeMatch(bounds: seq<Value>, rowValue: Value)
  {
    var sorted := InsertionSort(bounds, NumberKey);
    |sorted| >= 2 && ToNumber(rowValue).Some?
    && NumberKey(sorted[0]) <= ToNumber(rowValue).value <= NumberKey(sorted[1])
  }

  /** With two bounds the order they come in does not matter: the row
      matches when it lies between them, both ends included. */
  lemma NumberRangeIgnoresOrder(a: int, b: int, rowValue: Value)
    ensures NumberRangeMatch([Num(a), Num(b)], rowValue) == NumberRangeMatch([Num(b), Num(a)], rowValue)
    ensures NumberRangeMatch([Num(a), Num(b)], rowValue) <==>
              ToNumber(rowValue).Some?
              && (if a <= b then a else b) <= ToNumber(rowValue).value <= (if a <= b then b else a)
  {
    SortPair(Num(a), Num(b), NumberKey);
    SortPair(Num(b), Num(a), NumberKey);
  }

  /** Fewer than two bounds never match. */
  lemma NumberRangeNeedsTwoBounds(bounds: seq<Value>, rowValue: Value)
    requires |bounds| < 2
    ensures !NumberRangeMatch(bounds, rowValue)
  {
  }

  /** `filterNumber`: a number filter matches the row whose `Number(...)`
      equals it; a number array is sorted in place and matches the rows
      between its first two elements; anything else matches nothing. */
  method FilterNumber(rowValue: Value, value: FilterInput) returns (r: bool)
    requires WellFormed(value)
    modifies if value.ArrayFilter? then {value.items} else {}
    ensures value.ScalarFilter? ==> r == (value.v.Num? && ToNumber(rowValue) == Some(value.v.n))
    ensures value.ArrayFilter? && IsArrayOfNumbers(old(value.items[..])) ==>
              value.items[..] == InsertionSort(old(value.items[..]), NumberKey)
              && r == NumberRangeMatch(old(value.items[..]), rowValue)
    ensures value.ArrayFilter? && !IsArrayOfNumbers(old(value.items[..])) ==>
              !r && value.items[..] == old(value.items[..])
  {
    if value.ScalarFilter? {
      if value.v.Num? {
        return ToNumber(rowValue) == Some(value.v.n);
      }
      return false;
    }
    var a := value.items;
    if !IsArrayOfNumbers(a[..]) {
      return false;
    }
    SortBy(a, NumberKey);
    var n := ToNumber(rowValue);
    r := a.Length >= 2 && n.Some? && NumberKey(a[0]) <= n.value && n.value <= NumberKey(a[1]);
  }

  // ---------------------------------------------------------------------
  // filterDate

  /** `isArrayOfDates` (utils is not part of this model): taken to hold
      when every element is a Date. */
  predicate IsArrayOfDates(xs: seq<Value>)
  {
    forall i :: 0 <= i < |xs| ==> xs[i].DateObj?
  }

  /** The comparator key of `(a, b) => a.getTime() - b.getTime()`. */
  function TimeKey(v: Value): int
  {
    if v.DateObj? then v.time else 0
  }

  /** The range test on the sorted dates. `sorted[0].getTime()` throws on an
      empty array; `sorted[1].getTime()` is only reached when the first
      comparison holds, and throws when there is no second date. */
  function DateRangeMatch(bounds: seq<Value>, time: int): (r: Result<bool>)
    ensures r.Ok? && r.value ==> |bounds| >= 2
  {
    var sorted := InsertionSort(bounds, TimeKey);
    if |sorted| == 0 then Fail(TypeError("Cannot read properties of undefined (reading 'getTime')"))
    else if !(TimeKey(sorted[0]) <= time) then Ok(false)
    else if |sorted| < 2 then Fail(TypeError("Cannot read properties of undefined (reading 'getTime')"))
    else Ok(time <= TimeKey(sorted[1]))
  }

  /** Two dates bound the range inclusively, in either order. */
  lemma DateRangeIgnoresOrder(a: int, b: int, ra: nat, rb: nat, time: int)
    ensures DateRangeMatch([DateObj(ra, a), DateObj(rb, b)], time) ==
              DateRangeMatch([DateObj(rb, b), DateObj(ra, a)], time)
    ensures DateRangeMatch([DateObj(ra, a), DateObj(rb, b)], time) ==
              Ok((if a <= b then a else b) <= time <= (if a <= b then b else a))
  {
    SortPair(DateObj(ra, a), DateObj(rb, b), TimeKey);
    SortPair(DateObj(rb, b), DateObj(ra, a), TimeKey);
  }

  /** `filterDate`: a Date filter asks whether the row is on the same day
      (`isSameDay` is the parameter `sameDay`); an array of Dates is sorted
      in place and bounds the row's time; anything else matches nothing. */
  method FilterDate(rowValue: Value, value: FilterInput, sameDay: (int, int) -> bool) returns (r: Result<bool>)
    requires WellFormed(value)
    modifies if value.ArrayFilter? then {value.items} else {}
    ensures value.ScalarFilter? ==>
              r == Ok(value.v.DateObj? && rowValue.DateObj? && sameDay(value.v.time, rowValue.time))
    ensures value.ArrayFilter? && IsArrayOfDates(old(value.items[..])) && rowValue.DateObj? ==>
              value.items[..] == InsertionSort(old(value.items[..]), TimeKey)
              && r == DateRangeMatch(old(value.items[..]), rowValue.time)
    ensures value.ArrayFilter? && !(IsArrayOfDates(old(value.items[..])) && rowValue.DateObj?) ==>
              r == Ok(false) && value.items[..] == old(value.items[..])
  {
    if value.ScalarFilter? {
      if value.v.DateObj? && rowValue.DateObj? {
        return Ok(sameDay(value.v.time, rowValue.time));
      }
      return Ok(false);
    }
    var a := value.items;
    if IsArrayOfDates(a[..]) && rowValue.DateObj? {
      SortBy(a, TimeKey);
      if a.Length == 0 {
        return Fail(TypeError("Cannot read properties of undefined (reading 'getTime')"));
      }
      if !(TimeKey(a[0]) <= rowValue.time) {
        return Ok(false);
      }
      if a.Length < 2 {
        return Fail(TypeError("Cannot read properties of undefined (reading 'getTime')"));
      }
      return Ok(rowValue.time <= TimeKey(a[1]));
    }
    return Ok(false);
  }

  // ---------------------------------------------------------------------
  // filterTag

  /** `s.includes(p)` on strings: `p` occurs in `s` as a contiguous piece. */
  predicate IsSubstring(p: string, s: string)
  {
    exists i :: 0 <= i <= |s| && p <= s[i..]
  }

  /** The empty string occurs in every string. */
  lemma EmptyIsSubstring(s: string)
    ensures IsSubstring([], s)
  {
    assert [] <= s[0..];
  }

  /** `array.includes(x)` where `array` is the row value: an array tests
      membership, a string tests for the substring `String(x)`, and any
      other row value has no `includes` to call. */
  function RowIncludes(rowValue: Value, x: Value): (r: Result<bool>)
    ensures r.Ok? <==> rowValue.Arr? || rowValue.Str?
    ensures rowValue.Arr? ==> r == Ok(Includes(rowValue.items, x))
    ensures rowValue.Str? && x.Str? ==> r == Ok(IsSubstring(x.s, rowValue.s))
    ensures rowValue.Str? && x == Str("") ==> r == Ok(true)
  {
    if rowValue.Arr? then Ok(Includes(rowValue.items, x))
    else if rowValue.Str? then EmptyIsSubstring(rowValue.s); Ok(IsSubstring(Display(x), rowValue.s))
    else if rowValue.Undefined? || rowValue.Null? then Fail(TypeError("Cannot read properties of undefined (reading 'includes')"))
    else Fail(TypeError("array.includes is not a function"))
  }

  /** `filterTag`: a string filter asks whether the row contains it, an
      array filter whether the row contains any of its elements (stopping
      at the first hit); other filter values match nothing. */
  function FilterTag(rowValue: Value, value: Value): (r: Result<bool>)
    ensures !value.Str? && !value.Arr? ==> r == Ok(false)
    ensures value.Arr? && value.items == [] ==> r == Ok(false)
    ensures r.Ok? && r.value && value.Arr? ==> exists i :: 0 <= i < |value.items| && RowIncludes(rowValue, value.items[i]) == Ok(true)
    ensures value.Str? ==> r == RowIncludes(rowValue, value)
  {
    if value.Str? then RowIncludes(rowValue, value)
    else if value.Arr? then AnyIncluded(rowValue, value.items)
    else Ok(false)
  }

  /** `xs.some((i) => array.includes(i))`, left to right. */
  function AnyIncluded(rowValue: Value, xs: seq<Value>): (r: Result<bool>)
    ensures r.Ok? && r.value <==>
              exists i :: 0 <= i < |xs| && RowIncludes(rowValue, xs[i]) == Ok(true)
                && (forall k :: 0 <= k < i ==> RowIncludes(rowValue, xs[k]) == Ok(false))
  {
    if xs == [] then Ok(false)
    else
      var first := RowIncludes(rowValue, xs[0]);
      if first.Fail? then first
      else if first.value then Ok(true)
      else
        var rest := AnyIncluded(rowValue, xs[1..]);
        assert forall i :: 1 <= i < |xs| ==> xs[1..][i - 1] == xs[i];
        rest
  }

  /** For an array row, a one-tag array filter behaves as the tag itself,
      and the array filter matches exactly when the row shares a tag
      with it. */
  lemma TagFilterOnArrayRow(ref: nat, rowItems: seq<Value>, filterRef: nat, tags: seq<Value>, tag: string)
    ensures FilterTag(Arr(ref, rowItems), Arr(filterRef, [Str(tag)])) == FilterTag(Arr(ref, rowItems), Str(tag))
    ensures FilterTag(Arr(ref, rowItems), Arr(filterRef, tags)) ==
              Ok(exists i :: 0 <= i < |tags| && Includes(rowItems, tags[i]))
  {
    var row := Arr(ref, rowItems);
    assert [Str(tag)][1..] == [];
    ArrayRowNeverThrows(row, tags);
    assert AnyIncluded(row, [Str(tag)]) == RowIncludes(row, Str(tag));
    if exists i :: 0 <= i < |tags| && Includes(rowItems, tags[i]) {
      var i :| 0 <= i < |tags| && Includes(rowItems, tags[i]);
      FirstHit(row, tags, i);
    } else {
      assert !AnyIncluded(row, tags).value;
    }
  }

  lemma {:induction false} ArrayRowNeverThrows(row: Value, xs: seq<Value>)
    requires row.Arr? || row.Str?
    ensures AnyIncluded(row, xs).Ok?
  {
    if xs != [] {
      ArrayRowNeverThrows(row, xs[1..]);
    }
  }

  /** An element the row includes makes the whole filter match. */
  lemma {:induction false} FirstHit(row: Value, xs: seq<Value>, i: nat)
    requires row.Arr? || row.Str?
    requires i < |xs| && RowIncludes(row, xs[i]) == Ok(true)
    ensures AnyIncluded(row, xs) == Ok(true)
  {
    if i > 0 && RowIncludes(row, xs[0]) != Ok(true) {
      FirstHit(row, xs[1..], i - 1);
    }
  }

  // ---------------------------------------------------------------------
  // getFacetedUniqueValues

  /** The values `for (const value of values)` visits: an array's elements,
      or a string's code points; anything else is not iterable. */
  function IterationOf(v: Value): (r: Result<seq<Value>>)
    ensures r.Ok? <==> v.Arr? || v.Str?
    ensures v.Arr? ==> r == Ok(v.items)
    ensures v.Str? ==> |r.value| == |v.s| && forall i :: 0 <= i < |v.s| ==> r.value[i] == Str([v.s[i]])
  {
    if v.Arr? then Ok(v.items)
    else if v.Str? then Ok(seq(|v.s|, i requires 0 <= i < |v.s| => Str([v.s[i]])))
    else Fail(TypeError("values is not iterable"))
  }

  /** Everything the nested loops visit, in order, or the error of the first
      row value that cannot be iterated. */
  function FacetItems(rowValues: seq<Value>): Result<seq<Value>>
  {
    if rowValues == [] then Ok([])
    else
      var init := FacetItems(rowValues[..|rowValues| - 1]);
      var last := IterationOf(rowValues[|rowValues| - 1]);
      if init.Fail? then init
      else if last.Fail? then Fail(last.error)
      else Ok(init.value + last.value)
  }

  /** `map.get(value) || 0`, keyed by identity. */
  function CountOf(m: map<Value, nat>, k: Value): nat
  {
    if k in m then m[k] else 0
  }

  /** The counts after `map.set(value, prevValue + 1)` for every item. */
  function CountInto(m: map<Value, nat>, items: seq<Value>): map<Value, nat>
  {
    if items == [] then m
    else
      var before := CountInto(m, items[..|items| - 1]);
      var k := Ident(items[|items| - 1]);
      before[k := CountOf(before, k) + 1]
  }

  /** How many items are `===` to `k`'s identity. */
  function Occurrences(items: seq<Value>, k: Value): nat
  {
    if items == [] then 0
    else Occurrences(items[..|items| - 1], k) + (if Ident(items[|items| - 1]) == k then 1 else 0)
  }

  /** Each occurrence adds exactly one; a key that does not occur keeps its
      presence and its count. */
  lemma {:induction false} CountIntoAddsOccurrences(m: map<Value, nat>, items: seq<Value>)
    ensures forall k :: CountOf(CountInto(m, items), k) == CountOf(m, k) + Occurrences(items, k)
    ensures forall k :: k in CountInto(m, items) <==> k in m || Occurrences(items, k) > 0
  {
    if items != [] {
      CountIntoAddsOccurrences(m, items[..|items| - 1]);
    }
  }

  /** Whether some row of the data holds an array in this column. */
  predicate ColumnHasArray(data: seq<Row>, columnId: string)
  {
    exists i :: 0 <= i < |data| && Get(data[i], columnId).Arr?
  }

  /** The override's result: the library's map as is when no row holds an
      array, the map with every visited item counted otherwise. */
  function FacetCounts(base: map<Value, nat>, data: seq<Row>, columnId: string, rowValues: seq<Value>)
    : Result<map<Value, nat>>
  {
    if !ColumnHasArray(data, columnId) then Ok(base)
    else
      var items := FacetItems(rowValues);
      if items.Fail? then Fail(items.error) else Ok(CountInto(base, items.value))
  }

  lemma {:induction false} FacetItemsFailurePersists(rowValues: seq<Value>, k: nat)
    requires k <= |rowValues| && FacetItems(rowValues[..k]).Fail?
    ensures FacetItems(rowValues) == FacetItems(rowValues[..k])
    decreases |rowValues| - k
  {
    if k < |rowValues| {
      assert rowValues[..k + 1][..k] == rowValues[..k];
      FacetItemsFailurePersists(rowValues, k + 1);
    } else {
      assert rowValues[..k] == rowValues;
    }
  }

  lemma FacetItemsStep(rowValues: seq<Value>, i: nat)
    requires i < |rowValues|
    ensures FacetItems(rowValues[..i + 1]) ==
              var init := FacetItems(rowValues[..i]);
              var last := IterationOf(rowValues[i]);
              if init.Fail? then init
              else if last.Fail? then Fail(last.error)
              else Ok(init.value + last.value)
  {
    assert rowValues[..i + 1][..i] == rowValues[..i];
  }

  lemma CountIntoStep(m: map<Value, nat>, done: seq<Value>, items: seq<Value>, j: nat)
    requires j < |items|
    ensures CountInto(m, done + items[..j + 1]) ==
              var before := CountInto(m, done + items[..j]);
              before[Ident(items[j]) := CountOf(before, Ident(items[j])) + 1]
  {
    assert (done + items[..j + 1])[..|done| + j] == done + items[..j];
  }

  /** The `getFacetedUniqueValues` override: nested loops that bump the
      count of every element of every row value. */
  method CountFacets(base: map<Value, nat>, data: seq<Row>, columnId: string, rowValues: seq<Value>)
    returns (r: Result<map<Value, nat>>)
    ensures r == FacetCounts(base, data, columnId, rowValues)
  {
    var isColumnArray := exists i :: 0 <= i < |data| && Get(data[i], columnId).Arr?;
    if !isColumnArray {
      return Ok(base);
    }
    var counts := base;
    var i := 0;
    assert rowValues[..0] == [];
    while i < |rowValues|
      invariant 0 <= i <= |rowValues|
      invariant FacetItems(rowValues[..i]).Ok?
      invariant counts == CountInto(base, FacetItems(rowValues[..i]).value)
    {
      FacetItemsStep(rowValues, i);
      var values := IterationOf(rowValues[i]);
      if values.Fail? {
        FacetItemsFailurePersists(rowValues, i + 1);
        return Fail(values.error);
      }
      ghost var done := FacetItems(rowValues[..i]).value;
      counts := CountRow(counts, base, done, values.value);
      i := i + 1;
    }
    assert rowValues[..i] == rowValues;
    return Ok(counts);
  }

  /** The inner loop: `map.set(value, (map.get(value) || 0) + 1)` for each
      element of one row value. `done` are the elements counted before. */
  method CountRow(counts0: map<Value, nat>, ghost base: map<Value, nat>, ghost done: seq<Value>, items: seq<Value>)
    returns (counts: map<Value, nat>)
    requires counts0 == CountInto(base, done)
    ensures counts == CountInto(base, done + items)
  {
    counts := counts0;
    var j := 0;
    assert done + items[..0] == done;
    while j < |items|
      invariant 0 <= j <= |items|
      invariant counts == CountInto(base, done + items[..j])
    {
      var key := Ident(items[j]);
      var prevValue := if key in counts then counts[key] else 0;
      CountIntoStep(base, done, items, j);
      counts := counts[key := prevValue + 1];
      j := j + 1;
    }
    assert items[..j] == items;
  }
}
