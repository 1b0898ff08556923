/** The number-range slider of the filter panel: the pair it starts from,
    the pair an edit of one end produces, the fallbacks of its two text
    inputs, and the search-parameter text it commits. */
module FilterSlider {
  import opened Common
  import opened Text
  import opened JsValues
  import opened Schema
  import opened DataTable

  // ---------------------------------------------------------------------
  // The pair the slider starts from

  /** The numbers of an array of number values. */
  function NumbersIn(items: seq<Value>): (ns: seq<int>)
    requires IsArrayOfNumbers(items)
    ensures |ns| == |items| && forall i :: 0 <= i < |items| ==> items[i] == Num(ns[i])
  {
    seq(|items|, i requires 0 <= i < |items| => items[i].n)
  }

  /** `filters`: `[v, v]` for a number filter, the array itself for an
      array of numbers, `[min, max]` for anything else (no filter included). */
  function InitialPair(filterValue: Value, min: int, max: int): (p: seq<int>)
    ensures filterValue.Num? ==> p == [filterValue.n, filterValue.n]
    ensures filterValue.Arr? && IsArrayOfNumbers(filterValue.items) ==>
              |p| == |filterValue.items|
              && forall i :: 0 <= i < |p| ==> filterValue.items[i] == Num(p[i])
    ensures !filterValue.Num? && !(filterValue.Arr? && IsArrayOfNumbers(filterValue.items)) ==>
              p == [min, max]
  {
    if filterValue.Num? then [filterValue.n, filterValue.n]
    else if filterValue.Arr? && IsArrayOfNumbers(filterValue.items) then NumbersIn(filterValue.items)
    else [min, max]
  }

  /** The values of a pair as the table stores them after
      `column.setFilterValue(pair)`. */
  function AsFilterValue(ref: nat, p: seq<int>): (v: Value)
    ensures v.Arr? && IsArrayOfNumbers(v.items) && |v.items| == |p|
  {
    Arr(ref, seq(|p|, i requires 0 <= i < |p| => Num(p[i])))
  }

  /** A slider opened on the filter it committed earlier starts from that
      same pair, whatever the bounds. */
  lemma InitialPairOfCommittedFilter(ref: nat, p: seq<int>, min: int, max: int)
    ensures InitialPair(AsFilterValue(ref, p), min, max) == p
  {
    var q := InitialPair(AsFilterValue(ref, p), min, max);
    assert forall i :: 0 <= i < |p| ==> q[i] == p[i];
  }

  // ---------------------------------------------------------------------
  // Editing one end

  /** The end the edit does not touch: `sliderValue[1] ?? max` when the
      minimum is edited, `sliderValue[0] ?? min` when the maximum is. */
  function OtherEnd(slider: seq<int>, isMin: bool, min: int, max: int): (o: int)
    ensures isMin ==> o == if |slider| >= 2 then slider[1] else max
    ensures !isMin ==> o == if |slider| >= 1 then slider[0] else min
  {
    if isMin then (if |slider| >= 2 then slider[1] else max)
    else (if |slider| >= 1 then slider[0] else min)
  }

  function MaxOf(a: int, b: int): int { if a >= b then a else b }
  function MinOf(a: int, b: int): int { if a <= b then a else b }

  /** `handleInputChange`: the edited end becomes the input, and the other
      end is pushed just far enough to keep the pair ordered. */
  function EditPair(slider: seq<int>, input: int, isMin: bool, min: int, max: int): (p: seq<int>)
    ensures |p| == 2 && p[0] <= p[1]
    ensures isMin ==> p[0] == input
                      && p[1] >= OtherEnd(slider, isMin, min, max)
                      && (p[1] == OtherEnd(slider, isMin, min, max) || p[1] == input)
    ensures !isMin ==> p[1] == input
                       && p[0] <= OtherEnd(slider, isMin, min, max)
                       && (p[0] == OtherEnd(slider, isMin, min, max) || p[0] == input)
  {
    var other := OtherEnd(slider, isMin, min, max);
    if isMin then [input, MaxOf(input, other)] else [MinOf(input, other), input]
  }

  /** An edit that does not cross the other end leaves that end where it
      was; one that crosses it drags it along to the input. */
  lemma EditKeepsOrCollapses(slider: seq<int>, input: int, isMin: bool, min: int, max: int)
    ensures var other := OtherEnd(slider, isMin, min, max);
            var p := EditPair(slider, input, isMin, min, max);
            (isMin && input <= other ==> p == [input, other])
            && (isMin && input > other ==> p == [input, input])
            && (!isMin && other <= input ==> p == [other, input])
            && (!isMin && input < other ==> p == [input, input])
  {
  }

  /** With a missing other end the bound stands in for it: editing the
      minimum of an empty or one-element slider compares with `max`, editing
      the maximum of an empty one with `min`. */
  lemma MissingEndUsesBound(slider: seq<int>, input: int, min: int, max: int)
    ensures |slider| < 2 ==> EditPair(slider, input, true, min, max) == [input, MaxOf(input, max)]
    ensures slider == [] ==> EditPair(slider, input, false, min, max) == [MinOf(input, min), input]
  {
  }

  /** Typing the same value into the same input twice changes nothing the
      second time, and a min edit followed by a max edit lands on the two
      typed values whenever they are in order. */
  lemma EditIdempotentAndComposes(slider: seq<int>, a: int, b: int, isMin: bool, min: int, max: int)
    ensures var p := EditPair(slider, a, isMin, min, max);
            EditPair(p, a, isMin, min, max) == p
    ensures a <= b ==> EditPair(EditPair(slider, a, true, min, max), b, false, min, max) == [a, b]
  {
  }

  // ---------------------------------------------------------------------
  // The text inputs

  /** `Number.parseInt(text) || fallback`: NaN and 0 are both falsy. */
  function InputFallback(text: string, fallback: int): (v: int)
    ensures (ParseInt(text).None? || ParseInt(text) == Some(0)) ==> v == fallback
    ensures ParseInt(text).Some? && ParseInt(text) != Some(0) ==> v == ParseInt(text).value
  {
    match ParseInt(text)
    case Some(n) => if n != 0 then n else fallback
    case None => fallback
  }

  /** A run of decimal digits is its own longest digit prefix. */
  lemma {:induction false} LeadingDigitsOfDigits(s: string)
    requires AllDigits(s, 10)
    ensures LeadingDigits(s) == s
  {
    if s != [] {
      assert AllDigits(s[1..], 10) by {
        assert forall i :: 0 <= i < |s| - 1 ==> s[1..][i] == s[i + 1];
      }
      LeadingDigitsOfDigits(s[1..]);
      assert [s[0]] + s[1..] == s;
    }
  }

  /** `Number.parseInt(String(n))` is `n`. */
  lemma ParseIntOfDecimal(n: int)
    ensures ParseInt(Decimal(n)) == Some(n)
  {
    if n < 0 {
      ParseIntOfNegative(-n);
    } else {
      ParseIntOfDigits(n);
    }
  }

  lemma ParseIntOfDigits(m: nat)
    ensures ParseInt(ToBase(m, 10)) == Some(m)
  {
    var ds := ToBase(m, 10);
    NoDelimiterInDigits(m);
    assert TrimStart(ds) == ds;
    assert DigitValue(ds[0]) < 10;
    LeadingDigitsOfDigits(ds);
    BaseRoundTrip(m, 10);
  }

  lemma ParseIntOfNegative(m: nat)
    requires m > 0
    ensures ParseInt("-" + ToBase(m, 10)) == Some(0 - m)
  {
    var ds := ToBase(m, 10);
    var t := "-" + ds;
    assert TrimStart(t) == t;
    assert t[1..] == ds;
    NoDelimiterInDigits(m);
    LeadingDigitsOfDigits(ds);
    BaseRoundTrip(m, 10);
  }

  /** What the input shows is read back exactly, except 0, which the
      fallback replaces by the bound. */
  lemma InputReadsBackItsNumber(n: int, fallback: int)
    ensures n != 0 ==> InputFallback(Decimal(n), fallback) == n
    ensures InputFallback(Decimal(0), fallback) == fallback
    ensures InputFallback("", fallback) == fallback
  {
    ParseIntOfDecimal(n);
    ParseIntOfDecimal(0);
  }

  // ---------------------------------------------------------------------
  // The committed search parameter

  /** `String` of every number of the pair. */
  function Decimals(p: seq<int>): (ds: seq<string>)
    ensures |ds| == |p| && forall i :: 0 <= i < |p| ==> ds[i] == Decimal(p[i])
  {
    seq(|p|, i requires 0 <= i < |p| => Decimal(p[i]))
  }

  /** `newValue.join(SLIDER_DELIMITER)`. */
  function Commit(p: seq<int>): (r: string)
    ensures p != [] && (forall i :: 0 <= i < |p| ==> p[i] >= 0) ==> Split(r, SLIDER_DELIMITER) == Decimals(p)
  {
    DecimalsSplit(p);
    Join(Decimals(p), SLIDER_DELIMITER)
  }

  /** Non-negative numbers joined by the delimiter split back into their
      decimals. */
  lemma DecimalsSplit(p: seq<int>)
    ensures p != [] && (forall i :: 0 <= i < |p| ==> p[i] >= 0) ==>
              Split(Join(Decimals(p), SLIDER_DELIMITER), SLIDER_DELIMITER) == Decimals(p)
  {
    if p != [] && forall i :: 0 <= i < |p| ==> p[i] >= 0 {
      var ds := Decimals(p);
      forall i | 0 <= i < |ds|
        ensures SLIDER_DELIMITER !in ds[i]
      {
        NoDelimiterInDigits(p[i]);
      }
      SplitJoin(ds, SLIDER_DELIMITER);
    }
  }

  /** A committed pair is the two numbers around one delimiter. */
  lemma CommitPair(lo: int, hi: int)
    ensures Commit([lo, hi]) == Decimal(lo) + [SLIDER_DELIMITER] + Decimal(hi)
  {
    var parts := Decimals([lo, hi]);
    assert parts == [Decimal(lo), Decimal(hi)];
    assert parts[1..] == [Decimal(hi)];
    assert Join(parts[1..], SLIDER_DELIMITER) == Decimal(hi);
    assert Join(parts, SLIDER_DELIMITER) == parts[0] + [SLIDER_DELIMITER] + Join(parts[1..], SLIDER_DELIMITER);
  }

  /** Two numbers read as a list of two numbers. */

  /** Text that is not a number as a whole and does not split into exactly
      two parts is no number filter. */
  lemma NotTwoPartsRejected(s: string)
    requires StringToNumber(s).None? && |Split(s, SLIDER_DELIMITER)| != 2
    ensures DecodeNumberFilter(One(s)).Fail?
  {
    var parts := Split(s, SLIDER_DELIMITER);
    var ns := NumbersOf(parts);
    assert ns.Some? ==> |ns.value| != 2;
  }

  /** The digits of a non-negative number hold no delimiter. */

  /** A committed pair of non-negative bounds decodes back to exactly that
      range: the text is not a number as a whole, and it splits on the
      delimiter into the two bounds. */
  lemma CommitRoundTrip(lo: int, hi: int)
    requires lo >= 0 && hi >= 0
    ensures DecodeNumberFilter(One(Commit([lo, hi]))) == Ok(NumberRangeFilter(lo, hi))
  {
    CommitPair(lo, hi);
    DecimalPair(lo, hi);
    DecimalRoundTrip(lo);
    DecimalRoundTrip(hi);
    NumbersOfPair(Decimal(lo), Decimal(hi), lo, hi);
  }


  /** A negative bound puts a second delimiter into the text, so it splits
      into more than two parts and the number filter rejects it. */
  lemma NegativeBoundRejected(lo: int, hi: int)
    requires lo < 0 || hi < 0
    ensures |Split(Commit([lo, hi]), SLIDER_DELIMITER)| > 2
    ensures DecodeNumberFilter(One(Commit([lo, hi]))).Fail?
  {
    CommitPair(lo, hi);
    NegativeBoundSplits(lo, hi);
    CommittedTextIsNaN(lo, hi);
    NotTwoPartsRejected(Commit([lo, hi]));
  }

  lemma NegativeBoundSplits(lo: int, hi: int)
    requires lo < 0 || hi < 0
    ensures |Split(Decimal(lo) + [SLIDER_DELIMITER] + Decimal(hi), SLIDER_DELIMITER)| > 2
  {
    if lo < 0 {
      assert Decimal(lo) == "-" + ToBase(-lo, 10);
      NegativeLowSplits(-lo, Decimal(hi));
    } else {
      assert Decimal(lo) == ToBase(lo, 10) && Decimal(hi) == "-" + ToBase(-hi, 10);
      NegativeHighSplits(lo, -hi);
    }
  }

  /** A committed pair never reads as one number: it has a '-' after its
      first character and no space at either end. */
  lemma CommittedTextIsNaN(lo: int, hi: int)
    ensures StringToNumber(Decimal(lo) + [SLIDER_DELIMITER] + Decimal(hi)) == None
  {
    var a, b := Decimal(lo), Decimal(hi);
    var s := a + [SLIDER_DELIMITER] + b;
    DecimalEnds(lo);
    DecimalEnds(hi);
    assert s[|a|] == '-' && s[0] == a[0] && s[|s| - 1] == b[|b| - 1];
    InnerMinusIsNaN(s, |a|);
  }

  /** A decimal starts with a digit or '-' and ends with a digit. */

  lemma NegativeLowSplits(m: nat, b: string)
    requires m > 0
    ensures |Split("-" + ToBase(m, 10) + [SLIDER_DELIMITER] + b, SLIDER_DELIMITER)| > 2
  {
    var da := ToBase(m, 10);
    var s := "-" + da + [SLIDER_DELIMITER] + b;
    NoDelimiterInDigits(m);
    assert s[1..] == da + [SLIDER_DELIMITER] + b;
    SplitAtFirst(da, b, SLIDER_DELIMITER);
  }

  lemma NegativeHighSplits(lo: nat, m: nat)
    requires m > 0
    ensures |Split(ToBase(lo, 10) + [SLIDER_DELIMITER] + ("-" + ToBase(m, 10)), SLIDER_DELIMITER)| > 2
  {
    var b := "-" + ToBase(m, 10);
    NoDelimiterInDigits(lo);
    SplitAtFirst(ToBase(lo, 10), b, SLIDER_DELIMITER);
    assert b[1..] == ToBase(m, 10);
  }

  // ---------------------------------------------------------------------
  // The component's local state

  /** The slider's local `sliderValue`, replaced by each change; the bounds
      come from the filter field. The text each change commits is returned
      (the debounce that delays it is not modelled). */
  class SliderState {
    var sliderValue: seq<int>
    const min: int
    const max: int

    constructor (filterValue: Value, min: int, max: int)
      ensures this.min == min && this.max == max
      ensures sliderValue == InitialPair(filterValue, min, max)
    {
      this.min := min;
      this.max := max;
      sliderValue := InitialPair(filterValue, min, max);
    }

    /** `handleSliderChange`: the slider's own pair is taken as it is. */
    method HandleSliderChange(newValue: seq<int>) returns (param: string)
      modifies this
      ensures sliderValue == newValue && param == Commit(newValue)
    {
      sliderValue := newValue;
      param := Commit(newValue);
    }

    /** `handleInputChange`: one end edited, the pair kept ordered. */
    method HandleInputChange(input: int, isMin: bool) returns (param: string)
      modifies this
      ensures sliderValue == EditPair(old(sliderValue), input, isMin, min, max)
      ensures |sliderValue| == 2 && sliderValue[0] <= sliderValue[1]
      ensures param == Commit(sliderValue)
    {
      sliderValue := EditPair(sliderValue, input, isMin, min, max);
      param := Commit(sliderValue);
    }

    /** The "from" input's `onChange`. */
    method OnMinInput(text: string) returns (param: string)
      modifies this
      ensures sliderValue == EditPair(old(sliderValue), InputFallback(text, min), true, min, max)
      ensures param == Commit(sliderValue)
    {
      param := HandleInputChange(InputFallback(text, min), true);
    }

    /** The "to" input's `onChange`. */
    method OnMaxInput(text: string) returns (param: string)
      modifies this
      ensures sliderValue == EditPair(old(sliderValue), InputFallback(text, max), false, min, max)
      ensures param == Commit(sliderValue)
    {
      param := HandleInputChange(InputFallback(text, max), false);
    }
  }
}
