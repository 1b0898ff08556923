/** Shared building blocks: optional values, thrown errors, and the two
    list primitives the JavaScript code leans on everywhere (`slice` with
    its index clamping, and "keep the first occurrence" de-duplication). */
module Common {

  datatype Option<+T> = None | Some(value: T)

  /** A JavaScript error that a call throws instead of returning. */
  datatype Error =
    | TypeError(message: string)        // e.g. reading a property of `undefined`
    | RangeError(message: string)       // e.g. formatting an Invalid Date
    | UnsupportedType(typeName: string) // the `default: throw` of a type switch
    | ValidationError                   // a zod schema rejected its input

  datatype Result<+T> = Ok(value: T) | Fail(error: Error)

  /** No element occurs twice. */
  predicate NoDuplicates<T(==)>(xs: seq<T>)
  {
    forall i, j :: 0 <= i < j < |xs| ==> xs[i] != xs[j]
  }

  /** `Array.prototype.slice` turns a relative index into an absolute one:
      a negative index counts from the end, and both ends are clamped. */
  function ClampIndex(i: int, len: nat): (k: nat)
    ensures k <= len
    ensures 0 <= i <= len ==> k == i
    ensures i > len ==> k == len
    ensures i < 0 ==> k == if len + i < 0 then 0 else len + i
  {
    if i < 0 then (if len + i < 0 then 0 else len + i)
    else if i > len then len
    else i
  }

  /** `xs.slice(start, end)`. */
  function Slice<T>(xs: seq<T>, start: int, end: int): (r: seq<T>)
    ensures |r| <= |xs|
    ensures 0 <= start <= end <= |xs| ==> r == xs[start..end]
  {
    var a := ClampIndex(start, |xs|);
    var b := ClampIndex(end, |xs|);
    if a < b then xs[a..b] else []
  }

  /** The elements of `xs` in first-seen order, each once: the result of
      appending every element that is not already present. */
  function Dedup<T(==)>(xs: seq<T>): (r: seq<T>)
    ensures |r| <= |xs|
  {
    if xs == [] then []
    else
      var d := Dedup(xs[..|xs| - 1]);
      if xs[|xs| - 1] in d then d else d + [xs[|xs| - 1]]
  }

  lemma {:induction false} DedupProperties<T>(xs: seq<T>)
    ensures NoDuplicates(Dedup(xs))
    ensures forall x :: x in Dedup(xs) <==> x in xs
  {
    if xs != [] {
      var init := xs[..|xs| - 1];
      DedupProperties(init);
      assert xs == init + [xs[|xs| - 1]];
    }
  }

  /** Dedup is idempotent on a list that is already duplicate-free. */
  lemma {:induction false} DedupOfDistinct<T>(xs: seq<T>)
    requires NoDuplicates(xs)
    ensures Dedup(xs) == xs
  {
    if xs != [] {
      var init := xs[..|xs| - 1];
      DedupOfDistinct(init);
      assert xs[|xs| - 1] !in init;
    }
  }

  /** Appending an element extends Dedup only when the element is new. */
  lemma DedupSnoc<T>(xs: seq<T>, x: T)
    ensures Dedup(xs + [x]) == if x in xs then Dedup(xs) else Dedup(xs) + [x]
  {
    assert (xs + [x])[..|xs + [x]| - 1] == xs;
    DedupProperties(xs);
  }
}
