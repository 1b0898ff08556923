/** `Array.prototype.sort` with a numeric comparator `(a, b) => key(a) - key(b)`.
    The sort is stable, and a stable sort for a consistent comparator has
    exactly one possible result, so insertion sort computes it. */
module Sorting {

  /** Keys never decrease from left to right. */
  predicate SortedBy<T>(s: seq<T>, key: T -> int)
  {
    forall i, j :: 0 <= i < j < |s| ==> key(s[i]) <= key(s[j])
  }

  /** Insert `x` into `s`, after every element whose key is not larger. */
  function Insert<T>(s: seq<T>, x: T, key: T -> int): (r: seq<T>)
    ensures |r| == |s| + 1
  {
    if s == [] || key(s[|s| - 1]) <= key(x) then s + [x]
    else Insert(s[..|s| - 1], x, key) + [s[|s| - 1]]
  }

  /** The stable sort of `s` by `key`. */
  function InsertionSort<T>(s: seq<T>, key: T -> int): (r: seq<T>)
    ensures |r| == |s|
  {
    if s == [] then [] else Insert(InsertionSort(s[..|s| - 1], key), s[|s| - 1], key)
  }

  /** Every key in `s` is at most `b`. */
  predicate AllAtMost<T>(s: seq<T>, key: T -> int, b: int)
  {
    forall i :: 0 <= i < |s| ==> key(s[i]) <= b
  }

  lemma SortedSnoc<T>(s: seq<T>, y: T, key: T -> int)
    requires SortedBy(s, key) && AllAtMost(s, key, key(y))
    ensures SortedBy(s + [y], key)
  {
    forall i, j | 0 <= i < j < |s| + 1
      ensures key((s + [y])[i]) <= key((s + [y])[j])
    {
      if j < |s| {
        assert (s + [y])[i] == s[i] && (s + [y])[j] == s[j];
      }
    }
  }

  lemma {:induction false} InsertBound<T>(s: seq<T>, x: T, key: T -> int, b: int)
    requires AllAtMost(s, key, b) && key(x) <= b
    ensures AllAtMost(Insert(s, x, key), key, b)
  {
    if !(s == [] || key(s[|s| - 1]) <= key(x)) {
      InsertBound(s[..|s| - 1], x, key, b);
    }
  }

  lemma {:induction false} InsertProperties<T>(s: seq<T>, x: T, key: T -> int)
    requires SortedBy(s, key)
    ensures SortedBy(Insert(s, x, key), key)
    ensures multiset(Insert(s, x, key)) == multiset(s) + multiset{x}
  {
    if s == [] || key(s[|s| - 1]) <= key(x) {
      assert multiset(s + [x]) == multiset(s) + multiset{x};
      SortedSnoc(s, x, key);
    } else {
      var init, last := s[..|s| - 1], s[|s| - 1];
      assert s == init + [last];
      InsertProperties(init, x, key);
      var r := Insert(init, x, key);
      assert multiset(r + [last]) == multiset(r) + multiset{last};
      InsertBound(init, x, key, key(last));
      SortedSnoc(r, last, key);
    }
  }

  /** The result is ordered and a permutation of the input. */
  lemma {:induction false} InsertionSortProperties<T>(s: seq<T>, key: T -> int)
    ensures SortedBy(InsertionSort(s, key), key)
    ensures multiset(InsertionSort(s, key)) == multiset(s)
  {
    if s != [] {
      var init := s[..|s| - 1];
      InsertionSortProperties(init, key);
      InsertProperties(InsertionSort(init, key), s[|s| - 1], key);
      assert s == init + [s[|s| - 1]];
    }
  }

  /** An input that is already ordered is left exactly as it is; in
      particular, when every key is the same nothing moves. */
  lemma {:induction false} InsertionSortOfSorted<T>(s: seq<T>, key: T -> int)
    requires SortedBy(s, key)
    ensures InsertionSort(s, key) == s
  {
    if s != [] {
      var init := s[..|s| - 1];
      InsertionSortOfSorted(init, key);
      assert s == init + [s[|s| - 1]];
    }
  }

  /** Sorting a pair orders it, whichever way round it came. */
  lemma SortPair<T>(a: T, b: T, key: T -> int)
    ensures var r := InsertionSort([a, b], key);
            key(r[0]) <= key(r[1]) && multiset(r) == multiset{a, b}
            && (key(a) <= key(b) ==> r == [a, b])
            && (key(b) < key(a) ==> r == [b, a])
  {
    assert [a, b][..1] == [a];
    assert [a][..0] == [];
    assert InsertionSort([a], key) == Insert([], a, key) == [a];
    assert InsertionSort([a, b], key) == Insert([a], b, key);
    if key(b) < key(a) {
      assert [a][..0] == [];
      assert Insert([a], b, key) == Insert([], b, key) + [a] == [b, a];
    }
  }

  /** `a.sort((x, y) => key(x) - key(y))`: in place, by insertion. */
  method SortBy<T>(a: array<T>, key: T -> int)
    modifies a
    ensures a[..] == InsertionSort(old(a[..]), key)
  {
    ghost var original := a[..];
    var i := 0;
    while i < a.Length
      invariant 0 <= i <= a.Length
      invariant a[..i] == InsertionSort(original[..i], key)
      invariant forall k :: i <= k < a.Length ==> a[k] == original[k]
    {
      InsertAt(a, i, key);
      InsertionSortSnoc(original, i, key);
      i := i + 1;
    }
    assert a[..] == a[..a.Length];
    assert original == original[..a.Length];
  }

  /** Sorting one more element inserts it into the sorted prefix. */
  lemma InsertionSortSnoc<T>(s: seq<T>, i: nat, key: T -> int)
    requires i < |s|
    ensures InsertionSort(s[..i + 1], key) == Insert(InsertionSort(s[..i], key), s[i], key)
  {
    assert s[..i + 1][..i] == s[..i];
  }

  /** One pass of insertion sort: shifts every larger key of the ordered
      prefix `a[..i]` one place right and puts `a[i]` in the gap. */
  method InsertAt<T>(a: array<T>, i: nat, key: T -> int)
    requires i < a.Length
    modifies a
    ensures a[..i + 1] == Insert(old(a[..i]), old(a[i]), key)
    ensures forall k :: i < k < a.Length ==> a[k] == old(a[k])
  {
    ghost var s := a[..i];
    var x := a[i];
    var j := i;
    assert s[..j] == s && s[j..] == [];
    while j > 0 && key(a[j - 1]) > key(x)
      invariant 0 <= j <= i
      invariant forall k :: 0 <= k < j ==> a[k] == s[k]
      invariant forall k :: j < k <= i ==> a[k] == s[k - 1]
      invariant forall k :: i < k < a.Length ==> a[k] == old(a[k])
      invariant Insert(s, x, key) == Insert(s[..j], x, key) + s[j..]
    {
      InsertStep(s, x, key, j);
      a[j] := a[j - 1];
      j := j - 1;
    }
    InsertStop(s, x, key, j);
    assert Insert(s, x, key) == s[..j] + [x] + s[j..];
    a[j] := x;
    Placed(a, i, s, x, j);
  }

  lemma InsertStep<T>(s: seq<T>, x: T, key: T -> int, j: nat)
    requires 0 < j <= |s| && key(s[j - 1]) > key(x)
    ensures Insert(s[..j], x, key) + s[j..] == Insert(s[..j - 1], x, key) + s[j - 1..]
  {
    assert s[..j][..j - 1] == s[..j - 1];
    assert s[j - 1..] == [s[j - 1]] + s[j..];
  }

  lemma InsertStop<T>(s: seq<T>, x: T, key: T -> int, j: nat)
    requires j <= |s| && (j == 0 || key(s[j - 1]) <= key(x))
    ensures Insert(s[..j], x, key) == s[..j] + [x]
  {
  }

  /** An array prefix that agrees with `s` before `j`, holds `x` at `j` and
      `s` shifted by one after it is `s` with `x` inserted at `j`. */
  lemma Placed<T>(a: array<T>, i: nat, s: seq<T>, x: T, j: nat)
    requires i < a.Length && |s| == i && j <= i
    requires forall k :: 0 <= k < j ==> a[k] == s[k]
    requires a[j] == x
    requires forall k :: j < k <= i ==> a[k] == s[k - 1]
    ensures a[..i + 1] == s[..j] + [x] + s[j..]
  {
  }
}
