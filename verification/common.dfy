/** Small shared vocabulary: an optional value and order-preserving filtering. */
module Common {

  /** Python's `None` or a present value. */
  datatype Option<+T> = None | Some(value: T)

  /** The elements of `s` for which `keep` holds, in their original order
      (a list comprehension with an `if` clause). */
  function Filter<T(==,!new)>(s: seq<T>, keep: T -> bool): (r: seq<T>)
    ensures |r| <= |s|
    ensures forall x :: x in r <==> x in s && keep(x)
    ensures forall x :: multiset(r)[x] == if keep(x) then multiset(s)[x] else 0
    decreases |s|
  {
    if |s| == 0 then []
    else
      assert s == [s[0]] + s[1..];
      if keep(s[0]) then [s[0]] + Filter(s[1..], keep) else Filter(s[1..], keep)
  }

  /** Filtering a concatenation filters each part and keeps the parts in order;
      together with the one-element case this pins down the order of `Filter`. */
  lemma {:induction false} FilterAppend<T(!new)>(s: seq<T>, t: seq<T>, keep: T -> bool)
    ensures Filter(s + t, keep) == Filter(s, keep) + Filter(t, keep)
    decreases |s|
  {
    if |s| == 0 {
      assert s + t == t;
    } else {
      assert (s + t)[1..] == s[1..] + t;
      FilterAppend(s[1..], t, keep);
    }
  }

  /** `Filter` on a one-element list keeps that element exactly when `keep` holds. */
  lemma FilterSingleton<T(!new)>(x: T, keep: T -> bool)
    ensures Filter([x], keep) == if keep(x) then [x] else []
  {
  }

  /** Nothing is dropped when every element passes. */
  lemma {:induction false} FilterKeepsAll<T(!new)>(s: seq<T>, keep: T -> bool)
    requires forall x :: x in s ==> keep(x)
    ensures Filter(s, keep) == s
    decreases |s|
  {
    if |s| > 0 {
      FilterKeepsAll(s[1..], keep);
    }
  }

  /** The index of the first element of `s` satisfying `good`, if there is one. */
  function FirstIndex<T>(s: seq<T>, good: T -> bool): (r: Option<nat>)
    ensures r.Some? ==> r.value < |s| && good(s[r.value])
    ensures r.Some? ==> forall j :: 0 <= j < r.value ==> !good(s[j])
    ensures r.None? ==> forall j :: 0 <= j < |s| ==> !good(s[j])
    decreases |s|
  {
    if |s| == 0 then None
    else if good(s[0]) then Some(0)
    else match FirstIndex(s[1..], good)
      case None => None
      case Some(i) => Some(i + 1)
  }
}
