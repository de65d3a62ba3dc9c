/** The two list idioms both user stores are built from:
    - `next((u for u in users if cond(u)), None)`: the first element, in list
      order, that satisfies a condition (`First`, computed by `FindFirst`);
    - `[u for u in users if cond(u)]`: the elements that satisfy a condition,
      in their original order (`Filter`, computed by `Select`).
    Conditions are total predicates on the element type. */
module Scan {

  datatype Option<T> = None | Some(value: T)

  /** Index of the first element of `s` satisfying `p`, or None when no element does. */
  function First<T>(s: seq<T>, p: T -> bool): (r: Option<nat>)
    ensures r.Some? ==> r.value < |s| && p(s[r.value])
    ensures r.Some? ==> forall j :: 0 <= j < r.value ==> !p(s[j])
    ensures r.None? <==> forall j :: 0 <= j < |s| ==> !p(s[j])
  {
    if |s| == 0 then None
    else if p(s[0]) then Some(0)
    else match First(s[1..], p)
      case None => None
      case Some(k) => Some(k + 1)
  }

  /** The first-match search is determined by which positions satisfy `p`. */
  lemma FirstUnique<T>(s: seq<T>, p: T -> bool, k: nat)
    requires k < |s| && p(s[k])
    requires forall j :: 0 <= j < k ==> !p(s[j])
    ensures First(s, p) == Some(k)
  {
  }

  /** Two lists whose elements agree position by position on `p` (and on `q`)
      have their first `p`-match and first `q`-match at the same index. */
  lemma FirstSameMatches<T>(a: seq<T>, b: seq<T>, p: T -> bool, q: T -> bool)
    requires |a| == |b|
    requires forall j :: 0 <= j < |a| ==> p(a[j]) == q(b[j])
    ensures First(a, p) == First(b, q)
  {
    match First(a, p)
    case None =>
      assert forall j :: 0 <= j < |b| ==> !q(b[j]) by {
        forall j | 0 <= j < |b| ensures !q(b[j]) {
          assert !p(a[j]);
        }
      }
    case Some(k) =>
      FirstUnique(b, q, k);
  }

  /** The linear scan behind Python's `next` over a filtered generator. */
  method FindFirst<T>(s: seq<T>, p: T -> bool) returns (r: Option<nat>)
    ensures r == First(s, p)
  {
    var i := 0;
    while i < |s|
      invariant 0 <= i <= |s|
      invariant forall j :: 0 <= j < i ==> !p(s[j])
    {
      if p(s[i]) {
        FirstUnique(s, p, i);
        return Some(i);
      }
      i := i + 1;
    }
    return None;
  }

  /** The elements of `s` satisfying `keep`, in their original order. */
  function Filter<T>(s: seq<T>, keep: T -> bool): (r: seq<T>)
    ensures |r| <= |s|
    ensures forall j :: 0 <= j < |r| ==> keep(r[j])
  {
    if |s| == 0 then []
    else
      var last := s[|s| - 1];
      Filter(s[..|s| - 1], keep) + (if keep(last) then [last] else [])
  }

  /** Filtering a concatenation filters each part and keeps them in order:
      the relative order of the kept elements is the original one. */
  lemma {:induction false} FilterAppend<T>(a: seq<T>, b: seq<T>, keep: T -> bool)
    ensures Filter(a + b, keep) == Filter(a, keep) + Filter(b, keep)
  {
    if |b| == 0 {
      assert a + b == a;
    } else {
      var b' := b[..|b| - 1];
      assert (a + b)[..|a + b| - 1] == a + b';
      FilterAppend(a, b', keep);
    }
  }

  /** Filtering a one-element list keeps it exactly when it satisfies `keep`. */
  lemma FilterSingleton<T>(x: T, keep: T -> bool)
    ensures Filter([x], keep) == if keep(x) then [x] else []
  {
    assert [x][..0] == [];
  }

  /** Every occurrence of an element is kept when it satisfies `keep` and all
      are dropped otherwise: nothing is duplicated or lost. */
  lemma {:induction false} FilterCount<T>(s: seq<T>, keep: T -> bool, x: T)
    ensures multiset(Filter(s, keep))[x] == if keep(x) then multiset(s)[x] else 0
  {
    if |s| > 0 {
      var init, last := s[..|s| - 1], s[|s| - 1];
      assert s == init + [last];
      FilterCount(init, keep, x);
    }
  }

  /** An element survives filtering exactly when it was there and satisfies `keep`. */
  lemma FilterMember<T>(s: seq<T>, keep: T -> bool, x: T)
    ensures x in Filter(s, keep) <==> x in s && keep(x)
  {
    FilterCount(s, keep, x);
    assert x in s <==> multiset(s)[x] > 0;
    assert x in Filter(s, keep) <==> multiset(Filter(s, keep))[x] > 0;
  }

  /** When every element satisfies `keep`, filtering changes nothing. */
  lemma {:induction false} FilterAllKept<T>(s: seq<T>, keep: T -> bool)
    requires forall j :: 0 <= j < |s| ==> keep(s[j])
    ensures Filter(s, keep) == s
  {
    if |s| > 0 {
      FilterAllKept(s[..|s| - 1], keep);
      assert s[..|s| - 1] + [s[|s| - 1]] == s;
    }
  }

  /** Filtering twice with the same condition is filtering once. */
  lemma FilterIdempotent<T>(s: seq<T>, keep: T -> bool)
    ensures Filter(Filter(s, keep), keep) == Filter(s, keep)
  {
    FilterAllKept(Filter(s, keep), keep);
  }

  /** The loop behind a Python list comprehension with a condition. */
  method Select<T>(s: seq<T>, keep: T -> bool) returns (r: seq<T>)
    ensures r == Filter(s, keep)
  {
    r := [];
    var i := 0;
    while i < |s|
      invariant 0 <= i <= |s|
      invariant r == Filter(s[..i], keep)
    {
      assert s[..i + 1][..i] == s[..i];
      if keep(s[i]) {
        r := r + [s[i]];
      }
      i := i + 1;
    }
    assert s[..i] == s;
  }
}
