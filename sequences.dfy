/**
 * The array operations the list views are built from: `Array.prototype.filter`
 * and the `Array.from(new Set(xs))` idiom that drops repeated values.
 */
module Seqs {

  /** `xs` is obtained from `ys` by deleting elements, keeping the order of the rest. */
  ghost predicate IsSubsequence<T>(xs: seq<T>, ys: seq<T>)
    decreases |ys|
  {
    if xs == [] then true
    else if ys == [] then false
    else if xs[0] == ys[0] then IsSubsequence(xs[1..], ys[1..])
    else IsSubsequence(xs, ys[1..])
  }

  /** `Array.prototype.filter`: the elements that `keep` accepts, in their original order. */
  function Filter<T(!new)>(s: seq<T>, keep: T -> bool): (r: seq<T>)
    ensures |r| <= |s|
    ensures forall x :: x in r <==> x in s && keep(x)
    ensures forall x :: multiset(r)[x] == if keep(x) then multiset(s)[x] else 0
    ensures IsSubsequence(r, s)
  {
    if s == [] then []
    else
      assert s == [s[0]] + s[1..];
      var rest := Filter(s[1..], keep);
      if keep(s[0]) then [s[0]] + rest else rest
  }

  /** Filtering with `keep` and then with `also` is one filter with their conjunction. */
  lemma {:induction false} FilterTwice<T(!new)>(s: seq<T>, keep: T -> bool, also: T -> bool, both: T -> bool)
    requires forall x :: both(x) == (keep(x) && also(x))
    ensures Filter(Filter(s, keep), also) == Filter(s, both)
  {
    if s != [] {
      FilterTwice(s[1..], keep, also, both);
    }
  }

  /** A filter that accepts every element of the array returns it unchanged. */
  lemma {:induction false} FilterKeepsAll<T(!new)>(s: seq<T>, keep: T -> bool)
    requires forall i :: 0 <= i < |s| ==> keep(s[i])
    ensures Filter(s, keep) == s
  {
    if s != [] {
      FilterKeepsAll(s[1..], keep);
    }
  }

  /** A filter never keeps more than a filter it implies. */
  lemma {:induction false} FilterMonotonic<T(!new)>(s: seq<T>, keep: T -> bool, wider: T -> bool)
    requires forall x :: keep(x) ==> wider(x)
    ensures |Filter(s, keep)| <= |Filter(s, wider)|
  {
    if s != [] {
      FilterMonotonic(s[1..], keep, wider);
    }
  }

  /** Filters that agree on every element give the same array. */
  lemma {:induction false} FilterExtensional<T(!new)>(s: seq<T>, keep: T -> bool, same: T -> bool)
    requires forall x :: keep(x) == same(x)
    ensures Filter(s, keep) == Filter(s, same)
  {
    if s != [] {
      FilterExtensional(s[1..], keep, same);
    }
  }

  /** The predicate a conditional filter stage applies: everything passes when the stage is off. */
  function When<T>(active: bool, keep: T -> bool): T -> bool
  {
    x => !active || keep(x)
  }

  /** `if (active) filtered = filtered.filter(keep)`: one stage of a filter pipeline. */
  function FilterWhen<T(!new)>(active: bool, s: seq<T>, keep: T -> bool): seq<T>
  {
    if active then Filter(s, keep) else s
  }

  lemma FilterWhenIsFilter<T(!new)>(active: bool, s: seq<T>, keep: T -> bool)
    ensures FilterWhen(active, s, keep) == Filter(s, When(active, keep))
  {
    if active {
      FilterExtensional(s, keep, When(active, keep));
    } else {
      FilterKeepsAll(s, When(active, keep));
    }
  }

  /** Two conditional stages in a row keep what passes both. */
  lemma FilterWhenTwice<T(!new)>(s: seq<T>, first: bool, keep: T -> bool, second: bool, also: T -> bool,
                                 both: T -> bool)
    requires forall x :: both(x) == ((!first || keep(x)) && (!second || also(x)))
    ensures FilterWhen(second, FilterWhen(first, s, keep), also) == Filter(s, both)
  {
    FilterWhenIsFilter(first, s, keep);
    FilterWhenIsFilter(second, Filter(s, When(first, keep)), also);
    FilterTwice(s, When(first, keep), When(second, also), both);
  }

  /** Three conditional stages in a row keep what passes all three. */
  lemma FilterWhenThrice<T(!new)>(s: seq<T>, first: bool, keep: T -> bool, second: bool, also: T -> bool,
                                  third: bool, last: T -> bool, all: T -> bool)
    requires forall x :: all(x) == ((!first || keep(x)) && (!second || also(x)) && (!third || last(x)))
    ensures FilterWhen(third, FilterWhen(second, FilterWhen(first, s, keep), also), last) == Filter(s, all)
  {
    var two := (x: T) => (!first || keep(x)) && (!second || also(x));
    FilterWhenTwice(s, first, keep, second, also, two);
    FilterWhenIsFilter(third, Filter(s, two), last);
    FilterTwice(s, two, When(third, last), all);
  }

  /** A value occurs at most once in an array without repetitions. */
  lemma {:induction false} DistinctCount<T>(s: seq<T>, x: T)
    requires Distinct(s)
    ensures multiset(s)[x] <= 1
  {
    if s != [] {
      assert s == [s[0]] + s[1..];
      assert Distinct(s[1..]);
      DistinctCount(s[1..], x);
      if s[0] == x {
        assert x !in s[1..];
      }
    }
  }

  /** Reordering an array without repetitions cannot create one. */
  lemma PermutationDistinct<T>(s: seq<T>, r: seq<T>)
    requires Distinct(s) && multiset(r) == multiset(s)
    ensures Distinct(r)
  {
    forall i, j | 0 <= i < j < |r| ensures r[i] != r[j] {
      if r[i] == r[j] {
        var x := r[i];
        assert r == r[..i] + [x] + r[i + 1..j] + [x] + r[j + 1..];
        assert multiset(r)[x] >= 2;
        DistinctCount(s, x);
      }
    }
  }

  /** No value occurs twice. */
  ghost predicate Distinct<T>(s: seq<T>)
  {
    forall i, j :: 0 <= i < j < |s| ==> s[i] != s[j]
  }

  /**
   * `Array.from(new Set(s))`: each value once, at the place of its first
   * occurrence (a `Set` iterates in insertion order).
   */
  function Dedup<T(!new,==)>(s: seq<T>): (r: seq<T>)
    ensures forall x :: x in r <==> x in s
    ensures Distinct(r)
    ensures |r| <= |s|
  {
    if s == [] then []
    else
      var r := Dedup(s[..|s| - 1]);
      assert forall x :: x in s <==> x in s[..|s| - 1] || x == s[|s| - 1];
      if s[|s| - 1] in r then r else r + [s[|s| - 1]]
  }
}
