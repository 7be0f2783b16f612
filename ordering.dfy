/**
 * `Array.prototype.sort` with a comparator, as the list views call it on a
 * fresh copy of the filtered array. ECMAScript requires the sort to be
 * stable (since ES2019) and leaves the result unspecified unless the
 * comparator is consistent; `Sort` below is a stable insertion sort.
 */
module Ordering {

  /**
   * ECMAScript's "consistent comparator": `cmp(a, b)` and `cmp(b, a)` have
   * opposite signs (so `cmp(a, a) == 0`), and "not after" (`<= 0`) is transitive.
   */
  ghost predicate Consistent<T(!new)>(cmp: (T, T) -> int)
  {
    && (forall a, b :: cmp(a, b) < 0 <==> cmp(b, a) > 0)
    && (forall a, b, c :: cmp(a, b) <= 0 && cmp(b, c) <= 0 ==> cmp(a, c) <= 0)
  }

  /** No element is placed after one that should precede it. */
  ghost predicate SortedBy<T>(cmp: (T, T) -> int, s: seq<T>)
  {
    forall i, j :: 0 <= i < j < |s| ==> cmp(s[i], s[j]) <= 0
  }

  /** Inserts `x` in front of the first element it does not compare after. */
  function Insert<T>(cmp: (T, T) -> int, x: T, s: seq<T>): (r: seq<T>)
    ensures |r| == |s| + 1
    ensures multiset(r) == multiset(s) + multiset{x}
  {
    if s == [] || cmp(x, s[0]) <= 0 then [x] + s
    else
      assert s == [s[0]] + s[1..];
      [s[0]] + Insert(cmp, x, s[1..])
  }

  /** A stable sort: a permutation of `s`, ordered by `cmp` whenever `cmp` is consistent. */
  function Sort<T>(cmp: (T, T) -> int, s: seq<T>): (r: seq<T>)
    ensures |r| == |s|
    ensures multiset(r) == multiset(s)
  {
    if s == [] then []
    else
      assert s == [s[0]] + s[1..];
      Insert(cmp, s[0], Sort(cmp, s[1..]))
  }

  lemma SortedCons<T>(cmp: (T, T) -> int, h: T, t: seq<T>)
    requires SortedBy(cmp, t)
    requires forall j :: 0 <= j < |t| ==> cmp(h, t[j]) <= 0
    ensures SortedBy(cmp, [h] + t)
  {
    var r := [h] + t;
    forall i, j | 0 <= i < j < |r| ensures cmp(r[i], r[j]) <= 0 {
      assert r[j] == t[j - 1];
      if i > 0 {
        assert r[i] == t[i - 1];
      }
    }
  }

  lemma {:induction false} InsertSorted<T(!new)>(cmp: (T, T) -> int, x: T, s: seq<T>)
    requires Consistent(cmp)
    requires SortedBy(cmp, s)
    ensures SortedBy(cmp, Insert(cmp, x, s))
  {
    if s == [] {
    } else if cmp(x, s[0]) <= 0 {
      forall j | 0 <= j < |s| ensures cmp(x, s[j]) <= 0 {
        if j > 0 {
          assert cmp(s[0], s[j]) <= 0;
        }
      }
      SortedCons(cmp, x, s);
    } else {
      assert SortedBy(cmp, s[1..]);
      InsertSorted(cmp, x, s[1..]);
      var t := Insert(cmp, x, s[1..]);
      forall j | 0 <= j < |t| ensures cmp(s[0], t[j]) <= 0 {
        assert t[j] in multiset(t);
        assert t[j] == x || t[j] in s[1..];
      }
      SortedCons(cmp, s[0], t);
    }
  }

  /** The result of `Sort` is ordered by a consistent comparator. */
  lemma {:induction false} SortSorted<T(!new)>(cmp: (T, T) -> int, s: seq<T>)
    requires Consistent(cmp)
    ensures SortedBy(cmp, Sort(cmp, s))
  {
    if s != [] {
      SortSorted(cmp, s[1..]);
      InsertSorted(cmp, s[0], Sort(cmp, s[1..]));
    }
  }

  /** Sorting an array that is already ordered leaves it as it is. */
  lemma {:induction false} SortOfSorted<T>(cmp: (T, T) -> int, s: seq<T>)
    requires SortedBy(cmp, s)
    ensures Sort(cmp, s) == s
  {
    if s != [] {
      assert SortedBy(cmp, s[1..]);
      SortOfSorted(cmp, s[1..]);
      assert s == [s[0]] + s[1..];
    }
  }

  /** The elements of `s` that `cmp` ties with `x`, in the order `s` holds them. */
  function Tied<T>(cmp: (T, T) -> int, x: T, s: seq<T>): (r: seq<T>)
  {
    if s == [] then []
    else (if cmp(x, s[0]) == 0 then [s[0]] else []) + Tied(cmp, x, s[1..])
  }

  /** Inserting `h` into a sorted array puts it in front of every element tied with it. */
  lemma {:induction false} InsertTied<T(!new)>(cmp: (T, T) -> int, x: T, h: T, s: seq<T>)
    requires Consistent(cmp)
    requires SortedBy(cmp, s)
    ensures Tied(cmp, x, Insert(cmp, h, s))
         == (if cmp(x, h) == 0 then [h] else []) + Tied(cmp, x, s)
  {
    if s != [] && cmp(h, s[0]) > 0 {
      SortedTail(cmp, s);
      InsertTied(cmp, x, h, s[1..]);
      if cmp(x, h) == 0 {
        TieBeforeGreater(cmp, x, h, s[0]);
      }
    }
  }

  lemma SortedTail<T>(cmp: (T, T) -> int, s: seq<T>)
    requires SortedBy(cmp, s) && s != []
    ensures SortedBy(cmp, s[1..])
  {
    forall i, j | 0 <= i < j < |s| - 1 ensures cmp(s[1..][i], s[1..][j]) <= 0 {
      assert s[1..][i] == s[i + 1] && s[1..][j] == s[j + 1];
    }
  }

  /** What ties with `h` does not tie with anything `h` compares after. */
  lemma TieBeforeGreater<T(!new)>(cmp: (T, T) -> int, x: T, h: T, y: T)
    requires Consistent(cmp)
    requires cmp(x, h) == 0 && cmp(h, y) > 0
    ensures cmp(x, y) != 0
  {
    if cmp(x, y) == 0 {
      assert cmp(h, x) == 0;
      assert cmp(h, y) <= 0;
    }
  }

  /** Stability: the elements tied with any `x` keep their input order. */
  lemma {:induction false} SortStable<T(!new)>(cmp: (T, T) -> int, x: T, s: seq<T>)
    requires Consistent(cmp)
    ensures Tied(cmp, x, Sort(cmp, s)) == Tied(cmp, x, s)
  {
    if s != [] {
      SortStable(cmp, x, s[1..]);
      SortSorted(cmp, s[1..]);
      InsertTied(cmp, x, s[0], Sort(cmp, s[1..]));
    }
  }

  /** Comparators that tie the same pairs pick out the same tied elements. */
  lemma {:induction false} TiedSameTies<T(!new)>(cmp: (T, T) -> int, other: (T, T) -> int, x: T, s: seq<T>)
    requires forall a, b :: cmp(a, b) == 0 <==> other(a, b) == 0
    ensures Tied(cmp, x, s) == Tied(other, x, s)
  {
    if s != [] {
      TiedSameTies(cmp, other, x, s[1..]);
    }
  }

  /**
   * In an array sorted by a consistent comparator, an element that compares
   * strictly before another is placed before every occurrence of it.
   */
  lemma StrictlyBefore<T(!new)>(cmp: (T, T) -> int, s: seq<T>, i: int, j: int)
    requires Consistent(cmp) && SortedBy(cmp, s)
    requires 0 <= i < |s| && 0 <= j < |s|
    requires cmp(s[i], s[j]) < 0
    ensures i < j
  {
  }

  /** `Sort` places an element that compares strictly before another ahead of every occurrence of it. */
  lemma SortPlacesBefore<T(!new)>(cmp: (T, T) -> int, s: seq<T>, a: T, b: T)
    requires Consistent(cmp)
    requires cmp(a, b) < 0
    ensures var r := Sort(cmp, s);
            forall i, j :: 0 <= i < |r| && 0 <= j < |r| && r[i] == a && r[j] == b ==> i < j
  {
    var r := Sort(cmp, s);
    SortSorted(cmp, s);
    forall i, j | 0 <= i < |r| && 0 <= j < |r| && r[i] == a && r[j] == b ensures i < j {
      StrictlyBefore(cmp, r, i, j);
    }
  }
}
