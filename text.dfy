/**
 * The string operations the list views rely on: `trim`, `toLowerCase`,
 * `includes`, and the default string order used by `Array.prototype.sort`
 * when no comparator is given.
 *
 * `toLowerCase` is modelled on ASCII letters only; every other character is
 * left as it is. Strings are `seq<char>`.
 */
module Text {
  import opened Ordering

  /** ECMAScript WhiteSpace and LineTerminator code points: what `trim` strips. */
  predicate IsWhiteSpace(c: char)
  {
    || c == '\t' || c == '\n' || c == '\U{000B}' || c == '\U{000C}' || c == '\r'
    || c == ' ' || c == '\U{00A0}' || c == '\U{1680}'
    || ('\U{2000}' <= c <= '\U{200A}')
    || c == '\U{2028}' || c == '\U{2029}' || c == '\U{202F}' || c == '\U{205F}'
    || c == '\U{3000}' || c == '\U{FEFF}'
  }

  /** Every character of `s` is white space (so is the empty string). */
  predicate IsBlank(s: string)
  {
    forall i :: 0 <= i < |s| ==> IsWhiteSpace(s[i])
  }

  function TrimStart(s: string): (r: string)
    ensures |r| <= |s| && r == s[|s| - |r|..]
    ensures r != [] ==> !IsWhiteSpace(r[0])
    ensures IsBlank(s[..|s| - |r|])
  {
    if |s| > 0 && IsWhiteSpace(s[0]) then
      var r := TrimStart(s[1..]);
      BlankFront(s, r);
      r
    else s
  }

  function TrimEnd(s: string): (r: string)
    ensures |r| <= |s| && r == s[..|r|]
    ensures r != [] ==> !IsWhiteSpace(r[|r| - 1])
    ensures IsBlank(s[|r|..])
  {
    if |s| > 0 && IsWhiteSpace(s[|s| - 1]) then
      var r := TrimEnd(s[..|s| - 1]);
      BlankBack(s, r);
      r
    else s
  }

  /** A blank character in front of a blank prefix of the tail makes a blank prefix of the whole. */
  lemma BlankFront(s: string, r: string)
    requires |s| > 0 && IsWhiteSpace(s[0])
    requires |r| <= |s| - 1 && r == s[1..][|s| - 1 - |r|..] && IsBlank(s[1..][..|s| - 1 - |r|])
    ensures r == s[|s| - |r|..] && IsBlank(s[..|s| - |r|])
  {
    assert s[1..][..|s| - 1 - |r|] == s[1..|s| - |r|];
    assert s[..|s| - |r|] == [s[0]] + s[1..|s| - |r|];
  }

  /** A blank character behind a blank suffix of the front makes a blank suffix of the whole. */
  lemma BlankBack(s: string, r: string)
    requires |s| > 0 && IsWhiteSpace(s[|s| - 1])
    requires |r| <= |s| - 1 && r == s[..|s| - 1][..|r|] && IsBlank(s[..|s| - 1][|r|..])
    ensures r == s[..|r|] && IsBlank(s[|r|..])
  {
    assert s[..|s| - 1][|r|..] == s[|r|..|s| - 1];
    assert s[|r|..] == s[|r|..|s| - 1] + [s[|s| - 1]];
  }

  /** `r` is what is left of `s` once the blank prefix `s[..k]` and a blank suffix are cut off. */
  ghost predicate Strips(s: string, k: nat, r: string)
  {
    && k + |r| <= |s|
    && r == s[k..k + |r|]
    && IsBlank(s[..k])
    && IsBlank(s[k + |r|..])
  }

  /**
   * `String.prototype.trim`: the result is the input with a blank prefix and
   * a blank suffix cut off, and it neither starts nor ends with white space.
   */
  function Trim(s: string): (r: string)
    ensures exists k: nat :: Strips(s, k, r)
    ensures r != [] ==> !IsWhiteSpace(r[0]) && !IsWhiteSpace(r[|r| - 1])
  {
    TrimStrips(s);
    TrimEnd(TrimStart(s))
  }

  lemma TrimStrips(s: string)
    ensures var t := TrimStart(s);
            var r := TrimEnd(t);
            && Strips(s, |s| - |t|, r)
            && (r != [] ==> !IsWhiteSpace(r[0]))
  {
    var t := TrimStart(s);
    var r := TrimEnd(t);
    StripsCompose(s, t, r, |s| - |t|);
    if r != [] {
      assert r[0] == t[0];
    }
  }

  /** Cutting a blank prefix and then a blank suffix off `s` cuts both off at once. */
  lemma StripsCompose(s: string, t: string, r: string, k: nat)
    requires k <= |s| && t == s[k..] && IsBlank(s[..k])
    requires |r| <= |t| && r == t[..|r|] && IsBlank(t[|r|..])
    ensures Strips(s, k, r)
  {
    assert r == s[k..k + |r|];
    assert t[|r|..] == s[k + |r|..];
  }

  /** A query whose `trim()` is the empty string, the falsy value the hooks test, is exactly a blank one. */
  lemma TrimEmptyIffBlank(s: string)
    ensures Trim(s) == [] <==> IsBlank(s)
  {
    var t := TrimStart(s);
    if Trim(s) == [] {
      assert t[0..] == t;
      assert t == [];
      assert s[..|s|] == s;
    } else {
      var r := Trim(s);
      assert r[0] == t[0];
      assert t[0] == s[|s| - |t|];
    }
  }

  /** ASCII upper-case letters map to lower case; every other character is unchanged. */
  function LowerChar(c: char): (d: char)
  {
    if 'A' <= c <= 'Z' then (c as int + 32) as char else c
  }

  /** `String.prototype.toLowerCase` on the ASCII range. */
  function ToLower(s: string): (r: string)
    ensures |r| == |s|
    ensures forall i :: 0 <= i < |s| ==> r[i] == LowerChar(s[i])
  {
    seq(|s|, i requires 0 <= i < |s| => LowerChar(s[i]))
  }

  /** Lower-casing has no upper-case letter left to change: doing it twice is doing it once. */
  lemma ToLowerIdempotent(s: string)
    ensures ToLower(ToLower(s)) == ToLower(s)
    ensures forall i :: 0 <= i < |s| ==> !('A' <= ToLower(s)[i] <= 'Z')
  {
  }

  predicate StartsWith(s: string, prefix: string)
  {
    |prefix| <= |s| && s[..|prefix|] == prefix
  }

  /** `part` occurs in `s` starting at index `k`. */
  ghost predicate OccursAt(s: string, part: string, k: nat)
  {
    k + |part| <= |s| && s[k..k + |part|] == part
  }

  /**
   * An occurrence of `part` in `s` is either at the front or an occurrence in
   * the tail of `s`, one index further on.
   */
  lemma OccursShift(s: string, part: string)
    ensures (exists k: nat :: OccursAt(s, part, k))
        <==> StartsWith(s, part) || (|s| > 0 && exists k: nat :: OccursAt(s[1..], part, k))
  {
    if exists k: nat :: OccursAt(s, part, k) {
      var k: nat :| OccursAt(s, part, k);
      if k > 0 {
        assert k + |part| <= |s|;
        forall i | 0 <= i < |part| ensures s[1..][k - 1..k - 1 + |part|][i] == part[i] {
          assert s[k..k + |part|][i] == part[i];
        }
        assert s[1..][k - 1..k - 1 + |part|] == part;
        assert OccursAt(s[1..], part, k - 1);
      }
    }
    if StartsWith(s, part) {
      assert OccursAt(s, part, 0);
    }
    if |s| > 0 && exists k: nat :: OccursAt(s[1..], part, k) {
      var k: nat :| OccursAt(s[1..], part, k);
      assert s[k + 1..k + 1 + |part|] == s[1..][k..k + |part|];
      assert OccursAt(s, part, k + 1);
    }
  }

  /**
   * `s.includes(part)`, scanning start positions from left to right: true
   * exactly when `part` occurs in `s` at some start index, as ECMAScript
   * defines `includes`.
   */
  function Includes(s: string, part: string): (b: bool)
    ensures b <==> exists k: nat :: OccursAt(s, part, k)
    decreases |s|
  {
    OccursShift(s, part);
    StartsWith(s, part) || (|s| > 0 && Includes(s[1..], part))
  }

  /**
   * The order `Array.prototype.sort` uses when it is given no comparator:
   * lexicographic by character, a proper prefix first. Answers -1, 0 or 1.
   */
  function CodeUnitCompare(a: string, b: string): (r: int)
    ensures -1 <= r <= 1
  {
    if a == [] && b == [] then 0
    else if a == [] then -1
    else if b == [] then 1
    else if a[0] < b[0] then -1
    else if a[0] > b[0] then 1
    else CodeUnitCompare(a[1..], b[1..])
  }

  /** Two strings compare equal under the code-unit order only when they are the same string. */
  lemma {:induction false} CodeUnitCompareZero(a: string, b: string)
    ensures CodeUnitCompare(a, b) == 0 <==> a == b
    decreases |a|
  {
    if a != [] && b != [] && a[0] == b[0] {
      CodeUnitCompareZero(a[1..], b[1..]);
      assert a == [a[0]] + a[1..] && b == [b[0]] + b[1..];
    }
  }

  lemma {:induction false} CodeUnitCompareAntisymmetric(a: string, b: string)
    ensures CodeUnitCompare(a, b) == -CodeUnitCompare(b, a)
    decreases |a|
  {
    if a != [] && b != [] && a[0] == b[0] {
      CodeUnitCompareAntisymmetric(a[1..], b[1..]);
    }
  }

  lemma {:induction false} CodeUnitCompareTransitive(a: string, b: string, c: string)
    requires CodeUnitCompare(a, b) <= 0 && CodeUnitCompare(b, c) <= 0
    ensures CodeUnitCompare(a, c) <= 0
    decreases |a|
  {
    if a != [] && b != [] && c != [] && a[0] == b[0] == c[0] {
      CodeUnitCompareTransitive(a[1..], b[1..], c[1..]);
    }
  }

  /** The default string order is a consistent comparator, and it ties only equal strings. */
  lemma CodeUnitCompareConsistent()
    ensures Consistent(CodeUnitCompare)
    ensures forall a, b :: CodeUnitCompare(a, b) == 0 ==> a == b
  {
    forall a, b ensures CodeUnitCompare(a, b) < 0 <==> CodeUnitCompare(b, a) > 0 {
      CodeUnitCompareAntisymmetric(a, b);
    }
    forall a, b, c | CodeUnitCompare(a, b) <= 0 && CodeUnitCompare(b, c) <= 0
      ensures CodeUnitCompare(a, c) <= 0
    {
      CodeUnitCompareTransitive(a, b, c);
    }
    forall a, b | CodeUnitCompare(a, b) == 0 ensures a == b {
      CodeUnitCompareZero(a, b);
    }
  }
}
