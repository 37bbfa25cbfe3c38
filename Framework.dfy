/**
 * Models of the few .NET library operations the blocker relies on:
 * `string.Trim`, `string.Contains(string)`, `StringComparer.OrdinalIgnoreCase`
 * as used by `Enumerable.Contains`, and `List<T>.Remove`.
 */
module Framework {

  datatype Option<T> = None | Some(value: T)

  // ---------------------------------------------------------------------------
  // Trim

  /** `char.IsWhiteSpace`, restricted to the ASCII and Latin-1 white-space characters. */
  predicate IsWhiteSpace(c: char) {
    c == ' ' || c == '\t' || c == '\n' || c == '\r' || c == '\U{0B}' || c == '\U{0C}'
    || c == '\U{85}' || c == '\U{A0}'
  }

  /** Leading white space removed: the longest suffix of `s` that does not start with white space. */
  function TrimStart(s: string): (r: string)
    ensures |r| <= |s| && r == s[|s| - |r|..]
    ensures r == [] || !IsWhiteSpace(r[0])
    ensures forall i :: 0 <= i < |s| - |r| ==> IsWhiteSpace(s[i])
  {
    if s != [] && IsWhiteSpace(s[0]) then TrimStart(s[1..]) else s
  }

  /** Trailing white space removed: the longest prefix of `s` that does not end with white space. */
  function TrimEnd(s: string): (r: string)
    ensures |r| <= |s| && r == s[..|r|]
    ensures r == [] || !IsWhiteSpace(r[|r| - 1])
    ensures forall i :: |r| <= i < |s| ==> IsWhiteSpace(s[i])
  {
    if s != [] && IsWhiteSpace(s[|s| - 1]) then TrimEnd(s[..|s| - 1]) else s
  }

  /** `string.Trim()`: white space removed at both ends. */
  function Trim(s: string): (r: string)
    ensures |r| <= |s|
    ensures r == [] || (!IsWhiteSpace(r[0]) && !IsWhiteSpace(r[|r| - 1]))
  {
    TrimEnd(TrimStart(s))
  }

  /**
   * `Trim` takes away white space at the two ends and nothing else: the result
   * is the slice `s[a..b]`, everything before `a` and from `b` on is white space.
   * With the ensures of `Trim` this fixes the result uniquely.
   */
  lemma TrimIsInfix(s: string)
    ensures exists a, b ::
      && 0 <= a <= b <= |s| && Trim(s) == s[a..b]
      && (forall i :: 0 <= i < a ==> IsWhiteSpace(s[i]))
      && (forall i :: b <= i < |s| ==> IsWhiteSpace(s[i]))
  {
    var t := TrimStart(s);
    var r := TrimEnd(t);
    var a := |s| - |t|;
    PrefixOfSuffix(s, t, r);
    assert 0 <= a <= a + |r| <= |s| && r == s[a..a + |r|];
  }

  /**
   * A prefix `r` of a suffix `t` of `s` is the slice of `s` that starts where
   * `t` does; what follows `r` in `t` follows it in `s` too.
   */
  lemma PrefixOfSuffix(s: string, t: string, r: string)
    requires |t| <= |s| && t == s[|s| - |t|..]
    requires |r| <= |t| && r == t[..|r|]
    requires forall i :: |r| <= i < |t| ==> IsWhiteSpace(t[i])
    ensures var a := |s| - |t|;
      && r == s[a..a + |r|]
      && forall i :: a + |r| <= i < |s| ==> IsWhiteSpace(s[i])
  {
    var a := |s| - |t|;
    forall i | a + |r| <= i < |s|
      ensures IsWhiteSpace(s[i])
    {
      assert s[i] == t[i - a];
    }
  }

  /** A string whose first and last characters are not white space is its own trim. */
  lemma TrimOfTrimmed(s: string)
    requires s == [] || (!IsWhiteSpace(s[0]) && !IsWhiteSpace(s[|s| - 1]))
    ensures Trim(s) == s
  {
  }

  /** `Trim` yields the empty string exactly when the input is all white space. */
  lemma TrimEmptyIff(s: string)
    ensures Trim(s) == [] <==> forall i :: 0 <= i < |s| ==> IsWhiteSpace(s[i])
  {
    var t := TrimStart(s);
    if t != [] {
      assert t[0] == s[|s| - |t|];
    }
  }

  // ---------------------------------------------------------------------------
  // Ordinal substring test

  /** `pat` occurs in `s` starting at index `i`. */
  predicate OccursAt(s: string, pat: string, i: int) {
    0 <= i && i + |pat| <= |s| && s[i..i + |pat|] == pat
  }

  /** `s` begins with `pat`. */
  predicate StartsWith(s: string, pat: string) {
    |pat| <= |s| && s[..|pat|] == pat
  }

  /** `string.Contains(string)`: an ordinal substring test, trying each start position in turn. */
  predicate ContainsSubstring(s: string, pat: string)
    decreases |s|
  {
    StartsWith(s, pat) || (s != [] && ContainsSubstring(s[1..], pat))
  }

  /** The search finds `pat` exactly when it occurs at some position of `s`. */
  lemma {:induction false} ContainsSubstringIff(s: string, pat: string)
    ensures ContainsSubstring(s, pat) <==> exists i :: 0 <= i <= |s| && OccursAt(s, pat, i)
    decreases |s|
  {
    if s == [] {
      if pat == [] {
        assert OccursAt(s, pat, 0);
      }
    } else {
      var t := s[1..];
      ContainsSubstringIff(t, pat);
      if StartsWith(s, pat) {
        assert OccursAt(s, pat, 0);
      } else if ContainsSubstring(t, pat) {
        var j :| 0 <= j <= |t| && OccursAt(t, pat, j);
        assert s[j + 1..j + 1 + |pat|] == t[j..j + |pat|];
        assert OccursAt(s, pat, j + 1);
      }
      if exists i :: 0 <= i <= |s| && OccursAt(s, pat, i) {
        var i :| 0 <= i <= |s| && OccursAt(s, pat, i);
        if i > 0 {
          assert t[i - 1..i - 1 + |pat|] == s[i..i + |pat|];
          assert OccursAt(t, pat, i - 1);
        } else {
          assert StartsWith(s, pat);
        }
      }
    }
  }

  /** A string that ends with `pat` contains it. */
  lemma {:induction false} EndsWithContains(prefix: string, pat: string)
    ensures ContainsSubstring(prefix + pat, pat)
    decreases |prefix|
  {
    if prefix == [] {
      assert prefix + pat == pat;
      assert StartsWith(pat, pat);
    } else {
      assert (prefix + pat)[1..] == prefix[1..] + pat;
      EndsWithContains(prefix[1..], pat);
    }
  }

  // ---------------------------------------------------------------------------
  // StringComparer.OrdinalIgnoreCase, with case folding restricted to ASCII letters

  /** Upper-casing of one character, as the ordinal case-insensitive comparer does for ASCII. */
  function FoldChar(c: char): (u: char)
    ensures ('a' <= c <= 'z') ==> 'A' <= u <= 'Z'
    ensures !('a' <= c <= 'z') ==> u == c
  {
    if 'a' <= c <= 'z' then (c as int - 32) as char else c
  }

  /** `StringComparer.OrdinalIgnoreCase.Equals(a, b)`. */
  predicate EqualsIgnoreCase(a: string, b: string) {
    |a| == |b| && forall i :: 0 <= i < |a| ==> FoldChar(a[i]) == FoldChar(b[i])
  }

  /** `list.Contains(x, StringComparer.OrdinalIgnoreCase)`: the entries are compared in turn. */
  predicate ContainsIgnoreCase(list: seq<string>, x: string)
    decreases |list|
  {
    list != [] && (EqualsIgnoreCase(list[0], x) || ContainsIgnoreCase(list[1..], x))
  }

  /** The scan succeeds exactly when some entry equals `x` ignoring case. */
  lemma {:induction false} ContainsIgnoreCaseIff(list: seq<string>, x: string)
    ensures ContainsIgnoreCase(list, x) <==> exists i :: 0 <= i < |list| && EqualsIgnoreCase(list[i], x)
    decreases |list|
  {
    if list != [] {
      var t := list[1..];
      ContainsIgnoreCaseIff(t, x);
      if ContainsIgnoreCase(t, x) {
        var j :| 0 <= j < |t| && EqualsIgnoreCase(t[j], x);
        assert list[j + 1] == t[j];
      }
      if exists i :: 0 <= i < |list| && EqualsIgnoreCase(list[i], x) {
        var i :| 0 <= i < |list| && EqualsIgnoreCase(list[i], x);
        if i > 0 {
          assert t[i - 1] == list[i];
        }
      }
    }
  }

  /** An entry equal to `x` ignoring case makes the scan succeed. */
  lemma ContainsIgnoreCaseAt(list: seq<string>, x: string, i: int)
    requires 0 <= i < |list| && EqualsIgnoreCase(list[i], x)
    ensures ContainsIgnoreCase(list, x)
  {
    ContainsIgnoreCaseIff(list, x);
  }

  /** Ordinal membership implies case-insensitive membership. */
  lemma MemberContainsIgnoreCase(list: seq<string>, x: string)
    requires x in list
    ensures ContainsIgnoreCase(list, x)
  {
    var i :| 0 <= i < |list| && list[i] == x;
    assert EqualsIgnoreCase(list[i], x);
    ContainsIgnoreCaseAt(list, x, i);
  }

  /** No two entries of `list` are equal ignoring case. */
  predicate DistinctIgnoreCase(list: seq<string>) {
    forall i, j :: 0 <= i < j < |list| ==> !EqualsIgnoreCase(list[i], list[j])
  }

  // ---------------------------------------------------------------------------
  // List<T>.Remove

  /** Index of the first element of `s` that equals `x`. */
  function FirstIndex<T(==)>(s: seq<T>, x: T): (k: nat)
    requires x in s
    ensures k < |s| && s[k] == x && x !in s[..k]
  {
    if s[0] == x then 0 else 1 + FirstIndex(s[1..], x)
  }

  /**
   * `List<T>.Remove(x)`: removes the first element equal to `x` under the
   * default (for strings: ordinal, case-sensitive) equality; no change if there is none.
   */
  function RemoveFirst<T(==)>(s: seq<T>, x: T): (r: seq<T>)
    ensures x !in s ==> r == s
    ensures x in s ==> r == s[..FirstIndex(s, x)] + s[FirstIndex(s, x) + 1..]
  {
    if s == [] then []
    else if s[0] == x then s[1..]
    else
      var t := s[1..];
      assert x in s ==> x in t && FirstIndex(s, x) == 1 + FirstIndex(t, x);
      assert x in s ==> s[..FirstIndex(s, x)] == [s[0]] + t[..FirstIndex(t, x)];
      assert x in s ==> s[FirstIndex(s, x) + 1..] == t[FirstIndex(t, x) + 1..];
      [s[0]] + RemoveFirst(t, x)
  }

  /** Removing shortens the list by one exactly when `x` is present, and takes away one copy of `x`. */
  lemma {:induction false} RemoveFirstShrinks<T>(s: seq<T>, x: T)
    ensures |RemoveFirst(s, x)| == if x in s then |s| - 1 else |s|
    ensures multiset(RemoveFirst(s, x)) == multiset(s) - multiset{x}
  {
    if x in s {
      var k := FirstIndex(s, x);
      assert s == s[..k] + [x] + s[k + 1..];
    }
  }
}
