/**
 * The string primitives of the .NET base library that the launcher relies on:
 * ordinal case-insensitive comparison, prefix and suffix tests, white space,
 * Trim, ToLower and Replace with an empty replacement.
 *
 * Case folding is modelled on ASCII letters only (see README, "Left out").
 */
module Text {

  /** Case folding used by StringComparison.OrdinalIgnoreCase: lower-case ASCII letters map to upper case. */
  function FoldChar(c: char): char
  {
    if 'a' <= c <= 'z' then (c as int - 32) as char else c
  }

  function Fold(s: string): (r: string)
    ensures |r| == |s|
    ensures forall i :: 0 <= i < |s| ==> r[i] == FoldChar(s[i])
  {
    if s == [] then [] else [FoldChar(s[0])] + Fold(s[1..])
  }

  /** String.Equals(a, b, StringComparison.OrdinalIgnoreCase). */
  predicate EqualsIgnoreCase(a: string, b: string)
  {
    Fold(a) == Fold(b)
  }

  /**
   * String.StartsWith(p), compared character by character. The launcher calls
   * the one-argument overload, which is culture-sensitive; the two agree except
   * on ignorable code points such as U+00AD (see README, "Left out").
   */
  predicate StartsWith(s: string, p: string)
  {
    |p| <= |s| && s[..|p|] == p
  }

  /** String.EndsWith(p), compared character by character (culture-sensitive in the launcher, as for StartsWith). */
  predicate EndsWith(s: string, p: string)
  {
    |p| <= |s| && s[|s| - |p|..] == p
  }

  /** String.StartsWith(p, StringComparison.OrdinalIgnoreCase). */
  predicate StartsWithIgnoreCase(s: string, p: string)
  {
    |p| <= |s| && EqualsIgnoreCase(s[..|p|], p)
  }

  /** Char.IsWhiteSpace: the Unicode space separators, line and paragraph separators and the listed controls. */
  predicate IsWhiteSpace(c: char)
  {
    var n := c as int;
    n == 0x20 || 0x09 <= n <= 0x0D || n == 0x85 || n == 0xA0 || n == 0x1680
    || 0x2000 <= n <= 0x200A || n == 0x2028 || n == 0x2029 || n == 0x202F
    || n == 0x205F || n == 0x3000
  }

  /** String.IsNullOrWhiteSpace for a non-null string (every character is white space, so also the empty string). */
  predicate IsBlank(s: string)
  {
    forall i :: 0 <= i < |s| ==> IsWhiteSpace(s[i])
  }

  function TrimStart(s: string): (r: string)
    ensures |r| <= |s| && r == s[|s| - |r|..]
    ensures IsBlank(s[..|s| - |r|])
    ensures r != [] ==> !IsWhiteSpace(r[0])
  {
    if s != [] && IsWhiteSpace(s[0]) then
      var r := TrimStart(s[1..]);
      assert s[..|s| - |r|] == [s[0]] + s[1..][..|s| - 1 - |r|];
      assert s[1..][|s| - 1 - |r|..] == s[|s| - |r|..];
      r
    else s
  }

  function TrimEnd(s: string): (r: string)
    ensures |r| <= |s| && r == s[..|r|]
    ensures IsBlank(s[|r|..])
    ensures r != [] ==> !IsWhiteSpace(r[|r| - 1])
  {
    if s != [] && IsWhiteSpace(s[|s| - 1]) then
      var r := TrimEnd(s[..|s| - 1]);
      assert s[..|s| - 1][..|r|] == s[..|r|];
      assert s[|r|..] == s[..|s| - 1][|r|..] + [s[|s| - 1]];
      r
    else s
  }

  /** String.Trim(): removes leading and trailing white space. */
  function Trim(s: string): string
  {
    TrimEnd(TrimStart(s))
  }

  /** r is s[i..j] and everything of s outside that part is white space. */
  predicate CutOutOf(r: string, s: string, i: int, j: int)
  {
    0 <= i <= j <= |s| && r == s[i..j] && IsBlank(s[..i]) && IsBlank(s[j..])
  }

  /** Trim keeps a contiguous middle part of its input, and everything it cuts off is white space. */
  lemma TrimCharacterization(s: string)
    ensures exists i, j :: CutOutOf(Trim(s), s, i, j)
  {
    var t := TrimStart(s);
    var r := TrimEnd(t);
    var i := |s| - |t|;
    var j := i + |r|;
    assert s[i..] == t && t[..|r|] == r;
    assert s[i..j] == r;
    assert s[j..] == t[|r|..];
    assert CutOutOf(r, s, i, j);
    assert Trim(s) == r;
  }

  /** What Trim keeps neither starts nor ends with white space. */
  lemma TrimEnds(s: string)
    ensures Trim(s) != [] ==> !IsWhiteSpace(Trim(s)[0]) && !IsWhiteSpace(Trim(s)[|Trim(s)| - 1])
  {
    var t := TrimStart(s);
    var r := TrimEnd(t);
    assert r != [] ==> r[0] == t[0];
  }

  /** A string that is not blank trims to a non-empty string. */
  lemma TrimNonBlank(s: string)
    requires !IsBlank(s)
    ensures Trim(s) != []
  {
    assert s[..|s|] == s;
  }

  /** Trimming a string that has no white space at either end leaves it unchanged. */
  lemma TrimTrimmed(s: string)
    requires s == [] || (!IsWhiteSpace(s[0]) && !IsWhiteSpace(s[|s| - 1]))
    ensures Trim(s) == s
  {
  }

  /** Trim is idempotent. */
  lemma TrimIdempotent(s: string)
    ensures Trim(Trim(s)) == Trim(s)
  {
    TrimEnds(s);
    TrimTrimmed(Trim(s));
  }

  function LowerChar(c: char): char
  {
    if 'A' <= c <= 'Z' then (c as int + 32) as char else c
  }

  /** String.ToLower() on ASCII letters. */
  function ToLower(s: string): (r: string)
    ensures |r| == |s|
    ensures forall i :: 0 <= i < |s| ==> r[i] == LowerChar(s[i])
  {
    if s == [] then [] else [LowerChar(s[0])] + ToLower(s[1..])
  }

  /** Pattern p occurs in s at position i. */
  predicate OccursAt(s: string, p: string, i: int)
  {
    0 <= i && i + |p| <= |s| && s[i..i + |p|] == p
  }

  lemma OccursAtIndex(s: string, p: string, i: int, k: int)
    requires OccursAt(s, p, i) && 0 <= k < |p|
    ensures s[i + k] == p[k]
  {
    assert s[i..i + |p|][k] == s[i + k];
  }

  /** An occurrence in the tail of s is an occurrence in s one position later. */
  lemma OccursShift(s: string, p: string, i: int)
    requires s != [] && 0 <= i
    ensures OccursAt(s[1..], p, i) <==> OccursAt(s, p, i + 1)
  {
    if i + |p| <= |s| - 1 {
      assert s[1..][i..i + |p|] == s[i + 1..i + 1 + |p|];
    }
  }

  /** String.Replace(p, ""): deletes the non-overlapping occurrences of p found scanning left to right. */
  function RemoveAll(s: string, p: string): (r: string)
    requires p != []
    ensures |r| <= |s|
    decreases |s|
  {
    if |s| < |p| then s
    else if s[..|p|] == p then RemoveAll(s[|p|..], p)
    else [s[0]] + RemoveAll(s[1..], p)
  }

  /** Removing a pattern that occurs nowhere in the string gives back the string. */
  lemma {:induction false} RemoveAllAbsent(s: string, p: string)
    requires p != []
    requires forall i :: !OccursAt(s, p, i)
    ensures RemoveAll(s, p) == s
    decreases |s|
  {
    if |s| >= |p| {
      assert !OccursAt(s, p, 0);
      assert s[0..|p|] == s[..|p|];
      forall i ensures !OccursAt(s[1..], p, i) {
        if 0 <= i {
          OccursShift(s, p, i);
        }
      }
      RemoveAllAbsent(s[1..], p);
    }
  }

  /**
   * When no occurrence of p starts inside the prefix a, removing p from a + b
   * only removes it from b.
   */
  lemma {:induction false} RemoveAllAfter(a: string, b: string, p: string)
    requires p != []
    requires forall i :: 0 <= i < |a| ==> !OccursAt(a + b, p, i)
    ensures RemoveAll(a + b, p) == a + RemoveAll(b, p)
    decreases |a|
  {
    if a != [] {
      var s := a + b;
      if |s| >= |p| {
        assert !OccursAt(s, p, 0);
        assert s[0..|p|] == s[..|p|];
      }
      assert s[1..] == a[1..] + b;
      forall i | 0 <= i < |a[1..]| ensures !OccursAt(a[1..] + b, p, i) {
        OccursShift(s, p, i);
      }
      RemoveAllAfter(a[1..], b, p);
      assert [s[0]] + (a[1..] + RemoveAll(b, p)) == a + RemoveAll(b, p);
    } else {
      assert a + b == b;
    }
  }

  /**
   * A pattern whose first character appears nowhere else in it cannot straddle
   * the boundary of a + b when b starts with that character: every occurrence
   * that starts in a lies wholly inside a.
   */
  lemma NoStraddle(a: string, b: string, p: string, i: int)
    requires p != [] && b != [] && b[0] == p[0]
    requires forall k :: 0 < k < |p| ==> p[k] != p[0]
    requires 0 <= i < |a|
    requires OccursAt(a + b, p, i)
    ensures OccursAt(a, p, i)
  {
    if i + |p| <= |a| {
      assert (a + b)[i..i + |p|] == a[i..i + |p|];
    } else {
      OccursAtIndex(a + b, p, i, |a| - i);
      assert false;
    }
  }
}
