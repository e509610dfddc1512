/**
 * Path handling used by the launcher: System.IO.Path.GetFileName and
 * Path.GetDirectoryName as a split on the last backslash, and the root-drive
 * shorthand ("\dir" stands for "c:\dir").
 */
module Paths {
  import opened Text

  const Separator: char := '\\'

  /** Drive prefix that the launcher puts in front of shorthand input. */
  const DefaultDrive: string := "c:"

  /** Index of the last separator in p, or -1 when p has none. */
  function LastSeparator(p: string): (r: int)
    ensures -1 <= r < |p|
    ensures r >= 0 ==> p[r] == Separator
    ensures forall k :: r < k < |p| ==> p[k] != Separator
  {
    if p == [] then -1
    else if p[|p| - 1] == Separator then |p| - 1
    else LastSeparator(p[..|p| - 1])
  }

  /** A separator with none after it is the last one. */
  lemma LastSeparatorAt(p: string, k: int)
    requires 0 <= k < |p| && p[k] == Separator
    requires forall j :: k < j < |p| ==> p[j] != Separator
    ensures LastSeparator(p) == k
  {
  }

  /** Path.GetFileName: the text after the last separator (all of p when there is none). */
  function GetFileName(p: string): string
  {
    p[LastSeparator(p) + 1..]
  }

  /** Path.GetDirectoryName: the text before the last separator ("" when there is none). */
  function GetDirectoryName(p: string): string
  {
    var k := LastSeparator(p);
    if k < 0 then "" else p[..k]
  }

  /**
   * The two halves put back together give the path: a file name never holds a
   * separator, and the directory is what precedes the last one.
   */
  lemma SplitJoin(p: string)
    ensures Separator !in GetFileName(p)
    ensures Separator in p ==> GetDirectoryName(p) + [Separator] + GetFileName(p) == p
    ensures Separator !in p ==> GetDirectoryName(p) == "" && GetFileName(p) == p
  {
    var k := LastSeparator(p);
    if Separator in p {
      var j :| 0 <= j < |p| && p[j] == Separator;
      assert k >= j;
      assert p[..k] + [Separator] + p[k + 1..] == p;
    }
  }

  /** The file name is empty exactly for the empty path and for a path that ends in a separator. */
  lemma EmptyFileName(p: string)
    ensures GetFileName(p) == "" <==> (p == "" || EndsWith(p, [Separator]))
  {
  }

  /** The input uses the root-drive shorthand: it starts with a separator. */
  predicate IsShorthand(q: string)
  {
    StartsWith(q, [Separator])
  }

  /**
   * The path the launcher looks up on disk for input q (the "c:" rewrite).
   * The input survives as the tail of the disk path, and the disk path never
   * uses the shorthand itself.
   */
  function DiskPath(q: string): (r: string)
    ensures EndsWith(r, q)
    ensures !IsShorthand(r)
  {
    if IsShorthand(q) then
      assert (DefaultDrive + q)[..1] == "c";
      DefaultDrive + q
    else q
  }

  /**
   * Rewriting is done once: the disk path is its own disk path. The rewrite
   * only touches the drive, so the file name that the history search uses is
   * the file name that the directory search filters on.
   */
  lemma DiskPathKeepsFileName(q: string)
    ensures DiskPath(DiskPath(q)) == DiskPath(q)
    ensures GetFileName(DiskPath(q)) == GetFileName(q)
  {
    if IsShorthand(q) {
      var p := DefaultDrive + q;
      var k := LastSeparator(q);
      assert q[0] == Separator;
      assert k >= 0;
      forall j | k + 2 < j < |p|
        ensures p[j] != Separator
      {
        assert p[j] == q[j - 2];
      }
      LastSeparatorAt(p, k + 2);
      assert p[k + 3..] == q[k + 1..];
    }
  }

  /**
   * Rewrites a path found on disk back into the idiom of the current input:
   * with shorthand input the first two characters (the drive) are dropped,
   * provided the path is longer than two characters.
   */
  function Redisplay(fullPath: string, input: string): (r: string)
    ensures |r| <= |fullPath|
    ensures r == fullPath[|fullPath| - |r|..]
    ensures !IsShorthand(input) ==> r == fullPath
    ensures IsShorthand(input) && StartsWith(fullPath, DefaultDrive + [Separator]) ==>
      IsShorthand(r) && DiskPath(r) == fullPath
  {
    if IsShorthand(input) && |fullPath| > 2 then fullPath[2..] else fullPath
  }

  /**
   * Round trip between the two idioms: redisplaying the disk path of a
   * shorthand input against that input gives the input back, and its disk path
   * is the canonical form again.
   */
  lemma ShorthandRoundTrip(q: string)
    requires IsShorthand(q)
    ensures Redisplay(DiskPath(q), q) == q
    ensures DiskPath(Redisplay(DiskPath(q), q)) == DiskPath(q)
  {
    assert |DiskPath(q)| > 2;
    assert (DefaultDrive + q)[2..] == q;
  }
}
