/**
 * The usage-history store (xlauncher/HistoryManager.cs): an ordered list of
 * launch records, looked up by path ignoring case, persisted after every
 * change, and searched by alias or file name with the most-used first.
 */
module History {
  import opened Optional
  import opened Text
  import opened Paths
  import Ranking

  /** One launched target. An absent alias is the source's null. */
  datatype HistoryItem = HistoryItem(
    fullPath: string,
    fileName: string,
    alias: Option<string>,
    lastRun: int,
    runCount: int,
    isFolder: bool)

  function RunCount(h: HistoryItem): int
  {
    h.runCount
  }

  /** The alias is neither null nor empty (string.IsNullOrEmpty fails). */
  predicate HasAlias(h: HistoryItem)
  {
    h.alias.Some? && h.alias.value != ""
  }

  /** The name a record is matched and shown by: its alias when it has one, else its file name. */
  function EffectiveKey(h: HistoryItem): string
  {
    if HasAlias(h) then h.alias.value else h.fileName
  }

  /** The filter of Search, written as the source writes it: the alias test or the file-name test. */
  predicate Matches(h: HistoryItem, query: string)
  {
    (HasAlias(h) && StartsWithIgnoreCase(h.alias.value, query))
    || (!HasAlias(h) && StartsWithIgnoreCase(h.fileName, query))
  }

  /** The filter is a case-insensitive prefix test on the effective key, and nothing else. */
  lemma MatchesEffectiveKey(h: HistoryItem, query: string)
    ensures Matches(h, query) <==> StartsWithIgnoreCase(EffectiveKey(h), query)
  {
  }

  /** A record with an alias is never found through its file name. */
  lemma AliasShadowsFileName(h: HistoryItem, query: string)
    requires HasAlias(h) && !StartsWithIgnoreCase(h.alias.value, query)
    ensures !Matches(h, query)
  {
  }

  /** The path of record h equals path, ignoring case. */
  predicate SamePath(h: HistoryItem, path: string)
  {
    EqualsIgnoreCase(h.fullPath, path)
  }

  /** No two records have paths that are equal ignoring case. */
  predicate UniquePaths(s: seq<HistoryItem>)
  {
    forall i, j :: 0 <= i < j < |s| ==> !EqualsIgnoreCase(s[i].fullPath, s[j].fullPath)
  }

  /** FirstOrDefault over the path test: the index of the first record whose path matches. */
  function FindFirst(s: seq<HistoryItem>, path: string): (r: Option<nat>)
    ensures r.None? <==> forall j :: 0 <= j < |s| ==> !SamePath(s[j], path)
    ensures r.Some? ==> r.value < |s| && SamePath(s[r.value], path)
    ensures r.Some? ==> forall j :: 0 <= j < r.value ==> !SamePath(s[j], path)
  {
    if s == [] then None
    else if SamePath(s[0], path) then Some(0)
    else
      assert forall j :: 0 <= j < |s| - 1 ==> s[1..][j] == s[j + 1];
      match FindFirst(s[1..], path)
      case None => None
      case Some(i) => Some(i + 1)
  }

  /** In a store with unique paths, the first match is the only match. */
  lemma FirstIsOnly(s: seq<HistoryItem>, path: string, j: nat)
    requires UniquePaths(s)
    requires j < |s| && SamePath(s[j], path)
    ensures FindFirst(s, path) == Some(j)
  {
  }

  /** The record AddOrUpdate appends for a path seen for the first time. */
  function NewItem(fullPath: string, isFolder: bool, now: int): HistoryItem
  {
    HistoryItem(fullPath, GetFileName(fullPath), None, now, 1, isFolder)
  }

  /** The value of AddOrUpdate: count one more use of the first matching record, or append a new one. */
  function Recorded(s: seq<HistoryItem>, fullPath: string, isFolder: bool, now: int): (r: seq<HistoryItem>)
    ensures |s| <= |r| <= |s| + 1
  {
    match FindFirst(s, fullPath)
    case Some(i) => s[i := s[i].(runCount := s[i].runCount + 1, lastRun := now, isFolder := isFolder)]
    case None => s + [NewItem(fullPath, isFolder, now)]
  }

  /** After a launch is recorded, the store knows the path. */
  lemma RecordedFinds(s: seq<HistoryItem>, fullPath: string, isFolder: bool, now: int)
    ensures FindFirst(Recorded(s, fullPath, isFolder, now), fullPath).Some?
  {
    var r := Recorded(s, fullPath, isFolder, now);
    match FindFirst(s, fullPath)
    case Some(i) =>
      assert SamePath(r[i], fullPath);
    case None =>
      assert SamePath(r[|s|], fullPath);
  }

  /** The value of UpdateAlias: set the alias of the first matching record. */
  function Aliased(s: seq<HistoryItem>, fullPath: string, newAlias: string): (r: seq<HistoryItem>)
    ensures |r| == |s|
    ensures forall j :: 0 <= j < |s| ==> r[j].fullPath == s[j].fullPath && r[j].runCount == s[j].runCount
  {
    match FindFirst(s, fullPath)
    case Some(i) => s[i := s[i].(alias := Some(newAlias))]
    case None => s
  }

  /** The value of Remove: drop the first matching record. */
  function Removed(s: seq<HistoryItem>, fullPath: string): (r: seq<HistoryItem>)
    ensures |s| - 1 <= |r| <= |s|
    ensures forall h :: h in r ==> h in s
  {
    match FindFirst(s, fullPath)
    case Some(i) => s[..i] + s[i + 1..]
    case None => s
  }

  /**
   * Recording a path already present keeps the length, adds exactly one to the
   * first match's run count, refreshes its time and folder flag, and changes
   * nothing else (not its path, file name or alias, and no other record).
   */
  lemma RecordedPresent(s: seq<HistoryItem>, fullPath: string, isFolder: bool, now: int, i: nat)
    requires FindFirst(s, fullPath) == Some(i)
    ensures var r := Recorded(s, fullPath, isFolder, now);
      && |r| == |s|
      && r[i].runCount == s[i].runCount + 1
      && r[i].isFolder == isFolder && r[i].lastRun == now
      && r[i].fullPath == s[i].fullPath && r[i].fileName == s[i].fileName && r[i].alias == s[i].alias
      && forall j :: 0 <= j < |s| && j != i ==> r[j] == s[j]
  {
  }

  /** Recording an unseen path appends exactly one fresh record at the end. */
  lemma RecordedAbsent(s: seq<HistoryItem>, fullPath: string, isFolder: bool, now: int)
    requires forall j :: 0 <= j < |s| ==> !SamePath(s[j], fullPath)
    ensures var r := Recorded(s, fullPath, isFolder, now);
      && |r| == |s| + 1 && r[..|s|] == s
      && r[|s|] == HistoryItem(fullPath, GetFileName(fullPath), None, now, 1, isFolder)
  {
  }

  /** Recording keeps the paths unique ignoring case. */
  lemma RecordedKeepsUnique(s: seq<HistoryItem>, fullPath: string, isFolder: bool, now: int)
    requires UniquePaths(s)
    ensures UniquePaths(Recorded(s, fullPath, isFolder, now))
  {
    var r := Recorded(s, fullPath, isFolder, now);
    match FindFirst(s, fullPath)
    case Some(i) =>
      assert forall k :: 0 <= k < |r| ==> r[k].fullPath == s[k].fullPath;
    case None =>
      forall i, j | 0 <= i < j < |r| ensures !EqualsIgnoreCase(r[i].fullPath, r[j].fullPath) {
        if j == |s| {
          assert !SamePath(s[i], fullPath);
        }
      }
  }

  /** Sum of the run counts: the number of recorded uses. */
  function TotalRuns(s: seq<HistoryItem>): int
  {
    if s == [] then 0 else TotalRuns(s[..|s| - 1]) + s[|s| - 1].runCount
  }

  lemma {:induction false} TotalRunsUpdate(s: seq<HistoryItem>, i: nat, x: HistoryItem)
    requires i < |s|
    ensures TotalRuns(s[i := x]) == TotalRuns(s) - s[i].runCount + x.runCount
    decreases |s|
  {
    var n := |s| - 1;
    if i < n {
      assert s[i := x][..n] == s[..n][i := x];
      TotalRunsUpdate(s[..n], i, x);
    } else {
      assert s[i := x][..n] == s[..n];
    }
  }

  /** Every call of AddOrUpdate counts exactly one use, whether the path was known or not. */
  lemma RecordedCountsOneUse(s: seq<HistoryItem>, fullPath: string, isFolder: bool, now: int)
    ensures TotalRuns(Recorded(s, fullPath, isFolder, now)) == TotalRuns(s) + 1
  {
    match FindFirst(s, fullPath)
    case Some(i) =>
      TotalRunsUpdate(s, i, s[i].(runCount := s[i].runCount + 1, lastRun := now, isFolder := isFolder));
    case None =>
      assert (s + [NewItem(fullPath, isFolder, now)])[..|s|] == s;
  }

  /**
   * Two uses of one path, spelled with different case, starting from a store
   * that does not know it: afterwards exactly one record has that path, with
   * run count 2 and the folder flag of the second use.
   */
  lemma RecordTwice(s: seq<HistoryItem>, p1: string, p2: string, f1: bool, f2: bool, t1: int, t2: int)
    requires FindFirst(s, p1).None? && EqualsIgnoreCase(p1, p2)
    ensures var r := Recorded(Recorded(s, p1, f1, t1), p2, f2, t2);
      && |r| == |s| + 1 && r[..|s|] == s
      && r[|s|].fullPath == p1 && r[|s|].runCount == 2 && r[|s|].isFolder == f2
      && forall j :: 0 <= j < |r| && SamePath(r[j], p2) ==> j == |s|
  {
    var r1 := Recorded(s, p1, f1, t1);
    SecondSpellingFindsNew(s, p1, p2, f1, t1);
    RecordedPresent(r1, p2, f2, t2, |s|);
    var r := Recorded(r1, p2, f2, t2);
    assert r[..|s|] == s by {
      assert forall j :: 0 <= j < |s| ==> r[j] == r1[j] == s[j];
    }
    forall j | 0 <= j < |s| ensures !SamePath(r[j], p2) {
      assert r[j] == r1[j];
    }
  }

  /** After the first use appends p1, another spelling p2 of the same path finds exactly the new record. */
  lemma SecondSpellingFindsNew(s: seq<HistoryItem>, p1: string, p2: string, f1: bool, t1: int)
    requires FindFirst(s, p1).None? && EqualsIgnoreCase(p1, p2)
    ensures var r1 := Recorded(s, p1, f1, t1);
      && |r1| == |s| + 1 && r1[..|s|] == s && r1[|s|] == NewItem(p1, f1, t1)
      && FindFirst(r1, p2) == Some(|s|)
      && forall j :: 0 <= j < |s| ==> !SamePath(r1[j], p2)
  {
    var r1 := s + [NewItem(p1, f1, t1)];
    assert Recorded(s, p1, f1, t1) == r1;
    assert r1[..|s|] == s;
    forall j | 0 <= j < |s|
      ensures !SamePath(r1[j], p2)
    {
      assert r1[j] == s[j];
      SamePathSpelling(s[j], p1, p2);
    }
    assert SamePath(r1[|s|], p2) by {
      SamePathSpelling(r1[|s|], p1, p2);
    }
    var found := FindFirst(r1, p2);
    assert found.Some?;
    assert found.value == |s|;
  }

  /** Two spellings of one path, equal ignoring case, match the same records. */
  lemma SamePathSpelling(h: HistoryItem, p1: string, p2: string)
    requires EqualsIgnoreCase(p1, p2)
    ensures SamePath(h, p1) <==> SamePath(h, p2)
  {
  }

  /** UpdateAlias sets the alias of the first match and leaves every other record, and the order, as it was. */
  lemma AliasedPresent(s: seq<HistoryItem>, fullPath: string, newAlias: string, i: nat)
    requires FindFirst(s, fullPath) == Some(i)
    ensures var r := Aliased(s, fullPath, newAlias);
      && |r| == |s| && r[i] == s[i].(alias := Some(newAlias))
      && forall j :: 0 <= j < |s| && j != i ==> r[j] == s[j]
  {
  }

  /** UpdateAlias on an unknown path leaves the store as it was. */
  lemma AliasedAbsent(s: seq<HistoryItem>, fullPath: string, newAlias: string)
    requires forall j :: 0 <= j < |s| ==> !SamePath(s[j], fullPath)
    ensures Aliased(s, fullPath, newAlias) == s
  {
  }

  /** A non-empty alias makes the record found by that alias and no longer by its file name. */
  lemma AliasGoverns(s: seq<HistoryItem>, fullPath: string, newAlias: string, i: nat, query: string)
    requires FindFirst(s, fullPath) == Some(i) && newAlias != ""
    ensures Matches(Aliased(s, fullPath, newAlias)[i], query) <==> StartsWithIgnoreCase(newAlias, query)
  {
  }

  /** Remove drops exactly the first matching record and keeps the rest in order. */
  lemma RemovedPresent(s: seq<HistoryItem>, fullPath: string, i: nat)
    requires FindFirst(s, fullPath) == Some(i)
    ensures var r := Removed(s, fullPath);
      && |r| == |s| - 1
      && (forall j :: 0 <= j < i ==> r[j] == s[j])
      && (forall j :: i < j < |s| ==> r[j - 1] == s[j])
      && multiset(r) + multiset{s[i]} == multiset(s)
  {
    var r := Removed(s, fullPath);
    assert r == s[..i] + s[i + 1..];
    assert s == s[..i] + [s[i]] + s[i + 1..];
    assert multiset(s) == multiset(s[..i]) + multiset{s[i]} + multiset(s[i + 1..]);
    forall j | i < j < |s| ensures r[j - 1] == s[j] {
      assert r[j - 1] == s[i + 1..][j - 1 - i];
    }
  }

  /** Remove of an unknown path leaves the store as it was. */
  lemma RemovedAbsent(s: seq<HistoryItem>, fullPath: string)
    requires forall j :: 0 <= j < |s| ==> !SamePath(s[j], fullPath)
    ensures Removed(s, fullPath) == s
  {
  }

  /** In a store with unique paths, after Remove no record has the removed path any more. */
  lemma RemovedIsGone(s: seq<HistoryItem>, fullPath: string)
    requires UniquePaths(s)
    ensures forall j :: 0 <= j < |Removed(s, fullPath)| ==> !SamePath(Removed(s, fullPath)[j], fullPath)
    ensures UniquePaths(Removed(s, fullPath))
  {
    var r := Removed(s, fullPath);
    match FindFirst(s, fullPath)
    case None =>
    case Some(i) =>
      assert forall j :: 0 <= j < |r| ==> r[j] == (if j < i then s[j] else s[j + 1]);
  }

  /** The records that pass the filter, in store order (LINQ Where). */
  function Filter(s: seq<HistoryItem>, query: string): seq<HistoryItem>
  {
    if s == [] then []
    else (if Matches(s[0], query) then [s[0]] else []) + Filter(s[1..], query)
  }

  /** Search: the filtered records ordered by run count, largest first, stably (LINQ OrderByDescending). */
  function SearchIn(s: seq<HistoryItem>, query: string): seq<HistoryItem>
  {
    Ranking.SortDesc(Filter(s, query), RunCount)
  }

  /** The filter keeps exactly the matching records. */
  lemma {:induction false} FilterMembers(s: seq<HistoryItem>, query: string)
    ensures forall x :: x in Filter(s, query) <==> x in s && Matches(x, query)
    ensures |Filter(s, query)| <= |s|
  {
    if s != [] {
      FilterMembers(s[1..], query);
      assert s == [s[0]] + s[1..];
    }
  }

  /** Search returns exactly the records whose effective key starts with the query, ignoring case. */
  lemma SearchMembers(s: seq<HistoryItem>, query: string)
    ensures forall x :: x in SearchIn(s, query) <==> x in s && StartsWithIgnoreCase(EffectiveKey(x), query)
  {
    FilterMembers(s, query);
    Ranking.SortDescPermutation(Filter(s, query), RunCount);
    forall x ensures x in SearchIn(s, query) <==> x in Filter(s, query) {
      assert x in SearchIn(s, query) <==> x in multiset(SearchIn(s, query));
    }
  }

  /** Search returns a permutation of the filtered records: no record is lost or repeated. */
  lemma SearchPermutation(s: seq<HistoryItem>, query: string)
    ensures multiset(SearchIn(s, query)) == multiset(Filter(s, query))
  {
    Ranking.SortDescPermutation(Filter(s, query), RunCount);
  }

  /**
   * Search is non-increasing in run count, and records with equal run counts keep
   * their store order; it is the only ordering of the filtered records with both
   * properties.
   */
  lemma SearchRanking(s: seq<HistoryItem>, query: string)
    ensures Ranking.StableDescOf(SearchIn(s, query), Filter(s, query), RunCount)
    ensures forall r :: Ranking.StableDescOf(r, Filter(s, query), RunCount) ==> r == SearchIn(s, query)
  {
    Ranking.SortDescStable(Filter(s, query), RunCount);
    forall r | Ranking.StableDescOf(r, Filter(s, query), RunCount) ensures r == SearchIn(s, query) {
      Ranking.SortDescIsTheStableOrder(r, Filter(s, query), RunCount);
    }
  }

  /** The filter keeps a store with unique paths unique. */
  lemma {:induction false} FilterUnique(s: seq<HistoryItem>, query: string)
    requires UniquePaths(s)
    ensures UniquePaths(Filter(s, query))
  {
    if s != [] {
      FilterUnique(s[1..], query);
      FilterMembers(s[1..], query);
      var f := Filter(s, query);
      var rest := Filter(s[1..], query);
      if Matches(s[0], query) {
        forall j | 0 < j < |f| ensures !EqualsIgnoreCase(f[0].fullPath, f[j].fullPath) {
          assert f[j] == rest[j - 1];
          assert rest[j - 1] in s[1..];
          var m :| 0 <= m < |s[1..]| && s[1..][m] == rest[j - 1];
          assert s[m + 1] == f[j];
        }
      }
    }
  }

  /** A record occurs at most once in a store with unique paths. */
  lemma {:induction false} UniqueCountsOnce(s: seq<HistoryItem>, x: HistoryItem)
    requires UniquePaths(s)
    ensures multiset(s)[x] <= 1
  {
    if s != [] {
      assert s == [s[0]] + s[1..];
      UniqueCountsOnce(s[1..], x);
    }
  }

  /** Two positions holding the same record make it count twice. */
  lemma CountsTwice(s: seq<HistoryItem>, i: nat, j: nat)
    requires i < j < |s| && s[i] == s[j]
    ensures multiset(s)[s[i]] >= 2
  {
    assert s == s[..j] + s[j..];
    assert s[i] in s[..j];
    assert s[j] in s[j..];
  }

  /** Reordering keeps the paths unique. */
  lemma UniqueUnderPermutation(a: seq<HistoryItem>, b: seq<HistoryItem>)
    requires UniquePaths(a) && multiset(a) == multiset(b)
    ensures UniquePaths(b)
  {
    forall i, j | 0 <= i < j < |b| ensures !EqualsIgnoreCase(b[i].fullPath, b[j].fullPath) {
      if b[i] == b[j] {
        CountsTwice(b, i, j);
        UniqueCountsOnce(a, b[i]);
      } else {
        assert b[i] in multiset(a) && b[j] in multiset(a);
        var p :| 0 <= p < |a| && a[p] == b[i];
        var q :| 0 <= q < |a| && a[q] == b[j];
        assert p != q;
      }
    }
  }

  /** With unique paths in the store, Search returns records with unique paths. */
  lemma SearchUnique(s: seq<HistoryItem>, query: string)
    requires UniquePaths(s)
    ensures UniquePaths(SearchIn(s, query))
  {
    FilterUnique(s, query);
    SearchPermutation(s, query);
    UniqueUnderPermutation(Filter(s, query), SearchIn(s, query));
  }

  /** The history file: absent, unreadable or not a list, or a JSON document holding a list (or null). */
  datatype StoredFile = Missing | Unreadable | Json(items: Option<seq<HistoryItem>>)

  /** The value Load leaves in History: a missing file keeps it, a damaged file or null resets it to empty. */
  function Loaded(file: StoredFile, current: seq<HistoryItem>): seq<HistoryItem>
  {
    match file
    case Missing => current
    case Unreadable => []
    case Json(None) => []
    case Json(Some(xs)) => xs
  }

  /**
   * Save and Load are inverse: loading what Save wrote gives the list back.
   * Loading twice is loading once, and only a missing file lets the list in
   * memory survive a load.
   */
  lemma LoadRoundTrip(s: seq<HistoryItem>, current: seq<HistoryItem>, file: StoredFile)
    ensures Loaded(Json(Some(s)), current) == s
    ensures Loaded(file, Loaded(file, current)) == Loaded(file, current)
    ensures !file.Missing? ==> Loaded(file, current) == Loaded(file, [])
  {
  }

  class HistoryManager {
    /** The records, in insertion order. */
    var history: seq<HistoryItem>
    /** The contents of history.json: written by Save, read by Load. */
    var file: StoredFile

    /** Starts empty and loads what the history file holds. */
    constructor (stored: StoredFile)
      ensures file == stored
      ensures history == Loaded(stored, [])
    {
      file := stored;
      history := [];
      new;
      Load();
    }

    method Load()
      modifies this`history
      ensures history == Loaded(file, old(history))
    {
      match file
      case Missing =>
      case Unreadable =>
        history := [];
      case Json(items) =>
        history := if items.Some? then items.value else [];
    }

    /** Writes the whole list to the history file. */
    method Save()
      modifies this`file
      ensures file == Json(Some(history))
    {
      file := Json(Some(history));
    }

    /**
     * Counts a launch of fullPath. The store is written through: the file holds
     * the new list afterwards, so loading it gives the list back.
     */
    method AddOrUpdate(fullPath: string, isFolder: bool, now: int)
      modifies this
      ensures history == Recorded(old(history), fullPath, isFolder, now)
      ensures file == Json(Some(history)) && Loaded(file, []) == history
      ensures UniquePaths(old(history)) ==> UniquePaths(history)
      ensures TotalRuns(history) == TotalRuns(old(history)) + 1
    {
      ghost var before := history;
      var found := FindFirst(history, fullPath);
      match found {
        case Some(i) =>
          var item := history[i];
          history := history[i := item.(runCount := item.runCount + 1, lastRun := now, isFolder := isFolder)];
        case None =>
          history := history + [HistoryItem(fullPath, GetFileName(fullPath), None, now, 1, isFolder)];
      }
      assert history == Recorded(before, fullPath, isFolder, now);
      Save();
      RecordedCountsOneUse(before, fullPath, isFolder, now);
      if UniquePaths(before) {
        RecordedKeepsUnique(before, fullPath, isFolder, now);
      }
    }

    /** Sets the alias of the record for fullPath; saves only when there is one. */
    method UpdateAlias(fullPath: string, newAlias: string)
      modifies this
      ensures history == Aliased(old(history), fullPath, newAlias)
      ensures FindFirst(old(history), fullPath).Some? ==> file == Json(Some(history))
      ensures FindFirst(old(history), fullPath).None? ==> file == old(file) && history == old(history)
    {
      var found := FindFirst(history, fullPath);
      if found.Some? {
        var i := found.value;
        history := history[i := history[i].(alias := Some(newAlias))];
        Save();
      }
    }

    /** Deletes the record for fullPath; saves only when there is one. */
    method Remove(fullPath: string)
      modifies this
      ensures history == Removed(old(history), fullPath)
      ensures FindFirst(old(history), fullPath).Some? ==> file == Json(Some(history)) && |history| == |old(history)| - 1
      ensures FindFirst(old(history), fullPath).None? ==> file == old(file) && history == old(history)
    {
      var found := FindFirst(history, fullPath);
      if found.Some? {
        var i := found.value;
        history := history[..i] + history[i + 1..];
        Save();
      }
    }

    /** The records matching query, most used first (see SearchIn). */
    function Search(query: string): seq<HistoryItem>
      reads this
    {
      SearchIn(history, query)
    }
  }
}
