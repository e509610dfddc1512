/**
 * The earlier history store (xlauncher/HistoryItem.cs): records carry no alias
 * and no folder flag, AddOrUpdate takes only the path, and Search matches on
 * the file name alone.
 */
module LegacyHistory {
  import opened Optional
  import opened Text
  import opened Paths
  import Ranking

  datatype HistoryItem = HistoryItem(fullPath: string, fileName: string, lastRun: int, runCount: int)

  function RunCount(h: HistoryItem): int
  {
    h.runCount
  }

  predicate SamePath(h: HistoryItem, path: string)
  {
    EqualsIgnoreCase(h.fullPath, path)
  }

  predicate UniquePaths(s: seq<HistoryItem>)
  {
    forall i, j :: 0 <= i < j < |s| ==> !EqualsIgnoreCase(s[i].fullPath, s[j].fullPath)
  }

  /** FirstOrDefault over the path test: the index of the first record whose path matches. */
  function FindFirst(s: seq<HistoryItem>, path: string): (r: Option<nat>)
    ensures r.None? <==> forall j :: 0 <= j < |s| ==> !SamePath(s[j], path)
    ensures r.Some? ==> r.value < |s| && SamePath(s[r.value], path)
    ensures r.Some? ==> forall j :: 0 <= j < r.value ==> !SamePath(s[j], path)
  {
    if s == [] then None
    else if SamePath(s[0], path) then Some(0)
    else
      assert forall j :: 0 <= j < |s| - 1 ==> s[1..][j] == s[j + 1];
      match FindFirst(s[1..], path)
      case None => None
      case Some(i) => Some(i + 1)
  }

  /** The value of AddOrUpdate(path): count one more use of the first match, or append a new record. */
  function Recorded(s: seq<HistoryItem>, fullPath: string, now: int): (r: seq<HistoryItem>)
    ensures |s| <= |r| <= |s| + 1
  {
    match FindFirst(s, fullPath)
    case Some(i) => s[i := s[i].(runCount := s[i].runCount + 1, lastRun := now)]
    case None => s + [HistoryItem(fullPath, GetFileName(fullPath), now, 1)]
  }

  /** After a launch is recorded, the store knows the path. */
  lemma RecordedFinds(s: seq<HistoryItem>, fullPath: string, now: int)
    ensures FindFirst(Recorded(s, fullPath, now), fullPath).Some?
  {
    var r := Recorded(s, fullPath, now);
    match FindFirst(s, fullPath)
    case Some(i) =>
      assert SamePath(r[i], fullPath);
    case None =>
      assert SamePath(r[|s|], fullPath);
  }

  /** A known path: same length, one more run on the first match, its path and name kept, nothing else changed. */
  lemma RecordedPresent(s: seq<HistoryItem>, fullPath: string, now: int, i: nat)
    requires FindFirst(s, fullPath) == Some(i)
    ensures var r := Recorded(s, fullPath, now);
      && |r| == |s|
      && r[i].runCount == s[i].runCount + 1 && r[i].lastRun == now
      && r[i].fullPath == s[i].fullPath && r[i].fileName == s[i].fileName
      && forall j :: 0 <= j < |s| && j != i ==> r[j] == s[j]
  {
  }

  /** An unknown path: one record appended, with run count 1 and the file name of the path. */
  lemma RecordedAbsent(s: seq<HistoryItem>, fullPath: string, now: int)
    requires forall j :: 0 <= j < |s| ==> !SamePath(s[j], fullPath)
    ensures var r := Recorded(s, fullPath, now);
      && |r| == |s| + 1 && r[..|s|] == s
      && r[|s|] == HistoryItem(fullPath, GetFileName(fullPath), now, 1)
  {
  }

  /** AddOrUpdate keeps the paths unique ignoring case. */
  lemma RecordedKeepsUnique(s: seq<HistoryItem>, fullPath: string, now: int)
    requires UniquePaths(s)
    ensures UniquePaths(Recorded(s, fullPath, now))
  {
    var r := Recorded(s, fullPath, now);
    match FindFirst(s, fullPath)
    case Some(i) =>
      assert forall k :: 0 <= k < |r| ==> r[k].fullPath == s[k].fullPath;
    case None =>
      forall i, j | 0 <= i < j < |r| ensures !EqualsIgnoreCase(r[i].fullPath, r[j].fullPath) {
        if j == |s| {
          assert !SamePath(s[i], fullPath);
        }
      }
  }

  /** The records whose file name starts with the query ignoring case, in store order (LINQ Where). */
  function Filter(s: seq<HistoryItem>, query: string): seq<HistoryItem>
  {
    if s == [] then []
    else (if StartsWithIgnoreCase(s[0].fileName, query) then [s[0]] else []) + Filter(s[1..], query)
  }

  function SearchIn(s: seq<HistoryItem>, query: string): seq<HistoryItem>
  {
    Ranking.SortDesc(Filter(s, query), RunCount)
  }

  lemma {:induction false} FilterMembers(s: seq<HistoryItem>, query: string)
    ensures forall x :: x in Filter(s, query) <==> x in s && StartsWithIgnoreCase(x.fileName, query)
  {
    if s != [] {
      FilterMembers(s[1..], query);
      assert s == [s[0]] + s[1..];
    }
  }

  /** Search returns exactly the records whose file name starts with the query, ignoring case. */
  lemma SearchMembers(s: seq<HistoryItem>, query: string)
    ensures forall x :: x in SearchIn(s, query) <==> x in s && StartsWithIgnoreCase(x.fileName, query)
    ensures multiset(SearchIn(s, query)) == multiset(Filter(s, query))
  {
    FilterMembers(s, query);
    Ranking.SortDescPermutation(Filter(s, query), RunCount);
    forall x ensures x in SearchIn(s, query) <==> x in Filter(s, query) {
      assert x in SearchIn(s, query) <==> x in multiset(SearchIn(s, query));
    }
  }

  /** Search is non-increasing in run count and keeps store order among equal counts. */
  lemma SearchRanking(s: seq<HistoryItem>, query: string)
    ensures Ranking.StableDescOf(SearchIn(s, query), Filter(s, query), RunCount)
  {
    Ranking.SortDescStable(Filter(s, query), RunCount);
  }

  /** The history file: absent, unreadable, or a JSON document holding a list (or null). */
  datatype StoredFile = Missing | Unreadable | Json(items: Option<seq<HistoryItem>>)

  function Loaded(file: StoredFile, current: seq<HistoryItem>): seq<HistoryItem>
  {
    match file
    case Missing => current
    case Unreadable => []
    case Json(None) => []
    case Json(Some(xs)) => xs
  }

  /**
   * Save and Load are inverse: loading what Save wrote gives the list back.
   * Loading twice is loading once, and only a missing file lets the list in
   * memory survive a load.
   */
  lemma LoadRoundTrip(s: seq<HistoryItem>, current: seq<HistoryItem>, file: StoredFile)
    ensures Loaded(Json(Some(s)), current) == s
    ensures Loaded(file, Loaded(file, current)) == Loaded(file, current)
    ensures !file.Missing? ==> Loaded(file, current) == Loaded(file, [])
  {
  }

  class HistoryManager {
    var history: seq<HistoryItem>
    var file: StoredFile

    constructor (stored: StoredFile)
      ensures file == stored
      ensures history == Loaded(stored, [])
    {
      file := stored;
      history := [];
      new;
      Load();
    }

    method Load()
      modifies this`history
      ensures history == Loaded(file, old(history))
    {
      match file
      case Missing =>
      case Unreadable =>
        history := [];
      case Json(items) =>
        history := if items.Some? then items.value else [];
    }

    method Save()
      modifies this`file
      ensures file == Json(Some(history))
    {
      file := Json(Some(history));
    }

    method AddOrUpdate(fullPath: string, now: int)
      modifies this
      ensures history == Recorded(old(history), fullPath, now)
      ensures file == Json(Some(history))
      ensures UniquePaths(old(history)) ==> UniquePaths(history)
    {
      ghost var before := history;
      var found := FindFirst(history, fullPath);
      match found {
        case Some(i) =>
          var item := history[i];
          history := history[i := item.(runCount := item.runCount + 1, lastRun := now)];
        case None =>
          history := history + [HistoryItem(fullPath, GetFileName(fullPath), now, 1)];
      }
      assert history == Recorded(before, fullPath, now);
      Save();
      if UniquePaths(before) {
        RecordedKeepsUnique(before, fullPath, now);
      }
    }

    function Search(query: string): seq<HistoryItem>
      reads this
    {
      SearchIn(history, query)
    }
  }
}
