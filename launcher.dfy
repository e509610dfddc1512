/**
 * The query engine of the main window (xlauncher/MainWindow.xaml.cs): turning
 * the input text into the result list (history matches, then at most twenty
 * directory entries), moving the selection, autocompleting, the Enter key,
 * and the Rename and Delete commands of the context menu.
 */
module Launcher {
  import opened Optional
  import opened Text
  import opened Paths
  import History
  import Rename
  import Ranking

  /** One entry of a directory listing: its Name, FullName and whether it is a directory. */
  datatype FsEntry = FsEntry(name: string, fullName: string, isFolder: bool)

  /** The Type of a result row: "File", "Folder" or "History". */
  datatype ItemType = File | Folder | HistoryEntry

  /** A row of the result list. */
  datatype ItemResult = ItemResult(
    name: string,
    fullPath: string,
    itemType: ItemType,
    isHistoryItem: bool,
    isHistoryFile: bool)

  /**
   * The filesystem as the launcher queries it: Directory.Exists, File.Exists,
   * and the entries DirectoryInfo.EnumerateFileSystemInfos(filter + "*")
   * yields for a directory and a filter, in enumeration order.
   */
  datatype Disk = Disk(
    dirExists: string -> bool,
    fileExists: string -> bool,
    enumerate: (string, string) -> seq<FsEntry>)

  /** At most this many directory entries are added per refresh. */
  const MaxDiskEntries: nat := 20

  const AliasSuffix: string := " (Alias)"
  const HistorySuffix: string := " (Historial)"

  /** The shown name of a history row: the alias marked " (Alias)", else the file name marked " (Historial)". */
  function DisplayName(h: History.HistoryItem): string
  {
    if History.HasAlias(h) then h.alias.value + AliasSuffix else h.fileName + HistorySuffix
  }

  function HistoryRow(h: History.HistoryItem): ItemResult
  {
    ItemResult(DisplayName(h), h.fullPath, HistoryEntry, true, !h.isFolder)
  }

  function HistoryRows(hs: seq<History.HistoryItem>): (r: seq<ItemResult>)
    ensures |r| == |hs|
    ensures forall k :: 0 <= k < |hs| ==> r[k] == HistoryRow(hs[k])
  {
    if hs == [] then [] else [HistoryRow(hs[0])] + HistoryRows(hs[1..])
  }

  function DiskRow(e: FsEntry): ItemResult
  {
    ItemResult(e.name, e.fullName, if e.isFolder then Folder else File, false, false)
  }

  function DiskRows(es: seq<FsEntry>): (r: seq<ItemResult>)
    ensures |r| == |es|
    ensures forall k :: 0 <= k < |es| ==> r[k] == DiskRow(es[k])
  {
    if es == [] then [] else [DiskRow(es[0])] + DiskRows(es[1..])
  }

  /** Items.Any(x => x.FullPath == path): an ordinal (case-sensitive) comparison. */
  predicate HasPath(items: seq<ItemResult>, path: string)
  {
    exists k :: 0 <= k < |items| && items[k].fullPath == path
  }

  /**
   * The loop over the directory entries: an entry whose path is already listed
   * is skipped; otherwise, once count entries have reached the cap, the loop
   * stops; otherwise the entry is appended and counted.
   */
  function AddDiskEntries(items: seq<ItemResult>, entries: seq<FsEntry>, count: nat): seq<ItemResult>
    decreases |entries|
  {
    if entries == [] then items
    else if HasPath(items, entries[0].fullName) then AddDiskEntries(items, entries[1..], count)
    else if count >= MaxDiskEntries then items
    else AddDiskEntries(items + [DiskRow(entries[0])], entries[1..], count + 1)
  }

  /** The directory to list and the name filter for a disk path. */
  function SplitDiskPath(pathDisco: string): (string, string)
  {
    if EndsWith(pathDisco, [Separator]) then (pathDisco, "")
    else (GetDirectoryName(pathDisco), GetFileName(pathDisco))
  }

  /** The entries enumerated for a disk path: none when the directory is empty or does not exist. */
  function DiskEntries(pathDisco: string, disk: Disk): seq<FsEntry>
  {
    var (dir, filter) := SplitDiskPath(pathDisco);
    if dir != "" && disk.dirExists(dir) then disk.enumerate(dir, filter) else []
  }

  /** The history part of the list: the rows for Search(GetFileName(query)), none when that name is empty. */
  function HistoryPart(history: seq<History.HistoryItem>, queryOriginal: string): seq<ItemResult>
  {
    var key := GetFileName(queryOriginal);
    if key != "" then HistoryRows(History.SearchIn(history, key)) else []
  }

  /** The list ActualizarListado builds: the history rows, then the directory entries. */
  function Listing(history: seq<History.HistoryItem>, queryOriginal: string, pathDisco: string, disk: Disk): seq<ItemResult>
  {
    AddDiskEntries(HistoryPart(history, queryOriginal), DiskEntries(pathDisco, disk), 0)
  }

  /** The list InputBox_TextChanged leaves for the input text: empty for blank input. */
  function Resolve(history: seq<History.HistoryItem>, text: string, disk: Disk): seq<ItemResult>
  {
    if IsBlank(text) then [] else Listing(history, text, DiskPath(text), disk)
  }

  /** One step of the directory loop, at position j of the enumeration. */
  lemma AddDiskEntriesStep(items: seq<ItemResult>, entries: seq<FsEntry>, j: nat, count: nat)
    requires j < |entries|
    ensures AddDiskEntries(items, entries[j..], count) ==
      if HasPath(items, entries[j].fullName) then AddDiskEntries(items, entries[j + 1..], count)
      else if count >= MaxDiskEntries then items
      else AddDiskEntries(items + [DiskRow(entries[j])], entries[j + 1..], count + 1)
  {
    assert entries[j..][0] == entries[j] && entries[j..][1..] == entries[j + 1..];
  }

  /**
   * The directory loop only appends: the rows already there stay first and
   * unchanged, every appended row is a directory row (not a history row) for
   * some enumerated entry, and no more than the rest of the cap is appended.
   */
  lemma {:induction false} AddDiskEntriesAppends(items: seq<ItemResult>, entries: seq<FsEntry>, count: nat)
    requires count <= MaxDiskEntries
    ensures var r := AddDiskEntries(items, entries, count);
      && |items| <= |r| <= |items| + (MaxDiskEntries - count)
      && r[..|items|] == items
      && forall k :: |items| <= k < |r| ==> !r[k].isHistoryItem && exists j :: 0 <= j < |entries| && r[k] == DiskRow(entries[j])
    decreases |entries|
  {
    var r := AddDiskEntries(items, entries, count);
    if entries == [] || (!HasPath(items, entries[0].fullName) && count >= MaxDiskEntries) {
    } else if HasPath(items, entries[0].fullName) {
      AddDiskEntriesAppends(items, entries[1..], count);
      forall k | |items| <= k < |r| ensures exists j :: 0 <= j < |entries| && r[k] == DiskRow(entries[j]) {
        var j :| 0 <= j < |entries[1..]| && r[k] == DiskRow(entries[1..][j]);
        assert r[k] == DiskRow(entries[j + 1]);
      }
    } else {
      var items' := items + [DiskRow(entries[0])];
      AddDiskEntriesAppends(items', entries[1..], count + 1);
      assert r[..|items'|] == items';
      assert r[..|items|] == items' [..|items|] == items;
      forall k | |items| <= k < |r| ensures !r[k].isHistoryItem && exists j :: 0 <= j < |entries| && r[k] == DiskRow(entries[j]) {
        if k == |items| {
          assert r[k] == items'[k] == DiskRow(entries[0]);
        } else {
          var j :| 0 <= j < |entries[1..]| && r[k] == DiskRow(entries[1..][j]);
          assert r[k] == DiskRow(entries[j + 1]);
        }
      }
    }
  }

  /** From position n on, every row has a path that no earlier row has (ordinal comparison). */
  predicate FreshFrom(r: seq<ItemResult>, n: int)
  {
    forall k, m :: 0 <= m < k < |r| && n <= k ==> r[m].fullPath != r[k].fullPath
  }

  /**
   * Every appended row has a path that no row before it has (ordinal
   * comparison): neither a row that was already there nor an earlier appended one.
   */
  lemma {:induction false} AddDiskEntriesFresh(items: seq<ItemResult>, entries: seq<FsEntry>, count: nat)
    requires count <= MaxDiskEntries
    ensures FreshFrom(AddDiskEntries(items, entries, count), |items|)
    decreases |entries|
  {
    var r := AddDiskEntries(items, entries, count);
    AddDiskEntriesAppends(items, entries, count);
    if entries == [] || (!HasPath(items, entries[0].fullName) && count >= MaxDiskEntries) {
    } else if HasPath(items, entries[0].fullName) {
      assert r == AddDiskEntries(items, entries[1..], count);
      AddDiskEntriesFresh(items, entries[1..], count);
    } else {
      var items' := items + [DiskRow(entries[0])];
      AddDiskEntriesFresh(items', entries[1..], count + 1);
      AddDiskEntriesAppends(items', entries[1..], count + 1);
      assert r[..|items'|] == items';
      forall k, m | 0 <= m < k < |r| && |items| <= k ensures r[m].fullPath != r[k].fullPath {
        if k == |items| {
          assert r[k] == DiskRow(entries[0]) && r[m] == items[m];
        }
      }
    }
  }

  /**
   * Duplicates do not use up the cap: while fewer than the remaining cap rows
   * were appended, every enumerated path is listed, either by a row that was
   * already there or by an appended one.
   */
  lemma {:induction false} AddDiskEntriesComplete(items: seq<ItemResult>, entries: seq<FsEntry>, count: nat)
    requires count <= MaxDiskEntries
    ensures var r := AddDiskEntries(items, entries, count);
      |r| - |items| < MaxDiskEntries - count ==> forall j :: 0 <= j < |entries| ==> HasPath(r, entries[j].fullName)
    decreases |entries|
  {
    var r := AddDiskEntries(items, entries, count);
    AddDiskEntriesAppends(items, entries, count);
    if entries == [] {
    } else if HasPath(items, entries[0].fullName) {
      AddDiskEntriesComplete(items, entries[1..], count);
      if |r| - |items| < MaxDiskEntries - count {
        var k :| 0 <= k < |items| && items[k].fullPath == entries[0].fullName;
        assert r[k] == items[k];
        forall j | 0 < j < |entries| ensures HasPath(r, entries[j].fullName) {
          assert entries[j] == entries[1..][j - 1];
        }
      }
    } else if count >= MaxDiskEntries {
    } else {
      var items' := items + [DiskRow(entries[0])];
      AddDiskEntriesComplete(items', entries[1..], count + 1);
      AddDiskEntriesAppends(items', entries[1..], count + 1);
      if |r| - |items| < MaxDiskEntries - count {
        assert r[|items|] == items'[|items|];
        forall j | 0 < j < |entries| ensures HasPath(r, entries[j].fullName) {
          assert entries[j] == entries[1..][j - 1];
        }
      }
    }
  }

  /** a is a subsequence of b: b with some elements deleted. */
  predicate IsSubsequence<T(==)>(a: seq<T>, b: seq<T>)
    decreases |b|
  {
    a == [] || (b != [] && ((a[0] == b[0] && IsSubsequence(a[1..], b[1..])) || IsSubsequence(a, b[1..])))
  }

  /** The appended rows follow the enumeration order: they are the rows of a subsequence of the entries. */
  lemma {:induction false} AddDiskEntriesInOrder(items: seq<ItemResult>, entries: seq<FsEntry>, count: nat)
    requires count <= MaxDiskEntries
    ensures var r := AddDiskEntries(items, entries, count);
      |items| <= |r| && IsSubsequence(r[|items|..], DiskRows(entries))
    decreases |entries|
  {
    var r := AddDiskEntries(items, entries, count);
    AddDiskEntriesAppends(items, entries, count);
    if entries == [] || (!HasPath(items, entries[0].fullName) && count >= MaxDiskEntries) {
      assert r[|items|..] == [];
    } else if HasPath(items, entries[0].fullName) {
      AddDiskEntriesInOrder(items, entries[1..], count);
      assert DiskRows(entries)[1..] == DiskRows(entries[1..]);
    } else {
      var items' := items + [DiskRow(entries[0])];
      AddDiskEntriesInOrder(items', entries[1..], count + 1);
      AddDiskEntriesAppends(items', entries[1..], count + 1);
      assert r[..|items'|] == items';
      assert DiskRows(entries)[1..] == DiskRows(entries[1..]);
      assert r[|items|..][1..] == r[|items'|..];
      assert r[|items|..][0] == DiskRow(entries[0]) == DiskRows(entries)[0];
    }
  }

  /**
   * The list puts every history row before every directory row, keeps the
   * history part as Search ordered it, and adds at most twenty directory rows.
   */
  lemma ListingShape(history: seq<History.HistoryItem>, queryOriginal: string, pathDisco: string, disk: Disk)
    ensures var hp := HistoryPart(history, queryOriginal);
      var r := Listing(history, queryOriginal, pathDisco, disk);
      && |hp| <= |r| <= |hp| + MaxDiskEntries
      && r[..|hp|] == hp
      && (forall k :: 0 <= k < |r| ==> (r[k].isHistoryItem <==> k < |hp|))
      && (forall i, j :: 0 <= i < j < |r| && r[j].isHistoryItem ==> r[i].isHistoryItem)
  {
    var hp := HistoryPart(history, queryOriginal);
    var r := Listing(history, queryOriginal, pathDisco, disk);
    AddDiskEntriesAppends(hp, DiskEntries(pathDisco, disk), 0);
    assert forall k :: 0 <= k < |hp| ==> r[k] == hp[k] && hp[k].isHistoryItem;
  }

  /**
   * With a store whose paths are unique (ignoring case), no two rows of the list
   * have the same path (compared ordinally, as the directory loop compares).
   */
  lemma ListingDistinctPaths(history: seq<History.HistoryItem>, queryOriginal: string, pathDisco: string, disk: Disk)
    requires History.UniquePaths(history)
    ensures var r := Listing(history, queryOriginal, pathDisco, disk);
      forall i, j :: 0 <= i < j < |r| ==> r[i].fullPath != r[j].fullPath
  {
    var hp := HistoryPart(history, queryOriginal);
    var r := Listing(history, queryOriginal, pathDisco, disk);
    AddDiskEntriesAppends(hp, DiskEntries(pathDisco, disk), 0);
    AddDiskEntriesFresh(hp, DiskEntries(pathDisco, disk), 0);
    var key := GetFileName(queryOriginal);
    if key != "" {
      var found := History.SearchIn(history, key);
      History.SearchUnique(history, key);
      forall i, j | 0 <= i < j < |hp| ensures hp[i].fullPath != hp[j].fullPath {
        assert !EqualsIgnoreCase(found[i].fullPath, found[j].fullPath);
      }
    }
    forall i, j | 0 <= i < j < |r| ensures r[i].fullPath != r[j].fullPath {
      if j < |hp| {
        assert r[i] == hp[i] && r[j] == hp[j];
      }
    }
  }

  /** A worked case: a store holding C:\Tools\a.exe (three runs), and C:\Tools listing a.exe and ab.exe for the filter "a". */
  const ToolsRecord := History.HistoryItem("C:\\Tools\\a.exe", "a.exe", None, 0, 3, false)
  const ToolsA := FsEntry("a.exe", "C:\\Tools\\a.exe", false)
  const ToolsAb := FsEntry("ab.exe", "C:\\Tools\\ab.exe", false)
  const ToolsDisk := Disk(d => d == "C:\\Tools", f => false,
                          (d, f) => if d == "C:\\Tools" && f == "a" then [ToolsA, ToolsAb] else [])

  /** The query C:\Tools\a splits into the directory C:\Tools and the name a. */
  lemma ToolsQuerySplit()
    ensures GetFileName("C:\\Tools\\a") == "a" && GetDirectoryName("C:\\Tools\\a") == "C:\\Tools"
    ensures GetFileName("a") == "a" && GetDirectoryName("a") == ""
    ensures !EndsWith("C:\\Tools\\a", [Separator]) && !EndsWith("a", [Separator])
  {
    var q := "C:\\Tools\\a";
    assert q[8] == Separator && q[9] == 'a';
    LastSeparatorAt(q, 8);
    assert "a"[0] != Separator;
  }

  lemma ToolsHistoryPart()
    ensures HistoryPart([ToolsRecord], "C:\\Tools\\a") == [HistoryRow(ToolsRecord)]
    ensures HistoryPart([ToolsRecord], "a") == [HistoryRow(ToolsRecord)]
  {
    var rec := ToolsRecord;
    ToolsQuerySplit();
    assert StartsWithIgnoreCase(rec.fileName, "a") by {
      assert rec.fileName[..1] == "a";
    }
    assert History.Matches(rec, "a");
    assert [rec][1..] == [];
    assert History.Filter([rec], "a") == [rec];
    assert Ranking.SortDesc([rec], History.RunCount) == Ranking.Insert(rec, [], History.RunCount) == [rec];
  }

  lemma ToolsEntries()
    ensures DiskEntries("C:\\Tools\\a", ToolsDisk) == [ToolsA, ToolsAb]
    ensures DiskEntries("a", ToolsDisk) == []
  {
    ToolsQuerySplit();
    ToolsSplit();
    var dir := "C:\\Tools";
    assert dir != "" && ToolsDisk.dirExists(dir);
    assert ToolsDisk.enumerate(dir, "a") == [ToolsA, ToolsAb];
  }

  lemma ToolsSplit()
    ensures SplitDiskPath("C:\\Tools\\a") == ("C:\\Tools", "a")
    ensures SplitDiskPath("a") == ("", "a")
  {
    ToolsQuerySplit();
  }

  lemma ToolsDirectoryLoop()
    ensures AddDiskEntries([HistoryRow(ToolsRecord)], [ToolsA, ToolsAb], 0) == [HistoryRow(ToolsRecord), DiskRow(ToolsAb)]
  {
    var hp := [HistoryRow(ToolsRecord)];
    assert HasPath(hp, ToolsA.fullName);
    assert [ToolsA, ToolsAb][1..] == [ToolsAb];
    assert !HasPath(hp, ToolsAb.fullName) by {
      assert hp[0].fullPath[10] != ToolsAb.fullName[10];
    }
    assert [ToolsAb][1..] == [];
    assert AddDiskEntries(hp + [DiskRow(ToolsAb)], [], 1) == hp + [DiskRow(ToolsAb)];
  }

  lemma ToolsQueries()
    ensures !IsBlank("C:\\Tools\\a") && DiskPath("C:\\Tools\\a") == "C:\\Tools\\a"
    ensures !IsBlank("a") && DiskPath("a") == "a"
  {
    assert !IsWhiteSpace("a"[0]);
    assert !IsWhiteSpace("C:\\Tools\\a"[0]);
  }

  lemma ToolsRowName()
    ensures HistoryRow(ToolsRecord).name == "a.exe (Historial)"
  {
    assert !History.HasAlias(ToolsRecord);
  }

  /**
   * In the worked case the query C:\Tools\a lists the history row first and
   * then only ab.exe: the directory's a.exe is dropped as already listed. A
   * bare "a" names no directory, so it lists the history row alone.
   */
  lemma ToolsScenario()
    ensures Resolve([ToolsRecord], "C:\\Tools\\a", ToolsDisk) == [HistoryRow(ToolsRecord), DiskRow(ToolsAb)]
    ensures Resolve([ToolsRecord], "a", ToolsDisk) == [HistoryRow(ToolsRecord)]
    ensures HistoryRow(ToolsRecord).name == "a.exe (Historial)"
  {
    ToolsHistoryPart();
    ToolsEntries();
    ToolsDirectoryLoop();
    ToolsQueries();
    ToolsRowName();
  }

  /** The text autocomplete writes for a row, given the current input. */
  function CompletionText(item: ItemResult, input: string): string
  {
    if item.isHistoryItem then item.fullPath
    else
      var t := Redisplay(item.fullPath, input);
      if item.itemType == Folder && !EndsWith(t, [Separator]) then t + [Separator] else t
  }

  /** p with a separator at the end, added only when missing. */
  function Slashed(p: string): (r: string)
    ensures EndsWith(r, [Separator])
  {
    if EndsWith(p, [Separator]) then p else p + [Separator]
  }

  /**
   * A history row completes to its stored path verbatim. A directory row
   * completes to its path, a folder with a trailing separator, written in the
   * idiom of the current input: with shorthand input (and a path on the default
   * drive) the completion is again shorthand and denotes the same disk path.
   */
  lemma CompletionIdiom(item: ItemResult, input: string)
    ensures item.isHistoryItem ==> CompletionText(item, input) == item.fullPath
    ensures !item.isHistoryItem && !IsShorthand(input) ==>
      CompletionText(item, input) == if item.itemType == Folder then Slashed(item.fullPath) else item.fullPath
    ensures !item.isHistoryItem && IsShorthand(input) && StartsWith(item.fullPath, DefaultDrive + [Separator]) ==>
      && IsShorthand(CompletionText(item, input))
      && DiskPath(CompletionText(item, input)) == if item.itemType == Folder then Slashed(item.fullPath) else item.fullPath
  {
    var fp := item.fullPath;
    if !item.isHistoryItem && IsShorthand(input) && StartsWith(fp, DefaultDrive + [Separator]) {
      var t := fp[2..];
      assert Redisplay(fp, input) == t;
      assert fp == DefaultDrive + t;
      assert EndsWith(t, [Separator]) <==> EndsWith(fp, [Separator]);
      if item.itemType == Folder && !EndsWith(t, [Separator]) {
        assert (t + [Separator])[..1] == t[..1];
        assert DefaultDrive + (t + [Separator]) == fp + [Separator];
      }
    }
  }

  /**
   * Autocompleting the row for the disk path of a shorthand input gives the input
   * back (for a file, or a folder already ending in a separator): the shorthand
   * idiom survives the round trip through the disk lookup.
   */
  lemma CompletionRoundTrip(q: string, name: string, itemType: ItemType)
    requires IsShorthand(q) && itemType != HistoryEntry
    requires itemType == Folder ==> EndsWith(q, [Separator])
    ensures CompletionText(ItemResult(name, DiskPath(q), itemType, false, false), q) == q
  {
    ShorthandRoundTrip(q);
    assert DiskPath(q)[2..] == q;
  }

  /**
   * A folder completion ends with a separator, so the refresh it triggers shows
   * no history rows and lists that folder with an empty filter.
   */
  lemma FolderCompletionBrowses(item: ItemResult, input: string, disk: Disk, history: seq<History.HistoryItem>)
    requires !item.isHistoryItem && item.itemType == Folder
    ensures var t := CompletionText(item, input);
      && EndsWith(t, [Separator])
      && HistoryPart(history, t) == []
      && SplitDiskPath(DiskPath(t)) == (DiskPath(t), "")
      && DiskEntries(DiskPath(t), disk) == (if disk.dirExists(DiskPath(t)) then disk.enumerate(DiskPath(t), "") else [])
  {
    var t := CompletionText(item, input);
    assert EndsWith(t, [Separator]);
    EmptyFileName(t);
    var d := DiskPath(t);
    assert EndsWith(d, [Separator]) by {
      if IsShorthand(t) {
        assert d == DefaultDrive + t;
        assert d[|d| - 1..] == t[|t| - 1..];
      }
    }
  }

  /** MoverSeleccion: no change on an empty list; otherwise selected + direction clamped into the list. */
  function Moved(selected: int, count: nat, direction: int): int
  {
    if count == 0 then selected
    else
      var n := selected + direction;
      var n' := if n < 0 then 0 else n;
      if n' >= count then count - 1 else n'
  }

  /**
   * On a non-empty list the new selection is inside the list, it is the
   * requested index when that exists, and otherwise the nearest end.
   */
  lemma MovedInRange(selected: int, count: nat, direction: int)
    ensures count == 0 ==> Moved(selected, count, direction) == selected
    ensures count > 0 ==> 0 <= Moved(selected, count, direction) < count
    ensures count > 0 && 0 <= selected + direction < count ==> Moved(selected, count, direction) == selected + direction
    ensures count > 0 && selected + direction < 0 ==> Moved(selected, count, direction) == 0
    ensures count > 0 && selected + direction >= count ==> Moved(selected, count, direction) == count - 1
  {
  }

  /** The selection after a series of Up and Down presses. */
  function MovedAll(selected: int, count: nat, directions: seq<int>): int
    decreases |directions|
  {
    if directions == [] then selected
    else MovedAll(Moved(selected, count, directions[0]), count, directions[1..])
  }

  /** Any series of moves keeps a selection that is in the list (or -1, none) in the list (or none). */
  lemma {:induction false} MovedAllInRange(selected: int, count: nat, directions: seq<int>)
    requires -1 <= selected < count
    ensures -1 <= MovedAll(selected, count, directions) < count
    ensures count > 0 && directions != [] ==> 0 <= MovedAll(selected, count, directions)
    decreases |directions|
  {
    if directions != [] {
      MovedInRange(selected, count, directions[0]);
      MovedAllInRange(Moved(selected, count, directions[0]), count, directions[1..]);
    }
  }

  /** The name Rename_Click prefills the dialog with: both markers deleted, then trimmed. */
  function RawName(name: string): string
  {
    Trim(RemoveAll(RemoveAll(name, HistorySuffix), AliasSuffix))
  }

  lemma SuffixFacts()
    ensures forall k :: 0 < k < |HistorySuffix| ==> HistorySuffix[k] != HistorySuffix[0]
    ensures forall k :: 0 < k < |AliasSuffix| ==> AliasSuffix[k] != AliasSuffix[0]
    ensures AliasSuffix[0] == HistorySuffix[0]
    ensures RemoveAll(HistorySuffix, HistorySuffix) == "" && RemoveAll(AliasSuffix, AliasSuffix) == ""
  {
  }

  /**
   * For a history row, the dialog is prefilled with the record's alias or file
   * name, provided that name holds neither marker and has no white space at
   * either end.
   */
  lemma RawNameOfHistoryRow(h: History.HistoryItem)
    requires var key := History.EffectiveKey(h);
      forall i :: !OccursAt(key, HistorySuffix, i) && !OccursAt(key, AliasSuffix, i)
    requires var key := History.EffectiveKey(h);
      key == [] || (!IsWhiteSpace(key[0]) && !IsWhiteSpace(key[|key| - 1]))
    ensures RawName(DisplayName(h)) == History.EffectiveKey(h)
  {
    var key := History.EffectiveKey(h);
    SuffixFacts();
    if History.HasAlias(h) {
      forall i ensures !OccursAt(key + AliasSuffix, HistorySuffix, i) {
        if OccursAt(key + AliasSuffix, HistorySuffix, i) && i < |key| {
          NoStraddle(key, AliasSuffix, HistorySuffix, i);
        }
      }
      RemoveAllAbsent(key + AliasSuffix, HistorySuffix);
      forall i | 0 <= i < |key| ensures !OccursAt(key + AliasSuffix, AliasSuffix, i) {
        if OccursAt(key + AliasSuffix, AliasSuffix, i) {
          NoStraddle(key, AliasSuffix, AliasSuffix, i);
        }
      }
      RemoveAllAfter(key, AliasSuffix, AliasSuffix);
      assert key + "" == key;
    } else {
      forall i | 0 <= i < |key| ensures !OccursAt(key + HistorySuffix, HistorySuffix, i) {
        if OccursAt(key + HistorySuffix, HistorySuffix, i) {
          NoStraddle(key, HistorySuffix, HistorySuffix, i);
        }
      }
      RemoveAllAfter(key, HistorySuffix, HistorySuffix);
      assert key + "" == key;
      RemoveAllAbsent(key, AliasSuffix);
    }
    TrimTrimmed(key);
  }

  /** Enter on the text "exit" or "/exit" (in any letter case) closes the application. */
  predicate IsExitCommand(text: string)
  {
    ToLower(text) == "exit" || ToLower(text) == "/exit"
  }

  /** The row EjecutarArchivo receives when Enter is pressed on a typed path with nothing selected. */
  function ManualRow(manualPath: string): ItemResult
  {
    ItemResult(GetFileName(manualPath), manualPath, File, false, false)
  }

  /** What the Enter key did. */
  datatype EnterOutcome =
    | Shutdown
    | Descended
    | Launched(path: string, started: bool)
    | NoAction

  /** How the rename dialog was closed: Save with the text box edited to a new text (or left as prefilled), or Cancel. */
  datatype DialogAction = Save(edited: Option<string>) | Cancel

  /** The alias a rename stores, if any: the dialog's accepted text when it was saved. */
  function RenameAlias(prefill: string, action: DialogAction): (r: Option<string>)
    ensures r.Some? ==> Rename.WellFormedName(r.value)
  {
    match action
    case Cancel => None
    case Save(edited) => Rename.Accepted(if edited.Some? then edited.value else prefill)
  }

  class MainWindow {
    /** The Items collection shown in the result list. */
    var items: seq<ItemResult>
    /** ResultList.SelectedIndex; -1 when nothing is selected. */
    var selectedIndex: int
    /** InputBox.Text */
    var text: string
    /** Set while autocomplete rewrites the text, so that the rewrite does not refresh the list. */
    var isNavigating: bool
    const store: History.HistoryManager

    ghost predicate Valid()
      reads this
    {
      -1 <= selectedIndex < |items|
    }

    /**
     * ResultList.SelectedItem: the selected row is one of the listed rows, and
     * in a valid window there is none exactly when the index is -1.
     */
    function SelectedItem(): (r: Option<ItemResult>)
      reads this
      ensures r.Some? ==> r.value in items
      ensures Valid() ==> (r.None? <==> selectedIndex == -1)
    {
      if 0 <= selectedIndex < |items| then Some(items[selectedIndex]) else None
    }

    constructor (stored: History.StoredFile)
      ensures Valid() && fresh(store)
      ensures items == [] && selectedIndex == -1 && text == "" && !isNavigating
      ensures store.history == History.Loaded(stored, []) && store.file == stored
    {
      store := new History.HistoryManager(stored);
      items := [];
      selectedIndex := -1;
      text := "";
      isNavigating := false;
    }

    /**
     * ActualizarListado: clears the list, adds the history rows for the file
     * name of the original query, then the entries of the directory of the disk
     * path that are not listed yet, at most twenty, and selects the first row.
     */
    method Refresh(queryOriginal: string, pathDisco: string, disk: Disk)
      modifies this`items, this`selectedIndex
      ensures Valid()
      ensures items == Listing(store.history, queryOriginal, pathDisco, disk)
      ensures selectedIndex == if items == [] then -1 else 0
    {
      items := [];
      selectedIndex := -1;
      AddHistoryRows(queryOriginal);
      AddDirectoryRows(pathDisco, disk);
      if |items| > 0 {
        selectedIndex := 0;
      }
    }

    /** The first loop of ActualizarListado: one row per history match of the query's file name, in Search order. */
    method AddHistoryRows(queryOriginal: string)
      requires items == []
      modifies this`items
      ensures items == HistoryPart(store.history, queryOriginal)
    {
      var nombreBusqueda := GetFileName(queryOriginal);
      if nombreBusqueda != "" {
        var historyMatches := store.Search(nombreBusqueda);
        var i := 0;
        while i < |historyMatches|
          invariant 0 <= i <= |historyMatches|
          invariant |items| == i
          invariant forall k :: 0 <= k < i ==> items[k] == HistoryRow(historyMatches[k])
        {
          items := items + [HistoryRow(historyMatches[i])];
          i := i + 1;
        }
      }
    }

    /**
     * The second loop of ActualizarListado: the entries of the directory named
     * by the disk path, skipping paths already listed, at most twenty.
     */
    method AddDirectoryRows(pathDisco: string, disk: Disk)
      modifies this`items
      ensures items == AddDiskEntries(old(items), DiskEntries(pathDisco, disk), 0)
    {
      var (directorioBusqueda, filtro) := SplitDiskPath(pathDisco);
      if directorioBusqueda != "" && disk.dirExists(directorioBusqueda) {
        var entries := disk.enumerate(directorioBusqueda, filtro);
        var count: nat := 0;
        var j := 0;
        while j < |entries|
          invariant 0 <= j <= |entries| && count <= MaxDiskEntries
          invariant AddDiskEntries(items, entries[j..], count) == AddDiskEntries(old(items), entries, 0)
        {
          var entry := entries[j];
          AddDiskEntriesStep(items, entries, j, count);
          if HasPath(items, entry.fullName) {
            j := j + 1;
            continue;
          }
          if count >= MaxDiskEntries {
            break;
          }
          items := items + [DiskRow(entry)];
          count := count + 1;
          j := j + 1;
        }
        assert j == |entries| ==> entries[j..] == [];
      }
    }

    /**
     * InputBox_TextChanged: does nothing while autocomplete is rewriting the
     * text; clears the list for blank input; otherwise refreshes it from the
     * text, looking up shorthand input on the default drive.
     */
    method OnTextChanged(disk: Disk)
      requires Valid()
      modifies this`items, this`selectedIndex
      ensures Valid()
      ensures isNavigating ==> items == old(items) && selectedIndex == old(selectedIndex)
      ensures !isNavigating ==> items == Resolve(store.history, text, disk)
      ensures !isNavigating ==> selectedIndex == if items == [] then -1 else 0
    {
      if isNavigating {
        return;
      }
      var query := text;
      if IsBlank(query) {
        items := [];
        selectedIndex := -1;
        return;
      }
      var pathProcesado := DiskPath(query);
      Refresh(query, pathProcesado, disk);
    }

    /** Assigning InputBox.Text: TextChanged fires when the text actually changes. */
    method SetText(t: string, disk: Disk)
      requires Valid()
      modifies this`text, this`items, this`selectedIndex
      ensures Valid() && text == t
      ensures isNavigating || t == old(text) ==> items == old(items) && selectedIndex == old(selectedIndex)
      ensures !isNavigating && t != old(text) ==> items == Resolve(store.history, t, disk)
      ensures !isNavigating && t != old(text) ==> selectedIndex == if items == [] then -1 else 0
    {
      if t != text {
        text := t;
        OnTextChanged(disk);
      }
    }

    /** MoverSeleccion: Up and Down move the selection, clamped to the list. */
    method MoveSelection(direction: int)
      requires Valid()
      modifies this`selectedIndex
      ensures Valid()
      ensures selectedIndex == Moved(old(selectedIndex), |items|, direction)
    {
      if |items| == 0 {
        return;
      }
      var nuevoIndice := selectedIndex + direction;
      if nuevoIndice < 0 {
        nuevoIndice := 0;
      }
      if nuevoIndice >= |items| {
        nuevoIndice := |items| - 1;
      }
      selectedIndex := nuevoIndice;
    }

    /**
     * AutoCompletarSeleccion: writes the completion of the selected row into the
     * input (the intermediate writes refresh nothing), then refreshes the list
     * once from the new text.
     */
    method AutoComplete(disk: Disk)
      requires Valid() && !isNavigating
      modifies this`text, this`items, this`selectedIndex, this`isNavigating
      ensures Valid() && !isNavigating
      ensures old(SelectedItem()).None? ==> text == old(text) && items == old(items) && selectedIndex == old(selectedIndex)
      ensures old(SelectedItem()).Some? ==>
        && text == CompletionText(old(SelectedItem()).value, old(text))
        && items == Resolve(store.history, text, disk)
        && selectedIndex == if items == [] then -1 else 0
    {
      var selected := SelectedItem();
      if selected.Some? {
        var item := selected.value;
        ghost var before := text;
        isNavigating := true;
        if item.isHistoryItem {
          SetText(item.fullPath, disk);
        } else {
          var usarShortPath := IsShorthand(text);
          if usarShortPath && |item.fullPath| > 2 {
            SetText(item.fullPath[2..], disk);
          } else {
            SetText(item.fullPath, disk);
          }
          if item.itemType == Folder && !EndsWith(text, [Separator]) {
            SetText(text + [Separator], disk);
          }
        }
        assert text == CompletionText(item, before);
        isNavigating := false;
        OnTextChanged(disk);
      }
    }

    /**
     * EjecutarArchivo: records the use in the history first, then starts the
     * process; started is whether Process.Start succeeded. The use is recorded
     * either way.
     */
    method Execute(item: ItemResult, disk: Disk, now: int, started: bool) returns (outcome: EnterOutcome)
      modifies store
      ensures outcome == Launched(item.fullPath, started)
      ensures store.history == History.Recorded(old(store.history), item.fullPath, disk.dirExists(item.fullPath), now)
      ensures History.TotalRuns(store.history) == History.TotalRuns(old(store.history)) + 1
      ensures store.file == History.Json(Some(store.history))
    {
      var isFolder := disk.dirExists(item.fullPath);
      store.AddOrUpdate(item.fullPath, isFolder, now);
      outcome := Launched(item.fullPath, started);
    }

    /**
     * ProcesarEnter: the exit command shuts down; a selected directory row that
     * is a folder is descended into by autocomplete; any other selected row is
     * launched; with nothing selected, the typed path (shorthand rewritten) is
     * launched when it names an existing file.
     */
    method ProcessEnter(disk: Disk, now: int, started: bool) returns (outcome: EnterOutcome)
      requires Valid() && !isNavigating
      modifies this`text, this`items, this`selectedIndex, this`isNavigating, store
      ensures Valid() && !isNavigating
      ensures outcome == Shutdown <==> IsExitCommand(old(text))
      ensures !IsExitCommand(old(text)) && old(SelectedItem()).Some? ==>
        var item := old(SelectedItem()).value;
        && (item.itemType == Folder && !item.isHistoryItem ==> outcome == Descended)
        && (!(item.itemType == Folder && !item.isHistoryItem) ==> outcome == Launched(item.fullPath, started))
      ensures !IsExitCommand(old(text)) && old(SelectedItem()).None? ==>
        outcome == if disk.fileExists(DiskPath(old(text))) then Launched(DiskPath(old(text)), started) else NoAction
      ensures outcome.Shutdown? || outcome.NoAction? ==>
        text == old(text) && items == old(items) && selectedIndex == old(selectedIndex)
        && store.history == old(store.history) && store.file == old(store.file)
      ensures outcome == Descended ==>
        && old(SelectedItem()).Some? && old(SelectedItem()).value.itemType == Folder
        && !old(SelectedItem()).value.isHistoryItem
        && text == CompletionText(old(SelectedItem()).value, old(text))
        && items == Resolve(store.history, text, disk)
        && selectedIndex == (if items == [] then -1 else 0)
        && store.history == old(store.history) && store.file == old(store.file)
      ensures outcome.Launched? ==>
        && outcome.started == started
        && store.history == History.Recorded(old(store.history), outcome.path, disk.dirExists(outcome.path), now)
        && store.file == History.Json(Some(store.history))
        && History.TotalRuns(store.history) == History.TotalRuns(old(store.history)) + 1
        && text == old(text) && items == old(items) && selectedIndex == old(selectedIndex)
        && (old(SelectedItem()).Some? ==> outcome.path == old(SelectedItem()).value.fullPath)
        && (old(SelectedItem()).None? ==> outcome.path == DiskPath(old(text)) && disk.fileExists(outcome.path))
      ensures outcome == NoAction ==> old(SelectedItem()).None? && !disk.fileExists(DiskPath(old(text)))
    {
      if IsExitCommand(text) {
        return Shutdown;
      }
      var selected := SelectedItem();
      if selected.Some? {
        var item := selected.value;
        if item.itemType == Folder && !item.isHistoryItem {
          AutoComplete(disk);
          outcome := Descended;
        } else {
          outcome := Execute(item, disk, now, started);
        }
      } else {
        var manualPath := text;
        if IsShorthand(manualPath) {
          manualPath := DefaultDrive + manualPath;
        }
        if disk.fileExists(manualPath) {
          outcome := Execute(ManualRow(manualPath), disk, now, started);
        } else {
          outcome := NoAction;
        }
      }
    }

    /**
     * new RenameWindow(rawName).ShowDialog(): the dialog opens prefilled with
     * rawName and is closed by the given action; returns NewName when the
     * dialog result is true.
     */
    method ShowRenameDialog(rawName: string, action: DialogAction) returns (newName: Option<string>)
      ensures newName == RenameAlias(rawName, action)
    {
      var rw := new Rename.RenameWindow(rawName);
      match action {
        case Save(edited) =>
          if edited.Some? {
            rw.Edit(edited.value);
          }
          rw.SaveClick();
        case Cancel =>
          rw.CancelClick();
      }
      newName := if rw.dialogResult == Some(true) then rw.newName else None;
    }

    /** The accepted branch of Rename_Click: store the alias for the path, then refresh the list. */
    method ApplyAlias(fullPath: string, alias: string, disk: Disk)
      requires Valid() && !isNavigating
      modifies this`items, this`selectedIndex, store
      ensures Valid() && !isNavigating
      ensures store.history == History.Aliased(old(store.history), fullPath, alias)
      ensures History.FindFirst(old(store.history), fullPath).Some? ==> store.file == History.Json(Some(store.history))
      ensures History.FindFirst(old(store.history), fullPath).None? ==> store.file == old(store.file)
      ensures items == Resolve(store.history, text, disk)
      ensures selectedIndex == if items == [] then -1 else 0
    {
      store.UpdateAlias(fullPath, alias);
      OnTextChanged(disk);
    }

    /**
     * Rename_Click: opens the dialog on the selected row's name with both
     * markers removed; when the dialog is saved with acceptable text, the
     * record for the row's path gets the trimmed text as alias and the list is
     * refreshed. A refused or cancelled dialog changes nothing.
     */
    method RenameClick(action: DialogAction, disk: Disk)
      requires Valid() && !isNavigating
      modifies this`items, this`selectedIndex, store
      ensures Valid() && !isNavigating
      ensures var selected := old(SelectedItem());
        var alias := if selected.Some? then RenameAlias(RawName(selected.value.name), action) else None;
        && (alias.None? ==>
              && store.history == old(store.history) && store.file == old(store.file)
              && items == old(items) && selectedIndex == old(selectedIndex))
        && (alias.Some? ==>
              && store.history == History.Aliased(old(store.history), selected.value.fullPath, alias.value)
              && (History.FindFirst(old(store.history), selected.value.fullPath).Some? ==>
                    store.file == History.Json(Some(store.history)))
              && (History.FindFirst(old(store.history), selected.value.fullPath).None? ==>
                    store.file == old(store.file))
              && items == Resolve(store.history, text, disk)
              && selectedIndex == (if items == [] then -1 else 0))
    {
      var selected := SelectedItem();
      if selected.Some? {
        var selectedItem := selected.value;
        var rawName := RawName(selectedItem.name);
        var newName := ShowRenameDialog(rawName, action);
        if newName.Some? {
          ApplyAlias(selectedItem.fullPath, newName.value, disk);
        }
      }
    }

    /** Delete_Click: removes the history record for the selected row's path and refreshes the list. */
    method DeleteClick(disk: Disk)
      requires Valid() && !isNavigating
      modifies this`items, this`selectedIndex, store
      ensures Valid() && !isNavigating
      ensures old(SelectedItem()).None? ==>
        && store.history == old(store.history) && store.file == old(store.file)
        && items == old(items) && selectedIndex == old(selectedIndex)
      ensures old(SelectedItem()).Some? ==>
        var path := old(SelectedItem()).value.fullPath;
        && store.history == History.Removed(old(store.history), path)
        && (History.FindFirst(old(store.history), path).Some? ==> store.file == History.Json(Some(store.history)))
        && (History.FindFirst(old(store.history), path).None? ==> store.file == old(store.file))
        && items == Resolve(store.history, text, disk)
        && selectedIndex == (if items == [] then -1 else 0)
    {
      var selected := SelectedItem();
      if selected.Some? {
        store.Remove(selected.value.fullPath);
        OnTextChanged(disk);
      }
    }
  }
}
