# xlauncher query engine in Dafny

xlauncher is a keyboard launcher for Windows. The user types into an input box and gets a result list. The list starts with the launch history, most-used first, matched by alias or file name. After that come at most twenty entries of the directory the input names. Up and Down move the selection. Tab autocompletes the selected row into the input. Enter launches the row, descends into a folder, or runs a typed path. A context menu gives every row a Rename (alias) and a Delete. This project models that query engine and proves what it guarantees.

Modules, by source file:

- `History` (`history.dfy`) models `xlauncher/HistoryManager.cs`.
  - Records are `HistoryItem` values: path, file name, optional alias, last run, run count and folder flag.
  - The class `HistoryManager` holds the ordered record list as a `seq` field, plus a `file` field standing for the JSON file on disk.
  - `AddOrUpdate`, `UpdateAlias` and `Remove` are specified by the pure functions `Recorded`, `Aliased` and `Removed`. Each acts on the first record whose path equals the given path ignoring case (`FindFirst`), and each writes the file after a change.
  - `Search` is `SearchIn`: the `Where` filter on the effective key (alias, else file name), then a stable sort by run count, largest first.
- `LegacyHistory` (`legacy_history.dfy`) models the older store in `xlauncher/HistoryItem.cs`. Its records have no alias and no folder flag, and its search matches on the file name only.
- `Ranking` (`ranking.dfy`) models LINQ `OrderByDescending` as a stable insertion sort. It proves that the sort is non-increasing, that it is a permutation, and that it keeps the input order among equal keys. It also proves that exactly one sequence has all three properties.
- `Rename` (`rename_window.dfy`) models `xlauncher/RenameWindow.xaml.cs`. Save accepts only text that is not blank and stores it trimmed, which keeps empty aliases out of the store. Cancel closes the dialog with result false.
- `Launcher` (`launcher.dfy`) models `xlauncher/MainWindow.xaml.cs`. The class `MainWindow` holds the items, the selected index (-1 for none), the input text, the navigation flag and the history store.
  - `Refresh` is `ActualizarListado`, proved equal to the pure `Listing`. Its two loops are the methods `AddHistoryRows` and `AddDirectoryRows`.
  - `OnTextChanged`, `MoveSelection`, `AutoComplete`, `Execute`, `ProcessEnter`, `RenameClick` and `DeleteClick` model the event handlers.
  - The filesystem is a `Disk` value: `Directory.Exists`, `File.Exists` and the enumeration of a directory with a name filter.
- `Text`, `Paths` and `Optional` hold the string, path and option helpers the modules share.
  - `OrdinalIgnoreCase` is an ASCII case fold.
  - `Path.GetFileName` and `Path.GetDirectoryName` split at the last `\`.
  - `Trim` and `IsNullOrWhiteSpace` use the white-space characters of .NET's `char.IsWhiteSpace`.
  - `Replace(marker, "")` deletes every occurrence of the marker, scanning left to right.

Three behaviours of the code are easy to miss. The model follows the code in each.

- The directory loop tests for an already-listed row with an ordinal, case-sensitive `==` on `FullPath` (`xlauncher/MainWindow.xaml.cs:219`), not ignoring case. A directory entry whose path differs from a history record's path only in letter case is therefore listed twice.
- A query without a separator, such as `a`, has an empty directory name, so it searches the history only and lists no directory entries. `Launcher.ToolsScenario` states both cases.
- A failed save is not caught by the store. `Save` (`xlauncher/HistoryManager.cs:83-88`) lets the exception of `File.WriteAllText` escape after the list in memory has already changed (`xlauncher/HistoryManager.cs:60, 69, 79`). During a launch, `EjecutarArchivo` catches it, shows a message box and skips `Process.Start` (`xlauncher/MainWindow.xaml.cs:110-126`). From Rename and Delete it escapes the click handler.

## Model

| member | source | states |
|---|---|---|
| Text.TrimCharacterization | xlauncher/RenameWindow.xaml.cs:29 | `Trim` keeps a contiguous middle part `s[i..j]` of its input. Everything it cuts off on either side is white space. |
| Text.TrimEnds | xlauncher/RenameWindow.xaml.cs:29 | A non-empty trimmed text neither starts nor ends with white space. |
| Text.TrimNonBlank | xlauncher/RenameWindow.xaml.cs:27-29 | Trimming text that is not blank leaves something. |
| Text.TrimTrimmed | xlauncher/MainWindow.xaml.cs:243 | Text with no white space at either end is unchanged by `Trim`. |
| Text.TrimIdempotent | xlauncher/MainWindow.xaml.cs:243 | Trimming twice is trimming once. |
| Text.ToLower | xlauncher/MainWindow.xaml.cs:131 | The lower-cased text has the same length, and each character is lower-cased in place. |
| Text.RemoveAll | xlauncher/MainWindow.xaml.cs:243 | `Replace(marker, "")` never makes a string longer. |
| Text.RemoveAllAbsent | xlauncher/MainWindow.xaml.cs:243 | Deleting a marker that does not occur leaves the string unchanged. |
| Text.RemoveAllAfter | xlauncher/MainWindow.xaml.cs:243 | If no occurrence starts inside the prefix `a`, deleting from `a + b` keeps `a` and deletes only within `b`. |
| Text.NoStraddle | xlauncher/MainWindow.xaml.cs:243 | A marker whose first character does not recur cannot start in `a` and run into a `b` that begins with that character. |
| Paths.LastSeparator | xlauncher/MainWindow.xaml.cs:186 | Gives the index of the last `\`, or -1 when there is none. No separator comes after it. |
| Paths.SplitJoin | xlauncher/MainWindow.xaml.cs:209-210 | The file name holds no separator. The directory, a `\` and the file name together rebuild the path. A path without a separator has an empty directory and is its own file name. |
| Paths.EmptyFileName | xlauncher/MainWindow.xaml.cs:186-187 | The file name is empty exactly when the text is empty or ends with `\`. In the model, those are the cases in which the history search is skipped; .NET also gives an empty name for some other inputs (see "## Left out"). |
| Paths.DiskPath | xlauncher/MainWindow.xaml.cs:178-179 | The disk path ends with the input, and it never starts with `\` itself, so it is never rewritten again. |
| Paths.DiskPathKeepsFileName | xlauncher/MainWindow.xaml.cs:178-210 | Rewriting a rewritten path changes nothing. The rewrite keeps the file name, so the history search and the directory filter see the same name. |
| Paths.Redisplay | xlauncher/MainWindow.xaml.cs:281-283 | The text written back for a directory row is a suffix of its full path. Input without shorthand gets the full path itself. With shorthand input, a path on `c:\` comes back as shorthand that rewrites to that same path. |
| Paths.ShorthandRoundTrip | xlauncher/MainWindow.xaml.cs:281-283 | For shorthand input `q`, `("c:" + q).Substring(2)` is `q` again, and it denotes the same disk path. |
| Ranking.SortDescStable | xlauncher/HistoryManager.cs:97 | The sort is non-increasing in the key. For each key, it keeps the elements with that key in their input order. It keeps the length. |
| Ranking.SortDescPermutation | xlauncher/HistoryManager.cs:97 | The sort is a permutation of its input. |
| Ranking.StableOrderUnique | xlauncher/HistoryManager.cs:97 | Two non-increasing sequences that agree on the elements of every key, in order, are equal. |
| Ranking.SortDescIsTheStableOrder | xlauncher/HistoryManager.cs:97 | Any stable, non-increasing ordering of a sequence is the sort of that sequence, so the sort is what `OrderByDescending` returns. |
| History.MatchesEffectiveKey | xlauncher/HistoryManager.cs:93-96 | A record matches exactly when its effective key starts with the query, ignoring case. The effective key is the non-empty alias, else the file name. |
| History.AliasShadowsFileName | xlauncher/HistoryManager.cs:94-95 | A record with a non-empty alias is never found through its file name. |
| History.FindFirst | xlauncher/HistoryManager.cs:40 | Gives none exactly when no path matches ignoring case. Otherwise it gives the index of a matching record with no match before it (`FirstOrDefault`). |
| History.FirstIsOnly | xlauncher/HistoryManager.cs:40 | In a store with unique paths, any matching record is the first match. |
| History.Recorded | xlauncher/HistoryManager.cs:38-60 | The value `AddOrUpdate` leaves: the list keeps its length or grows by one record. `RecordedPresent` and `RecordedAbsent` give its contents. |
| History.RecordedFinds | xlauncher/HistoryManager.cs:38-60 | After a launch is recorded, a lookup of its path ignoring case finds a record. |
| History.RecordedPresent | xlauncher/HistoryManager.cs:40-47 | For a known path the length is unchanged. The first match gains exactly one run and takes the new time and folder flag. Its path, name and alias stay, and every other record is unchanged. |
| History.RecordedAbsent | xlauncher/HistoryManager.cs:48-59 | For an unknown path, exactly one record is appended at the end: the path, `GetFileName` of it, no alias, the time, one run and the flag. The old records stay in front. |
| History.RecordedKeepsUnique | xlauncher/HistoryManager.cs:38-60 | If no two paths are equal ignoring case before the call, that still holds after it. |
| History.RecordedCountsOneUse | xlauncher/HistoryManager.cs:38-60 | Every call adds exactly one to the total of the run counts. |
| History.RecordTwice | xlauncher/HistoryManager.cs:38-60 | Two launches of an unknown path, spelled in different case, leave one new record at the end. It keeps the first spelling, has two runs and the second folder flag, and is the only record matching the path. |
| History.Aliased | xlauncher/HistoryManager.cs:63-71 | The value `UpdateAlias` leaves: the same records, with the same paths and run counts, in the same order. Only aliases change. |
| History.AliasedPresent | xlauncher/HistoryManager.cs:63-71 | The first match gets the new alias, and every other record is unchanged. |
| History.AliasedAbsent | xlauncher/HistoryManager.cs:63-71 | With no match the store is unchanged. |
| History.AliasGoverns | xlauncher/HistoryManager.cs:63-71 | Once a non-empty alias is set, the record matches a query exactly when the alias starts with it. |
| History.Removed | xlauncher/HistoryManager.cs:73-81 | The value `Remove` leaves: at most one record fewer, and every record left was in the list before. |
| History.RemovedPresent | xlauncher/HistoryManager.cs:73-81 | The list shrinks by exactly one. The removed record is the first match, and the others keep their order. |
| History.RemovedAbsent | xlauncher/HistoryManager.cs:73-81 | With no match the store is unchanged. |
| History.RemovedIsGone | xlauncher/HistoryManager.cs:73-81 | In a store with unique paths, after removal no record matches the path and the paths are still unique. |
| History.SearchIn | xlauncher/HistoryManager.cs:90-99 | `Search` on a list of records: the `Where` filter, then `OrderByDescending` on the run count. Its meaning is stated by `SearchMembers`, `SearchPermutation` and `SearchRanking`. |
| History.FilterMembers | xlauncher/HistoryManager.cs:92-96 | `Where` keeps exactly the records that match. |
| History.SearchMembers | xlauncher/HistoryManager.cs:90-98 | `Search` returns exactly the records whose effective key starts with the query, ignoring case. |
| History.SearchPermutation | xlauncher/HistoryManager.cs:97-98 | The result is a permutation of the filtered records. |
| History.SearchRanking | xlauncher/HistoryManager.cs:97-98 | The result is non-increasing in run count and keeps store order among equal counts. It is the only ordering that does both. |
| History.SearchUnique | xlauncher/HistoryManager.cs:90-98 | A store with unique paths gives a result with unique paths. |
| History.LoadRoundTrip | xlauncher/HistoryManager.cs:25-36 | Loading what `Save` wrote gives the list back. Loading twice is loading once. Only a missing file lets the list in memory survive a load. |
| History.HistoryManager.constructor | xlauncher/HistoryManager.cs:15-23 | Starts from an empty list and loads the file. |
| History.HistoryManager.Load | xlauncher/HistoryManager.cs:25-36 | The list becomes what the file holds, by `Loaded`. |
| History.HistoryManager.Save | xlauncher/HistoryManager.cs:83-88 | The file holds the current list. |
| History.HistoryManager.AddOrUpdate | xlauncher/HistoryManager.cs:38-61 | The list becomes `Recorded` of the old list and is saved, and loading the file gives it back. Unique paths are preserved, and the total run count rises by one. |
| History.HistoryManager.UpdateAlias | xlauncher/HistoryManager.cs:63-71 | The list becomes `Aliased` of the old list. It is saved only when a record matched; otherwise the list and the file are untouched. |
| History.HistoryManager.Remove | xlauncher/HistoryManager.cs:73-81 | The list becomes `Removed` of the old list. It shrinks by one and is saved when a record matched; otherwise the list and the file are untouched. |
| History.HistoryManager.Search | xlauncher/HistoryManager.cs:90-99 | `Search` is `SearchIn` of the current list, so the `SearchIn` lemmas describe its result. |
| LegacyHistory.FindFirst | xlauncher/HistoryItem.cs:48 | Gives none exactly when no path matches ignoring case. Otherwise it gives the first match. |
| LegacyHistory.Recorded | xlauncher/HistoryItem.cs:46-66 | The value the legacy `AddOrUpdate` leaves: the list keeps its length or grows by one record. |
| LegacyHistory.RecordedFinds | xlauncher/HistoryItem.cs:46-66 | After a launch is recorded, the legacy store finds its path ignoring case. |
| LegacyHistory.RecordedPresent | xlauncher/HistoryItem.cs:48-54 | For a known path the length is unchanged. The first match gains exactly one run and the new time, and every other record is unchanged. |
| LegacyHistory.RecordedAbsent | xlauncher/HistoryItem.cs:55-64 | For an unknown path, one record is appended at the end with `GetFileName` of the path and one run. |
| LegacyHistory.RecordedKeepsUnique | xlauncher/HistoryItem.cs:46-66 | Paths unique ignoring case stay unique. |
| LegacyHistory.SearchIn | xlauncher/HistoryItem.cs:76-82 | The legacy `Search` on a list of records: the file-name filter, then `OrderByDescending` on the run count. Its meaning is stated by `SearchMembers` and `SearchRanking`. |
| LegacyHistory.FilterMembers | xlauncher/HistoryItem.cs:79 | The filter keeps exactly the records whose file name starts with the query, ignoring case. |
| LegacyHistory.SearchMembers | xlauncher/HistoryItem.cs:78-81 | `Search` returns exactly those records, as a permutation of the filtered list. |
| LegacyHistory.SearchRanking | xlauncher/HistoryItem.cs:80-81 | The result is non-increasing in run count and stable among equal counts. |
| LegacyHistory.LoadRoundTrip | xlauncher/HistoryItem.cs:33-44 | Loading what `Save` wrote gives the list back. Loading twice is loading once. Only a missing file lets the list in memory survive a load. |
| LegacyHistory.HistoryManager.constructor | xlauncher/HistoryItem.cs:22-31 | Starts from an empty list and loads the file. |
| LegacyHistory.HistoryManager.Load | xlauncher/HistoryItem.cs:33-44 | The list becomes what the file holds. |
| LegacyHistory.HistoryManager.Save | xlauncher/HistoryItem.cs:68-73 | The file holds the current list. |
| LegacyHistory.HistoryManager.AddOrUpdate | xlauncher/HistoryItem.cs:46-66 | The list becomes `Recorded` of the old list and is saved. Unique paths are preserved. |
| LegacyHistory.HistoryManager.Search | xlauncher/HistoryItem.cs:76-82 | `Search` is the legacy `SearchIn` of the current list. |
| Rename.Accepted | xlauncher/RenameWindow.xaml.cs:27-29 | Text is refused exactly when it is blank. An accepted name is non-empty and has no white space at either end. |
| Rename.AcceptedCutsBlank | xlauncher/RenameWindow.xaml.cs:27-29 | An accepted name is a contiguous part of the text with only white space around it. |
| Rename.AcceptedWellFormed | xlauncher/RenameWindow.xaml.cs:27-29 | An already well-formed name is accepted as it is. |
| Rename.RenameWindow.constructor | xlauncher/RenameWindow.xaml.cs:10-16 | The input is prefilled with the current name. There is no new name and no dialog result yet. |
| Rename.RenameWindow.Edit | xlauncher/RenameWindow.xaml.cs:27-29 | The user's typing replaces the text of `NameInput`, which `Save_Click` reads. Nothing else changes. |
| Rename.RenameWindow.SaveClick | xlauncher/RenameWindow.xaml.cs:25-32 | When the text is accepted, the new name is the trimmed text and the result is true. A refused save changes neither field. A set name is always well formed. |
| Rename.RenameWindow.CancelClick | xlauncher/RenameWindow.xaml.cs:34-37 | The result is false and the new name is untouched. |
| Launcher.HistoryRows | xlauncher/MainWindow.xaml.cs:190-203 | There is one row per history match, in order, each shown as alias + ` (Alias)` or file name + ` (Historial)`. |
| Launcher.DiskRows | xlauncher/MainWindow.xaml.cs:222-230 | There is one directory row per entry, in order. |
| Launcher.AddDiskEntries | xlauncher/MainWindow.xaml.cs:216-232 | The directory loop as a function: an already-listed path is skipped, the loop stops once 20 rows were added, and any other entry is appended. The `AddDiskEntries*` lemmas state what it guarantees. |
| Launcher.AddDiskEntriesAppends | xlauncher/MainWindow.xaml.cs:216-232 | The directory loop only appends rows for enumerated entries, none of them history rows, and at most the rest of the cap of 20. The rows already there are unchanged. |
| Launcher.AddDiskEntriesFresh | xlauncher/MainWindow.xaml.cs:219 | Every appended row has a path that no earlier row has, compared ordinally. |
| Launcher.AddDiskEntriesComplete | xlauncher/MainWindow.xaml.cs:219-220 | Skipped duplicates do not count toward the cap. While the cap is not reached, every enumerated path ends up listed. |
| Launcher.AddDiskEntriesInOrder | xlauncher/MainWindow.xaml.cs:217-232 | The appended rows are the rows of a subsequence of the entries, in enumeration order. |
| Launcher.Listing | xlauncher/MainWindow.xaml.cs:183-237 | The list `ActualizarListado` builds: the history part, then the directory rows. `ListingShape` and `ListingDistinctPaths` state its shape. |
| Launcher.Resolve | xlauncher/MainWindow.xaml.cs:167-181 | The list left for an input text: empty for blank input, otherwise `Listing` of the text and its disk path. |
| Launcher.ListingShape | xlauncher/MainWindow.xaml.cs:185-232 | The list is the history part in `Search` order, followed by at most 20 directory rows. Every history row comes before every directory row. |
| Launcher.ListingDistinctPaths | xlauncher/MainWindow.xaml.cs:189-232 | With a store of unique paths, no two rows of the list have equal paths. |
| Launcher.ToolsScenario | xlauncher/MainWindow.xaml.cs:167-237 | The history holds `C:\Tools\a.exe`, and `C:\Tools` lists `a.exe` and `ab.exe`. The query `C:\Tools\a` lists the history row, then `ab.exe` only. A bare `a` lists the history row only. |
| Launcher.CompletionText | xlauncher/MainWindow.xaml.cs:273-290 | The text autocomplete writes for a row. `CompletionIdiom` and `CompletionRoundTrip` state what it guarantees. |
| Launcher.CompletionIdiom | xlauncher/MainWindow.xaml.cs:275-288 | A history row completes to its path verbatim. A directory row completes to its path, and a folder gets a trailing `\`. With shorthand input and a path on `c:\`, the completion is again shorthand for the same disk path. |
| Launcher.Slashed | xlauncher/MainWindow.xaml.cs:284 | A folder completion always ends with `\`. |
| Launcher.CompletionRoundTrip | xlauncher/MainWindow.xaml.cs:278-284 | Completing the row found for shorthand input gives that input back. |
| Launcher.FolderCompletionBrowses | xlauncher/MainWindow.xaml.cs:284-288 | After a folder completion, the refresh searches no history and lists the folder with an empty filter. |
| Launcher.Moved | xlauncher/MainWindow.xaml.cs:263-271 | The index `MoverSeleccion` selects. `MovedInRange` states its bounds. |
| Launcher.MovedInRange | xlauncher/MainWindow.xaml.cs:263-269 | On an empty list nothing moves. Otherwise the new index is in the list: `selected + direction` when that exists, else the nearer end. |
| Launcher.MovedAllInRange | xlauncher/MainWindow.xaml.cs:263-269 | Any series of Up and Down keeps the selection valid, and it is a real row after at least one move on a non-empty list. |
| Launcher.RawName | xlauncher/MainWindow.xaml.cs:243 | The dialog prefill: both markers deleted, then trimmed. `RawNameOfHistoryRow` states what it gives back for a history row. |
| Launcher.IsExitCommand | xlauncher/MainWindow.xaml.cs:131 | The text is `exit` or `/exit`, ignoring ASCII case. |
| Launcher.RawNameOfHistoryRow | xlauncher/MainWindow.xaml.cs:243 | For a history row, stripping both markers and trimming gives back the alias or file name the row shows. This holds when that name contains no marker and is already trimmed. |
| Launcher.RenameAlias | xlauncher/MainWindow.xaml.cs:244-248 | An alias the dialog hands back is always well formed: non-empty and trimmed. |
| Launcher.MainWindow.SelectedItem | xlauncher/MainWindow.xaml.cs:241 | The selected row is one of the listed rows. In a valid window there is none exactly when the index is -1. |
| Launcher.MainWindow.constructor | xlauncher/MainWindow.xaml.cs:26-33 | Starts with an empty list, no selection and a store loaded from the file. |
| Launcher.MainWindow.Refresh | xlauncher/MainWindow.xaml.cs:183-237 | The items become `Listing` of the store, query and disk. The first row is selected when there is one. |
| Launcher.MainWindow.AddHistoryRows | xlauncher/MainWindow.xaml.cs:186-204 | The first loop fills the cleared list with the rows of `Search` for the query's file name, or leaves it empty when that name is empty. |
| Launcher.MainWindow.AddDirectoryRows | xlauncher/MainWindow.xaml.cs:207-233 | The second loop appends exactly what `AddDiskEntries` gives for the entries of the disk path: skip listed paths, stop at 20, and nothing when the directory is empty or missing. |
| Launcher.MainWindow.OnTextChanged | xlauncher/MainWindow.xaml.cs:167-181 | While navigating nothing changes. Otherwise the items become `Resolve` of the text: empty for blank text, else the listing with shorthand rewritten for the disk. |
| Launcher.MainWindow.SetText | xlauncher/MainWindow.xaml.cs:278-284 | Assigning the input text refreshes the list only when the text changes and no navigation is under way. After a refresh the first row is selected, or none when the list is empty. |
| Launcher.MainWindow.MoveSelection | xlauncher/MainWindow.xaml.cs:263-271 | The selection becomes `Moved` of the old one, so it stays valid. |
| Launcher.MainWindow.AutoComplete | xlauncher/MainWindow.xaml.cs:273-290 | With no selection nothing changes. Otherwise the text becomes the completion of the selected row and the list is refreshed once from it; the intermediate writes refresh nothing. |
| Launcher.MainWindow.Execute | xlauncher/MainWindow.xaml.cs:110-126 | The use is recorded in the history, and saved, whether or not the process starts. |
| Launcher.MainWindow.ProcessEnter | xlauncher/MainWindow.xaml.cs:128-157 | The app shuts down exactly on `exit` or `/exit` in any case. Otherwise a selected folder row that is not from the history is descended into, and exactly those rows are: the text is its completion, the list is refreshed with the first row selected, and the store and file are untouched. Any other selected row is launched. With no selection, the rewritten text is launched exactly when that file exists, and otherwise nothing changes. A launch records the use, adds one run and saves the file. |
| Launcher.MainWindow.ShowRenameDialog | xlauncher/MainWindow.xaml.cs:244-246 | The dialog returns exactly `RenameAlias` of the prefill and the closing action. |
| Launcher.MainWindow.ApplyAlias | xlauncher/MainWindow.xaml.cs:248-249 | The alias is stored on the first record for the path, and the list is refreshed from the current text with the first row selected (none when empty). The file is saved when a record matched and untouched otherwise. |
| Launcher.MainWindow.RenameClick | xlauncher/MainWindow.xaml.cs:239-252 | With nothing selected, or with the dialog cancelled or refused, nothing changes. Otherwise the selected path's record gets the accepted alias, the file is saved when a record matched, and the list is refreshed with the first row selected (none when empty). |
| Launcher.MainWindow.DeleteClick | xlauncher/MainWindow.xaml.cs:254-261 | With nothing selected nothing changes, the file included. Otherwise the first record for the selected path is removed, the file is saved when a record matched and untouched otherwise, and the list is refreshed with the first row selected (none when empty). |

## Left out

- Window plumbing is not modelled: the global hotkey, the message hook, show, hide and topmost, blur, `DragMove`, focus, caret and `ScrollIntoView`. None of it affects the list, the text or the store.
- I/O becomes parameters.
  - The JSON file is the `StoredFile` value `Missing`, `Unreadable` or `Json(list)`. Serialization itself is left out.
  - Creating the AppData folder and the file path are left out.
  - A failed save is not modelled: the model's save always succeeds. In the source a failed save during a launch shows a message box and skips `Process.Start`, and from Rename or Delete the exception leaves the handler. The model launches and refreshes as if the save had succeeded.
  - A record with `null` fields after deserialization is not modelled.
- `Directory.Exists`, `File.Exists` and `EnumerateFileSystemInfos` are fields of the `Disk` value. The `filter*` wildcard matching is not modelled: the enumeration for a directory and a filter is given.
- An exception thrown part-way through the enumeration is not modelled. Catching it keeps the rows added so far, which equals a shorter enumeration.
- `Process.Start` and its error `MessageBox` are left out: whether the start succeeded is the `started` parameter. `Application.Current.Shutdown` is the `Shutdown` outcome.
- `DateTime.Now` is the `now` parameter.
- The rename dialog's user interaction is reduced to its closing action, `Save` (with or without an edit) or `Cancel`, passed to `RenameClick`. Closing the window any other way counts as `Cancel`.
- Text.EqualsIgnoreCase: folds ASCII letters only. Full Unicode `OrdinalIgnoreCase` folding is not modelled.
- Text.ToLower: lowers ASCII letters only. Culture-sensitive lower-casing is not modelled.
- Paths.IsShorthand: the source's one-argument `StartsWith("\\")` is culture-sensitive. The model compares characters exactly, so input that begins with an ignorable code point such as U+00AD or U+0000 before the `\` is not treated as shorthand here, unlike in .NET.
- Launcher.Slashed: the source's one-argument `EndsWith("\\")` is culture-sensitive. The model compares characters exactly, so a trailing ignorable code point after the `\` is not modelled.
- Paths.GetFileName: takes the text after the last `\` only. .NET also splits at `/` and after a drive root, so `Path.GetFileName("c:")` is empty and `Path.GetFileName("C:/Tools/a")` is `a`, where the model gives the whole text. The history search key and the directory filter inherit this.
- Paths.GetDirectoryName: splits at the last `\` only. It does not treat `/` as a separator, and it does not model how .NET handles roots such as `C:\` or paths with invalid characters.
- History.HistoryManager.AddOrUpdate: the run count is an unbounded integer. The 32-bit wrap-around of `RunCount++` is not modelled.
- History.HistoryManager.Search: records are values, so a search result holds copies. The source hands out the store's own objects, and that sharing is not modelled.
- `ItemResult.cs` is not part of this model. It only carries the row colour brush.
