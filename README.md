# Spotify playlist backup and restore, modelled in Dafny

`playlist_manager.py` has two jobs. It exports every playlist a Spotify user
owns or follows into a backup table: one row per track, 11 columns, with each
playlist tagged by a running 1-based number. It also imports playlists back
from such a table. The user picks a backup file and a selection such as
`1,3,5-7` or `all`, and each selected playlist is re-created as a private
playlist whose tracks are added in batches of at most 100. A fixed-window
governor spaces the API calls out: it counts calls in a window that opens at
its start time, and the 180th call of a window waits until 60 seconds have
passed since the window opened, after which a new window opens. This bounds
each window, not every 60-second span (see "## Findings").

The model keeps the program's decision and bookkeeping logic. The Spotify
API, the console and the files become plain values:

- A paged API result is a sequence of `Page`s. Each page carries its items
  and whether a `next` page follows.
- The backup table is a sequence of `Row`s.
- The working directory is a sequence of `File`s, each with a name and the
  rows of that file.
- The two console answers and the user id are parameters.
- The clock is an integer number of seconds, passed in.
- The API calls and governor checks the loops make come back as a trace
  (`Spotify.Call`), so the order of fetches, creates, adds and checks can be
  stated and proved.

Modules, one per file:

| file | module | what it holds |
|---|---|---|
| `py_builtins.dfy` | `PyBuiltins` | the Python built-ins the program relies on (`str.split`, `int()`, `str()`, `str.lower`, `startswith`/`endswith`), with their round trips |
| `rate_governor.dfy` | `RateGovernor` | `rate_limit_check`: the `Step` function and the class `Governor` with the fields `count` and `start` |
| `selection.dfy` | `Selection` | `parse_input`: the loop as the method `ParseInput`, and the functions that specify it |
| `selection_facts.dfy` | `SelectionFacts` | what `parse_input` yields for single numbers, ranges, malformed parts and the prompt's example |
| `spotify.dfy` | `Spotify` | API data (`Page`, `Track`, `Playlist`), the call trace, paging (`FirstLast`, `UpToLast`, `Items`) and `Concat` |
| `backup_table.dfy` | `BackupTable` | the 11-column `Row`, the header, the cell text `csv.writer` writes, the column lookup `csv.DictReader` does, and backup file names |
| `exporter.dfy` | `Exporter` | `export_playlists`: the nested paging loops as methods, proved against the functions `ExportRows` and `ExportCalls` |
| `importer.dfy` | `Importer` | `import_playlists` with `list_csv_files`, `select_csv_file`, `get_playlist_tracks_from_csv` and `create_new_playlist` |

Each loop of the source is a Dafny method. Its `ensures` ties the result to a
specification function, and the lemmas beside that function state what the
source promises.

A malformed range raises ValueError: the unpacking of `part.split('-')` into
two integers sits outside the `try`, so the error leaves `parse_input` and
stops the import (`Raised`). An input such as `all-ish` is not dropped.

## Model

| member | source | states |
|---|---|---|
| PyBuiltins.Split | playlist_manager.py:193 | `s.split(sep)` gives at least one piece, no piece holds the separator, and joining the pieces with the separator gives `s` back |
| PyBuiltins.SplitJoin | playlist_manager.py:193 | splitting the join of separator-free pieces gives exactly those pieces |
| PyBuiltins.Lower | playlist_manager.py:162 | `lower()` keeps the length and lowers each character |
| PyBuiltins.ParseInt | playlist_manager.py:197 | `int()` of base-10 text: surrounding white space, an optional sign, then digits with single underscores between them; None where Python raises ValueError |
| PyBuiltins.Str | playlist_manager.py:78 | `str()` of an integer: an optional `-` and its decimal digits |
| PyBuiltins.ParseIntStr | playlist_manager.py:197 | `int(str(n)) == n` for every integer (without the 4300-digit limit, see "## Left out"), so a number the exporter writes or the prompt shows reads back as that number |
| PyBuiltins.ParseIntNotNumber | playlist_manager.py:202 | `int()` raises on text that does not start with white space and starts with neither a sign nor a digit |
| PyBuiltins.ParseIntEmpty | playlist_manager.py:197 | `int("")` raises |
| Selection.MalformedRange | playlist_manager.py:197 | the part holds a hyphen but does not split on `-` into exactly two texts that `int()` reads |
| Selection.Range | playlist_manager.py:199 | `range(start, end + 1)` holds exactly the integers from `start` to `end` |
| Selection.PartIndices | playlist_manager.py:196-207 | one comma-separated part raises exactly when it holds a hyphen but is not two integers; otherwise every index it adds lies in `[1, max_value]` |
| Selection.Ascending | playlist_manager.py:209 | `sorted(indices)`: strictly ascending, holding exactly the members of the set within the bounds |
| Selection.Parse | playlist_manager.py:191-209 | the result of `parse_input`, when it does not raise, is strictly ascending (so it has no duplicate) and lies in `[1, max_value]` |
| Selection.ParseInput | playlist_manager.py:191-209 | the loop that grows the index set and raises on a malformed range computes `Parse` |
| Selection.UnionRaises | playlist_manager.py:195-199 | the accumulation raises exactly when some part raises |
| Selection.UnionMembers | playlist_manager.py:195-204 | the accumulated set is exactly the union of what the parts add |
| Selection.ParseMeaning | playlist_manager.py:192-209 | `parse_input` raises exactly when some part is a malformed range; otherwise an index is selected exactly when some part yields it |
| SelectionFacts.AscendingUnique | playlist_manager.py:209 | two strictly ascending lists with the same members are equal, so the sorted order of the set is the only possible result |
| SelectionFacts.SingleNumber | playlist_manager.py:200-204 | the text `str(i)` selects `[i]` when `1 <= i <= max_value` and nothing otherwise |
| SelectionFacts.SinglePart | playlist_manager.py:200-207 | a single number `str(i)` contributes `{i}` when it is in range and nothing otherwise |
| SelectionFacts.RangePart | playlist_manager.py:196-199 | the part `str(a)-str(b)` contributes exactly `a..b` when `1 <= a <= b <= max_value`, and nothing otherwise |
| SelectionFacts.RangeText | playlist_manager.py:196-199 | the text `str(a)-str(b)` selects exactly `[a, ..., b]` when `1 <= a <= b <= max_value`, and `[]` otherwise: a range is never clipped or partly applied |
| SelectionFacts.FullRangeIsAll | playlist_manager.py:162-165 | on `n` playlists, `1-n` selects exactly what `all` selects |
| SelectionFacts.ParseOfParts | playlist_manager.py:192-209 | for comma-free parts joined by commas, the result raises when some part raises, and is otherwise the sorted union of what the parts add |
| SelectionFacts.RaisesOn | playlist_manager.py:196-197 | a comma-free part that is a malformed range makes the whole selection raise, whatever `max_value` is |
| SelectionFacts.TwoParts | playlist_manager.py:193-209 | two comma-separated parts that do not raise select the sorted union of their contributions |
| SelectionFacts.ThreeParts | playlist_manager.py:193-209 | three comma-separated parts that do not raise select the sorted union of their contributions |
| SelectionFacts.PromptExample | playlist_manager.py:160 | the prompt's example `1,3,5-7` selects `[1, 3, 5, 6, 7]` out of 10 |
| SelectionFacts.ReversedRangeExample | playlist_manager.py:198 | `5-3` selects nothing |
| SelectionFacts.OutOfRangeExample | playlist_manager.py:203 | `0,11` selects nothing out of 10 |
| SelectionFacts.EmptyExample | playlist_manager.py:201-207 | the empty text selects nothing, because `int("")` raises and is caught |
| SelectionFacts.RaisesOnWord | playlist_manager.py:197 | `all-ish` makes `parse_input` raise |
| SelectionFacts.RaisesOnOpenEnd | playlist_manager.py:197 | `5-` makes `parse_input` raise |
| SelectionFacts.RaisesOnNegative | playlist_manager.py:197 | `-3` makes `parse_input` raise |
| SelectionFacts.RaisesOnTwoHyphens | playlist_manager.py:197 | `1-2-3` makes `parse_input` raise |
| SelectionFacts.NothingSelected | playlist_manager.py:192-209 | `parse_input` returns `[]` exactly when no part raises and no part adds an index |
| SelectionFacts.EmptyPartsSelectNothing | playlist_manager.py:192-209 | when every part contributes nothing, the result is `[]` |
| SelectionFacts.EmptySelectionParts | playlist_manager.py:192-209 | when the result is `[]`, no part raises and no part adds an index |
| SelectionFacts.EmptySelectionPart | playlist_manager.py:192-209 | when the result is `[]`, each part contributes nothing |
| RateGovernor.Step | playlist_manager.py:26-36 | below the ceiling a call counts one more, keeps the window and waits 0. At the ceiling it waits `60 - elapsed` when `elapsed < 60` and 0 otherwise, then starts a new empty window at the time after the wait. The counter is below 180 after every call. On a clock that has not gone back since the window opened, no wait is negative or longer than 60 seconds |
| RateGovernor.Governor.RecordCall | playlist_manager.py:26-36 | the method that updates `count` and `start` in place leaves the window `Step` gives, and returns `Step`'s wait |
| RateGovernor.Governor.constructor | playlist_manager.py:15-16 | a governor starts with no calls and a window that opens at the given time |
| RateGovernor.RunBounded | playlist_manager.py:26-36 | along any sequence of calls on a clock that never goes back, the counter stays below 180, every wait lies between 0 and 60, and the window never starts after the clock |
| RateGovernor.RunBelowCeiling | playlist_manager.py:28-30 | while the ceiling is not reached, calls only count: no call waits and the window keeps its start |
| RateGovernor.CeilingReached | playlist_manager.py:30-36 | in a fresh window, the first 179 calls do not wait. The 180th waits out the rest of the minute, or not at all once the minute has passed, and a new empty window opens when it returns |
| RateGovernor.TenSecondBurst | playlist_manager.py:30-34 | 180 calls in the first 10 seconds: the last one waits 50 seconds |
| RateGovernor.ClockBackWait | playlist_manager.py:29-34 | at the ceiling, a clock that has gone back `d` seconds past the window's start makes the call wait `60 + d` seconds, more than a window |
| RateGovernor.RunAppend | playlist_manager.py:26-36 | a run of calls split in two: the second part goes on from the window and clock the first part left |
| RateGovernor.FixedWindowBurst | playlist_manager.py:26-36 | from a fresh window, a call 59 seconds in and 358 more calls at once: the first returns 59 seconds in and the 359th 60 seconds in, so 359 calls return within one second |
| RateGovernor.SlidingStep | playlist_manager.py:26-36 | the corrected governor: a call returns no earlier than it is made, and, once 180 calls have returned, no earlier than a window after the 180th-last of them |
| RateGovernor.SlidingSpaced | playlist_manager.py:26-36 | along any sequence of calls, the corrected governor keeps the return times ascending and each one a full window after the call 180 calls before it |
| RateGovernor.SlidingMinute | playlist_manager.py:26-36 | with return times ascending and spaced so, calls that return within less than 60 seconds of the first of them are at most 180 |
| RateGovernor.SlidingRunMinute | playlist_manager.py:26-36 | with the corrected governor, no 181 calls ever return within less than 60 seconds |
| Spotify.FirstLast | playlist_manager.py:81-82 | the reader stops at a page without `next`, and every page before it has `next` |
| Spotify.UpToLastAt | playlist_manager.py:63-82 | a reader that stops at page `k` has read exactly pages `0..k` |
| Spotify.ItemsSplit | playlist_manager.py:60-61 | the items of a run of pages are those of its first part followed by those of the rest |
| Spotify.ItemsAt | playlist_manager.py:60-61 | item `j` of page `k` comes directly after the items of the pages before `k` |
| BackupTable.HeaderDistinct | playlist_manager.py:51 | the 11 column names of the header are pairwise distinct, so a lookup by name is unambiguous |
| BackupTable.ColumnNames | playlist_manager.py:51 | columns 1, 6, 9 and 10 of the header are `track_id`, `track_popularity`, `playlist_name` and `playlist_index` |
| BackupTable.HeaderNames | playlist_manager.py:51 | the header row, name by name |
| BackupTable.IsBackupName | playlist_manager.py:100 | a name starts with `spotify_backup` and ends with `.csv` |
| BackupTable.Fields | playlist_manager.py:78 | a row is written as 11 cells, one per header column |
| BackupTable.Cell | playlist_manager.py:121-122 | `row[name]` finds a cell exactly when the column name is in the header, and the cell it finds sits under that name |
| BackupTable.ReadBack | playlist_manager.py:121-122 | reading an exported row by column name gives back its `playlist_name` and `track_id`, and `int()` gives back its popularity and playlist number |
| BackupTable.BackupFileName | playlist_manager.py:46 | the name the exporter gives its file passes the importer's backup-file filter |
| Exporter.MakeRow | playlist_manager.py:68-78 | the row the loop builds for one track of the playlist numbered `index` |
| Exporter.RowCells | playlist_manager.py:51-78 | each of the 11 header names, looked up in the row written for a track, finds the value taken for it: the artist's id and name from the first artist, the track's id, name and popularity (through `str()`), the album's id, name and release date, the playlist's id and name, and the playlist number (through `str()`) |
| Exporter.TrackRows | playlist_manager.py:67-78 | one row per track, in order, each made from that track and its playlist |
| Exporter.ExportPlaylist | playlist_manager.py:62-82 | the loop over a playlist's track pages writes one row per track read, in order, and makes one governor check and one fetch per page read. Each fetch asks at an `offset` equal to the tracks read so far, and the loop stops at the first page without `next` |
| Exporter.ExportPage | playlist_manager.py:61-87 | the loop over one page of playlists writes their rows one playlist after another, numbering them on from `first` |
| Exporter.ExportPlaylists | playlist_manager.py:58-90 | the whole export writes exactly `ExportRows` and makes exactly the calls `ExportCalls` |
| Exporter.RowsAppend | playlist_manager.py:58-90 | the playlists of a later page are numbered on from those before it; `playlist_index` is never reset |
| Exporter.RowCount | playlist_manager.py:61-87 | the number of rows equals the number of tracks of the playlists |
| Exporter.ExportRowCount | playlist_manager.py:58-90 | the export writes exactly as many rows as the playlists read have tracks |
| Exporter.RowAt | playlist_manager.py:58-87 | track `t` of playlist `i` is written directly after the rows of the playlists before it, tagged with number `first + i` |
| Exporter.RowTagged | playlist_manager.py:76-78 | every row of one playlist carries that playlist's number, id and name |
| Exporter.RowNumbers | playlist_manager.py:76-87 | every row written carries the number of one of the playlists read, and that playlist's id and name |
| Exporter.FetchCalls | playlist_manager.py:63-82 | the calls of a playlist's track-page loop: per page read, a governor check and a fetch at the running offset |
| Exporter.FetchCallsShape | playlist_manager.py:62-82 | for each page read, a governor check comes first, then a fetch at the number of tracks the earlier pages returned |
| Exporter.PlaylistFetches | playlist_manager.py:63-82 | a playlist's track pages are fetched up to and including the first page without `next`, and no further |
| Exporter.CallsPaired | playlist_manager.py:61-82 | over the playlists of one page, each track-page fetch directly follows its own governor check |
| Exporter.ExportPaired | playlist_manager.py:64-65 | across the whole export, exactly one governor check comes immediately before each track-page fetch |
| Importer.ListCsvFiles | playlist_manager.py:99-101 | the files offered are exactly the files of the directory whose names start with `spotify_backup` and end with `.csv` |
| Importer.ExportedFileListed | playlist_manager.py:100 | a file the exporter wrote is offered for import |
| Importer.SelectCsvFile | playlist_manager.py:103-114 | the answer raises exactly when `int()` cannot read it. An answer that reads as `n`, however it is written (`2`, ` 2`, `+2`, `02`), selects file `n` of the listing when `1 <= n <= len(files)` and nothing otherwise |
| Importer.SelectShown | playlist_manager.py:105-111 | typing the number shown beside a file selects that file, and any other number selects nothing |
| Importer.Distinct | playlist_manager.py:145-150 | the playlist names are listed without duplicates, and every row's name is among them |
| Importer.DistinctOrder | playlist_manager.py:145-150 | the names keep the order in which they first appear in the file |
| Importer.DistinctNames | playlist_manager.py:145-150 | the scan over the rows computes `Distinct` of the rows' names |
| Importer.TrackIds | playlist_manager.py:116-123 | the ids returned for a name are exactly the track ids of the rows with that name |
| Importer.TrackIdsAppend | playlist_manager.py:116-123 | the filter keeps file order: the ids of two stretches of rows follow each other |
| Importer.GetPlaylistTracks | playlist_manager.py:116-123 | the loop over the rows computes `TrackIds` |
| Importer.NamesHaveTracks | playlist_manager.py:180-184 | a name listed from a file has tracks in that file, so the "no tracks" branch is never taken for it |
| Importer.Choose | playlist_manager.py:162-165 | a selection that does not raise is strictly ascending and names only listed playlists |
| Importer.ChooseAll | playlist_manager.py:162-163 | `all`, in any case, selects every playlist and nothing else |
| Importer.AllUpperCase | playlist_manager.py:162 | `ALL` and `All` are read as `all` |
| Importer.Batches | playlist_manager.py:129-130 | the tracks are cut into ceil(n/100) batches |
| Importer.BatchesShape | playlist_manager.py:129-130 | batch `k` holds tracks `100k` up to `100k + 99`, and every batch holds 1 to 100 tracks |
| Importer.BatchesConcat | playlist_manager.py:129-130 | the batches put back together are the track list |
| Importer.BatchesPrefix | playlist_manager.py:129-130 | the first `j` batches together are the first `100j` tracks, or all of them |
| Importer.BatchCallsShape | playlist_manager.py:129-131 | each batch is added by one call, followed by one governor check |
| Importer.CreateCalls | playlist_manager.py:125-131 | the calls of `create_new_playlist`: create, a governor check, then an add and a check per batch |
| Importer.CreateNewPlaylist | playlist_manager.py:125-131 | the batch loop stepping by 100 makes exactly the calls `CreateCalls` |
| Importer.CreateAddsAll | playlist_manager.py:125-131 | creating a playlist makes one create call and then one governor check. After that come ceil(n/100) adds, each followed by a check, and the adds hand over exactly the tracks, in order |
| Importer.BatchCallsCreateNothing | playlist_manager.py:129-131 | the batch loop makes no create call |
| Importer.CreatesInImport | playlist_manager.py:178-186 | importing one name creates a playlist only under that user and that name |
| Importer.CreatesOne | playlist_manager.py:126-131 | every create call made while creating a playlist is for that user and that name |
| Importer.PlaylistImport | playlist_manager.py:180-186 | importing one name: nothing when the file has no tracks for it, otherwise the calls that create it with its tracks |
| Importer.ImportPlaylist | playlist_manager.py:178-186 | one selected name is skipped when the file has no tracks for it, and created with its tracks otherwise |
| Importer.ImportSelected | playlist_manager.py:177-186 | the loop over the selection makes exactly the calls `ImportCalls` |
| Importer.CreatesOnlySelected | playlist_manager.py:177-186 | every playlist created is one of the selected names, under the current user |
| Importer.AllCreatesEvery | playlist_manager.py:162-186 | choosing `all` creates every playlist named in the file |
| Importer.CreatesAppend | playlist_manager.py:177-186 | the create calls of two traces one after the other are those of the first, then those of the second |
| Importer.BatchCallsCreates | playlist_manager.py:129-131 | the batch loop contributes no create call |
| Importer.PlaylistImportCreates | playlist_manager.py:180-186 | importing one name makes one create call, for that name under the user, when the file has tracks for it, and none otherwise |
| Importer.NamesCreate | playlist_manager.py:177-186 | importing a list of names creates, in order, exactly those names that have tracks, one create call each |
| Importer.ImportCreates | playlist_manager.py:177-186 | the create calls of the import are, in selection order, one per selected name that has tracks in the file, under the user |
| Importer.WithTracksAll | playlist_manager.py:180-184 | when every name has tracks, none is skipped |
| Importer.AllWithTracksCreated | playlist_manager.py:162-186 | choosing `all` among names that all have tracks creates each name once, in listing order |
| Importer.AllCreatesEach | playlist_manager.py:162-186 | choosing `all` creates each playlist of the file exactly once, in the order the names first appear, and nothing else |
| Importer.ImportOutcome | playlist_manager.py:134-186 | how `import_playlists` ends: no backup file, a ValueError from `int()` or `parse_input`, an out-of-range file number, no playlists, an empty selection, or the calls of the import |
| Importer.ImportPlaylists | playlist_manager.py:134-186 | the import stops for the reason the source reports (no backup file, an invalid choice, no playlists, no valid selection, or a ValueError), or it checks the user and the governor once and then makes exactly the calls for the selection |

## Findings

| source | as written | input that shows it | evidently intended | confidence | as-written member | corrected member |
|---|---|---|---|---|---|---|
| playlist_manager.py:26-36 | the governor counts calls in a fixed window and resets the count when the 180th call of the window returns, so the 179 calls at the end of one window and the 180 at the start of the next are let through back to back | from a fresh window at `s`, one call at `s + 59` and 358 more at once: calls 1-179 return at `s + 59`, call 180 waits 1 second, calls 181-359 return at `s + 60`, so 359 calls return within one second | at most 180 calls (`MAX_CALLS_PER_MINUTE`) in any 60 seconds | medium: the fixed window may be deliberate; not executed | RateGovernor.FixedWindowBurst | RateGovernor.SlidingRunMinute |

`Step` and the class `Governor` model the code as written. The corrected
governor `SlidingStep` keeps the return times of the calls, and each call waits
until the 180th-last of them is a window old. `SlidingRunMinute` proves that
it never lets 181 calls through in less than 60 seconds. The exporter and the
importer record governor checks as `RateCheck` events, so they are the same
under either governor.

## Left out

- OAuth and the construction of the Spotify client (`init_spotify`) are not modelled. The API is replaced by page data and the call trace.
- Console input and output are not modelled: prompts, listings, progress lines (including the import progress line, which prints the selection index `i` rather than an ordinal) and the `main` menu. The typed answers are parameters.
- Files and CSV text are not modelled: `os.listdir`, `open`, `csv.writer` and `csv.DictReader`. A directory is a sequence of `File`s and a table is a sequence of `Row`s. What a row's text would be is modelled only as far as its cells (`BackupTable.Fields`; numbers through `str()`).
- `datetime.now()`, `time.sleep` and float seconds are not modelled. The clock is an integer that the caller passes to the governor, and a sleep of `w` seconds advances it by exactly `w`.
- RateGovernor.RunBounded: assumes a clock that never goes back (the gaps between calls are natural numbers). `datetime.now()` is naive local time and can go back at a daylight-saving fall-back or a clock step; `Step` allows it, and `ClockBackWait` shows the wait then exceeds 60 seconds.
- PyBuiltins.ParseInt: does not model the limit of CPython 3.11 and later (and of the security releases of 3.7 to 3.10) on decimal text longer than 4300 digits, where `int()` and `str()` raise ValueError. So `ParseIntStr` is stated for every integer, and a selection such as `1-` followed by 4301 nines gives no index rather than raising, and such a file number gives `InvalidSelection` rather than `Raised`.
- The date in the backup file name (`strftime("%Y%m%d")`) is a parameter of `BackupTable.BackupFileName`.
- `int()` and `lower()` are modelled for ASCII only. Unicode digits, Unicode white space and non-ASCII case mappings are not modelled.
- Only a track's first artist is kept, because the row uses `artists[0]`. A track with missing fields, or a row without a `playlist_name` or `track_id` column, makes the source raise; the model assumes well-formed records.
- The exporter and the importer do not call the `Governor` class. Each of their `rate_limit_check()` calls appears as a `RateCheck` event in the call trace, in source order: before each track-page fetch, and after each create or add.
- The playlist-page calls (`current_user_playlists`, `sp.next`) and the exporter's `current_user` call are not in the call trace. The playlist pages are given as data.
- Exporter.ExportPlaylist: requires the playlist's track pages to reach a page without `next`, because a paged result whose `next` never ends would make the source fetch forever.
- Exporter.ExportPlaylists: requires the playlist pages, and the track pages of every playlist read, to reach a page without `next`, for the same reason.
- Exporter.ExportPlaylist: fetch number `k` of a playlist returns its page `k`. The API is assumed to return the same pages as it did on the earlier fetches.
