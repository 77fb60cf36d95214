/** `import_playlists`: pick a backup file, list the playlist names it holds,
    read the selection, and for each selected playlist create a private
    playlist and add its tracks in batches of at most 100. The directory,
    the two answers typed at the console and the user id are given; what the
    import does comes back as the calls it makes, or as the way it stops. */
module Importer {
  import opened PyBuiltins
  import opened Spotify
  import opened BackupTable
  import opened Selection
  import opened SelectionFacts

  /** A file of the working directory: its name and the rows `csv.DictReader`
      reads from it. */
  datatype File = File(name: string, rows: seq<Row>)

  // -----------------------------------------------------------------------
  // Choosing the backup file

  /** `list_csv_files()`: the backup files of the directory, in listing order. */
  function ListCsvFiles(dir: seq<File>): (r: seq<File>)
    ensures |r| <= |dir|
    ensures forall f :: f in r <==> f in dir && IsBackupName(f.name)
    decreases |dir|
  {
    if dir == [] then []
    else
      var init, f := dir[..|dir| - 1], dir[|dir| - 1];
      assert dir == init + [f];
      if IsBackupName(f.name) then ListCsvFiles(init) + [f] else ListCsvFiles(init)
  }

  /** A file the exporter wrote is offered for import. */
  lemma ExportedFileListed(dir: seq<File>, user: string, date: string, rows: seq<Row>)
    requires File(BackupFileName(user, date), rows) in dir
    ensures File(BackupFileName(user, date), rows) in ListCsvFiles(dir)
  {
  }

  /** `select_csv_file(files)` given the typed answer: the file numbered by the
      answer (1-based), None when the number is out of range, ValueError when
      the answer is not a number. */
  function SelectCsvFile(files: seq<File>, answer: string): (r: Result<Option<File>>)
    ensures r.ValueError? <==> ParseInt(answer).None?
    ensures r.Ok? && r.value.Some? ==> r.value.value in files
    // the number n, however it is written, selects file n of the listing
    ensures ParseInt(answer).Some? && 1 <= ParseInt(answer).value <= |files| ==>
      r == Ok(Some(files[ParseInt(answer).value - 1]))
    // any other number selects nothing
    ensures ParseInt(answer).Some? && !(1 <= ParseInt(answer).value <= |files|) ==> r == Ok(None)
  {
    match ParseInt(answer)
    case None => ValueError
    case Some(n) =>
      var fileIndex := n - 1;
      if 0 <= fileIndex < |files| then Ok(Some(files[fileIndex])) else Ok(None)
  }

  /** Typing the number shown beside a file selects that file; any other
      number selects nothing. */
  lemma SelectShown(files: seq<File>, k: int)
    ensures 1 <= k <= |files| ==> SelectCsvFile(files, Str(k)) == Ok(Some(files[k - 1]))
    ensures !(1 <= k <= |files|) ==> SelectCsvFile(files, Str(k)) == Ok(None)
  {
    ParseIntStr(k);
  }

  // -----------------------------------------------------------------------
  // The playlists of the file

  /** `row['playlist_name']` of each row. */
  function Names(rows: seq<Row>): (r: seq<string>)
    ensures |r| == |rows| && forall k :: 0 <= k < |rows| ==> r[k] == rows[k].playlistName
  {
    seq(|rows|, k requires 0 <= k < |rows| => rows[k].playlistName)
  }

  predicate NoDuplicates<T(==)>(s: seq<T>)
  {
    forall i, j :: 0 <= i < j < |s| ==> s[i] != s[j]
  }

  /** The names in order of first appearance, each once. */
  function Distinct(names: seq<string>): (r: seq<string>)
    ensures NoDuplicates(r)
    ensures forall x :: x in r <==> x in names
    decreases |names|
  {
    if names == [] then []
    else
      var init, x := names[..|names| - 1], names[|names| - 1];
      assert names == init + [x];
      var d := Distinct(init);
      if x in d then d else d + [x]
  }

  /** The position where `x` first appears in `s`. */
  function FirstIndex<T(==)>(s: seq<T>, x: T): (i: nat)
    requires x in s
    ensures i < |s| && s[i] == x && forall j :: 0 <= j < i ==> s[j] != x
  {
    if s[0] == x then 0 else 1 + FirstIndex(s[1..], x)
  }

  /** The distinct names keep the order in which the names first appear. */
  lemma {:induction false} DistinctOrder(names: seq<string>)
    ensures forall i, j :: 0 <= i < j < |Distinct(names)| ==>
      FirstIndex(names, Distinct(names)[i]) < FirstIndex(names, Distinct(names)[j])
    decreases |names|
  {
    if names != [] {
      var init, x := names[..|names| - 1], names[|names| - 1];
      assert names == init + [x];
      DistinctOrder(init);
      var r := Distinct(names);
      forall i, j | 0 <= i < j < |r| ensures FirstIndex(names, r[i]) < FirstIndex(names, r[j]) {
        DistinctPair(init, x, i, j);
      }
    }
  }

  /** One pair of distinct names after one more name is read. */
  lemma DistinctPair(init: seq<string>, x: string, i: nat, j: nat)
    requires i < j < |Distinct(init + [x])|
    requires j < |Distinct(init)| ==> FirstIndex(init, Distinct(init)[i]) < FirstIndex(init, Distinct(init)[j])
    ensures FirstIndex(init + [x], Distinct(init + [x])[i]) < FirstIndex(init + [x], Distinct(init + [x])[j])
  {
    var names := init + [x];
    assert names[..|names| - 1] == init;
    var d := Distinct(init);
    var r := Distinct(names);
    assert r == if x in d then d else d + [x];
    assert r[i] == d[i] && d[i] in init;
    FirstIndexPrefix(init, [x], d[i]);
    if j < |d| {
      assert r[j] == d[j] && d[j] in init;
      FirstIndexPrefix(init, [x], d[j]);
    } else {
      assert r[j] == x && x !in init;
      assert forall k :: 0 <= k < |init| ==> names[k] != x;
    }
  }

  lemma FirstIndexPrefix<T>(a: seq<T>, b: seq<T>, x: T)
    requires x in a
    ensures FirstIndex(a + b, x) == FirstIndex(a, x)
  {
    var j := FirstIndex(a, x);
    assert (a + b)[j] == x;
    assert forall k :: 0 <= k < |a| ==> (a + b)[k] == a[k];
  }

  /** The scan over the rows that collects the distinct playlist names. */
  method DistinctNames(rows: seq<Row>) returns (playlists: seq<string>)
    ensures playlists == Distinct(Names(rows))
  {
    playlists := [];
    ghost var names := Names(rows);
    for k := 0 to |rows|
      invariant playlists == Distinct(names[..k])
    {
      assert names[..k + 1][..k] == names[..k];
      var name := rows[k].playlistName;
      if name !in playlists {
        playlists := playlists + [name];
      }
    }
    assert names[..|rows|] == names;
  }

  /** `get_playlist_tracks_from_csv(file, name)`: the track ids of the rows of
      that playlist, in file order. */
  function TrackIds(rows: seq<Row>, name: string): (r: seq<string>)
    ensures |r| <= |rows|
    ensures forall t :: t in r <==>
      exists k :: 0 <= k < |rows| && rows[k].playlistName == name && rows[k].trackId == t
    decreases |rows|
  {
    if rows == [] then []
    else
      var init, row := rows[..|rows| - 1], rows[|rows| - 1];
      var before := TrackIds(init, name);
      assert forall k :: 0 <= k < |init| ==> init[k] == rows[k];
      if row.playlistName == name then before + [row.trackId] else before
  }

  /** The track ids of two stretches of the file follow one another, and a
      single row contributes its id exactly when it is in the playlist: the
      filter keeps file order and drops nothing else. */
  lemma {:induction false} TrackIdsAppend(a: seq<Row>, b: seq<Row>, name: string)
    ensures TrackIds(a + b, name) == TrackIds(a, name) + TrackIds(b, name)
    decreases |b|
  {
    if b == [] {
      assert a + b == a;
    } else {
      var b' := b[..|b| - 1];
      assert (a + b)[..|a + b| - 1] == a + b';
      TrackIdsAppend(a, b', name);
    }
  }

  lemma TrackIdsOne(row: Row, name: string)
    ensures TrackIds([row], name) == if row.playlistName == name then [row.trackId] else []
  {
    assert [row][..0] == [];
  }

  method GetPlaylistTracks(rows: seq<Row>, name: string) returns (tracks: seq<string>)
    ensures tracks == TrackIds(rows, name)
  {
    tracks := [];
    for k := 0 to |rows|
      invariant tracks == TrackIds(rows[..k], name)
    {
      assert rows[..k + 1][..k] == rows[..k];
      if rows[k].playlistName == name {
        tracks := tracks + [rows[k].trackId];
      }
    }
    assert rows[..|rows|] == rows;
  }

  /** Every name listed from a file has tracks in that file, so the "no
      tracks" branch is never taken for the file the names came from. */
  lemma NamesHaveTracks(rows: seq<Row>, name: string)
    requires name in Distinct(Names(rows))
    ensures |TrackIds(rows, name)| > 0
  {
    var names := Names(rows);
    var k :| 0 <= k < |names| && names[k] == name;
    assert rows[k].trackId in TrackIds(rows, name);
  }

  // -----------------------------------------------------------------------
  // The selection

  /** `indices = list(range(1, n + 1))` for `all` in any case, otherwise
      `parse_input(answer, n)`. */
  function Choose(answer: string, n: nat): (r: Result<seq<int>>)
    ensures r.Ok? ==> StrictlyAscending(r.value) && forall i :: i in r.value ==> 1 <= i <= n
    ensures r.Ok? ==> Selects(r.value, n)
  {
    if Lower(answer) == "all" then
      IntervalAscending(1, n);
      Ok(Interval(1, n))
    else
      var r := Parse(answer, n);
      assert r.Ok? ==> Selects(r.value, n) by {
        if r.Ok? {
          forall k | 0 <= k < |r.value| ensures 1 <= r.value[k] <= n {
            assert r.value[k] in r.value;
          }
        }
      }
      r
  }

  /** Every selected index names one of `n` playlists. */
  predicate Selects(indices: seq<int>, n: nat)
  {
    forall k :: 0 <= k < |indices| ==> 1 <= indices[k] <= n
  }

  /** `all`, in any case, selects every playlist and nothing else. */
  lemma ChooseAll(answer: string, n: nat)
    requires Lower(answer) == "all"
    ensures Choose(answer, n).Ok?
    ensures forall i :: i in Choose(answer, n).value <==> 1 <= i <= n
  {
    IntervalAscending(1, n);
  }

  /** "ALL" and "All" are `all`. */
  lemma AllUpperCase(answer: string)
    requires answer == "ALL" || answer == "All"
    ensures Lower(answer) == "all"
  {
    assert Lower(answer)[0] == 'a' && Lower(answer)[1] == 'l' && Lower(answer)[2] == 'l';
  }

  // -----------------------------------------------------------------------
  // Creating one playlist

  const BatchSize: nat := 100

  function Min(a: int, b: int): int
  {
    if a < b then a else b
  }

  /** `tracks[i:i + 100]` for `i` in `range(0, len(tracks), 100)`. */
  function Batches(tracks: seq<string>): (r: seq<seq<string>>)
    ensures |r| == (|tracks| + BatchSize - 1) / BatchSize
  {
    seq((|tracks| + BatchSize - 1) / BatchSize,
        k requires 0 <= k < (|tracks| + BatchSize - 1) / BatchSize =>
          tracks[BatchSize * k .. Min(BatchSize * k + BatchSize, |tracks|)])
  }

  /** Batch `k` holds tracks `100 * k` up to `100 * k + 99`, and no batch is
      empty or holds more than 100 tracks. */
  lemma BatchesShape(tracks: seq<string>)
    ensures forall k :: 0 <= k < |Batches(tracks)| ==> 1 <= |Batches(tracks)[k]| <= BatchSize
    ensures forall k :: 0 <= k < |Batches(tracks)| ==>
      Batches(tracks)[k] == tracks[BatchSize * k .. Min(BatchSize * k + BatchSize, |tracks|)]
  {
    var bs := Batches(tracks);
    forall k | 0 <= k < |bs| ensures 1 <= |bs[k]| <= BatchSize {
      BatchBound(|tracks|, k);
    }
  }

  /** The batches put back together are the track list. */
  lemma BatchesConcat(tracks: seq<string>)
    ensures Concat(Batches(tracks)) == tracks
  {
    var bs := Batches(tracks);
    BatchesPrefix(tracks, |bs|);
    assert bs[..|bs|] == bs;
  }

  lemma {:induction false} BatchesPrefix(tracks: seq<string>, j: nat)
    requires j <= |Batches(tracks)|
    ensures Concat(Batches(tracks)[..j]) == tracks[..Min(BatchSize * j, |tracks|)]
  {
    var bs := Batches(tracks);
    if j > 0 {
      BatchesPrefix(tracks, j - 1);
      assert bs[..j][..j - 1] == bs[..j - 1];
    }
  }

  /** A governor check after each `playlist_add_items` call. */
  function BatchCalls(batches: seq<seq<string>>): (r: seq<Call>)
    ensures |r| == 2 * |batches|
    decreases |batches|
  {
    if batches == [] then []
    else
      var n := |batches| - 1;
      BatchCalls(batches[..n]) + [AddItems(batches[n]), RateCheck]
  }

  /** Batch `m` is added by call `2m`, and call `2m + 1` checks the governor. */
  lemma {:induction false} BatchCallsShape(batches: seq<seq<string>>)
    ensures forall m :: 0 <= m < |batches| ==>
      BatchCalls(batches)[2 * m] == AddItems(batches[m]) && BatchCalls(batches)[2 * m + 1] == RateCheck
    decreases |batches|
  {
    if batches != [] {
      var n := |batches| - 1;
      var init := batches[..n];
      BatchCallsShape(init);
      assert forall m :: 0 <= m < n ==> init[m] == batches[m];
    }
  }

  /** No call of the batch loop creates a playlist. */
  lemma {:induction false} BatchCallsCreateNothing(batches: seq<seq<string>>, c: Call)
    requires c in BatchCalls(batches)
    ensures !c.CreatePlaylist?
    decreases |batches|
  {
    var n := |batches| - 1;
    if c !in [AddItems(batches[n]), RateCheck] {
      BatchCallsCreateNothing(batches[..n], c);
    }
  }

  /** Adding batch `j`, which starts at track `100 * j`. */
  lemma NextBatch(tracks: seq<string>, i: nat, j: nat)
    requires j < |Batches(tracks)| && i == BatchSize * j
    ensures i < |tracks|
    ensures BatchCalls(Batches(tracks)[..j + 1]) ==
      BatchCalls(Batches(tracks)[..j]) + [AddItems(tracks[i..Min(i + BatchSize, |tracks|)]), RateCheck]
  {
    var bs := Batches(tracks);
    assert bs[..j + 1][..j] == bs[..j];
  }

  /** Batch `j` starts inside the track list exactly when it is one of the
      ceil(n/100) batches. */
  lemma BatchBound(n: nat, j: nat)
    ensures BatchSize * j < n <==> j < (n + BatchSize - 1) / BatchSize
  {
  }

  /** `create_new_playlist(user_id, name, tracks)`: create, check the governor,
      then one add and one check per batch. */
  function CreateCalls(user: string, name: string, tracks: seq<string>): seq<Call>
  {
    [CreatePlaylist(user, name), RateCheck] + BatchCalls(Batches(tracks))
  }

  method CreateNewPlaylist(user: string, name: string, tracks: seq<string>) returns (calls: seq<Call>)
    ensures calls == CreateCalls(user, name, tracks)
  {
    calls := [CreatePlaylist(user, name), RateCheck];
    ghost var batches := Batches(tracks);
    ghost var j := 0;
    BatchBound(|tracks|, 0);
    var i := 0;
    while i < |tracks|
      invariant i == BatchSize * j && j <= |batches|
      invariant i < |tracks| <==> j < |batches|
      invariant calls == [CreatePlaylist(user, name), RateCheck] + BatchCalls(batches[..j])
      decreases |tracks| - i
    {
      NextBatch(tracks, i, j);
      ghost var added := BatchCalls(batches[..j]);
      var batch := tracks[i..Min(i + BatchSize, |tracks|)];
      calls := calls + [AddItems(batch), RateCheck];
      assert calls == [CreatePlaylist(user, name), RateCheck] + (added + [AddItems(batch), RateCheck]);
      i := i + BatchSize;
      j := j + 1;
      BatchBound(|tracks|, j);
    }
    assert batches[..j] == batches;
  }

  /** The new playlist receives exactly the tracks, in order, in ceil(n/100)
      batches of 1 to 100 tracks, each add followed by a governor check. */
  lemma CreateAddsAll(user: string, name: string, tracks: seq<string>)
    ensures var calls := CreateCalls(user, name, tracks);
      && calls[0] == CreatePlaylist(user, name) && calls[1] == RateCheck
      && |calls| == 2 + 2 * ((|tracks| + BatchSize - 1) / BatchSize)
      && forall m :: 0 <= m < |Batches(tracks)| ==>
           calls[2 + 2 * m] == AddItems(Batches(tracks)[m]) && calls[3 + 2 * m] == RateCheck
    ensures Concat(Batches(tracks)) == tracks
  {
    var bs := Batches(tracks);
    var calls := CreateCalls(user, name, tracks);
    BatchCallsShape(bs);
    forall m | 0 <= m < |bs| ensures calls[2 + 2 * m] == AddItems(bs[m]) && calls[3 + 2 * m] == RateCheck {
      assert calls[2 + 2 * m] == BatchCalls(bs)[2 * m];
      assert calls[3 + 2 * m] == BatchCalls(bs)[2 * m + 1];
    }
    BatchesConcat(tracks);
  }

  // -----------------------------------------------------------------------
  // Importing the selection

  /** What importing one selected name does: nothing when the file has no
      tracks for it, otherwise create it with its tracks. */
  function PlaylistImport(user: string, rows: seq<Row>, name: string): seq<Call>
  {
    var tracks := TrackIds(rows, name);
    if tracks == [] then [] else CreateCalls(user, name, tracks)
  }

  function ImportGroups(user: string, rows: seq<Row>, playlists: seq<string>, indices: seq<int>): (g: seq<seq<Call>>)
    requires Selects(indices, |playlists|)
    ensures |g| == |indices|
  {
    seq(|indices|, k requires 0 <= k < |indices| => PlaylistImport(user, rows, playlists[indices[k] - 1]))
  }

  /** The `for i in indices` loop. */
  function ImportCalls(user: string, rows: seq<Row>, playlists: seq<string>, indices: seq<int>): seq<Call>
    requires Selects(indices, |playlists|)
  {
    Concat(ImportGroups(user, rows, playlists, indices))
  }

  /** The body of the `for i in indices` loop: read the name's tracks and,
      when there are any, create the playlist with them. */
  method ImportPlaylist(user: string, rows: seq<Row>, name: string) returns (calls: seq<Call>)
    ensures calls == PlaylistImport(user, rows, name)
  {
    var tracks := GetPlaylistTracks(rows, name);
    if tracks == [] {
      return [];
    }
    calls := CreateNewPlaylist(user, name, tracks);
  }

  method ImportSelected(user: string, rows: seq<Row>, playlists: seq<string>, indices: seq<int>)
    returns (calls: seq<Call>)
    requires Selects(indices, |playlists|)
    ensures calls == ImportCalls(user, rows, playlists, indices)
  {
    calls := [];
    ghost var groups := ImportGroups(user, rows, playlists, indices);
    for k := 0 to |indices|
      invariant calls == Concat(groups[..k])
    {
      ConcatStep(groups, k);
      var created := ImportPlaylist(user, rows, playlists[indices[k] - 1]);
      calls := calls + created;
    }
    assert groups[..|indices|] == groups;
  }

  /** Only selected playlists are created, each under the user and its name. */
  lemma CreatesOnlySelected(user: string, rows: seq<Row>, playlists: seq<string>, indices: seq<int>,
                            u: string, name: string)
    requires Selects(indices, |playlists|)
    requires CreatePlaylist(u, name) in ImportCalls(user, rows, playlists, indices)
    ensures u == user
    ensures exists k :: 0 <= k < |indices| && playlists[indices[k] - 1] == name
  {
    var groups := ImportGroups(user, rows, playlists, indices);
    var k := ConcatWhich(groups, CreatePlaylist(u, name));
    var n := playlists[indices[k] - 1];
    assert groups[k] == PlaylistImport(user, rows, n);
    CreatesInImport(user, rows, n, u, name);
    assert 0 <= k < |indices| && playlists[indices[k] - 1] == name;
  }

  /** Importing one name creates at most that playlist, under the user. */
  lemma CreatesInImport(user: string, rows: seq<Row>, n: string, u: string, name: string)
    requires CreatePlaylist(u, name) in PlaylistImport(user, rows, n)
    ensures u == user && name == n
  {
    CreatesOne(user, n, TrackIds(rows, n), u, name);
  }

  /** Creating one playlist makes exactly one create call, the first. */
  lemma CreatesOne(user: string, name: string, tracks: seq<string>, u: string, n: string)
    requires CreatePlaylist(u, n) in CreateCalls(user, name, tracks)
    ensures u == user && n == name
  {
    if CreatePlaylist(u, n) in BatchCalls(Batches(tracks)) {
      BatchCallsCreateNothing(Batches(tracks), CreatePlaylist(u, n));
    }
  }

  /** Choosing `all` imports every playlist of the file. */
  lemma AllCreatesEvery(user: string, rows: seq<Row>, name: string)
    requires name in Distinct(Names(rows))
    ensures var playlists := Distinct(Names(rows));
      CreatePlaylist(user, name) in ImportCalls(user, rows, playlists, Interval(1, |playlists|))
  {
    var playlists := Distinct(Names(rows));
    var indices := Interval(1, |playlists|);
    var i :| 0 <= i < |playlists| && playlists[i] == name;
    NamesHaveTracks(rows, name);
    var groups := ImportGroups(user, rows, playlists, indices);
    assert indices[i] == i + 1;
    assert groups[i] == CreateCalls(user, name, TrackIds(rows, name));
    assert CreatePlaylist(user, name) in groups[i];
    ConcatMembers(groups, CreatePlaylist(user, name));
  }

  /** The create calls of a trace, in order. */
  function Creates(calls: seq<Call>): seq<Call>
    decreases |calls|
  {
    if calls == [] then []
    else
      var c := calls[|calls| - 1];
      Creates(calls[..|calls| - 1]) + (if c.CreatePlaylist? then [c] else [])
  }

  /** The names the loop reaches, in selection order. */
  function Picked(playlists: seq<string>, indices: seq<int>): (r: seq<string>)
    requires Selects(indices, |playlists|)
    ensures |r| == |indices| && forall k :: 0 <= k < |indices| ==> r[k] == playlists[indices[k] - 1]
  {
    seq(|indices|, k requires 0 <= k < |indices| => playlists[indices[k] - 1])
  }

  /** The names that have tracks in the file, in order. */
  function WithTracks(rows: seq<Row>, names: seq<string>): seq<string>
    decreases |names|
  {
    if names == [] then []
    else
      var n := names[|names| - 1];
      WithTracks(rows, names[..|names| - 1]) + (if TrackIds(rows, n) == [] then [] else [n])
  }

  /** One create call per name, under the user. */
  function CreationsFor(user: string, names: seq<string>): (r: seq<Call>)
    ensures |r| == |names| && forall k :: 0 <= k < |names| ==> r[k] == CreatePlaylist(user, names[k])
  {
    seq(|names|, k requires 0 <= k < |names| => CreatePlaylist(user, names[k]))
  }

  lemma {:induction false} CreatesAppend(a: seq<Call>, b: seq<Call>)
    ensures Creates(a + b) == Creates(a) + Creates(b)
    decreases |b|
  {
    if b == [] {
      assert a + b == a;
    } else {
      var b' := b[..|b| - 1];
      CreatesAppend(a, b');
      assert (a + b)[..|a + b| - 1] == a + b';
    }
  }

  lemma CreatesSingle(c: Call)
    ensures Creates([c]) == if c.CreatePlaylist? then [c] else []
  {
    assert [c][..0] == [];
  }

  lemma CreatesPair(c: Call, d: Call)
    ensures Creates([c, d]) == Creates([c]) + Creates([d])
  {
    CreatesAppend([c], [d]);
    assert [c] + [d] == [c, d];
  }

  lemma {:induction false} BatchCallsCreates(batches: seq<seq<string>>)
    ensures Creates(BatchCalls(batches)) == []
    decreases |batches|
  {
    if batches != [] {
      var n := |batches| - 1;
      BatchCallsCreates(batches[..n]);
      var pair := [AddItems(batches[n]), RateCheck];
      assert BatchCalls(batches) == BatchCalls(batches[..n]) + pair;
      CreatesAppend(BatchCalls(batches[..n]), pair);
      CreatesPair(AddItems(batches[n]), RateCheck);
      CreatesSingle(AddItems(batches[n]));
      CreatesSingle(RateCheck);
    }
  }

  /** Importing one name creates it once when it has tracks, and not at all
      otherwise. */
  lemma PlaylistImportCreates(user: string, rows: seq<Row>, name: string)
    ensures Creates(PlaylistImport(user, rows, name)) ==
      if TrackIds(rows, name) == [] then [] else [CreatePlaylist(user, name)]
  {
    var tracks := TrackIds(rows, name);
    if tracks != [] {
      var head := [CreatePlaylist(user, name), RateCheck];
      var adds := BatchCalls(Batches(tracks));
      assert PlaylistImport(user, rows, name) == head + adds;
      CreatesAppend(head, adds);
      BatchCallsCreates(Batches(tracks));
      CreatesPair(CreatePlaylist(user, name), RateCheck);
      CreatesSingle(CreatePlaylist(user, name));
      CreatesSingle(RateCheck);
    }
  }

  function NameGroups(user: string, rows: seq<Row>, names: seq<string>): (g: seq<seq<Call>>)
    ensures |g| == |names|
  {
    seq(|names|, k requires 0 <= k < |names| => PlaylistImport(user, rows, names[k]))
  }

  lemma NameGroupsStep(user: string, rows: seq<Row>, names: seq<string>)
    requires names != []
    ensures var n := |names| - 1;
      NameGroups(user, rows, names) == NameGroups(user, rows, names[..n]) + [PlaylistImport(user, rows, names[n])]
  {
  }

  lemma CreationsAppend(user: string, a: seq<string>, b: seq<string>)
    ensures CreationsFor(user, a + b) == CreationsFor(user, a) + CreationsFor(user, b)
  {
  }

  lemma {:induction false} NamesCreate(user: string, rows: seq<Row>, names: seq<string>)
    ensures Creates(Concat(NameGroups(user, rows, names))) == CreationsFor(user, WithTracks(rows, names))
    decreases |names|
  {
    if names != [] {
      var n := |names| - 1;
      var init, name := names[..n], names[n];
      var before, one := NameGroups(user, rows, init), PlaylistImport(user, rows, name);
      NamesCreate(user, rows, init);
      NameGroupsStep(user, rows, names);
      ConcatAppend(before, [one]);
      ConcatOne(one);
      CreatesAppend(Concat(before), one);
      PlaylistImportCreates(user, rows, name);
      var last: seq<string> := if TrackIds(rows, name) == [] then [] else [name];
      assert WithTracks(rows, names) == WithTracks(rows, init) + last;
      CreationsAppend(user, WithTracks(rows, init), last);
    }
  }

  /** The playlists the import creates are, in selection order, the selected
      names that have tracks in the file, each created once per selection
      under the user. */
  lemma ImportCreates(user: string, rows: seq<Row>, playlists: seq<string>, indices: seq<int>)
    requires Selects(indices, |playlists|)
    ensures Creates(ImportCalls(user, rows, playlists, indices)) ==
      CreationsFor(user, WithTracks(rows, Picked(playlists, indices)))
  {
    assert ImportGroups(user, rows, playlists, indices) == NameGroups(user, rows, Picked(playlists, indices));
    NamesCreate(user, rows, Picked(playlists, indices));
  }

  lemma {:induction false} WithTracksAll(rows: seq<Row>, names: seq<string>)
    requires forall k :: 0 <= k < |names| ==> TrackIds(rows, names[k]) != []
    ensures WithTracks(rows, names) == names
    decreases |names|
  {
    if names != [] {
      var n := |names| - 1;
      WithTracksAll(rows, names[..n]);
      assert names[..n] + [names[n]] == names;
    }
  }

  /** Choosing `all` creates every playlist of the file exactly once, in the
      order the names first appear, under the user, and nothing else. */
  lemma AllCreatesEach(user: string, rows: seq<Row>)
    ensures var playlists := Distinct(Names(rows));
      && Creates(ImportCalls(user, rows, playlists, Interval(1, |playlists|))) == CreationsFor(user, playlists)
      && NoDuplicates(playlists)
  {
    var playlists := Distinct(Names(rows));
    ListedHaveTracks(rows, playlists);
    AllWithTracksCreated(user, rows, playlists);
  }

  /** Choosing `all` among names that all have tracks creates each of them,
      in order. */
  lemma AllWithTracksCreated(user: string, rows: seq<Row>, playlists: seq<string>)
    requires forall k :: 0 <= k < |playlists| ==> TrackIds(rows, playlists[k]) != []
    ensures Selects(Interval(1, |playlists|), |playlists|)
    ensures Creates(ImportCalls(user, rows, playlists, Interval(1, |playlists|))) == CreationsFor(user, playlists)
  {
    var indices := Interval(1, |playlists|);
    PickedAll(playlists);
    ImportCreates(user, rows, playlists, indices);
    WithTracksAll(rows, playlists);
  }

  lemma PickedAll(playlists: seq<string>)
    ensures Selects(Interval(1, |playlists|), |playlists|)
    ensures Picked(playlists, Interval(1, |playlists|)) == playlists
  {
  }

  lemma ListedHaveTracks(rows: seq<Row>, playlists: seq<string>)
    requires playlists == Distinct(Names(rows))
    ensures forall k :: 0 <= k < |playlists| ==> TrackIds(rows, playlists[k]) != []
  {
    forall k | 0 <= k < |playlists| ensures TrackIds(rows, playlists[k]) != [] {
      NamesHaveTracks(rows, playlists[k]);
    }
  }

  // -----------------------------------------------------------------------
  // The whole import

  datatype Outcome =
    | NoBackupFiles          // "No CSV files found starting with 'spotify_backup'."
    | InvalidSelection       // "Invalid selection."
    | NoPlaylists            // "No playlists found in the selected CSV file."
    | NoValidSelection       // "No valid playlists selected."
    | Raised                 // ValueError from int() or parse_input
    | Imported(calls: seq<Call>)

  function ImportOutcome(dir: seq<File>, fileAnswer: string, selection: string, user: string): Outcome
  {
    var files := ListCsvFiles(dir);
    if files == [] then NoBackupFiles
    else
      match SelectCsvFile(files, fileAnswer)
      case ValueError => Raised
      case Ok(None) => InvalidSelection
      case Ok(Some(file)) =>
        var playlists := Distinct(Names(file.rows));
        if playlists == [] then NoPlaylists
        else
          match Choose(selection, |playlists|)
          case ValueError => Raised
          case Ok(indices) =>
            if indices == [] then NoValidSelection
            else Imported([CurrentUser, RateCheck] + ImportCalls(user, file.rows, playlists, indices))
  }

  method ImportPlaylists(dir: seq<File>, fileAnswer: string, selection: string, user: string)
    returns (outcome: Outcome)
    ensures outcome == ImportOutcome(dir, fileAnswer, selection, user)
  {
    var csvFiles := ListCsvFiles(dir);
    if csvFiles == [] {
      return NoBackupFiles;
    }
    var selected := SelectCsvFile(csvFiles, fileAnswer);
    if selected.ValueError? {
      return Raised;
    }
    if selected.value.None? {
      return InvalidSelection;
    }
    var file := selected.value.value;
    var playlists := DistinctNames(file.rows);
    if playlists == [] {
      return NoPlaylists;
    }
    var indices: Result<seq<int>>;
    if Lower(selection) == "all" {
      indices := Ok(Interval(1, |playlists|));
    } else {
      indices := ParseInput(selection, |playlists|);
    }
    assert indices == Choose(selection, |playlists|);
    if indices.ValueError? {
      return Raised;
    }
    if indices.value == [] {
      return NoValidSelection;
    }
    var calls := ImportSelected(user, file.rows, playlists, indices.value);
    outcome := Imported([CurrentUser, RateCheck] + calls);
  }
}
