/** `export_playlists`: every track of every playlist the user owns or follows
    becomes one row of the backup table, tagged with the playlist's running
    1-based number. The playlist pages and each playlist's track pages are
    given; the API calls and governor checks the loop makes come back as a
    call trace. */
module Exporter {
  import opened PyBuiltins
  import opened Spotify
  import opened BackupTable

  /** The row written for one track of the playlist numbered `index`. */
  function MakeRow(t: Track, p: Playlist, index: nat): Row
  {
    Row(t.artist.id, t.id, t.album.id, t.artist.name, t.name, t.album.name,
        t.popularity, t.album.releaseDate, p.id, p.name, index)
  }

  /** The row written for a track, read back by column name the way
      `csv.DictReader` does: each header name of the header row finds the
      value the loop took for that column from the track, its first artist,
      its album and its playlist. */
  lemma RowCells(t: Track, p: Playlist, index: nat)
    ensures var f := Fields(MakeRow(t, p, index));
      && Cell(Header, f, "artist_id") == Some(t.artist.id)
      && Cell(Header, f, "track_id") == Some(t.id)
      && Cell(Header, f, "album_id") == Some(t.album.id)
      && Cell(Header, f, "artist_name") == Some(t.artist.name)
      && Cell(Header, f, "track_name") == Some(t.name)
      && Cell(Header, f, "album_name") == Some(t.album.name)
    ensures var f := Fields(MakeRow(t, p, index));
      && Cell(Header, f, "track_popularity") == Some(Str(t.popularity))
      && Cell(Header, f, "release_date") == Some(t.album.releaseDate)
      && Cell(Header, f, "playlist_id") == Some(p.id)
      && Cell(Header, f, "playlist_name") == Some(p.name)
      && Cell(Header, f, "playlist_index") == Some(Str(index))
  {
    var f := Fields(MakeRow(t, p, index));
    ColumnCell(f, 0); ColumnCell(f, 1); ColumnCell(f, 2); ColumnCell(f, 3);
    ColumnCell(f, 4); ColumnCell(f, 5); ColumnCell(f, 6); ColumnCell(f, 7);
    ColumnCell(f, 8); ColumnCell(f, 9); ColumnCell(f, 10);
    HeaderNames();
  }

  /** One row per track, in order. */
  function TrackRows(p: Playlist, tracks: seq<Track>, index: nat): (r: seq<Row>)
    ensures |r| == |tracks|
    ensures forall k :: 0 <= k < |r| ==> r[k] == MakeRow(tracks[k], p, index)
  {
    seq(|tracks|, k requires 0 <= k < |tracks| => MakeRow(tracks[k], p, index))
  }

  /** The tracks of a playlist: the items of its pages up to the first
      page without `next`. */
  function PlaylistTracks(p: Playlist): seq<Track>
  {
    Items(UpToLast(p.trackPages))
  }

  function PlaylistRows(p: Playlist, index: nat): seq<Row>
  {
    TrackRows(p, PlaylistTracks(p), index)
  }

  /** The rows of each of consecutive playlists numbered from `first`. */
  function RowGroups(playlists: seq<Playlist>, first: nat): (g: seq<seq<Row>>)
    ensures |g| == |playlists|
  {
    seq(|playlists|, k requires 0 <= k < |playlists| => PlaylistRows(playlists[k], first + k))
  }

  /** The rows of consecutive playlists numbered from `first`, one playlist
      after the other. */
  function RowsFrom(playlists: seq<Playlist>, first: nat): seq<Row>
  {
    Concat(RowGroups(playlists, first))
  }

  /** The playlists the export reads: the items of the playlist pages up to
      the first page without `next`. */
  function Playlists(pages: seq<Page<Playlist>>): seq<Playlist>
  {
    Items(UpToLast(pages))
  }

  /** The rows written after the header. */
  function ExportRows(pages: seq<Page<Playlist>>): seq<Row>
  {
    RowsFrom(Playlists(pages), 1)
  }

  /** A governor check, then the fetch at the number of tracks read so far,
      for each page read. */
  function FetchCalls(id: string, pages: seq<Page<Track>>): seq<Call>
    decreases |pages|
  {
    if pages == [] then []
    else
      var n := |pages| - 1;
      FetchCalls(id, pages[..n]) + [RateCheck, FetchTracks(id, |Items(pages[..n])|)]
  }

  function PlaylistCalls(p: Playlist): seq<Call>
  {
    FetchCalls(p.id, UpToLast(p.trackPages))
  }

  function CallGroups(playlists: seq<Playlist>): (g: seq<seq<Call>>)
    ensures |g| == |playlists|
  {
    seq(|playlists|, k requires 0 <= k < |playlists| => PlaylistCalls(playlists[k]))
  }

  function CallsOf(playlists: seq<Playlist>): seq<Call>
  {
    Concat(CallGroups(playlists))
  }

  function ExportCalls(pages: seq<Page<Playlist>>): seq<Call>
  {
    CallsOf(Playlists(pages))
  }

  /** The paged results end: the playlist pages, and the track pages of every
      playlist read. */
  predicate Exportable(pages: seq<Page<Playlist>>)
  {
    && HasLast(pages)
    && forall k :: 0 <= k < |Playlists(pages)| ==> HasLast(Playlists(pages)[k].trackPages)
  }

  // -----------------------------------------------------------------------
  // The loops

  /** The `while True` loop over the track pages of one playlist. */
  method ExportPlaylist(p: Playlist, index: nat) returns (rows: seq<Row>, calls: seq<Call>)
    requires HasLast(p.trackPages)
    ensures rows == PlaylistRows(p, index)
    ensures calls == PlaylistCalls(p)
  {
    rows := [];
    calls := [];
    var offset: nat := 0;
    // the k-th fetch of the playlist's tracks returns its k-th page
    var k := 0;
    ghost var pages := p.trackPages;
    while true
      invariant HasLast(pages) && k <= FirstLast(pages)
      invariant forall j :: 0 <= j < k ==> pages[j].hasNext
      invariant offset == |Items(pages[..k])|
      invariant rows == TrackRows(p, Items(pages[..k]), index)
      invariant calls == FetchCalls(p.id, pages[..k])
      decreases |pages| - k
    {
      NextPage(p.id, pages, k);
      calls := calls + [RateCheck, FetchTracks(p.id, offset)];
      var tracks := p.trackPages[k];
      ghost var before := Items(pages[..k]);
      for j := 0 to |tracks.items|
        invariant rows == TrackRows(p, before + tracks.items[..j], index)
      {
        NextTrack(p, before, tracks.items, j, index);
        rows := rows + [MakeRow(tracks.items[j], p, index)];
      }
      assert tracks.items[..|tracks.items|] == tracks.items;
      offset := offset + |tracks.items|;
      if !tracks.hasNext {
        UpToLastAt(pages, k);
        break;
      }
      k := k + 1;
    }
  }

  /** One more page of tracks: its items follow those read before, and its
      fetch asks at the number of tracks read so far. */
  lemma NextPage(id: string, pages: seq<Page<Track>>, k: nat)
    requires k < |pages|
    ensures Items(pages[..k + 1]) == Items(pages[..k]) + pages[k].items
    ensures FetchCalls(id, pages[..k + 1]) == FetchCalls(id, pages[..k]) + [RateCheck, FetchTracks(id, |Items(pages[..k])|)]
  {
    assert pages[..k + 1][..k] == pages[..k];
  }

  /** One more track of a page: its row is the next one. */
  lemma NextTrack(p: Playlist, before: seq<Track>, items: seq<Track>, j: nat, index: nat)
    requires j < |items|
    ensures TrackRows(p, before + items[..j + 1], index) ==
      TrackRows(p, before + items[..j], index) + [MakeRow(items[j], p, index)]
  {
    assert (before + items[..j + 1])[|before| + j] == items[j];
    assert before + items[..j + 1] == (before + items[..j]) + [items[j]];
  }

  /** The `for playlist in playlists['items']` loop over one page of
      playlists, numbering them from `first`. */
  method ExportPage(playlists: seq<Playlist>, first: nat) returns (rows: seq<Row>, calls: seq<Call>)
    requires forall k :: 0 <= k < |playlists| ==> HasLast(playlists[k].trackPages)
    ensures rows == RowsFrom(playlists, first)
    ensures calls == CallsOf(playlists)
  {
    rows := [];
    calls := [];
    var playlistIndex := first;
    for j := 0 to |playlists|
      invariant playlistIndex == first + j
      invariant rows == RowsFrom(playlists[..j], first)
      invariant calls == CallsOf(playlists[..j])
    {
      var playlist := playlists[j];
      NextPlaylist(playlists, j, first);
      var r, c := ExportPlaylist(playlist, playlistIndex);
      rows := rows + r;
      calls := calls + c;
      playlistIndex := playlistIndex + 1;
    }
    assert playlists[..|playlists|] == playlists;
  }

  /** The loop over the playlist pages: `playlist_index` runs on across pages. */
  method ExportPlaylists(pages: seq<Page<Playlist>>) returns (rows: seq<Row>, calls: seq<Call>)
    requires Exportable(pages)
    ensures rows == ExportRows(pages)
    ensures calls == ExportCalls(pages)
  {
    rows := [];
    calls := [];
    var playlistIndex: nat := 1;
    var k := 0;
    while true
      invariant HasLast(pages) && k <= FirstLast(pages)
      invariant forall j :: 0 <= j < k ==> pages[j].hasNext
      invariant playlistIndex == |Items(pages[..k])| + 1
      invariant rows == RowsFrom(Items(pages[..k]), 1)
      invariant calls == CallsOf(Items(pages[..k]))
      decreases |pages| - k
    {
      var page := pages[k];
      ghost var before := Items(pages[..k]);
      PageExportable(pages, k);
      var r, c := ExportPage(page.items, playlistIndex);
      RowsAppend(before, page.items, 1);
      CallsAppend(before, page.items);
      rows := rows + r;
      calls := calls + c;
      playlistIndex := playlistIndex + |page.items|;
      if !page.hasNext {
        UpToLastAt(pages, k);
        break;
      }
      k := k + 1;
    }
  }

  /** The playlists of a later page are numbered on from those before it:
      the number is never reset. */
  lemma RowsAppend(a: seq<Playlist>, b: seq<Playlist>, first: nat)
    ensures RowsFrom(a + b, first) == RowsFrom(a, first) + RowsFrom(b, first + |a|)
  {
    assert RowGroups(a + b, first) == RowGroups(a, first) + RowGroups(b, first + |a|);
    ConcatAppend(RowGroups(a, first), RowGroups(b, first + |a|));
  }

  lemma CallsAppend(a: seq<Playlist>, b: seq<Playlist>)
    ensures CallsOf(a + b) == CallsOf(a) + CallsOf(b)
  {
    assert CallGroups(a + b) == CallGroups(a) + CallGroups(b);
    ConcatAppend(CallGroups(a), CallGroups(b));
  }

  lemma OnePlaylist(p: Playlist, index: nat)
    ensures RowsFrom([p], index) == PlaylistRows(p, index)
    ensures CallsOf([p]) == PlaylistCalls(p)
  {
    ConcatOne(PlaylistRows(p, index));
    ConcatOne(PlaylistCalls(p));
    assert RowGroups([p], index) == [PlaylistRows(p, index)];
    assert CallGroups([p]) == [PlaylistCalls(p)];
  }

  /** Every playlist on a page that is read has track pages that end, and the
      page's items follow the playlists of the pages before it. */
  lemma PageExportable(pages: seq<Page<Playlist>>, k: nat)
    requires Exportable(pages) && k < |pages|
    requires forall j :: 0 <= j < k ==> pages[j].hasNext
    ensures Items(pages[..k + 1]) == Items(pages[..k]) + pages[k].items
    ensures forall j :: 0 <= j < |pages[k].items| ==> HasLast(pages[k].items[j].trackPages)
  {
    assert pages[..k + 1][..k] == pages[..k];
    var read := UpToLast(pages);
    assert k <= FirstLast(pages);
    assert read[..k] == pages[..k] && read[k] == pages[k];
    assert Items(read[..k]) == Items(pages[..k]);
    assert Playlists(pages) == Items(read);
    forall j | 0 <= j < |pages[k].items| ensures HasLast(pages[k].items[j].trackPages) {
      ItemsAt(read, k, j);
      assert read[k].items[j] == pages[k].items[j];
      assert Playlists(pages)[|Items(pages[..k])| + j] == pages[k].items[j];
    }
  }

  // -----------------------------------------------------------------------
  // What the export writes

  /** The number of tracks of consecutive playlists. */
  function TrackTotal(playlists: seq<Playlist>): nat
    decreases |playlists|
  {
    if playlists == [] then 0
    else TrackTotal(playlists[..|playlists| - 1]) + |PlaylistTracks(playlists[|playlists| - 1])|
  }

  /** One row per track: as many rows as tracks. */
  lemma {:induction false} RowCount(playlists: seq<Playlist>, first: nat)
    ensures |RowsFrom(playlists, first)| == TrackTotal(playlists)
    decreases |playlists|
  {
    if playlists != [] {
      var n := |playlists| - 1;
      NextPlaylist(playlists, n, first);
      assert playlists[..n + 1] == playlists;
      RowCount(playlists[..n], first);
    }
  }

  /** The rows of the export are those of the playlists read, numbered from 1. */
  lemma ExportRowCount(pages: seq<Page<Playlist>>)
    ensures |ExportRows(pages)| == TrackTotal(Playlists(pages))
  {
    RowCount(Playlists(pages), 1);
  }

  /** Track `t` of playlist `i` is written right after the rows of the
      playlists before it, tagged with number `first + i`. */
  lemma RowAt(playlists: seq<Playlist>, first: nat, i: nat, t: nat)
    requires i < |playlists| && t < |PlaylistTracks(playlists[i])|
    ensures |RowsFrom(playlists[..i], first)| + t < |RowsFrom(playlists, first)|
    ensures RowsFrom(playlists, first)[|RowsFrom(playlists[..i], first)| + t] ==
      MakeRow(PlaylistTracks(playlists[i])[t], playlists[i], first + i)
  {
    var p := playlists[i];
    assert playlists == playlists[..i] + [p] + playlists[i + 1..];
    RowsAppend(playlists[..i] + [p], playlists[i + 1..], first);
    RowsAppend(playlists[..i], [p], first);
    OnePlaylist(p, first + i);
  }

  /** Every row of one playlist carries its number, id and name. */
  lemma PlaylistRowsTagged(p: Playlist, index: nat)
    ensures forall r :: 0 <= r < |PlaylistRows(p, index)| ==>
      var row := PlaylistRows(p, index)[r];
      row.playlistIndex == index && row.playlistId == p.id && row.playlistName == p.name
  {
  }

  lemma RowTagged(p: Playlist, index: nat, row: Row)
    requires row in PlaylistRows(p, index)
    ensures row.playlistIndex == index && row.playlistId == p.id && row.playlistName == p.name
  {
    var rows := PlaylistRows(p, index);
    var r :| 0 <= r < |rows| && rows[r] == row;
  }

  /** Every row carries the number of a playlist read and that playlist's id
      and name. */
  lemma RowNumbers(playlists: seq<Playlist>, first: nat, row: Row)
    requires row in RowsFrom(playlists, first)
    ensures first <= row.playlistIndex < first + |playlists|
    ensures row.playlistId == playlists[row.playlistIndex - first].id
    ensures row.playlistName == playlists[row.playlistIndex - first].name
  {
    var groups := RowGroups(playlists, first);
    var i := ConcatWhich(groups, row);
    assert groups[i] == PlaylistRows(playlists[i], first + i);
    RowTagged(playlists[i], first + i, row);
  }

  // -----------------------------------------------------------------------
  // The calls the export makes

  /** Calls come in pairs: a governor check immediately before each track-page
      fetch, and nothing else. */
  predicate Paired(calls: seq<Call>)
  {
    && |calls| % 2 == 0
    && forall m :: 0 <= m < |calls| / 2 ==> calls[2 * m] == RateCheck && calls[2 * m + 1].FetchTracks?
  }

  /** The fetches of one playlist: a check, then a fetch at an offset equal to
      the number of tracks the earlier pages returned, once per page read. */
  lemma {:induction false} FetchCallsShape(id: string, pages: seq<Page<Track>>)
    ensures |FetchCalls(id, pages)| == 2 * |pages|
    ensures forall m :: 0 <= m < |pages| ==>
      FetchCalls(id, pages)[2 * m] == RateCheck &&
      FetchCalls(id, pages)[2 * m + 1] == FetchTracks(id, |Items(pages[..m])|)
    decreases |pages|
  {
    if pages != [] {
      var n := |pages| - 1;
      FetchCallsShape(id, pages[..n]);
      assert forall m :: 0 <= m < n ==> pages[..n][..m] == pages[..m];
    }
  }

  /** A playlist's track pages are fetched up to and including the first page
      without `next`, and no further. */
  lemma PlaylistFetches(p: Playlist)
    requires HasLast(p.trackPages)
    ensures |PlaylistCalls(p)| == 2 * (FirstLast(p.trackPages) + 1)
    ensures Paired(PlaylistCalls(p))
  {
    FetchCallsShape(p.id, UpToLast(p.trackPages));
  }

  lemma PairedAppend(a: seq<Call>, b: seq<Call>)
    requires Paired(a) && Paired(b)
    ensures Paired(a + b)
  {
    var ab := a + b;
    forall m | 0 <= m < |ab| / 2 ensures ab[2 * m] == RateCheck && ab[2 * m + 1].FetchTracks? {
      if 2 * m < |a| {
        assert ab[2 * m] == a[2 * m] && ab[2 * m + 1] == a[2 * m + 1];
      } else {
        var m' := m - |a| / 2;
        assert ab[2 * m] == b[2 * m'] && ab[2 * m + 1] == b[2 * m' + 1];
      }
    }
  }

  /** Across the whole export, the governor is checked exactly once before
      each track-page fetch. */
  lemma {:induction false} CallsPaired(playlists: seq<Playlist>)
    requires forall k :: 0 <= k < |playlists| ==> HasLast(playlists[k].trackPages)
    ensures Paired(CallsOf(playlists))
    decreases |playlists|
  {
    if playlists == [] {
      assert CallsOf(playlists) == [];
    } else {
      var n := |playlists| - 1;
      var init, p := playlists[..n], playlists[n];
      assert playlists == init + [p];
      CallsAppend(init, [p]);
      OnePlaylist(p, 1);
      CallsPaired(init);
      PlaylistFetches(p);
      PairedAppend(CallsOf(init), PlaylistCalls(p));
    }
  }

  lemma ExportPaired(pages: seq<Page<Playlist>>)
    requires Exportable(pages)
    ensures Paired(ExportCalls(pages))
  {
    CallsPaired(Playlists(pages));
  }

  /** One more playlist of a page: its rows, numbered `first + j`, and its
      calls follow those of the playlists before it. */
  lemma NextPlaylist(playlists: seq<Playlist>, j: nat, first: nat)
    requires j < |playlists|
    ensures RowsFrom(playlists[..j + 1], first) == RowsFrom(playlists[..j], first) + PlaylistRows(playlists[j], first + j)
    ensures CallsOf(playlists[..j + 1]) == CallsOf(playlists[..j]) + PlaylistCalls(playlists[j])
  {
    var p := playlists[j];
    assert playlists[..j + 1] == playlists[..j] + [p];
    RowsAppend(playlists[..j], [p], first);
    CallsAppend(playlists[..j], [p]);
    OnePlaylist(p, first + j);
  }
}
