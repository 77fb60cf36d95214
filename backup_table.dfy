/** The backup table: the 11 columns of a backup file, the row the exporter
    writes for one track of one playlist, and the names backup files carry. */
module BackupTable {
  import opened PyBuiltins

  /** One row of the backup file, its columns in header order. */
  datatype Row = Row(
    artistId: string,
    trackId: string,
    albumId: string,
    artistName: string,
    trackName: string,
    albumName: string,
    trackPopularity: int,
    releaseDate: string,
    playlistId: string,
    playlistName: string,
    playlistIndex: nat)

  /** The header row. */
  const Header: seq<string> := [
    "artist_id", "track_id", "album_id", "artist_name", "track_name", "album_name",
    "track_popularity", "release_date", "playlist_id", "playlist_name", "playlist_index"]

  /** The text of each cell as `csv.writer` writes it: strings as they are,
      numbers through `str()`. */
  function Fields(r: Row): (f: seq<string>)
    ensures |f| == |Header|
  {
    [r.artistId, r.trackId, r.albumId, r.artistName, r.trackName, r.albumName,
     Str(r.trackPopularity), r.releaseDate, r.playlistId, r.playlistName, Str(r.playlistIndex)]
  }

  /** `row[name]` of `csv.DictReader`: the cell under the header cell equal
      to `name`, or None when there is none (Python raises KeyError). The
      search runs from the front; `DictReader` keeps the last of repeated
      names instead, which gives the same cell on a header without repeats
      such as `Header` (HeaderDistinct). */
  function Cell(header: seq<string>, fields: seq<string>, name: string): (r: Option<string>)
    requires |header| == |fields|
    ensures r.Some? <==> name in header
    ensures r.Some? ==> exists k :: 0 <= k < |header| && header[k] == name && fields[k] == r.value
    decreases |header|
  {
    if header == [] then None
    else if header[0] == name then Some(fields[0])
    else
      var rest := Cell(header[1..], fields[1..], name);
      assert name in header <==> name in header[1..] by {
        assert forall x :: x in header <==> x == header[0] || x in header[1..];
      }
      assert rest.Some? ==> exists k :: 0 <= k < |header| && header[k] == name && fields[k] == rest.value by {
        if rest.Some? {
          var k :| 0 <= k < |header[1..]| && header[1..][k] == name && fields[1..][k] == rest.value;
          assert header[k + 1] == name && fields[k + 1] == rest.value;
        }
      }
      rest
  }

  /** Every column name is in the header exactly once. */
  lemma HeaderDistinct()
    ensures forall i, j :: 0 <= i < j < |Header| ==> Header[i] != Header[j]
  {
  }

  /** The header row, name by name. */
  lemma HeaderNames()
    ensures Header[0] == "artist_id" && Header[1] == "track_id" && Header[2] == "album_id"
    ensures Header[3] == "artist_name" && Header[4] == "track_name" && Header[5] == "album_name"
    ensures Header[6] == "track_popularity" && Header[7] == "release_date" && Header[8] == "playlist_id"
    ensures Header[9] == "playlist_name" && Header[10] == "playlist_index"
  {
  }

  /** Positions of the columns the importer and the numbers use. */
  const TrackIdColumn: nat := 1
  const PopularityColumn: nat := 6
  const PlaylistNameColumn: nat := 9
  const PlaylistIndexColumn: nat := 10

  lemma ColumnNames()
    ensures Header[TrackIdColumn] == "track_id" && Header[PopularityColumn] == "track_popularity"
    ensures Header[PlaylistNameColumn] == "playlist_name" && Header[PlaylistIndexColumn] == "playlist_index"
  {
  }

  /** What the exporter writes reads back by column name: the importer's
      `row['playlist_name']` and `row['track_id']` give the row's names, and
      the two numbers come back through `int()`. */
  lemma ReadBack(r: Row)
    ensures Cell(Header, Fields(r), Header[PlaylistNameColumn]) == Some(r.playlistName)
    ensures Cell(Header, Fields(r), Header[TrackIdColumn]) == Some(r.trackId)
    ensures Cell(Header, Fields(r), Header[PopularityColumn]).Some? &&
            ParseInt(Cell(Header, Fields(r), Header[PopularityColumn]).value) == Some(r.trackPopularity)
    ensures Cell(Header, Fields(r), Header[PlaylistIndexColumn]).Some? &&
            ParseInt(Cell(Header, Fields(r), Header[PlaylistIndexColumn]).value) == Some(r.playlistIndex)
  {
    var f := Fields(r);
    ColumnCell(f, PlaylistNameColumn);
    ColumnCell(f, TrackIdColumn);
    ColumnCell(f, PopularityColumn);
    ColumnCell(f, PlaylistIndexColumn);
    ParseIntStr(r.playlistIndex);
    ParseIntStr(r.trackPopularity);
  }

  /** Looking a column up by its name finds the cell at its position. */
  lemma ColumnCell(f: seq<string>, k: nat)
    requires |f| == |Header| && k < |Header|
    ensures Cell(Header, f, Header[k]) == Some(f[k])
  {
    HeaderDistinct();
    CellAt(Header, f, k);
  }

  /** The cell under a column name that occurs once in the header. */
  lemma {:induction false} CellAt(header: seq<string>, fields: seq<string>, k: nat)
    requires |header| == |fields| && k < |header|
    requires forall j :: 0 <= j < k ==> header[j] != header[k]
    ensures Cell(header, fields, header[k]) == Some(fields[k])
    decreases k
  {
    if k > 0 {
      CellAt(header[1..], fields[1..], k - 1);
    }
  }

  // -----------------------------------------------------------------------
  // Backup file names

  const BackupPrefix: string := "spotify_backup"
  const BackupSuffix: string := ".csv"

  /** `f.startswith('spotify_backup') and f.endswith('.csv')` */
  predicate IsBackupName(f: string)
  {
    StartsWith(f, BackupPrefix) && EndsWith(f, BackupSuffix)
  }

  /** `f'spotify_backup_{username}_{date_str}.csv'`, with the date already formatted. */
  function BackupFileName(user: string, date: string): (f: string)
    ensures IsBackupName(f)
  {
    var f := BackupPrefix + "_" + user + "_" + date + BackupSuffix;
    assert f[..|BackupPrefix|] == BackupPrefix;
    assert f[|f| - |BackupSuffix|..] == BackupSuffix;
    f
  }
}
