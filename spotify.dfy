/** The data the Spotify Web API hands the playlist manager, and the calls it
    makes, as plain values. A paged result is a sequence of pages; a page says
    whether a `next` page follows. */
module Spotify {

  /** One page of a paged API result: its `items` and whether `next` is set. */
  datatype Page<T> = Page(items: seq<T>, hasNext: bool)

  datatype Artist = Artist(id: string, name: string)

  datatype Album = Album(id: string, name: string, releaseDate: string)

  /** A playlist item's `track` object; only its first artist is kept. */
  datatype Track = Track(id: string, name: string, popularity: int, artist: Artist, album: Album)

  /** A playlist and the pages `playlist_tracks` returns for it, in the order
      successive fetches return them. */
  datatype Playlist = Playlist(id: string, name: string, trackPages: seq<Page<Track>>)

  /** The API calls and governor checks, in the order they are made. */
  datatype Call =
    | CurrentUser                                   // sp.current_user()
    | RateCheck                                     // rate_limit_check()
    | FetchTracks(playlistId: string, offset: nat)  // sp.playlist_tracks(id, offset=offset)
    | CreatePlaylist(user: string, name: string)    // sp.user_playlist_create(user, name, public=False)
    | AddItems(tracks: seq<string>)                 // sp.playlist_add_items(new playlist, tracks)

  /** Some page of the chain is the last one. */
  predicate HasLast<T>(pages: seq<Page<T>>)
  {
    exists k :: 0 <= k < |pages| && !pages[k].hasNext
  }

  /** The position of the first page without `next`. */
  function FirstLast<T>(pages: seq<Page<T>>): (i: nat)
    requires HasLast(pages)
    ensures i < |pages| && !pages[i].hasNext
    ensures forall j :: 0 <= j < i ==> pages[j].hasNext
  {
    if !pages[0].hasNext then 0
    else
      var tail := pages[1..];
      assert HasLast(tail) by {
        var k :| 0 <= k < |pages| && !pages[k].hasNext;
        assert tail[k - 1] == pages[k];
      }
      var i := 1 + FirstLast(tail);
      assert forall j :: 1 <= j < i ==> pages[j] == tail[j - 1];
      i
  }

  /** The pages a reader that follows `next` reads: everything up to and
      including the first page without `next` (all of them if none lacks it). */
  function UpToLast<T>(pages: seq<Page<T>>): seq<Page<T>>
  {
    if HasLast(pages) then pages[..FirstLast(pages) + 1] else pages
  }

  /** The items of a sequence of pages, page after page. */
  function Items<T>(pages: seq<Page<T>>): (r: seq<T>)
    decreases |pages|
  {
    if pages == [] then [] else Items(pages[..|pages| - 1]) + pages[|pages| - 1].items
  }

  /** The items of the pages before `k` and of the pages from `k` on. */
  lemma {:induction false} ItemsSplit<T>(pages: seq<Page<T>>, k: nat)
    requires k <= |pages|
    ensures Items(pages) == Items(pages[..k]) + Items(pages[k..])
    decreases |pages|
  {
    if k == |pages| {
      assert pages[..k] == pages && pages[k..] == [];
    } else {
      var n := |pages| - 1;
      var init, rest := pages[..n], pages[k..];
      ItemsSplit(init, k);
      assert init[..k] == pages[..k];
      assert rest[..|rest| - 1] == init[k..] && rest[|rest| - 1] == pages[n];
      assert Items(rest) == Items(init[k..]) + pages[n].items;
    }
  }

  /** The reader stops at page `k` when it is the first page without `next`. */
  lemma UpToLastAt<T>(pages: seq<Page<T>>, k: nat)
    requires k < |pages| && !pages[k].hasNext
    requires forall j :: 0 <= j < k ==> pages[j].hasNext
    ensures HasLast(pages) && FirstLast(pages) == k
    ensures UpToLast(pages) == pages[..k + 1]
  {
    assert HasLast(pages);
    var i := FirstLast(pages);
    assert !(i < k) && !(k < i);
  }

  /** The items of the pages read are those before page `k`, then page `k`'s,
      then those after it. */
  lemma ItemsAround<T>(pages: seq<Page<T>>, k: nat)
    requires k < |pages|
    ensures Items(pages) == Items(pages[..k]) + pages[k].items + Items(pages[k + 1..])
  {
    ItemsPrefix(pages, k);
    ItemsSplit(pages, k + 1);
  }

  /** One more page read: its items follow those read before. */
  lemma ItemsPrefix<T>(pages: seq<Page<T>>, k: nat)
    requires k < |pages|
    ensures Items(pages[..k + 1]) == Items(pages[..k]) + pages[k].items
  {
    assert pages[..k + 1][..k] == pages[..k];
  }

  /** Item `j` of page `k` comes right after the items of the pages before it. */
  lemma ItemsAt<T>(pages: seq<Page<T>>, k: nat, j: nat)
    requires k < |pages| && j < |pages[k].items|
    ensures |Items(pages[..k])| + j < |Items(pages)|
    ensures Items(pages)[|Items(pages[..k])| + j] == pages[k].items[j]
  {
    ItemsAround(pages, k);
    var before, here, after := Items(pages[..k]), pages[k].items, Items(pages[k + 1..]);
    assert (before + here + after)[|before| + j] == here[j];
  }

  /** Sequences one after the other. */
  function Concat<T>(ss: seq<seq<T>>): seq<T>
    decreases |ss|
  {
    if ss == [] then [] else Concat(ss[..|ss| - 1]) + ss[|ss| - 1]
  }

  lemma {:induction false} ConcatAppend<T>(a: seq<seq<T>>, b: seq<seq<T>>)
    ensures Concat(a + b) == Concat(a) + Concat(b)
    decreases |b|
  {
    if b == [] {
      assert a + b == a;
    } else {
      var b' := b[..|b| - 1];
      assert (a + b)[..|a + b| - 1] == a + b';
      assert (a + b)[|a + b| - 1] == b[|b| - 1];
      ConcatAppend(a, b');
      assert Concat(b) == Concat(b') + b[|b| - 1];
    }
  }

  lemma ConcatOne<T>(s: seq<T>)
    ensures Concat([s]) == s
  {
    assert [s][..0] == [];
  }

  lemma {:induction false} ConcatMembers<T>(ss: seq<seq<T>>, x: T)
    ensures x in Concat(ss) <==> exists i :: 0 <= i < |ss| && x in ss[i]
    decreases |ss|
  {
    if ss != [] {
      var init := ss[..|ss| - 1];
      ConcatMembers(init, x);
      assert forall i :: 0 <= i < |init| ==> init[i] == ss[i];
    }
  }

  lemma ConcatStep<T>(ss: seq<seq<T>>, k: nat)
    requires k < |ss|
    ensures Concat(ss[..k + 1]) == Concat(ss[..k]) + ss[k]
  {
    assert ss[..k + 1][..k] == ss[..k];
  }

  /** The sequence that an element of the concatenation comes from. */
  lemma ConcatWhich<T>(ss: seq<seq<T>>, x: T) returns (i: nat)
    requires x in Concat(ss)
    ensures i < |ss| && x in ss[i]
  {
    ConcatMembers(ss, x);
    i :| i < |ss| && x in ss[i];
  }
}
