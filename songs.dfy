/** The songs screen of one album (`SongListView`). */
module Songs {
  import opened Wrappers
  import opened MediaLibrary
  import opened CompactMaps
  import opened Decimal
  import opened Albums

  /** A song as listed; `duration` is in whole seconds. */
  datatype Song = Song(id: PersistentID, title: string, duration: nat)

  /** The transform handed to `compactMap` in `loadSongs`: nil exactly for an item without a title. */
  function SongOf(item: MediaItem): (r: Option<Song>)
    ensures r.Some? <==> item.title.Some?
    ensures r.Some? ==> (Some(r.value.title) == item.title &&
                         r.value.id == item.persistentID && r.value.duration == item.playbackDuration)
  {
    match item.title
    case None => None
    case Some(title) => Some(Song(item.persistentID, title, item.playbackDuration))
  }

  /** The songs query's filter: keep an item, unchanged, when its album title equals `title`. */
  function KeepIfAlbumTitle(title: string): (keep: MediaItem -> Option<MediaItem>)
    ensures forall item :: keep(item).Some? <==> item.albumTitle == Some(title)
    ensures forall item :: keep(item).Some? ==> keep(item).value == item
  {
    (item: MediaItem) => if item.albumTitle == Some(title) then Some(item) else None
  }

  /**
   * The items a songs query filtered by album title returns from the
   * library: those whose album title equals `title` exactly, taken to come
   * in library order. No other property, the artist included, takes part.
   */
  function ItemsWithAlbumTitle(library: seq<MediaItem>, title: string): (r: seq<MediaItem>)
    ensures |r| <= |library|
    ensures forall item :: item in r <==> item in library && item.albumTitle == Some(title)
  {
    var r := CompactMap(library, KeepIfAlbumTitle(title));
    forall item ensures item in r <==> item in library && item.albumTitle == Some(title) {
      CompactMapMember(library, KeepIfAlbumTitle(title), item);
    }
    r
  }

  /** The matching items keep the library's order: item `m` is the `m`-th matching one. */
  lemma ItemsWithAlbumTitleOrder(library: seq<MediaItem>, title: string)
    ensures |ItemsWithAlbumTitle(library, title)| == |KeptIndices(library, KeepIfAlbumTitle(title))|
    ensures forall m :: 0 <= m < |KeptIndices(library, KeepIfAlbumTitle(title))| ==>
              library[KeptIndices(library, KeepIfAlbumTitle(title))[m]] == ItemsWithAlbumTitle(library, title)[m]
  {
    CompactMapOrder(library, KeepIfAlbumTitle(title));
  }

  /** The list `loadSongs` assigns for the items of the songs query: those with a title, in query order. */
  function LoadedSongs(items: seq<MediaItem>): (r: seq<Song>)
    ensures |r| <= |items|
    ensures |r| == |items| <==> forall i :: 0 <= i < |items| ==> items[i].title.Some?
  {
    CompactMapKeepsAll(items, SongOf);
    CompactMap(items, SongOf)
  }

  /**
   * The songs are the titled items in order: song `m` is made from the
   * `m`-th titled item, copying its persistent id and duration.
   */
  lemma LoadedSongsOrder(items: seq<MediaItem>)
    ensures |LoadedSongs(items)| == |KeptIndices(items, SongOf)|
    ensures forall m :: 0 <= m < |KeptIndices(items, SongOf)| ==>
              var item := items[KeptIndices(items, SongOf)[m]];
              item.title == Some(LoadedSongs(items)[m].title) &&
              item.persistentID == LoadedSongs(items)[m].id &&
              item.playbackDuration == LoadedSongs(items)[m].duration
  {
    CompactMapOrder(items, SongOf);
  }

  /** No re-sorting: the songs of a concatenation are the songs of each part in turn. */
  lemma LoadedSongsAppend(items: seq<MediaItem>, more: seq<MediaItem>)
    ensures LoadedSongs(items + more) == LoadedSongs(items) + LoadedSongs(more)
  {
    CompactMapAppend(items, more, SongOf);
  }

  /** A song is listed for `title` exactly when some item with that album title is made into it. */
  lemma SongsOfAlbum(library: seq<MediaItem>, title: string, s: Song)
    ensures s in LoadedSongs(ItemsWithAlbumTitle(library, title)) <==>
              exists i :: 0 <= i < |library| && library[i].albumTitle == Some(title) && SongOf(library[i]) == Some(s)
  {
    var items := ItemsWithAlbumTitle(library, title);
    CompactMapMember(items, SongOf, s);
    if exists j :: 0 <= j < |items| && SongOf(items[j]) == Some(s) {
      var j :| 0 <= j < |items| && SongOf(items[j]) == Some(s);
      CompactMapMember(library, KeepIfAlbumTitle(title), items[j]);
    }
    if exists i :: 0 <= i < |library| && library[i].albumTitle == Some(title) && SongOf(library[i]) == Some(s) {
      var i :| 0 <= i < |library| && library[i].albumTitle == Some(title) && SongOf(library[i]) == Some(s);
      CompactMapMember(library, KeepIfAlbumTitle(title), library[i]);
      var j :| 0 <= j < |items| && items[j] == library[i];
    }
  }

  /** Two libraries that differ only in the artists of their items. */
  predicate SameExceptArtists(library: seq<MediaItem>, other: seq<MediaItem>) {
    |library| == |other| &&
    forall i :: 0 <= i < |library| ==> library[i].(artist := other[i].artist) == other[i]
  }

  lemma OneItemIgnoresArtist(item: MediaItem, other: MediaItem, title: string)
    requires item.(artist := other.artist) == other
    ensures LoadedSongs(ItemsWithAlbumTitle([item], title)) == LoadedSongs(ItemsWithAlbumTitle([other], title))
  {
    assert item.albumTitle == other.albumTitle && SongOf(item) == SongOf(other);
  }

  /** Splits a library into its first item and the rest. */
  lemma SongsOfFirstAndRest(library: seq<MediaItem>, title: string)
    requires library != []
    ensures LoadedSongs(ItemsWithAlbumTitle(library, title)) ==
              LoadedSongs(ItemsWithAlbumTitle([library[0]], title)) + LoadedSongs(ItemsWithAlbumTitle(library[1..], title))
  {
    assert library == [library[0]] + library[1..];
    CompactMapAppend([library[0]], library[1..], KeepIfAlbumTitle(title));
    LoadedSongsAppend(ItemsWithAlbumTitle([library[0]], title), ItemsWithAlbumTitle(library[1..], title));
  }

  /**
   * The artist plays no part in which songs an album lists: items of
   * different artists that share the album title are all listed.
   */
  lemma {:induction false} SongsIgnoreArtist(library: seq<MediaItem>, other: seq<MediaItem>, title: string)
    requires SameExceptArtists(library, other)
    ensures LoadedSongs(ItemsWithAlbumTitle(library, title)) == LoadedSongs(ItemsWithAlbumTitle(other, title))
  {
    if library != [] {
      assert SameExceptArtists(library[1..], other[1..]) by {
        forall i | 0 <= i < |library[1..]|
          ensures library[1..][i].(artist := other[1..][i].artist) == other[1..][i]
        {
          assert library[1..][i] == library[i + 1] && other[1..][i] == other[i + 1];
        }
      }
      SongsIgnoreArtist(library[1..], other[1..], title);
      OneItemIgnoresArtist(library[0], other[0], title);
      SongsOfFirstAndRest(library, title);
      SongsOfFirstAndRest(other, title);
    }
  }

  /**
   * Two artists each with an album titled "X": the songs listed for "X"
   * take in the songs of both.
   */
  lemma SharedAlbumTitleScenario()
    ensures var library := [
              MediaItem(1, Some("S1"), Some("A"), Some("X"), None, 200),
              MediaItem(2, Some("S2"), Some("B"), Some("X"), None, 180)];
            LoadedSongs(ItemsWithAlbumTitle(library, "X")) == [Song(1, "S1", 200), Song(2, "S2", 180)]
  {
    var library := [
      MediaItem(1, Some("S1"), Some("A"), Some("X"), None, 200),
      MediaItem(2, Some("S2"), Some("B"), Some("X"), None, 180)];
    SongsOfFirstAndRest(library, "X");
    assert library[1..] == [library[1]];
  }

  /** The state of the songs screen. */
  class SongListView {
    const album: Album
    var songs: seq<Song>

    constructor (album: Album)
      ensures this.album == album && songs == []
    {
      this.album := album;
      songs := [];
    }

    /**
     * `loadSongs`: `queriedLibrary` is the media library the songs query
     * reads, or `None` when the query's `items` is nil, which leaves the
     * list as it was.
     */
    method LoadSongs(queriedLibrary: Option<seq<MediaItem>>)
      modifies this
      ensures queriedLibrary.None? ==> songs == old(songs)
      ensures queriedLibrary.Some? ==> songs == LoadedSongs(ItemsWithAlbumTitle(queriedLibrary.value, album.title))
      ensures queriedLibrary.Some? ==> forall s :: s in songs ==>
                exists i :: 0 <= i < |queriedLibrary.value| &&
                  queriedLibrary.value[i].albumTitle == Some(album.title) && SongOf(queriedLibrary.value[i]) == Some(s)
    {
      if queriedLibrary.Some? {
        songs := LoadedSongs(ItemsWithAlbumTitle(queriedLibrary.value, album.title));
        forall s | s in songs
          ensures exists i :: 0 <= i < |queriedLibrary.value| &&
                    queriedLibrary.value[i].albumTitle == Some(album.title) && SongOf(queriedLibrary.value[i]) == Some(s)
        {
          SongsOfAlbum(queriedLibrary.value, album.title, s);
        }
      }
    }
  }

  /**
   * `formatDuration` for a whole number of seconds: minutes, a colon and
   * seconds, each at least two digits with leading zeros (`%02d:%02d`).
   */
  function FormatDuration(duration: nat): (r: string)
    ensures |r| >= 5 && r[|r| - 3] == ':'
    ensures AllDigits(r[..|r| - 3]) && AllDigits(r[|r| - 2..])
    ensures Value(r[..|r| - 3]) == duration / 60
    ensures Value(r[|r| - 2..]) == duration % 60 < 60
    ensures Value(r[..|r| - 3]) * 60 + Value(r[|r| - 2..]) == duration
    ensures |r| == 5 <==> duration < 6000
    ensures r[0] == '0' <==> duration < 600
  {
    var minutes := duration / 60;
    var seconds := duration % 60;
    var m := ZeroPadded(minutes, 2);
    var s := ZeroPadded(seconds, 2);
    MinutesAndSeconds(duration);
    DigitsLength(minutes);
    DigitsLength(seconds);
    ValueOfZeroPadded(minutes, 2);
    ValueOfZeroPadded(seconds, 2);
    TwoDigitLeadingZero(minutes);
    ClockParts(m, s);
    m + ":" + s
  }

  /** How whole minutes and leftover seconds relate to the duration. */
  lemma MinutesAndSeconds(duration: nat)
    ensures (duration / 60) * 60 + duration % 60 == duration
    ensures duration % 60 < 60
    ensures duration / 60 < 100 <==> duration < 6000
    ensures duration / 60 < 10 <==> duration < 600
  {
  }

  /** Where the minutes and the seconds sit in `m:s`. */
  lemma ClockParts(m: string, s: string)
    requires |m| >= 1 && |s| == 2
    ensures var r := m + ":" + s;
      |r| == |m| + 3 && r[|r| - 3] == ':' && r[..|r| - 3] == m && r[|r| - 2..] == s && r[0] == m[0]
  {
    var r := m + ":" + s;
    assert r[..|r| - 3] == m;
    assert r[|r| - 2..] == s;
  }
}
