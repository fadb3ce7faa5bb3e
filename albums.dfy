/** The albums screen of one artist (`AlbumView`). */
module Albums {
  import opened Wrappers
  import opened MediaLibrary
  import opened Sorting
  import opened CompactMaps
  import opened Artists

  /** An album as listed: a title and artwork that may be absent; its fresh id is not modelled. */
  datatype Album = Album(title: string, artwork: Option<Artwork>)

  function AlbumTitle(a: Album): string {
    a.title
  }

  /**
   * The transform handed to `compactMap` in `loadAlbums`: title and
   * artwork both come from the collection's representative item.
   */
  function AlbumOf(c: MediaItemCollection): (r: Option<Album>)
    ensures r.Some? <==> c.representativeItem.Some? && c.representativeItem.value.albumTitle.Some?
    ensures r.Some? ==> (Some(r.value.title) == c.representativeItem.value.albumTitle &&
                         r.value.artwork == c.representativeItem.value.artwork)
  {
    match c.representativeItem
    case None => None
    case Some(item) =>
      match item.albumTitle
      case None => None
      case Some(title) => Some(Album(title, item.artwork))
  }

  /**
   * The list `loadAlbums` assigns for the collections the albums query
   * returns: one album per collection whose representative item has an
   * album title, sorted by title; albums with the same title keep the
   * order of their collections, since Swift's sort is stable.
   */
  function LoadedAlbums(collections: seq<MediaItemCollection>): (r: seq<Album>)
    ensures SortedBy(r, AlbumTitle)
    ensures multiset(r) == multiset(CompactMap(collections, AlbumOf))
    ensures |r| <= |collections|
    ensures forall a :: a in r <==>
              exists i :: 0 <= i < |collections| && collections[i].representativeItem.Some? &&
                collections[i].representativeItem.value.albumTitle == Some(a.title) &&
                collections[i].representativeItem.value.artwork == a.artwork
    ensures forall t :: WithKey(r, AlbumTitle, t) == WithKey(CompactMap(collections, AlbumOf), AlbumTitle, t)
  {
    var entries := CompactMap(collections, AlbumOf);
    var r := SortBy(entries, AlbumTitle);
    forall t ensures WithKey(r, AlbumTitle, t) == WithKey(entries, AlbumTitle, t) {
      SortByStable(entries, AlbumTitle, t);
    }
    assert |r| == |multiset(r)| == |entries|;
    forall a ensures a in r <==> a in entries {
      assert a in r <==> a in multiset(r);
    }
    forall a ensures a in entries <==>
        exists i :: 0 <= i < |collections| && collections[i].representativeItem.Some? &&
          collections[i].representativeItem.value.albumTitle == Some(a.title) &&
          collections[i].representativeItem.value.artwork == a.artwork
    {
      CompactMapMember(collections, AlbumOf, a);
    }
    r
  }

  /**
   * Whatever algorithm Swift's stable `sorted` uses, its result is the
   * modelled one: any title-sorted list that keeps each title's albums in
   * collection order equals `LoadedAlbums`.
   */
  lemma LoadedAlbumsAnyStableSort(collections: seq<MediaItemCollection>, other: seq<Album>)
    requires SortedBy(other, AlbumTitle)
    requires forall t :: WithKey(other, AlbumTitle, t) == WithKey(CompactMap(collections, AlbumOf), AlbumTitle, t)
    ensures other == LoadedAlbums(collections)
  {
    SortedStableEqual(other, LoadedAlbums(collections), AlbumTitle);
  }

  /** The state of the albums screen. */
  class AlbumView {
    const artist: Artist
    var albums: seq<Album>

    /** The screen as navigation opens it: no albums until they are loaded. */
    constructor (artist: Artist)
      ensures this.artist == artist && albums == []
    {
      this.artist := artist;
      albums := [];
    }

    /** `init(artist:albums:)`: the albums are kept exactly as given, neither filtered nor sorted. */
    constructor WithAlbums(artist: Artist, albums: seq<Album>)
      ensures this.artist == artist && this.albums == albums
    {
      this.artist := artist;
      this.albums := albums;
    }

    /**
     * `loadAlbums`: `collections` is what the albums query filtered by
     * `artist.name` returns; nil leaves the list as it was.
     */
    method LoadAlbums(collections: Option<seq<MediaItemCollection>>)
      modifies this
      ensures collections.None? ==> albums == old(albums)
      ensures collections.Some? ==> albums == LoadedAlbums(collections.value)
    {
      if collections.Some? {
        albums := LoadedAlbums(collections.value);
      }
    }
  }
}
