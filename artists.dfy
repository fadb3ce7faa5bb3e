/**
 * The artists screen (`ContentView`): the authorization gate in front of
 * the media library and the loading of the artist list.
 */
module Artists {
  import opened Wrappers
  import opened MediaLibrary
  import opened Sorting
  import opened CompactMaps

  /** An artist as listed; its fresh UUID is not modelled. */
  datatype Artist = Artist(name: string, imageName: string)

  /** The icon every loaded artist is shown with. */
  const PlaceholderImage: string := "person.fill"

  function ArtistName(a: Artist): string {
    a.name
  }

  /** `collection.representativeItem?.artist`: nil when there is no representative item or it has no artist. */
  function RepresentativeArtist(c: MediaItemCollection): (r: Option<string>)
    ensures r.Some? <==> c.representativeItem.Some? && c.representativeItem.value.artist.Some?
    ensures r.Some? ==> r == c.representativeItem.value.artist
  {
    match c.representativeItem
    case None => None
    case Some(item) => item.artist
  }

  /** The transform handed to `compactMap` in `loadArtists`: the representative artist with the placeholder icon. */
  function ArtistOf(c: MediaItemCollection): (r: Option<Artist>)
    ensures r.Some? <==> RepresentativeArtist(c).Some?
    ensures r.Some? ==> Some(r.value.name) == RepresentativeArtist(c) && r.value.imageName == PlaceholderImage
  {
    match RepresentativeArtist(c)
    case None => None
    case Some(name) => Some(Artist(name, PlaceholderImage))
  }

  /** The artists with the given names, each with the placeholder icon. */
  function WithPlaceholder(names: seq<string>): (r: seq<Artist>)
    ensures |r| == |names|
    ensures forall i :: 0 <= i < |names| ==> r[i] == Artist(names[i], PlaceholderImage)
  {
    seq(|names|, i requires 0 <= i < |names| => Artist(names[i], PlaceholderImage))
  }

  /** The entries `compactMap` yields are the present representative artist names, in query order. */
  lemma {:induction false} ArtistEntries(collections: seq<MediaItemCollection>)
    ensures CompactMap(collections, ArtistOf) == WithPlaceholder(CompactMap(collections, RepresentativeArtist))
  {
    if collections != [] {
      ArtistEntries(collections[1..]);
    }
  }

  /**
   * The list `loadArtists` assigns for the collections an artists query
   * returns: the collections whose representative item names an artist,
   * as placeholder-icon artists, sorted by name.
   */
  function LoadedArtists(collections: seq<MediaItemCollection>): (r: seq<Artist>)
    ensures SortedBy(r, ArtistName)
    ensures multiset(r) == multiset(WithPlaceholder(CompactMap(collections, RepresentativeArtist)))
    ensures |r| <= |collections|
    ensures forall a :: a in r <==>
              a.imageName == PlaceholderImage &&
              exists i :: 0 <= i < |collections| && RepresentativeArtist(collections[i]) == Some(a.name)
  {
    var entries := CompactMap(collections, ArtistOf);
    ArtistEntries(collections);
    var r := SortBy(entries, ArtistName);
    assert |r| == |multiset(r)| == |entries|;
    forall a ensures a in r <==> a in entries {
      assert a in r <==> a in multiset(r);
    }
    forall a ensures a in entries <==>
        a.imageName == PlaceholderImage &&
        exists i :: 0 <= i < |collections| && RepresentativeArtist(collections[i]) == Some(a.name)
    {
      CompactMapMember(collections, ArtistOf, a);
    }
    r
  }

  /**
   * Whatever algorithm Swift's `sorted` uses, its result is the modelled
   * one: any name-sorted permutation of the entries equals `LoadedArtists`.
   */
  lemma LoadedArtistsAnySort(collections: seq<MediaItemCollection>, other: seq<Artist>)
    requires SortedBy(other, ArtistName)
    requires multiset(other) == multiset(CompactMap(collections, ArtistOf))
    ensures other == LoadedArtists(collections)
  {
    ArtistEntries(collections);
    var r := LoadedArtists(collections);
    forall x | x in other ensures x.imageName == PlaceholderImage {
      assert x in multiset(other);
      CompactMapMember(collections, ArtistOf, x);
    }
    SortedPermutationsEqual(other, r, ArtistName);
  }

  /** The state of the artists screen. */
  class ContentView {
    var artists: seq<Artist>
    var authorizationStatus: AuthorizationStatus

    /** Without access to the library the screen holds no artists. */
    ghost predicate Valid()
      reads this
    {
      authorizationStatus != Authorized ==> artists == []
    }

    /** `init(artists:)`: supplied artists count as authorized; otherwise start empty and undetermined. */
    constructor (initialArtists: Option<seq<Artist>>)
      ensures initialArtists.Some? ==> artists == initialArtists.value && authorizationStatus == Authorized
      ensures initialArtists.None? ==> artists == [] && authorizationStatus == NotDetermined
      ensures Valid()
    {
      match initialArtists {
        case Some(given) =>
          artists := given;
          authorizationStatus := Authorized;
        case None =>
          artists := [];
          authorizationStatus := NotDetermined;
      }
    }

    /** `loadArtists`: `collections` is what the artists query returns; nil leaves the list as it was. */
    method LoadArtists(collections: Option<seq<MediaItemCollection>>)
      modifies this
      ensures authorizationStatus == old(authorizationStatus)
      ensures collections.None? ==> artists == old(artists)
      ensures collections.Some? ==> artists == LoadedArtists(collections.value)
    {
      if collections.Some? {
        artists := LoadedArtists(collections.value);
      }
    }

    /**
     * `requestMediaLibraryAuthorization` together with its callback, taken
     * as one step: `response` is the status the user's answer yields and
     * `collections` what the artists query then returns.
     */
    method RequestMediaLibraryAuthorization(response: AuthorizationStatus,
                                            collections: Option<seq<MediaItemCollection>>)
      modifies this
      ensures authorizationStatus == response
      ensures artists == if response == Authorized && collections.Some?
                         then LoadedArtists(collections.value) else old(artists)
      ensures artists != old(artists) ==> authorizationStatus == Authorized
      ensures old(Valid()) && old(authorizationStatus) != Authorized ==> Valid()
    {
      authorizationStatus := response;
      if response == Authorized {
        LoadArtists(collections);
      }
    }

    /**
     * `checkMediaLibraryAuthorization`, run when the screen appears:
     * `systemStatus` is what the library reports now, and `response` the
     * answer to the request made when that is still undetermined.
     */
    method CheckMediaLibraryAuthorization(systemStatus: AuthorizationStatus,
                                          response: AuthorizationStatus,
                                          collections: Option<seq<MediaItemCollection>>)
      modifies this
      ensures old(artists) != [] || old(authorizationStatus) != NotDetermined ==>
                artists == old(artists) && authorizationStatus == old(authorizationStatus)
      ensures old(artists) == [] && old(authorizationStatus) == NotDetermined ==>
                authorizationStatus == (if systemStatus == NotDetermined then response else systemStatus) &&
                artists == (if authorizationStatus == Authorized && collections.Some?
                            then LoadedArtists(collections.value) else [])
      ensures artists != old(artists) ==> authorizationStatus == Authorized
      ensures old(Valid()) ==> Valid()
    {
      if |artists| == 0 && authorizationStatus == NotDetermined {
        authorizationStatus := systemStatus;
        if authorizationStatus == NotDetermined {
          RequestMediaLibraryAuthorization(response, collections);
        } else if authorizationStatus == Authorized {
          LoadArtists(collections);
        }
      }
    }
  }
}
