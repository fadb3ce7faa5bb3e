/**
 * The parts of the host media library the screens read: media items, the
 * collections a grouped query returns, and the authorization status. The
 * library's own grouping and choice of representative item are not
 * modelled; a query result is an input.
 */
module MediaLibrary {
  import opened Wrappers

  /** `MPMediaEntityPersistentID`, an unsigned 64-bit integer. */
  newtype PersistentID = x: int | 0 <= x < 0x1_0000_0000_0000_0000

  /** An opaque handle to the artwork of an item (`MPMediaItemArtwork`). */
  datatype Artwork = Artwork(handle: nat)

  /**
   * One media item with the properties the screens read; every optional
   * property may be nil. `playbackDuration` is in whole seconds.
   */
  datatype MediaItem = MediaItem(
    persistentID: PersistentID,
    title: Option<string>,
    artist: Option<string>,
    albumTitle: Option<string>,
    artwork: Option<Artwork>,
    playbackDuration: nat)

  /** A group of items as an artists or albums query returns it; only its representative item is read. */
  datatype MediaItemCollection = MediaItemCollection(representativeItem: Option<MediaItem>)

  /** `MPMediaLibraryAuthorizationStatus`. */
  datatype AuthorizationStatus = NotDetermined | Denied | Restricted | Authorized
}
