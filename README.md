# SimpleMusic: the decisions behind a three-screen media browser

SimpleMusic is a SwiftUI app that browses the device's media library in
three steps: artists, then an artist's albums, then an album's songs. Almost
all of it is view layout or calls into `MPMediaQuery`. This model covers the
parts of the code that make decisions:

- **Result shaping.** Each screen turns a query result into the list it shows.
  It drops the entries whose key property is nil (Swift's `compactMap`).
  Artists are then sorted by name and albums by title. Songs keep the order
  the query gave them.
- **The authorization gate** of the artists screen. It has four statuses
  (`notDetermined`, `denied`, `restricted`, `authorized`). It decides when
  access is requested and when artists are loaded.
- **`formatDuration`**, which writes a song's length as `mm:ss`.

Layout of the project:

- `media_library.dfy`: the library's items and collections, persistent ids
  as unsigned 64-bit integers, and the authorization status.
- `compact_map.dfy`: `compactMap`, with membership, length, order and
  concatenation lemmas. The order lemma compares the result with the list of
  kept positions.
- `text_order.dfy`, `sorting.dfy`: the string order and a sort by key. Like
  Swift's `sorted`, the sort is stable. It is proved ordered, a permutation
  of its input, and stable: elements with equal keys keep their input order.
  Being ordered and stable fixes the result, so any stable sort gives the
  same list.
- `decimal.dfy`: `%d` and `%0<w>d` text, and reading digits back as a number.
- `artists.dfy`, `albums.dfy`, `songs.dfy`: one module per screen. Each has the
  pure list computation and a class holding the screen's `@State` fields,
  with one method per operation.

A query result is an input to the model. `loadArtists` and `loadAlbums` take
the collections the query returns. `nil` is `None`, and then the list is
left as it was. `Songs.SongListView.LoadSongs` takes `queriedLibrary`, the
library the songs query reads; `None` stands for the query's `items` being
nil. Its album-title filter is modelled as exact equality, the default
comparison of `MPMediaPropertyPredicate`. The matching items are taken to
come back in library order; the query's own order is not documented, and
`Songs.ItemsWithAlbumTitle` is where this assumption sits. The permission
callback is modelled as one synchronous step: `response` is the status it
delivers, and `collections` is what the artists query then returns.

The class `Artists.ContentView` keeps the invariant `Valid()`: if the status
is not `authorized`, the artist list is empty. `init` establishes it and
`checkMediaLibraryAuthorization` preserves it. `requestMediaLibraryAuthorization`
preserves it whenever it is called while not authorized. The source only calls
it that way: from the "Request Access" button, which is shown only in the
unauthorized branch (`SimpleMusic/ContentView.swift:51-57`), and from the check
while the status is still undetermined.

Three behaviours of the code are kept as written:

- Nothing is de-duplicated. Distinct names come only from the library's
  grouping.
- Names and titles are compared with `<`, not with locale-aware collation.
- The songs filter is the album title alone. Two artists' albums with the
  same title list each other's songs. `Songs.SongsIgnoreArtist` and
  `Songs.SharedAlbumTitleScenario` state this.

## Model

| member | source | states |
|---|---|---|
| `TextOrder.Below` | SimpleMusic/ContentView.swift:95 | `a < b` for strings: `a` is a proper prefix of `b`, or `a` has the smaller code point at the first position where they differ |
| `TextOrder.BelowTrichotomy` | SimpleMusic/ContentView.swift:95 | any two names compare: one is below the other or they are equal |
| `TextOrder.BelowTransitive` | SimpleMusic/ContentView.swift:95 | the name order `<` is transitive |
| `TextOrder.BelowAsymmetric` | SimpleMusic/ContentView.swift:95 | `a < b` excludes `b < a` |
| `Sorting.Insert` | SimpleMusic/ContentView.swift:95 | inserting into a sorted list keeps it sorted and adds exactly that element |
| `Sorting.SortBy` | SimpleMusic/AlbumView.swift:56 | `sorted { key($0) < key($1) }`: the result has no key below an earlier one and is a permutation of the input |
| `Sorting.InsertStable` | SimpleMusic/AlbumView.swift:56 | an inserted element lands in front of the elements that share its key and leaves their order alone |
| `Sorting.SortByStable` | SimpleMusic/AlbumView.swift:56 | the sort is stable: for every key, the elements with that key come out in their input order |
| `Sorting.SortedStableEqual` | SimpleMusic/AlbumView.swift:56 | two sorted lists holding the same elements of every key in the same order are equal, so a stable sort has one possible result |
| `Sorting.SortedPermutationsEqual` | SimpleMusic/ContentView.swift:95 | two sorted permutations of one list are equal when the key tells its elements apart, so the sort algorithm does not matter |
| `CompactMaps.CompactMap` | SimpleMusic/ContentView.swift:90-94 | `compactMap` yields at most as many elements as it is given |
| `CompactMaps.KeptIndicesFrom` | SimpleMusic/SongListView.swift:49-54 | the positions with a non-nil transform, strictly increasing, each valid, none missing |
| `CompactMaps.CompactMapOrder` | SimpleMusic/SongListView.swift:49-54 | element `m` of the result is the transform of the `m`-th kept position: order kept, nothing present lost |
| `CompactMaps.CompactMapMember` | SimpleMusic/ContentView.swift:90-94 | a value is in the result exactly when some input element is transformed into it |
| `CompactMaps.CompactMapKeepsAll` | SimpleMusic/SongListView.swift:49-54 | the result is as long as the input exactly when no transform is nil |
| `CompactMaps.CompactMapAppend` | SimpleMusic/SongListView.swift:49-54 | `compactMap` of a concatenation is the concatenation of the parts' results |
| `Decimal.Digits` | SimpleMusic/SongListView.swift:61 | `%d` text is non-empty and all digits, and starts with '0' exactly for zero: no leading zeros |
| `Decimal.ZeroPadded` | SimpleMusic/SongListView.swift:61 | `%0wd` text is all digits and has length max(w, number of digits) |
| `Decimal.ValueOfDigits` | SimpleMusic/SongListView.swift:61 | reading the `%d` text of `n` gives back `n` |
| `Decimal.ValueOfZeroPadded` | SimpleMusic/SongListView.swift:61 | reading `%0wd` text gives back the number: leading zeros change nothing |
| `Decimal.DigitsLength` | SimpleMusic/SongListView.swift:61 | one digit exactly below 10, at most two exactly below 100 |
| `Decimal.TwoDigitLeadingZero` | SimpleMusic/SongListView.swift:61 | `%02d` text starts with '0' exactly for numbers below 10 |
| `Artists.RepresentativeArtist` | SimpleMusic/ContentView.swift:91 | `collection.representativeItem?.artist`: present exactly when the collection has a representative item with an artist, and then that artist |
| `Artists.ArtistOf` | SimpleMusic/ContentView.swift:90-94 | the transform handed to `compactMap`: nil exactly when the artist name is, otherwise an artist of that name with icon "person.fill" |
| `Artists.ArtistEntries` | SimpleMusic/ContentView.swift:90-94 | the compactMapped artists are the present representative artist names, in query order, each with icon "person.fill" |
| `Artists.LoadedArtists` | SimpleMusic/ContentView.swift:90-95 | the loaded artists are sorted by name and are a permutation of the present representative names. There are no more of them than collections. Each has icon "person.fill". An artist is listed exactly when some collection's representative item names it |
| `Artists.LoadedArtistsAnySort` | SimpleMusic/ContentView.swift:95 | any name-sorted permutation of the entries equals the loaded list |
| `Artists.ContentView.constructor` | SimpleMusic/ContentView.swift:27-34 | supplied artists are stored unchanged with status authorized. Otherwise the list is empty and the status undetermined. The invariant holds |
| `Artists.ContentView.LoadArtists` | SimpleMusic/ContentView.swift:87-97 | nil collections leave the list unchanged. Otherwise the list becomes `LoadedArtists` of the collections. The status is untouched |
| `Artists.ContentView.RequestMediaLibraryAuthorization` | SimpleMusic/ContentView.swift:76-85 | the status becomes the response, and artists are loaded only when it is authorized. Called while unauthorized, the invariant is kept |
| `Artists.ContentView.CheckMediaLibraryAuthorization` | SimpleMusic/ContentView.swift:64-74 | nothing changes when artists are present or the status is already determined. Otherwise it takes the system status, requests access if that is still undetermined, and loads artists only on reaching authorized. Denied and restricted leave the list empty. The invariant is kept |
| `Albums.AlbumOf` | SimpleMusic/AlbumView.swift:51-55 | the transform handed to `compactMap`: nil exactly when there is no representative item or it has no album title, otherwise an album with that item's title and artwork |
| `Albums.LoadedAlbums` | SimpleMusic/AlbumView.swift:50-56 | the albums are sorted by title and are a permutation of the compactMapped entries, no more than the collections. An album is listed exactly when some collection's representative item has that album title and that artwork, which may be nil. Albums with the same title keep the order of their collections |
| `Albums.LoadedAlbumsAnyStableSort` | SimpleMusic/AlbumView.swift:56 | any title-sorted list that keeps each title's albums in collection order equals the loaded list, so Swift's own stable algorithm gives the same albums |
| `Albums.AlbumView.constructor` | SimpleMusic/AlbumView.swift:15-16 | the screen opened from navigation starts with no albums |
| `Albums.AlbumView.WithAlbums` | SimpleMusic/AlbumView.swift:72-76 | `init(artist:albums:)` stores the albums exactly as given, unsorted and unfiltered |
| `Albums.AlbumView.LoadAlbums` | SimpleMusic/AlbumView.swift:46-58 | nil collections leave the albums unchanged. Otherwise they become `LoadedAlbums` of the collections |
| `Songs.SongOf` | SimpleMusic/SongListView.swift:49-53 | the transform handed to `compactMap`: nil exactly for an item without a title, otherwise a song with that title, persistent id and duration |
| `Songs.KeepIfAlbumTitle` | SimpleMusic/SongListView.swift:46 | the query's filter predicate: an item passes, unchanged, exactly when its album title equals the album's |
| `Songs.ItemsWithAlbumTitle` | SimpleMusic/SongListView.swift:45-46 | the query returns no more items than the library holds, and an item exactly when the library has it with that album title |
| `Songs.ItemsWithAlbumTitleOrder` | SimpleMusic/SongListView.swift:45-46 | returned item `m` is the `m`-th matching item of the library |
| `Songs.LoadedSongs` | SimpleMusic/SongListView.swift:49-54 | no more songs than items, and exactly as many when every item has a title |
| `Songs.LoadedSongsOrder` | SimpleMusic/SongListView.swift:49-54 | song `m` comes from the `m`-th titled item, in query order, and copies its title, persistent id and duration |
| `Songs.LoadedSongsAppend` | SimpleMusic/SongListView.swift:49-54 | no re-sorting: the songs of a concatenation are the songs of each part in turn |
| `Songs.SongsOfAlbum` | SimpleMusic/SongListView.swift:46-54 | a song is listed exactly when the library has an item with that album title that is made into it |
| `Songs.SongsIgnoreArtist` | SimpleMusic/SongListView.swift:46 | the filter key is the album title alone: libraries that differ only in artists list the same songs |
| `Songs.SharedAlbumTitleScenario` | SimpleMusic/SongListView.swift:46 | items of artists A and B that share album "X" are both listed for "X" |
| `Songs.SongListView.constructor` | SimpleMusic/SongListView.swift:19-20 | the screen starts with no songs |
| `Songs.SongListView.LoadSongs` | SimpleMusic/SongListView.swift:44-56 | a nil `items` (`queriedLibrary` is `None`) leaves the songs unchanged. Otherwise the songs are `LoadedSongs` of the items whose album title equals the album's, and each comes from such an item |
| `Songs.FormatDuration` | SimpleMusic/SongListView.swift:58-62 | the text is minutes, ':' and seconds, both parts all digits. The minutes read as `d / 60` and the seconds as `d % 60 < 60`, together giving back `d`. The seconds are always two digits. The text is exactly five characters when `d < 6000`, so 100 minutes or more print with more digits. It starts with '0' exactly when `d < 600`, so the minutes have no extra leading zeros |

## Left out

- SwiftUI view bodies, `ArtistGridItem`, the previews, images and localized strings: presentation only.
- `SimpleMusic/SimpleMusicApp.swift` is not part of this model. It only starts the app, and `MusicPlayerManager` is not shown.
- The library's own work is not modelled: grouping items into collections, matching the artist predicate of the albums query, and choosing a representative item. Query results are inputs, so `LoadAlbums` does not state that the albums belong to `artist`.
- `collection.representativeItem` is read twice in `loadAlbums`. The model reads one item for both the title and the artwork.
- The `UUID` ids of `Artist` and `Album` are fresh on every construction and not modelled. The `Album` type itself is not shown; it is modelled as a title and optional artwork.
- Swift's `String <` uses Unicode canonical ordering; the model compares code points lexicographically. The sort algorithm is modelled as a stable insertion sort. `LoadedArtistsAnySort` and `LoadedAlbumsAnyStableSort` prove that the choice of algorithm does not change the result.
- No de-duplication of artists is proved: the code performs none.
- The permission request is asynchronous (`DispatchQueue.main.async`). The model takes the request and its callback as one synchronous step.
- `Songs.FormatDuration`: does not model `TimeInterval` as a `Double` or the truncation by `Int(duration)`. Durations are whole non-negative seconds; negative ones, where Swift's `%` gives a negative remainder, are not modelled.
- The play button's action is empty in the source.
