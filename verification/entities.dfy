/** The library's persistent entities and the helpers that keep their links:
    an album's artist hash, and the two-sided artist/album, artist/track and
    genre/track links. Entities refer to each other by id; an id stands for
    the object identity the program compares by. */
module Entities {
  import opened Wrappers
  import opened Numeric
  import opened Sorting
  import opened Extensions
  import Dates

  /** The MD5 algorithm, left uninterpreted. */
  type Md5 = seq<Byte> -> Digest

  // ---------------------------------------------------------------------
  // Entities
  // ---------------------------------------------------------------------

  /** A track. Bpm, disc number, rating and track number are nullable where
      the import and the views use them; `tagLibHash` is the change key the
      import stores. */
  datatype Track = Track(
    id: int,
    album: Option<int>,
    artists: seq<int>,
    bpm: Option<int>,
    bitrate: int,
    bitsPerSample: int,
    channelCount: int,
    codec: string,
    date: string,
    dateAdded: Dates.DateTime,
    dateLastPlayed: Dates.DateTime,
    discNumber: Option<int>,
    duration: int,
    genres: seq<int>,
    musicBrainzId: string,
    path: string,
    playcount: int,
    rating: Option<int>,
    sampleRate: int,
    size: int,
    title: string,
    trackNumber: Option<int>,
    tagLibHash: string)

  /** An album: its artists as an ordered list of artist ids, and the hash
      of those ids that, with the title, keys the album. */
  datatype Album = Album(
    id: int,
    artists: seq<int>,
    artistsHash: string,
    discCount: int,
    musicBrainzId: string,
    title: string,
    tracks: seq<int>)

  /** An artist: the sets of albums and tracks it belongs to. */
  datatype Artist = Artist(
    id: int,
    albums: set<int>,
    musicBrainzId: string,
    name: string,
    tracks: set<int>)

  /** A genre: the set of tracks that carry it. */
  datatype Genre = Genre(id: int, name: string, tracks: set<int>)

  // ---------------------------------------------------------------------
  // The album artist hash
  // ---------------------------------------------------------------------

  /** The number of bytes copied per id. It starts as `sizeof(int)` and is
      replaced by the `Size` of a struct-layout attribute found through
      reflection, so it is a parameter here; a width above 4 makes the block
      copy throw and is not modelled. */
  type IdWidth = w: nat | w <= 4

  /** The four little-endian bytes of a 32-bit integer in memory. */
  function IdLittleEndian(id: int): (b: seq<Byte>)
    ensures |b| == 4
  {
    var u := id % TwoTo32;
    [u % 256, (u / 256) % 256, (u / 65536) % 256, u / 16777216]
  }

  /** The memory image of an `int[]`: each id's bytes in array order. */
  function IdBytes(ids: seq<int>): (b: seq<Byte>)
    ensures |b| == 4 * |ids|
  {
    if |ids| == 0 then [] else IdLittleEndian(ids[0]) + IdBytes(ids[1..])
  }

  /** The ids in ascending order (`OrderBy(id => id)`). */
  function SortedIds(ids: seq<int>): (r: seq<int>)
    ensures SortedBy(IntLe(), r)
    ensures multiset(r) == multiset(ids)
  {
    IntLeIsTotal();
    Sort(IntLe(), ids)
  }

  /** The bytes `Buffer.BlockCopy` hands to MD5: the first `count * width`
      bytes of the sorted id array. */
  function HashedBytes(w: IdWidth, ids: seq<int>): (b: seq<Byte>)
    ensures |b| == |ids| * w
  {
    var sorted := SortedIds(ids);
    assert |sorted| == |multiset(sorted)| == |multiset(ids)| == |ids|;
    WidthBound(|ids|, w);
    IdBytes(sorted)[..|ids| * w]
  }

  lemma {:induction false} WidthBound(n: nat, w: IdWidth)
    ensures n * w <= 4 * n
  {
    if n > 0 {
      WidthBound(n - 1, w);
      assert n * w == (n - 1) * w + w;
    }
  }

  /** `ComputeNewArtistsHash`: the hex MD5 of the hashed bytes. */
  function ArtistsHash(md5: Md5, w: IdWidth, ids: seq<int>): (r: string)
    ensures |r| == 32
    ensures UnHex(r) == Some(md5(HashedBytes(w, ids)))
  {
    Md5Hex(md5, HashedBytes(w, ids))
  }

  /** The album's stored hash is the hash of its current artist list. */
  predicate HashCurrent(md5: Md5, w: IdWidth, album: Album) {
    album.artistsHash == ArtistsHash(md5, w, album.artists)
  }

  /** The hash depends only on which artists an album has, counted with
      multiplicity, not on the order of the list. */
  lemma ArtistsHashIgnoresOrder(md5: Md5, w: IdWidth, a: seq<int>, b: seq<int>)
    requires multiset(a) == multiset(b)
    ensures ArtistsHash(md5, w, a) == ArtistsHash(md5, w, b)
  {
    IntLeIsTotal();
    SortIgnoresOrder(IntLe(), a, b);
    assert |a| == |multiset(a)| == |multiset(b)| == |b|;
  }

  /** With a zero width no byte is hashed: every album gets the same hash. */
  lemma ZeroWidthHashIsConstant(md5: Md5, ids: seq<int>)
    ensures ArtistsHash(md5, 0, ids) == Md5Hex(md5, [])
  {
  }

  /** Two artist lists share a hash exactly when MD5 maps their hashed bytes
      to the same digest. */
  lemma ArtistsHashEqual(md5: Md5, w: IdWidth, a: seq<int>, b: seq<int>)
    ensures ArtistsHash(md5, w, a) == ArtistsHash(md5, w, b) <==>
      md5(HashedBytes(w, a)) == md5(HashedBytes(w, b))
  {
    Md5HexEqual(md5, HashedBytes(w, a), HashedBytes(w, b));
  }

  // ---------------------------------------------------------------------
  // Album
  // ---------------------------------------------------------------------

  /** `new Album()`: no artists, no tracks, and the hash of no artists. The
      id is the one the session assigns on save. */
  function NewAlbum(md5: Md5, w: IdWidth, id: int): (a: Album)
    ensures a.id == id && a.artists == [] && a.tracks == []
    ensures HashCurrent(md5, w, a)
  {
    Album(id, [], ArtistsHash(md5, w, []), 0, "", "", [])
  }

  /** The `Artists` setter: replaces the list and recomputes the hash. */
  function SetArtists(md5: Md5, w: IdWidth, album: Album, artists: seq<int>): (a: Album)
    ensures a.artists == artists
    ensures HashCurrent(md5, w, a)
    ensures a.id == album.id && a.title == album.title && a.tracks == album.tracks
    ensures a.discCount == album.discCount && a.musicBrainzId == album.musicBrainzId
  {
    album.(artists := artists, artistsHash := ArtistsHash(md5, w, artists))
  }

  /** `AddArtist`: appends one artist and recomputes the hash. */
  function AddArtist(md5: Md5, w: IdWidth, album: Album, artist: int): (a: Album)
    ensures a.artists == album.artists + [artist]
    ensures HashCurrent(md5, w, a)
    ensures a.id == album.id && a.title == album.title && a.tracks == album.tracks
    ensures a.discCount == album.discCount && a.musicBrainzId == album.musicBrainzId
  {
    var artists := album.artists;
    album.(artists := artists + [artist], artistsHash := ArtistsHash(md5, w, artists + [artist]))
  }

  // ---------------------------------------------------------------------
  // Artist
  // ---------------------------------------------------------------------

  /** `new Artist { Name = name }`: empty album and track sets. */
  function NewArtist(id: int, name: string): (a: Artist)
    ensures a.id == id && a.name == name
    ensures a.albums == {} && a.tracks == {}
  {
    Artist(id, {}, "", name, {})
  }

  /** `Artist.AddAlbum`: appends the artist to the album's list through the
      getter, so the album's hash is not recomputed, and adds the album to
      the artist's set. */
  function AddAlbum(artist: Artist, album: Album): (r: (Artist, Album))
    ensures r.1.artists == album.artists + [artist.id]
    ensures r.1.artistsHash == album.artistsHash
    ensures r.1.id == album.id && r.1.title == album.title && r.1.tracks == album.tracks
    ensures r.0.albums == artist.albums + {album.id}
    ensures r.0.id == artist.id && r.0.name == artist.name && r.0.musicBrainzId == artist.musicBrainzId
    ensures r.0.tracks == artist.tracks
  {
    (artist.(albums := artist.albums + {album.id}), album.(artists := album.artists + [artist.id]))
  }

  /** `Artist.AddTrack`: appends the artist to the track's list and adds the
      track to the artist's set. */
  function ArtistAddTrack(artist: Artist, track: Track): (r: (Artist, Track))
    ensures r.1.artists == track.artists + [artist.id]
    ensures r.1 == track.(artists := r.1.artists)
    ensures r.0.tracks == artist.tracks + {track.id}
    ensures r.0.id == artist.id && r.0.name == artist.name && r.0.musicBrainzId == artist.musicBrainzId
    ensures r.0.albums == artist.albums
  {
    (artist.(tracks := artist.tracks + {track.id}), track.(artists := track.artists + [artist.id]))
  }

  /** After `AddAlbum` the hash is current only if MD5 happens to give the
      old and the new artist lists the same digest. */
  lemma AddAlbumLeavesHashStale(md5: Md5, w: IdWidth, artist: Artist, album: Album)
    requires HashCurrent(md5, w, album)
    ensures HashCurrent(md5, w, AddAlbum(artist, album).1) <==>
      md5(HashedBytes(w, album.artists + [artist.id])) == md5(HashedBytes(w, album.artists))
  {
    ArtistsHashEqual(md5, w, album.artists + [artist.id], album.artists);
  }

  /** The bytes hashed before and after `AddAlbum` differ in length whenever
      the width is positive, so any MD5 that tells lengths apart leaves the
      hash stale. */
  lemma AddAlbumChangesHashedBytes(w: IdWidth, artist: Artist, album: Album)
    requires 0 < w
    ensures HashedBytes(w, album.artists + [artist.id]) != HashedBytes(w, album.artists)
  {
    var n := |album.artists|;
    assert |album.artists + [artist.id]| == n + 1;
    assert (n + 1) * w == n * w + w;
    assert |HashedBytes(w, album.artists + [artist.id])| != |HashedBytes(w, album.artists)|;
  }

  /** A second `AddAlbum` leaves the artist's set as it was but puts the
      artist in the album's list twice. */
  lemma AddAlbumTwice(artist: Artist, album: Album)
    ensures var (a1, b1) := AddAlbum(artist, album);
      var (a2, b2) := AddAlbum(a1, b1);
      a2.albums == a1.albums && b2.artists == album.artists + [artist.id, artist.id]
  {
  }

  /** A second `AddTrack` leaves the artist's set as it was but puts the
      artist in the track's list twice. */
  lemma ArtistAddTrackTwice(artist: Artist, track: Track)
    ensures var (a1, t1) := ArtistAddTrack(artist, track);
      var (a2, t2) := ArtistAddTrack(a1, t1);
      a2.tracks == a1.tracks && t2.artists == track.artists + [artist.id, artist.id]
  {
  }

  // ---------------------------------------------------------------------
  // Genre
  // ---------------------------------------------------------------------

  /** `new Genre { Name = name }`: an empty track set. */
  function NewGenre(id: int, name: string): (g: Genre)
    ensures g.id == id && g.name == name && g.tracks == {}
  {
    Genre(id, name, {})
  }

  /** `Genre.AddTrack`: appends the genre to the track's list and adds the
      track to the genre's set. */
  function GenreAddTrack(genre: Genre, track: Track): (r: (Genre, Track))
    ensures r.1.genres == track.genres + [genre.id]
    ensures r.1 == track.(genres := r.1.genres)
    ensures r.0.tracks == genre.tracks + {track.id}
    ensures r.0.id == genre.id && r.0.name == genre.name
  {
    (genre.(tracks := genre.tracks + {track.id}), track.(genres := track.genres + [genre.id]))
  }

  /** A second `AddTrack` leaves the genre's set as it was while the track's
      list grows by one more entry. */
  lemma GenreAddTrackTwice(genre: Genre, track: Track)
    ensures var (g1, t1) := GenreAddTrack(genre, track);
      var (g2, t2) := GenreAddTrack(g1, t1);
      g2.tracks == g1.tracks && |t2.genres| == |track.genres| + 2
  {
  }
}
