/** The library import: which files of a directory are imported, the change
    key that tells an edited file from an unchanged one, the decision to add,
    update or skip a track, and the upsert of the artists, genres and album
    a track refers to.

    The library is four tables. An entity's id is its position in its table,
    which is how the session's identity is represented here. */
module MediaLibrary {
  import opened Wrappers
  import opened Numeric
  import opened Text
  import opened Extensions
  import opened Entities
  import Dates

  // ---------------------------------------------------------------------
  // What the import reads from a file
  // ---------------------------------------------------------------------

  /** A codec as TagLib lists it: its `ToString()` text and description. */
  datatype Codec = Codec(text: string, description: string)

  /** The audio properties TagLib reports. */
  datatype Properties = Properties(
    durationMs: nat,
    audioBitrate: int,
    audioChannels: int,
    audioSampleRate: int,
    bitsPerSample: int,
    codecs: seq<Codec>)

  /** The tag fields the import reads. `date` and `rating` are the values of
      the tag-kind dispatch (`GetDate`, `GetRating`); `nullableRating` is
      what the track stores as its rating, the value of
      `GetRatingNullableUInt32`, which the repository does not define.
      Unsigned tag numbers are `nat`. */
  datatype TagInfo = TagInfo(
    album: string,
    albumArtists: seq<string>,
    beatsPerMinute: nat,
    comment: string,
    disc: nat,
    discCount: nat,
    genres: seq<string>,
    lyrics: string,
    musicBrainzArtistId: string,
    musicBrainzDiscId: string,
    musicBrainzReleaseArtistId: string,
    musicBrainzReleaseId: string,
    musicBrainzTrackId: string,
    performers: seq<string>,
    title: string,
    track: nat,
    trackCount: nat,
    date: string,
    rating: int,
    nullableRating: Option<int>)

  /** An opened TagLib file. */
  datatype AudioFile = AudioFile(length: int, properties: Properties, tag: TagInfo)

  /** What the import needs from its surroundings: MD5, the id width the
      album hash uses, and the clock. */
  datatype Env = Env(md5: Md5, width: IdWidth, now: Dates.DateTime)

  /** `Codecs.First()` on a file with no codec throws. */
  datatype ImportError = NoCodec

  // ---------------------------------------------------------------------
  // The extension filter
  // ---------------------------------------------------------------------

  predicate IsSeparator(c: char) {
    c == '\\' || c == '/' || c == ':'
  }

  /** The backwards scan of `Path.GetExtension` over `path[..i]`. */
  function ExtensionBefore(path: string, i: nat): string
    requires i <= |path|
    decreases i
  {
    if i == 0 then ""
    else if path[i - 1] == '.' then (if i - 1 != |path| - 1 then path[i - 1..] else "")
    else if IsSeparator(path[i - 1]) then ""
    else ExtensionBefore(path, i - 1)
  }

  /** The scan's result is empty or a suffix of at least two characters
      starting before `i`. */
  lemma {:induction false} ExtensionBeforeSuffix(path: string, i: nat)
    requires i <= |path|
    ensures var r := ExtensionBefore(path, i);
      r == "" || (2 <= |r| <= |path| && |path| - |r| < i && r == path[|path| - |r|..])
    decreases i
  {
    if 0 < i && path[i - 1] != '.' && !IsSeparator(path[i - 1]) {
      ExtensionBeforeSuffix(path, i - 1);
    }
  }

  /** `Path.GetExtension`: from the last '.' after the last separator to the
      end, or "" when there is no such '.' or it ends the path. */
  function GetExtension(path: string): (r: string)
    ensures r == "" || (2 <= |r| <= |path| && r == path[|path| - |r|..] && r[0] == '.')
  {
    var r := ExtensionBefore(path, |path|);
    if r == "" then r
    else
      ExtensionBeforeSuffix(path, |path|);
      ExtensionShape(path, |path|);
      r
  }

  lemma {:induction false} ExtensionShape(path: string, i: nat)
    requires i <= |path|
    requires forall k :: i <= k < |path| ==> path[k] != '.' && !IsSeparator(path[k])
    ensures var r := ExtensionBefore(path, i);
      r == "" || (r[0] == '.' && forall k :: 1 <= k < |r| ==> r[k] != '.' && !IsSeparator(r[k]))
    decreases i
  {
    if 0 < i && path[i - 1] != '.' && !IsSeparator(path[i - 1]) {
      ExtensionShape(path, i - 1);
      ExtensionBeforeSuffix(path, i - 1);
      var r := ExtensionBefore(path, i - 1);
      if r != "" {
        assert |path| - |r| < i - 1;
      }
    }
  }

  /** A name ending in '.' and a non-empty run of characters that are
      neither '.' nor separators has that run as its extension. */
  lemma {:induction false} ExtensionOf(stem: string, ext: string)
    requires 0 < |ext|
    requires forall k :: 0 <= k < |ext| ==> ext[k] != '.' && !IsSeparator(ext[k])
    ensures GetExtension(stem + "." + ext) == "." + ext
  {
    var path := stem + "." + ext;
    forall i | |stem| + 1 < i <= |path|
      ensures ExtensionBefore(path, i) == ExtensionBefore(path, |stem| + 1)
    {
      ExtensionSkips(path, |stem| + 1, i);
    }
    assert path[|stem|..] == "." + ext;
  }

  lemma {:induction false} ExtensionSkips(path: string, j: nat, i: nat)
    requires j <= i <= |path|
    requires forall k :: j <= k < i ==> path[k] != '.' && !IsSeparator(path[k])
    ensures ExtensionBefore(path, i) == ExtensionBefore(path, j)
    decreases i
  {
    if j < i {
      ExtensionBeforeSkips(path, i);
      ExtensionSkips(path, j, i - 1);
    }
  }

  lemma ExtensionBeforeSkips(path: string, i: nat)
    requires 0 < i <= |path| && path[i - 1] != '.' && !IsSeparator(path[i - 1])
    ensures ExtensionBefore(path, i) == ExtensionBefore(path, i - 1)
  {
  }

  /** The extensions the import accepts. */
  const MusicExtensions: seq<string> := [".mp3", ".m4a", ".flac"]

  /** `ImportDirectory`'s filter: the extension equals one of the accepted
      ones, ignoring case. */
  predicate IsMusicFile(path: string) {
    exists k :: 0 <= k < |MusicExtensions| && EqualsIgnoreCase(MusicExtensions[k], GetExtension(path))
  }

  /** The filter accepts an upper-case ".MP3" file as well as ".mp3". */
  lemma UpperCaseExtensionImported(stem: string)
    ensures IsMusicFile(stem + ".MP3")
  {
    ExtensionOf(stem, "MP3");
    assert stem + "." + "MP3" == stem + ".MP3";
    assert MusicExtensions[0] == ".mp3";
    EqualsIgnoreCaseAt(".mp3", ".MP3");
    assert EqualsIgnoreCase(MusicExtensions[0], GetExtension(stem + ".MP3"));
  }

  /** A path without an extension is never imported. */
  lemma NoExtensionNotImported(path: string)
    requires GetExtension(path) == ""
    ensures !IsMusicFile(path)
  {
  }

  /** The files of the list that pass the filter, in enumeration order. */
  function MusicFiles(files: seq<(string, AudioFile)>): (r: seq<(string, AudioFile)>)
    ensures forall x :: x in r <==> x in files && IsMusicFile(x.0)
    ensures |r| <= |files|
  {
    if |files| == 0 then []
    else if IsMusicFile(files[0].0) then [files[0]] + MusicFiles(files[1..])
    else MusicFiles(files[1..])
  }

  // ---------------------------------------------------------------------
  // The change key
  // ---------------------------------------------------------------------

  /** `String.Concat` of the codecs' texts. */
  function CodecTexts(codecs: seq<Codec>): (r: seq<string>)
    ensures |r| == |codecs|
    ensures forall i :: 0 <= i < |codecs| ==> r[i] == codecs[i].text
  {
    seq(|codecs|, i requires 0 <= i < |codecs| => codecs[i].text)
  }

  /** The six property texts the change key starts with. */
  function PropertyParts(f: AudioFile): (r: seq<string>)
    ensures |r| == 6
  {
    var p := f.properties;
    [IntToDecimal(f.length), IntToDecimal(p.audioBitrate), IntToDecimal(p.audioChannels),
     IntToDecimal(p.audioSampleRate), IntToDecimal(p.bitsPerSample), Concat(CodecTexts(p.codecs))]
  }

  /** The sixteen tag texts after the album title and album artists. */
  function LaterTagParts(t: TagInfo): (r: seq<string>)
    ensures |r| == 16
  {
    [IntToDecimal(t.beatsPerMinute), t.comment, IntToDecimal(t.disc), IntToDecimal(t.discCount),
     Concat(t.genres), t.lyrics, t.musicBrainzArtistId, t.musicBrainzDiscId,
     t.musicBrainzReleaseArtistId, t.musicBrainzReleaseId, Concat(t.performers), t.title,
     IntToDecimal(t.track), IntToDecimal(t.trackCount), t.date, IntToDecimal(t.rating)]
  }

  /** The texts the change key concatenates, in order: six property texts,
      then eighteen tag texts beginning with the album title and the album
      artists. */
  function KeyParts(f: AudioFile): (r: seq<string>)
    ensures |r| == 24
  {
    PropertyParts(f) + [f.tag.album, Concat(f.tag.albumArtists)] + LaterTagParts(f.tag)
  }

  /** The change key: the MD5 of the separator-free concatenation. */
  function TagLibHash(md5: Md5, f: AudioFile): (r: string)
    ensures |r| == 32
    ensures UnHex(r) == Some(md5(Utf8(Concat(KeyParts(f)))))
  {
    Md5Hex(md5, Utf8(Concat(KeyParts(f))))
  }

  lemma ConcatAround(a: seq<string>, x: string, y: string, b: seq<string>)
    ensures Concat(a + [x, y] + b) == Concat(a) + (x + y) + Concat(b)
  {
    ConcatAppend(a + [x, y], b);
    ConcatAppend(a, [x, y]);
    assert [x, y][1..] == [y];
    assert [y][1..] == [];
    assert Concat([y]) == y + Concat([]);
    assert Concat([x, y]) == x + Concat([y]);
  }

  /** The concatenated key text, split at the album fields. */
  lemma KeyText(f: AudioFile)
    ensures Concat(KeyParts(f)) ==
      Concat(PropertyParts(f)) + (f.tag.album + Concat(f.tag.albumArtists)) + Concat(LaterTagParts(f.tag))
  {
    ConcatAround(PropertyParts(f), f.tag.album, Concat(f.tag.albumArtists), LaterTagParts(f.tag));
  }

  /** Only the concatenation counts: moving text across the boundary between
      the album title and the album artists leaves the key unchanged, so
      such an edit is not seen as a change. */
  lemma AlbumBoundaryUndetected(md5: Md5, f: AudioFile, moved: string)
    requires f.tag.albumArtists == []
    ensures TagLibHash(md5, f.(tag := f.tag.(album := f.tag.album + moved)))
         == TagLibHash(md5, f.(tag := f.tag.(albumArtists := [moved])))
  {
    var f1 := f.(tag := f.tag.(album := f.tag.album + moved));
    var f2 := f.(tag := f.tag.(albumArtists := [moved]));
    KeyText(f1);
    KeyText(f2);
    assert PropertyParts(f1) == PropertyParts(f2);
    assert LaterTagParts(f1.tag) == LaterTagParts(f2.tag);
    assert Concat([moved]) == moved + Concat([]);
    var mid1 := f1.tag.album + Concat(f1.tag.albumArtists);
    var mid2 := f2.tag.album + Concat(f2.tag.albumArtists);
    assert mid1 == mid2;
    assert Concat(KeyParts(f1)) == Concat(KeyParts(f2));
  }

  // ---------------------------------------------------------------------
  // The library and its invariants
  // ---------------------------------------------------------------------

  datatype Library = Library(
    tracks: seq<Track>,
    artists: seq<Artist>,
    genres: seq<Genre>,
    albums: seq<Album>)

  /** The artist table: ids are positions, and names are unique. */
  predicate ArtistsValid(artists: seq<Artist>) {
    && (forall k :: 0 <= k < |artists| ==> artists[k].id == k)
    && (forall i, j :: 0 <= i < j < |artists| ==> artists[i].name != artists[j].name)
  }

  /** The genre table: ids are positions, and names are unique. */
  predicate GenresValid(genres: seq<Genre>) {
    && (forall k :: 0 <= k < |genres| ==> genres[k].id == k)
    && (forall i, j :: 0 <= i < j < |genres| ==> genres[i].name != genres[j].name)
  }

  /** The album table: ids are positions, (title, artist hash) is unique,
      and every album artist exists. */
  predicate AlbumsValid(albums: seq<Album>, artistCount: nat) {
    && (forall k :: 0 <= k < |albums| ==> albums[k].id == k)
    && (forall i, j :: 0 <= i < j < |albums| ==>
          albums[i].title != albums[j].title || albums[i].artistsHash != albums[j].artistsHash)
    && (forall k :: 0 <= k < |albums| ==> forall a :: a in albums[k].artists ==> 0 <= a < artistCount)
  }

  /** A track's references all exist. */
  predicate TrackRefsValid(t: Track, albumCount: nat, artistCount: nat, genreCount: nat) {
    && (t.album.Some? ==> 0 <= t.album.value < albumCount)
    && (forall a :: a in t.artists ==> 0 <= a < artistCount)
    && (forall g :: g in t.genres ==> 0 <= g < genreCount)
  }

  /** The track table: ids are positions, paths are unique, references
      exist. */
  predicate TracksValid(tracks: seq<Track>, albumCount: nat, artistCount: nat, genreCount: nat) {
    && (forall k :: 0 <= k < |tracks| ==> tracks[k].id == k)
    && (forall i, j :: 0 <= i < j < |tracks| ==> tracks[i].path != tracks[j].path)
    && (forall k :: 0 <= k < |tracks| ==> TrackRefsValid(tracks[k], albumCount, artistCount, genreCount))
  }

  /** The unique keys of the mapping (track path, artist name, genre name,
      album title with artist hash) and referential integrity. */
  predicate Valid(lib: Library) {
    && ArtistsValid(lib.artists)
    && GenresValid(lib.genres)
    && AlbumsValid(lib.albums, |lib.artists|)
    && TracksValid(lib.tracks, |lib.albums|, |lib.artists|, |lib.genres|)
  }

  lemma TracksValidGrow(tracks: seq<Track>, al: nat, ar: nat, g: nat, al2: nat, ar2: nat, g2: nat)
    requires TracksValid(tracks, al, ar, g)
    requires al <= al2 && ar <= ar2 && g <= g2
    ensures TracksValid(tracks, al2, ar2, g2)
  {
    forall k | 0 <= k < |tracks|
      ensures TrackRefsValid(tracks[k], al2, ar2, g2)
    {
      assert TrackRefsValid(tracks[k], al, ar, g);
    }
  }

  // ---------------------------------------------------------------------
  // Names
  // ---------------------------------------------------------------------

  function ArtistNames(artists: seq<Artist>): (r: seq<string>)
    ensures |r| == |artists|
    ensures forall k :: 0 <= k < |artists| ==> r[k] == artists[k].name
  {
    seq(|artists|, k requires 0 <= k < |artists| => artists[k].name)
  }

  function GenreNames(genres: seq<Genre>): (r: seq<string>)
    ensures |r| == |genres|
    ensures forall k :: 0 <= k < |genres| ==> r[k] == genres[k].name
  {
    seq(|genres|, k requires 0 <= k < |genres| => genres[k].name)
  }

  /** `first.Except(known, StringComparer.Ordinal)`: the distinct elements
      of `first` that are not known, in first-occurrence order. */
  function Except(first: seq<string>, known: seq<string>): (r: seq<string>)
    ensures forall x :: x in r <==> x in first && x !in known
    ensures forall i, j :: 0 <= i < j < |r| ==> r[i] != r[j]
    decreases |first|
  {
    if |first| == 0 then []
    else
      assert first == [first[0]] + first[1..];
      if first[0] in known then Except(first[1..], known)
      else
        var rest := Except(first[1..], known + [first[0]]);
        assert forall j :: 0 <= j < |rest| ==> rest[j] != first[0] by {
          forall j | 0 <= j < |rest| ensures rest[j] != first[0] {
            assert rest[j] in rest;
          }
        }
        [first[0]] + rest
  }

  /** `Except` keeps the names in the order of their first occurrence in
      the first list. */
  lemma {:induction false} ExceptKeepsOrder(first: seq<string>, known: seq<string>)
    ensures forall i, j :: 0 <= i < j < |Except(first, known)| ==>
      IndexOf(first, Except(first, known)[i]) < IndexOf(first, Except(first, known)[j])
    decreases |first|
  {
    if |first| > 0 {
      assert first == [first[0]] + first[1..];
      if first[0] in known {
        var rest := Except(first[1..], known);
        ExceptKeepsOrder(first[1..], known);
        ExceptLater(first, rest);
      } else {
        var rest := Except(first[1..], known + [first[0]]);
        ExceptKeepsOrder(first[1..], known + [first[0]]);
        ExceptLater(first, rest);
        assert Except(first, known) == [first[0]] + rest;
      }
    }
  }

  /** Where `x` first occurs in `s`. */
  function IndexOf(s: seq<string>, x: string): (i: nat)
    requires x in s
    ensures i < |s| && s[i] == x
    ensures forall k :: 0 <= k < i ==> s[k] != x
  {
    if s[0] == x then 0 else 1 + IndexOf(s[1..], x)
  }

  /** A name of the tail other than the head sits one place later in the
      whole sequence. */
  lemma IndexOfTail(first: seq<string>, x: string)
    requires |first| > 0 && x in first[1..] && x != first[0]
    ensures x in first && IndexOf(first, x) == 1 + IndexOf(first[1..], x)
  {
    assert first == [first[0]] + first[1..];
  }

  /** Names of the tail other than the head keep their first-occurrence
      order, all after the head, when the head is put back. */
  lemma ExceptLater(first: seq<string>, rest: seq<string>)
    requires |first| > 0
    requires forall x :: x in rest ==> x in first[1..] && x != first[0]
    requires forall i, j :: 0 <= i < j < |rest| ==> IndexOf(first[1..], rest[i]) < IndexOf(first[1..], rest[j])
    ensures forall x :: x in rest ==> x in first && 0 < IndexOf(first, x)
    ensures forall i, j :: 0 <= i < j < |rest| ==> IndexOf(first, rest[i]) < IndexOf(first, rest[j])
  {
    forall x | x in rest
      ensures x in first && IndexOf(first, x) == 1 + IndexOf(first[1..], x)
    {
      IndexOfTail(first, x);
    }
  }

  /** The positions, in table order, of the names that occur in `wanted`
      (a query filtered by `wanted.Any(s => s == name)`). */
  function MatchingFrom(names: seq<string>, wanted: seq<string>, i: nat): (r: seq<nat>)
    requires i <= |names|
    ensures forall k :: k in r <==> i <= k < |names| && names[k] in wanted
    ensures forall a, b :: 0 <= a < b < |r| ==> r[a] < r[b]
    decreases |names| - i
  {
    if i == |names| then []
    else
      var rest := MatchingFrom(names, wanted, i + 1);
      assert forall b :: 0 <= b < |rest| ==> i < rest[b] by {
        forall b | 0 <= b < |rest| ensures i < rest[b] {
          assert rest[b] in rest;
        }
      }
      if names[i] in wanted then [i] + rest else rest
  }

  function Matching(names: seq<string>, wanted: seq<string>): (r: seq<nat>)
    ensures forall k :: k in r <==> 0 <= k < |names| && names[k] in wanted
    ensures forall a, b :: 0 <= a < b < |r| ==> r[a] < r[b]
  {
    MatchingFrom(names, wanted, 0)
  }

  /** A name occurs once in a table whose names are unique. */
  predicate HasExactlyOne(names: seq<string>, n: string) {
    n in names && forall i, j :: 0 <= i < j < |names| && names[i] == n ==> names[j] != n
  }

  // ---------------------------------------------------------------------
  // Upserting artists, album and genres
  // ---------------------------------------------------------------------

  /** Saves one new artist per name, with the next free ids. */
  function SaveArtists(artists: seq<Artist>, names: seq<string>): (r: seq<Artist>)
    ensures |r| == |artists| + |names|
    ensures r[..|artists|] == artists
    ensures forall j :: 0 <= j < |names| ==> r[|artists| + j] == NewArtist(|artists| + j, names[j])
  {
    artists + seq(|names|, j requires 0 <= j < |names| => NewArtist(|artists| + j, names[j]))
  }

  /** Saves one new genre per name, with the next free ids. */
  function SaveGenres(genres: seq<Genre>, names: seq<string>): (r: seq<Genre>)
    ensures |r| == |genres| + |names|
    ensures r[..|genres|] == genres
    ensures forall j :: 0 <= j < |names| ==> r[|genres| + j] == NewGenre(|genres| + j, names[j])
  {
    genres + seq(|names|, j requires 0 <= j < |names| => NewGenre(|genres| + j, names[j]))
  }

  /** The names of the new artists: album artists and performers that no
      stored artist has yet. */
  function NewArtistNames(lib: Library, tag: TagInfo): (r: seq<string>)
    ensures forall x :: x in r <==> (x in tag.albumArtists || x in tag.performers) && x !in ArtistNames(lib.artists)
    ensures forall i, j :: 0 <= i < j < |r| ==> r[i] != r[j]
  {
    Except(tag.albumArtists + tag.performers, ArtistNames(lib.artists))
  }

  /** Appending names absent from a table with unique names keeps the names
      unique. */
  lemma SaveArtistsValid(artists: seq<Artist>, names: seq<string>)
    requires ArtistsValid(artists)
    requires forall x :: x in names ==> x !in ArtistNames(artists)
    requires forall i, j :: 0 <= i < j < |names| ==> names[i] != names[j]
    ensures ArtistsValid(SaveArtists(artists, names))
  {
    var r := SaveArtists(artists, names);
    forall i, j | 0 <= i < j < |r|
      ensures r[i].name != r[j].name
    {
      if j >= |artists| {
        assert r[j].name == names[j - |artists|];
        assert names[j - |artists|] in names;
        if i < |artists| {
          assert r[i] == artists[i];
          assert ArtistNames(artists)[i] == r[i].name;
          assert r[i].name in ArtistNames(artists);
        } else {
          assert r[i].name == names[i - |artists|];
        }
      } else {
        assert r[i] == artists[i] && r[j] == artists[j];
      }
    }
    forall k | 0 <= k < |r|
      ensures r[k].id == k
    {
      if k < |artists| {
        assert r[k] == artists[k];
      }
    }
  }

  lemma SaveGenresValid(genres: seq<Genre>, names: seq<string>)
    requires GenresValid(genres)
    requires forall x :: x in names ==> x !in GenreNames(genres)
    requires forall i, j :: 0 <= i < j < |names| ==> names[i] != names[j]
    ensures GenresValid(SaveGenres(genres, names))
  {
    var r := SaveGenres(genres, names);
    forall i, j | 0 <= i < j < |r|
      ensures r[i].name != r[j].name
    {
      if j >= |genres| {
        assert r[j].name == names[j - |genres|];
        assert names[j - |genres|] in names;
        if i < |genres| {
          assert r[i] == genres[i];
          assert GenreNames(genres)[i] == r[i].name;
          assert r[i].name in GenreNames(genres);
        } else {
          assert r[i].name == names[i - |genres|];
        }
      } else {
        assert r[i] == genres[i] && r[j] == genres[j];
      }
    }
    forall k | 0 <= k < |r|
      ensures r[k].id == k
    {
      if k < |genres| {
        assert r[k] == genres[k];
      }
    }
  }

  /** After saving, every wanted name that was new is present. */
  lemma SavedNamesPresent(artists: seq<Artist>, names: seq<string>, n: string)
    requires n in names
    ensures n in ArtistNames(SaveArtists(artists, names))
  {
    var r := SaveArtists(artists, names);
    var j :| 0 <= j < |names| && names[j] == n;
    assert ArtistNames(r)[|artists| + j] == n;
  }

  lemma OldNamesPresent(artists: seq<Artist>, names: seq<string>, n: string)
    requires n in ArtistNames(artists)
    ensures n in ArtistNames(SaveArtists(artists, names))
  {
    var r := SaveArtists(artists, names);
    var k :| 0 <= k < |artists| && ArtistNames(artists)[k] == n;
    assert ArtistNames(r)[k] == n;
  }

  lemma SavedGenreNamesPresent(genres: seq<Genre>, names: seq<string>, n: string)
    requires n in names || n in GenreNames(genres)
    ensures n in GenreNames(SaveGenres(genres, names))
  {
    var r := SaveGenres(genres, names);
    if n in names {
      var j :| 0 <= j < |names| && names[j] == n;
      assert GenreNames(r)[|genres| + j] == n;
    } else {
      var k :| 0 <= k < |genres| && GenreNames(genres)[k] == n;
      assert GenreNames(r)[k] == n;
    }
  }

  /** The position of the first album with this title and artist hash. */
  function FindAlbum(albums: seq<Album>, title: string, hash: string, i: nat): (r: Option<nat>)
    requires i <= |albums|
    ensures r.Some? ==> i <= r.value < |albums| && albums[r.value].title == title && albums[r.value].artistsHash == hash
    ensures r.Some? ==> forall k :: i <= k < r.value ==> !(albums[k].title == title && albums[k].artistsHash == hash)
    ensures r.None? ==> forall k :: i <= k < |albums| ==> !(albums[k].title == title && albums[k].artistsHash == hash)
    decreases |albums| - i
  {
    if i == |albums| then None
    else if albums[i].title == title && albums[i].artistsHash == hash then Some(i)
    else FindAlbum(albums, title, hash, i + 1)
  }

  /** The album step: the stored artists named as album artists give the
      album key; the first album with that title and key is reused, or a new
      album with that title and those artists is saved. Returns the tables
      and the album's id. The key comes from the static
      `Album.ComputeArtistsHash`, which the repository does not define; it
      is taken to be the hash the album's artist setter computes. */
  function UpsertAlbum(env: Env, artists: seq<Artist>, albums: seq<Album>, tag: TagInfo): (r: (seq<Album>, nat))
    ensures var ids := Matching(ArtistNames(artists), tag.albumArtists);
      var hash := ArtistsHash(env.md5, env.width, ids);
      match FindAlbum(albums, tag.album, hash, 0)
      case Some(k) => r.0 == albums && r.1 == k
      case None =>
        && |r.0| == |albums| + 1 && r.0[..|albums|] == albums && r.1 == |albums|
        && r.0[|albums|].title == tag.album && r.0[|albums|].artists == ids
        && r.0[|albums|].artistsHash == hash && r.0[|albums|].tracks == []
  {
    var ids := Matching(ArtistNames(artists), tag.albumArtists);
    var hash := ArtistsHash(env.md5, env.width, ids);
    match FindAlbum(albums, tag.album, hash, 0)
    case Some(k) => (albums, k)
    case None =>
      var album := SavedAlbum(env, |albums|, tag.album, ids);
      assert (albums + [album])[..|albums|] == albums;
      (albums + [album], |albums|)
  }

  /** The album `UpsertAlbum` saves: a new album with the title, then the
      artists set through the setter, which computes their hash. */
  function SavedAlbum(env: Env, id: nat, title: string, ids: seq<int>): (a: Album)
    ensures a.id == id && a.title == title && a.artists == ids && a.tracks == []
    ensures a.artistsHash == ArtistsHash(env.md5, env.width, ids)
  {
    var blank := NewAlbum(env.md5, env.width, id).(title := title);
    SetArtists(env.md5, env.width, blank, ids)
  }

  /** The album the tag names exists afterwards with the key the import
      computed. */
  lemma UpsertAlbumValid(env: Env, artists: seq<Artist>, albums: seq<Album>, tag: TagInfo)
    requires AlbumsValid(albums, |artists|)
    ensures var albums2 := UpsertAlbum(env, artists, albums, tag).0;
      var id := UpsertAlbum(env, artists, albums, tag).1;
      AlbumsValid(albums2, |artists|) && id < |albums2|
  {
    var ids := Matching(ArtistNames(artists), tag.albumArtists);
    var hash := ArtistsHash(env.md5, env.width, ids);
    var albums2 := UpsertAlbum(env, artists, albums, tag).0;
    var id := UpsertAlbum(env, artists, albums, tag).1;
    if FindAlbum(albums, tag.album, hash, 0).None? {
      forall k | 0 <= k < |albums2|
        ensures albums2[k].id == k
        ensures forall a :: a in albums2[k].artists ==> 0 <= a < |artists|
      {
        if k < |albums| {
          assert albums2[k] == albums[k];
        }
      }
      forall i, j | 0 <= i < j < |albums2|
        ensures albums2[i].title != albums2[j].title || albums2[i].artistsHash != albums2[j].artistsHash
      {
        assert albums2[i] == albums[i];
        if j < |albums| {
          assert albums2[j] == albums[j];
        }
      }
    }
  }

  /** `addNonTrackEntitiesAndReturnAlbum`: saves the new artists, the album
      if none matches, and the new genres; returns the album's id. */
  function AddNonTrackEntities(env: Env, lib: Library, tag: TagInfo): (r: (Library, nat))
    ensures r.0.tracks == lib.tracks
    ensures r.0.artists == SaveArtists(lib.artists, NewArtistNames(lib, tag))
    ensures r.0.genres == SaveGenres(lib.genres, Except(tag.genres, GenreNames(lib.genres)))
    ensures (r.0.albums, r.1) == UpsertAlbum(env, r.0.artists, lib.albums, tag)
  {
    var artists := SaveArtists(lib.artists, NewArtistNames(lib, tag));
    var albums := UpsertAlbum(env, artists, lib.albums, tag).0;
    var album := UpsertAlbum(env, artists, lib.albums, tag).1;
    var genres := SaveGenres(lib.genres, Except(tag.genres, GenreNames(lib.genres)));
    (Library(lib.tracks, artists, genres, albums), album)
  }

  /** The upsert keeps the library valid and keeps every stored entity
      where it was. */
  lemma AddNonTrackEntitiesKeeps(env: Env, lib: Library, tag: TagInfo)
    requires Valid(lib)
    ensures var lib2 := AddNonTrackEntities(env, lib, tag).0;
      var album := AddNonTrackEntities(env, lib, tag).1;
      && Valid(lib2)
      && album < |lib2.albums|
      && lib2.artists[..|lib.artists|] == lib.artists
      && lib2.genres[..|lib.genres|] == lib.genres
      && lib2.albums[..|lib.albums|] == lib.albums
  {
    var lib2 := AddNonTrackEntities(env, lib, tag).0;
    SaveArtistsValid(lib.artists, NewArtistNames(lib, tag));
    SaveGenresValid(lib.genres, Except(tag.genres, GenreNames(lib.genres)));
    assert AlbumsValid(lib.albums, |lib2.artists|);
    UpsertAlbumValid(env, lib2.artists, lib.albums, tag);
    var albums2 := UpsertAlbum(env, lib2.artists, lib.albums, tag).0;
    if |albums2| != |lib.albums| {
      assert albums2[..|lib.albums|] == lib.albums;
    }
    TracksValidGrow(lib.tracks, |lib.albums|, |lib.artists|, |lib.genres|,
      |lib2.albums|, |lib2.artists|, |lib2.genres|);
  }

  /** Afterwards each album artist, performer and genre of the tag has
      exactly one entity. */
  lemma AddNonTrackEntitiesNames(env: Env, lib: Library, tag: TagInfo)
    requires Valid(lib)
    ensures var lib2 := AddNonTrackEntities(env, lib, tag).0;
      && (forall n :: n in tag.albumArtists || n in tag.performers ==> HasExactlyOne(ArtistNames(lib2.artists), n))
      && (forall n :: n in tag.genres ==> HasExactlyOne(GenreNames(lib2.genres), n))
  {
    var lib2 := AddNonTrackEntities(env, lib, tag).0;
    var newArtists := NewArtistNames(lib, tag);
    var newGenres := Except(tag.genres, GenreNames(lib.genres));
    SaveArtistsValid(lib.artists, newArtists);
    SaveGenresValid(lib.genres, newGenres);
    forall n | n in tag.albumArtists || n in tag.performers
      ensures HasExactlyOne(ArtistNames(lib2.artists), n)
    {
      if n in newArtists {
        SavedNamesPresent(lib.artists, newArtists, n);
      } else {
        OldNamesPresent(lib.artists, newArtists, n);
      }
    }
    forall n | n in tag.genres
      ensures HasExactlyOne(GenreNames(lib2.genres), n)
    {
      SavedGenreNamesPresent(lib.genres, newGenres, n);
    }
  }

  /** The upsert keeps the library valid, keeps every stored entity where
      it was, and afterwards each album artist, performer and genre of the
      tag has exactly one entity. */
  lemma AddNonTrackEntitiesValid(env: Env, lib: Library, tag: TagInfo)
    requires Valid(lib)
    ensures var lib2 := AddNonTrackEntities(env, lib, tag).0;
      var album := AddNonTrackEntities(env, lib, tag).1;
      && Valid(lib2)
      && album < |lib2.albums|
      && lib2.artists[..|lib.artists|] == lib.artists
      && lib2.genres[..|lib.genres|] == lib.genres
      && lib2.albums[..|lib.albums|] == lib.albums
      && (forall n :: n in tag.albumArtists || n in tag.performers ==> HasExactlyOne(ArtistNames(lib2.artists), n))
      && (forall n :: n in tag.genres ==> HasExactlyOne(GenreNames(lib2.genres), n))
  {
    AddNonTrackEntitiesKeeps(env, lib, tag);
    AddNonTrackEntitiesNames(env, lib, tag);
  }

  // ---------------------------------------------------------------------
  // Adding and updating a track
  // ---------------------------------------------------------------------

  /** A tempo of 0 means "none". */
  function BpmOf(tag: TagInfo): (r: Option<int>)
    ensures r.None? <==> tag.beatsPerMinute == 0
    ensures r.Some? ==> r.value == tag.beatsPerMinute
  {
    if tag.beatsPerMinute == 0 then None else Some(tag.beatsPerMinute)
  }

  /** `AddTrackToDatabase`'s new track, before it is linked to artists and
      genres. */
  function NewTrack(env: Env, id: nat, path: string, f: AudioFile, hash: string, album: nat,
                    artists: seq<int>, genres: seq<int>): (r: Result<Track, ImportError>)
    ensures r.Failure? <==> |f.properties.codecs| == 0
    ensures r.Success? ==>
      && r.value.id == id && r.value.path == path && r.value.album == Some(album)
      && r.value.playcount == 0 && r.value.dateAdded == env.now
      && r.value.dateLastPlayed == Dates.MinValue && r.value.discNumber.None?
      && (r.value.bpm.None? <==> f.tag.beatsPerMinute == 0)
      && r.value.tagLibHash == hash
      && r.value.artists == artists && r.value.genres == genres
  {
    var p := f.properties;
    var t := f.tag;
    if |p.codecs| == 0 then Failure(NoCodec)
    else Success(Track(
      id, Some(album), artists, BpmOf(t), ToUInt32(p.audioBitrate), ToUInt32(p.bitsPerSample),
      ToUInt32(p.audioChannels), p.codecs[0].description, t.date, env.now, Dates.MinValue, None,
      ToUInt64(p.durationMs), genres, t.musicBrainzTrackId, path, 0, t.nullableRating,
      ToUInt32(p.audioSampleRate), ToUInt64(f.length), t.title, Some(t.track), hash))
  }

  /** The scalar fields the update overwrites, taken from the file. */
  function Rescan(track: Track, path: string, f: AudioFile, hash: string, album: nat): (r: Track)
    requires 0 < |f.properties.codecs|
    ensures r.id == track.id && r.playcount == track.playcount
    ensures r.dateAdded == track.dateAdded && r.dateLastPlayed == track.dateLastPlayed
    ensures r.discNumber == track.discNumber
    ensures r.artists == track.artists && r.genres == track.genres
    ensures r.path == path && r.album == Some(album) && r.tagLibHash == hash
    ensures r.title == f.tag.title && r.date == f.tag.date && r.rating == f.tag.nullableRating
    ensures r.bpm.None? <==> f.tag.beatsPerMinute == 0
  {
    var p := f.properties;
    var t := f.tag;
    track.(path := path, title := t.title, album := Some(album), duration := ToUInt64(p.durationMs),
      bitrate := ToUInt32(p.audioBitrate), channelCount := ToUInt32(p.audioChannels),
      sampleRate := ToUInt32(p.audioSampleRate), bitsPerSample := ToUInt32(p.bitsPerSample),
      codec := p.codecs[0].description, size := ToUInt64(f.length), tagLibHash := hash,
      trackNumber := Some(t.track), date := t.date, musicBrainzId := t.musicBrainzTrackId,
      bpm := BpmOf(t), rating := t.nullableRating)
  }

  /** The elements of `s` kept (`inside`) or dropped (`!inside`) by
      membership in `among`, in order. */
  function Select(s: seq<int>, among: seq<int>, inside: bool): (r: seq<int>)
    ensures forall x :: x in r <==> x in s && (x in among) == inside
    ensures |r| <= |s|
  {
    if |s| == 0 then []
    else if (s[0] in among) == inside then [s[0]] + Select(s[1..], among, inside)
    else Select(s[1..], among, inside)
  }

  /** The intended reconciliation of a track's list with the newly matched
      entities: those no longer matched are removed, the newly matched are
      appended, and the rest keep their places. */
  function Reconcile(current: seq<int>, wanted: seq<int>): (r: seq<int>)
    ensures forall x :: x in r <==> x in wanted
  {
    Select(current, wanted, true) + Select(wanted, current, false)
  }

  /** The reconciliation as written: the removals are enumerated lazily over
      the very list they remove from, so the first removal invalidates the
      enumerator and the next step throws. `None` is that exception. */
  function ReconcileAsWritten(current: seq<int>, wanted: seq<int>): (r: Option<seq<int>>)
    ensures r.Some? ==> forall x :: x in r.value <==> x in wanted
  {
    if exists x :: x in current && x !in wanted then None
    else Some(current + Select(wanted, current, false))
  }

  lemma {:induction false} SelectAll(s: seq<int>, among: seq<int>)
    requires forall x :: x in s ==> x in among
    ensures Select(s, among, true) == s
  {
    if |s| > 0 {
      var head := s[0];
      assert head in s;
      assert head in among;
      assert forall x :: x in s[1..] ==> x in s;
      SelectAll(s[1..], among);
      assert s == [head] + s[1..];
      assert Select(s, among, true) == [s[0]] + Select(s[1..], among, true);
    }
  }

  /** The code as written succeeds exactly when nothing has to be removed,
      and then agrees with the intended reconciliation. */
  lemma ReconcileAsWrittenFails(current: seq<int>, wanted: seq<int>)
    ensures ReconcileAsWritten(current, wanted).None? <==> exists x :: x in current && x !in wanted
    ensures ReconcileAsWritten(current, wanted).Some? ==>
      ReconcileAsWritten(current, wanted).value == Reconcile(current, wanted)
  {
    if forall x :: x in current ==> x in wanted {
      SelectAll(current, wanted);
    }
  }

  /** `UpdateTrackInDatabase` on the track at position `k`, with the
      intended reconciliation of its artists and genres. */
  function UpdateTrack(env: Env, lib: Library, k: nat, path: string, f: AudioFile, hash: string): (r: Result<Library, ImportError>)
    requires k < |lib.tracks|
    ensures r.Failure? <==> |f.properties.codecs| == 0
    ensures r.Success? ==>
      var lib2 := AddNonTrackEntities(env, lib, f.tag).0;
      var album := AddNonTrackEntities(env, lib, f.tag).1;
      && r.value.artists == lib2.artists && r.value.genres == lib2.genres && r.value.albums == lib2.albums
      && |r.value.tracks| == |lib.tracks|
      && (forall j :: 0 <= j < |lib.tracks| && j != k ==> r.value.tracks[j] == lib.tracks[j])
      && r.value.tracks[k] == Rescan(lib.tracks[k], path, f, hash, album).(
           artists := Reconcile(lib.tracks[k].artists, Matching(ArtistNames(lib2.artists), f.tag.performers)),
           genres := Reconcile(lib.tracks[k].genres, Matching(GenreNames(lib2.genres), f.tag.genres)))
  {
    var lib2 := AddNonTrackEntities(env, lib, f.tag).0;
    var album := AddNonTrackEntities(env, lib, f.tag).1;
    if |f.properties.codecs| == 0 then Failure(NoCodec)
    else
      var artists := Matching(ArtistNames(lib2.artists), f.tag.performers);
      var genres := Matching(GenreNames(lib2.genres), f.tag.genres);
      var prior := lib.tracks[k];
      var track := Rescan(prior, path, f, hash, album).(
        artists := Reconcile(prior.artists, artists), genres := Reconcile(prior.genres, genres));
      Success(lib2.(tracks := lib.tracks[k := track]))
  }

  /** `AddTrackToDatabase`: the new track takes the next id and is linked to
      the stored artists named as performers and the stored genres named in
      the tag. */
  function AddTrack(env: Env, lib: Library, path: string, f: AudioFile, hash: string): (r: Result<Library, ImportError>)
    ensures r.Failure? <==> |f.properties.codecs| == 0
    ensures r.Success? ==>
      var lib2 := AddNonTrackEntities(env, lib, f.tag).0;
      && r.value.artists == lib2.artists && r.value.genres == lib2.genres && r.value.albums == lib2.albums
      && |r.value.tracks| == |lib.tracks| + 1 && r.value.tracks[..|lib.tracks|] == lib.tracks
      && NewTrack(env, |lib.tracks|, path, f, hash, AddNonTrackEntities(env, lib, f.tag).1,
           Matching(ArtistNames(lib2.artists), f.tag.performers),
           Matching(GenreNames(lib2.genres), f.tag.genres)) == Success(r.value.tracks[|lib.tracks|])
  {
    var lib2 := AddNonTrackEntities(env, lib, f.tag).0;
    var album := AddNonTrackEntities(env, lib, f.tag).1;
    var artists := Matching(ArtistNames(lib2.artists), f.tag.performers);
    var genres := Matching(GenreNames(lib2.genres), f.tag.genres);
    match NewTrack(env, |lib.tracks|, path, f, hash, album, artists, genres)
    case Failure(e) => Failure(e)
    case Success(t) => Success(lib2.(tracks := lib.tracks + [t]))
  }

  // ---------------------------------------------------------------------
  // The import decision
  // ---------------------------------------------------------------------

  datatype Decision = Add | Update(index: nat) | Skip

  /** The position of the first track with this path (ordinal equality). */
  function FindPath(tracks: seq<Track>, path: string, i: nat): (r: Option<nat>)
    requires i <= |tracks|
    ensures r.Some? ==> i <= r.value < |tracks| && tracks[r.value].path == path
    ensures r.Some? ==> forall k :: i <= k < r.value ==> tracks[k].path != path
    ensures r.None? ==> forall k :: i <= k < |tracks| ==> tracks[k].path != path
    decreases |tracks| - i
  {
    if i == |tracks| then None
    else if tracks[i].path == path then Some(i)
    else FindPath(tracks, path, i + 1)
  }

  /** Some track with this path also has this change key. */
  predicate HasPathAndHash(tracks: seq<Track>, path: string, hash: string) {
    exists k :: 0 <= k < |tracks| && tracks[k].path == path && tracks[k].tagLibHash == hash
  }

  /** `ImportFile`'s decision: add when no track has the path, skip when
      one with the path has the same key, and otherwise update the first
      track with the path. */
  function Decide(tracks: seq<Track>, path: string, hash: string): (d: Decision)
    ensures d.Add? <==> forall k :: 0 <= k < |tracks| ==> tracks[k].path != path
    ensures d.Skip? <==> HasPathAndHash(tracks, path, hash)
    ensures d.Update? ==>
      && d.index < |tracks| && tracks[d.index].path == path
      && (forall k :: 0 <= k < d.index ==> tracks[k].path != path)
      && !HasPathAndHash(tracks, path, hash)
  {
    match FindPath(tracks, path, 0)
    case None => Add
    case Some(k) =>
      if exists j :: 0 <= j < |tracks| && tracks[j].path == path && tracks[j].tagLibHash == hash then Skip
      else Update(k)
  }

  /** `ImportFile`. */
  function ImportFile(env: Env, lib: Library, path: string, f: AudioFile): (r: Result<Library, ImportError>)
  {
    var hash := TagLibHash(env.md5, f);
    match Decide(lib.tracks, path, hash)
    case Add => AddTrack(env, lib, path, f, hash)
    case Update(k) => UpdateTrack(env, lib, k, path, f, hash)
    case Skip => Success(lib)
  }

  /** What one import leaves behind: a valid library with at most one more
      track, no track moved to another path except to the imported one, and
      a track with the imported path and change key. */
  predicate ImportedAs(lib: Library, lib2: Library, path: string, hash: string) {
    && Valid(lib2)
    && |lib.tracks| <= |lib2.tracks| <= |lib.tracks| + 1
    && (forall k :: 0 <= k < |lib2.tracks| ==>
          (k < |lib.tracks| && lib2.tracks[k].path == lib.tracks[k].path) || lib2.tracks[k].path == path)
    && HasPathAndHash(lib2.tracks, path, hash)
  }

  lemma AddTrackValid(env: Env, lib: Library, path: string, f: AudioFile, hash: string)
    requires Valid(lib)
    requires forall k :: 0 <= k < |lib.tracks| ==> lib.tracks[k].path != path
    ensures AddTrack(env, lib, path, f, hash).Success? ==>
      ImportedAs(lib, AddTrack(env, lib, path, f, hash).value, path, hash)
  {
    var r := AddTrack(env, lib, path, f, hash);
    if r.Success? {
      AddNonTrackEntitiesValid(env, lib, f.tag);
      var lib2 := AddNonTrackEntities(env, lib, f.tag).0;
      var t := r.value.tracks[|lib.tracks|];
      assert r.value.tracks == lib.tracks + [t];
      assert TrackRefsValid(t, |lib2.albums|, |lib2.artists|, |lib2.genres|);
      forall k | 0 <= k < |r.value.tracks|
        ensures r.value.tracks[k].id == k
        ensures TrackRefsValid(r.value.tracks[k], |lib2.albums|, |lib2.artists|, |lib2.genres|)
      {
        if k < |lib.tracks| {
          assert r.value.tracks[k] == lib.tracks[k];
        }
      }
      forall i, j | 0 <= i < j < |r.value.tracks|
        ensures r.value.tracks[i].path != r.value.tracks[j].path
      {
        assert r.value.tracks[i] == lib.tracks[i];
        if j < |lib.tracks| {
          assert r.value.tracks[j] == lib.tracks[j];
        }
      }
      forall k | 0 <= k < |r.value.tracks|
        ensures (k < |lib.tracks| && r.value.tracks[k].path == lib.tracks[k].path) || r.value.tracks[k].path == path
      {
        if k < |lib.tracks| {
          assert r.value.tracks[k] == lib.tracks[k];
        }
      }
      assert TracksValid(r.value.tracks, |lib2.albums|, |lib2.artists|, |lib2.genres|);
      assert t.tagLibHash == hash && t.path == path;
    }
  }

  lemma UpdateTrackValid(env: Env, lib: Library, k: nat, path: string, f: AudioFile, hash: string)
    requires Valid(lib)
    requires k < |lib.tracks| && lib.tracks[k].path == path
    ensures UpdateTrack(env, lib, k, path, f, hash).Success? ==>
      ImportedAs(lib, UpdateTrack(env, lib, k, path, f, hash).value, path, hash)
  {
    var r := UpdateTrack(env, lib, k, path, f, hash);
    if r.Success? {
      AddNonTrackEntitiesValid(env, lib, f.tag);
      var lib2 := AddNonTrackEntities(env, lib, f.tag).0;
      var t := r.value.tracks[k];
      assert TrackRefsValid(t, |lib2.albums|, |lib2.artists|, |lib2.genres|);
      forall j | 0 <= j < |r.value.tracks|
        ensures r.value.tracks[j].id == j
        ensures r.value.tracks[j].path == lib.tracks[j].path
        ensures TrackRefsValid(r.value.tracks[j], |lib2.albums|, |lib2.artists|, |lib2.genres|)
      {
        if j != k {
          assert r.value.tracks[j] == lib.tracks[j];
        }
      }
      assert TracksValid(r.value.tracks, |lib2.albums|, |lib2.artists|, |lib2.genres|);
      assert t.tagLibHash == hash && t.path == path;
    }
  }

  /** Importing keeps the library valid, adds at most the one track with
      this path, and leaves that track holding the file's change key. */
  lemma ImportFileValid(env: Env, lib: Library, path: string, f: AudioFile)
    requires Valid(lib)
    ensures ImportFile(env, lib, path, f).Success? ==>
      ImportedAs(lib, ImportFile(env, lib, path, f).value, path, TagLibHash(env.md5, f))
  {
    var hash := TagLibHash(env.md5, f);
    match Decide(lib.tracks, path, hash)
    case Skip =>
      var k :| 0 <= k < |lib.tracks| && lib.tracks[k].path == path && lib.tracks[k].tagLibHash == hash;
    case Add => AddTrackValid(env, lib, path, f, hash);
    case Update(k) => UpdateTrackValid(env, lib, k, path, f, hash);
  }

  /** Importing a file that is unchanged since the last import changes
      nothing at all. */
  lemma UnchangedFileSkipped(env: Env, lib: Library, path: string, f: AudioFile)
    requires HasPathAndHash(lib.tracks, path, TagLibHash(env.md5, f))
    ensures ImportFile(env, lib, path, f) == Success(lib)
  {
  }

  /** Importing the same file twice is the same as importing it once. */
  lemma ImportFileIdempotent(env: Env, lib: Library, path: string, f: AudioFile)
    requires Valid(lib)
    requires ImportFile(env, lib, path, f).Success?
    ensures ImportFile(env, ImportFile(env, lib, path, f).value, path, f) == ImportFile(env, lib, path, f)
  {
    ImportFileValid(env, lib, path, f);
  }

  // ---------------------------------------------------------------------
  // ImportDirectory
  // ---------------------------------------------------------------------

  /** Imports the files one after the other; the first exception ends the
      import. */
  function ImportAll(env: Env, lib: Library, files: seq<(string, AudioFile)>): (r: Result<Library, ImportError>)
    decreases |files|
  {
    if |files| == 0 then Success(lib)
    else match ImportFile(env, lib, files[0].0, files[0].1)
      case Failure(e) => Failure(e)
      case Success(lib2) => ImportAll(env, lib2, files[1..])
  }

  /** `ImportDirectory`: nothing when the directory does not exist;
      otherwise the enumerated files that pass the extension filter. */
  function ImportDirectory(env: Env, lib: Library, dirExists: bool, files: seq<(string, AudioFile)>): (r: Result<Library, ImportError>)
  {
    if !dirExists then Success(lib) else ImportAll(env, lib, MusicFiles(files))
  }

  /** The track at position `k` kept its path from `lib` or took the path
      of one of the files. */
  predicate PathFrom(lib: Library, lib2: Library, files: seq<(string, AudioFile)>, k: nat)
    requires k < |lib2.tracks|
  {
    (k < |lib.tracks| && lib2.tracks[k].path == lib.tracks[k].path)
    || exists n :: 0 <= n < |files| && files[n].0 == lib2.tracks[k].path
  }

  /** What a run of imports leaves behind: a valid library, no track lost,
      and every path that changed taken from one of the files. */
  predicate ImportedFrom(lib: Library, lib2: Library, files: seq<(string, AudioFile)>) {
    && Valid(lib2)
    && |lib.tracks| <= |lib2.tracks|
    && forall k :: 0 <= k < |lib2.tracks| ==> PathFrom(lib, lib2, files, k)
  }

  lemma PathFromStep(lib: Library, lib1: Library, lib2: Library, files: seq<(string, AudioFile)>, k: nat)
    requires 0 < |files|
    requires forall j :: 0 <= j < |lib1.tracks| ==>
      (j < |lib.tracks| && lib1.tracks[j].path == lib.tracks[j].path) || lib1.tracks[j].path == files[0].0
    requires k < |lib2.tracks| && PathFrom(lib1, lib2, files[1..], k)
    ensures PathFrom(lib, lib2, files, k)
  {
    if !(k < |lib1.tracks| && lib2.tracks[k].path == lib1.tracks[k].path) {
      var n :| 0 <= n < |files[1..]| && files[1..][n].0 == lib2.tracks[k].path;
      assert files[n + 1].0 == lib2.tracks[k].path;
    } else if !(k < |lib.tracks| && lib1.tracks[k].path == lib.tracks[k].path) {
      assert files[0].0 == lib2.tracks[k].path;
    }
  }

  /** A whole import keeps the library valid, and every track it adds has
      the path of a file that passed the filter. */
  lemma {:induction false} ImportAllValid(env: Env, lib: Library, files: seq<(string, AudioFile)>)
    requires Valid(lib)
    ensures ImportAll(env, lib, files).Success? ==> ImportedFrom(lib, ImportAll(env, lib, files).value, files)
    decreases |files|
  {
    if |files| == 0 {
      assert forall k :: 0 <= k < |lib.tracks| ==> PathFrom(lib, lib, files, k);
    } else {
      ImportFileValid(env, lib, files[0].0, files[0].1);
      var r1 := ImportFile(env, lib, files[0].0, files[0].1);
      if r1.Success? {
        ImportAllValid(env, r1.value, files[1..]);
        var r := ImportAll(env, lib, files);
        if r.Success? {
          forall k | 0 <= k < |r.value.tracks|
            ensures PathFrom(lib, r.value, files, k)
          {
            PathFromStep(lib, r1.value, r.value, files, k);
          }
        }
      }
    }
  }

  /** Every track an import adds comes from a file with an accepted
      extension. */
  lemma ImportDirectoryOnlyMusic(env: Env, lib: Library, dirExists: bool, files: seq<(string, AudioFile)>)
    requires Valid(lib)
    ensures var r := ImportDirectory(env, lib, dirExists, files);
      r.Success? ==> Valid(r.value) && forall k :: |lib.tracks| <= k < |r.value.tracks| ==> IsMusicFile(r.value.tracks[k].path)
  {
    if dirExists {
      var music := MusicFiles(files);
      ImportAllValid(env, lib, music);
      var r := ImportDirectory(env, lib, dirExists, files);
      if r.Success? {
        forall k | |lib.tracks| <= k < |r.value.tracks|
          ensures IsMusicFile(r.value.tracks[k].path)
        {
          assert PathFrom(lib, r.value, music, k);
          var n :| 0 <= n < |music| && music[n].0 == r.value.tracks[k].path;
          assert music[n] in music;
        }
      }
    }
  }
}
