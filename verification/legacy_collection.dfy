/** The earlier import, written against an object context that keeps the
    entities added during one directory import pending until the end. It
    reads the same change key from a file and takes the same add, update or
    skip decision, but every lookup consults the pending entities first and
    the stored ones second, and several lookups differ from the current
    import: the extension filter is case-sensitive, a track is linked to
    every stored artist, the album key hashes the album-artist names, and
    the genre lookup sees only pending genres.

    The context is one library whose tables begin with the entities stored
    before the import; the entities after them are pending. An entity's id
    is its position in its table. */
module LegacyCollection {
  import opened Wrappers
  import opened Text
  import opened Sorting
  import opened Extensions
  import opened Entities
  import Dates
  import ML = MediaLibrary

  // ---------------------------------------------------------------------
  // The session
  // ---------------------------------------------------------------------

  /** How many entities of each table were stored when the import began. */
  datatype Stored = Stored(tracks: nat, artists: nat, genres: nat, albums: nat)

  /** The object context of one directory import. */
  datatype Session = Session(lib: ML.Library, stored: Stored)

  /** The stored entities are a prefix of each table. */
  predicate WellFormed(s: Session) {
    && s.stored.tracks <= |s.lib.tracks|
    && s.stored.artists <= |s.lib.artists|
    && s.stored.genres <= |s.lib.genres|
    && s.stored.albums <= |s.lib.albums|
  }

  /** `SaveChanges`: every pending entity becomes stored. */
  function Commit(s: Session): (r: Session)
    ensures r.lib == s.lib && WellFormed(r)
    ensures r.stored.tracks == |s.lib.tracks| && r.stored.artists == |s.lib.artists|
    ensures r.stored.genres == |s.lib.genres| && r.stored.albums == |s.lib.albums|
  {
    Session(s.lib, Stored(|s.lib.tracks|, |s.lib.artists|, |s.lib.genres|, |s.lib.albums|))
  }

  // ---------------------------------------------------------------------
  // The extension filter
  // ---------------------------------------------------------------------

  /** The filter compares the extension with ordinal equality. */
  predicate IsLegacyMusicFile(path: string) {
    ML.GetExtension(path) in ML.MusicExtensions
  }

  /** Unlike the current filter, this one takes ".mp3" but not ".MP3". */
  lemma LegacyFilterIsCaseSensitive(stem: string)
    ensures IsLegacyMusicFile(stem + ".mp3")
    ensures !IsLegacyMusicFile(stem + ".MP3")
    ensures ML.IsMusicFile(stem + ".MP3")
  {
    ML.ExtensionOf(stem, "mp3");
    ML.ExtensionOf(stem, "MP3");
    assert stem + "." + "mp3" == stem + ".mp3";
    assert stem + "." + "MP3" == stem + ".MP3";
    assert ML.MusicExtensions[0] == ".mp3";
    assert ".MP3" != ML.MusicExtensions[0] by {
      assert ".MP3"[1] != ".mp3"[1];
    }
    assert ".MP3" != ML.MusicExtensions[1] by {
      assert ".MP3"[2] != ".m4a"[2];
    }
    assert ".MP3" != ML.MusicExtensions[2] by {
      assert |".MP3"| != |".flac"|;
    }
    ML.UpperCaseExtensionImported(stem);
  }

  /** The files of the list that pass the filter, in enumeration order. */
  function LegacyMusicFiles(files: seq<(string, ML.AudioFile)>): (r: seq<(string, ML.AudioFile)>)
    ensures forall x :: x in r <==> x in files && IsLegacyMusicFile(x.0)
  {
    if |files| == 0 then []
    else if IsLegacyMusicFile(files[0].0) then [files[0]] + LegacyMusicFiles(files[1..])
    else LegacyMusicFiles(files[1..])
  }

  // ---------------------------------------------------------------------
  // Lookups: pending entities first, then stored ones
  // ---------------------------------------------------------------------

  /** The union of a filtered pending query with the same filter over the
      stored table: the positions whose name is wanted, pending ones first,
      each once. */
  function PendingFirst(names: seq<string>, wanted: seq<string>, stored: nat): (r: seq<nat>)
    requires stored <= |names|
    ensures forall k :: k in r <==> 0 <= k < |names| && names[k] in wanted
    ensures forall a, b :: 0 <= a < b < |r| ==> r[a] != r[b]
    ensures forall a, b :: 0 <= a < |r| && 0 <= b < |r| && r[b] < stored <= r[a] ==> a < b
  {
    var pending := ML.MatchingFrom(names, wanted, stored);
    var persisted := ML.Matching(names[..stored], wanted);
    var r := pending + persisted;
    forall a, b | 0 <= a < |r| && 0 <= b < |r| && a < b
      ensures r[a] != r[b]
    {
      if b < |pending| {
      } else if a >= |pending| {
        assert r[a] == persisted[a - |pending|] && r[b] == persisted[b - |pending|];
      } else {
        assert r[a] == pending[a] && pending[a] in pending;
        assert r[b] == persisted[b - |pending|] && persisted[b - |pending|] in persisted;
      }
    }
    forall a | |pending| <= a < |r|
      ensures r[a] < stored
    {
      assert r[a] == persisted[a - |pending|] && persisted[a - |pending|] in persisted;
    }
    forall b | 0 <= b < |pending|
      ensures stored <= r[b]
    {
      assert r[b] == pending[b] && pending[b] in pending;
    }
    r
  }

  /** The tracks with this path, pending first: the first of them. */
  function LegacyFindPath(s: Session, path: string): (r: Option<nat>)
    requires WellFormed(s)
    ensures r.None? <==> forall k :: 0 <= k < |s.lib.tracks| ==> s.lib.tracks[k].path != path
    ensures r.Some? ==> r.value < |s.lib.tracks| && s.lib.tracks[r.value].path == path
    ensures r.Some? && r.value < s.stored.tracks ==>
      forall k :: s.stored.tracks <= k < |s.lib.tracks| ==> s.lib.tracks[k].path != path
    ensures r.Some? && s.stored.tracks <= r.value ==>
      forall k :: s.stored.tracks <= k < r.value ==> s.lib.tracks[k].path != path
  {
    var pending := ML.FindPath(s.lib.tracks, path, s.stored.tracks);
    if pending.Some? then pending else ML.FindPath(s.lib.tracks, path, 0)
  }

  /** `ImportFile`'s decision over pending and stored tracks: add when no
      track has the path, skip when one with the path has the same key, and
      otherwise update the first pending track with the path, or the first
      stored one when none is pending. */
  function LegacyDecide(s: Session, path: string, hash: string): (d: ML.Decision)
    requires WellFormed(s)
    ensures d.Add? <==> forall k :: 0 <= k < |s.lib.tracks| ==> s.lib.tracks[k].path != path
    ensures d.Skip? <==> ML.HasPathAndHash(s.lib.tracks, path, hash)
    ensures d.Update? ==>
      && d.index < |s.lib.tracks| && s.lib.tracks[d.index].path == path
      && !ML.HasPathAndHash(s.lib.tracks, path, hash)
      && (d.index < s.stored.tracks ==>
            forall k :: s.stored.tracks <= k < |s.lib.tracks| ==> s.lib.tracks[k].path != path)
  {
    match LegacyFindPath(s, path)
    case None => ML.Add
    case Some(k) =>
      if exists j :: 0 <= j < |s.lib.tracks| && s.lib.tracks[j].path == path && s.lib.tracks[j].tagLibHash == hash
      then ML.Skip
      else ML.Update(k)
  }

  /** `GetTrackArtistsForTag`: the pending artists named as performers,
      together with every stored artist, named or not. */
  function LegacyTrackArtists(artists: seq<Artist>, stored: nat, performers: seq<string>): (r: seq<nat>)
    requires stored <= |artists|
    ensures forall k :: k in r <==>
      (0 <= k < stored) || (stored <= k < |artists| && artists[k].name in performers)
  {
    var all := seq(stored, i requires 0 <= i < stored => i);
    forall k | 0 <= k < stored
      ensures k in all
    {
      assert all[k] == k;
    }
    ML.MatchingFrom(ML.ArtistNames(artists), performers, stored) + all
  }

  /** A stored artist the tag does not name is linked all the same, where
      the current import links only the named ones. */
  lemma StoredArtistLinkedUnnamed(artists: seq<Artist>, stored: nat, performers: seq<string>, k: nat)
    requires stored <= |artists|
    requires k < stored && artists[k].name !in performers
    ensures k in LegacyTrackArtists(artists, stored, performers)
    ensures k !in ML.Matching(ML.ArtistNames(artists), performers)
  {
  }

  /** `GetTrackGenresForTag`: the pending and stored genres the tag names. */
  function LegacyTrackGenres(genres: seq<Genre>, stored: nat, wanted: seq<string>): (r: seq<nat>)
    requires stored <= |genres|
    ensures forall k :: k in r <==> 0 <= k < |genres| && genres[k].name in wanted
    ensures forall a, b :: 0 <= a < b < |r| ==> r[a] != r[b]
  {
    PendingFirst(ML.GenreNames(genres), wanted, stored)
  }

  // ---------------------------------------------------------------------
  // The album key
  // ---------------------------------------------------------------------

  /** `OrderBy(s => s, StringComparer.Ordinal)`. */
  function OrdinalSorted(names: seq<string>): (r: seq<string>)
    ensures SortedBy(StringLe(), r)
    ensures multiset(r) == multiset(names)
  {
    StringLeIsTotal();
    Sort(StringLe(), names)
  }

  /** The album key: the hex MD5 of the album-artist names sorted ordinally
      and concatenated without separator. */
  function AlbumKey(md5: Md5, albumArtists: seq<string>): (r: string)
    ensures |r| == 32
    ensures UnHex(r) == Some(md5(Utf8(Concat(OrdinalSorted(albumArtists)))))
  {
    Md5Hex(md5, Utf8(Concat(OrdinalSorted(albumArtists))))
  }

  /** The key does not depend on the order the tag lists album artists in. */
  lemma AlbumKeyIgnoresOrder(md5: Md5, a: seq<string>, b: seq<string>)
    requires multiset(a) == multiset(b)
    ensures AlbumKey(md5, a) == AlbumKey(md5, b)
  {
    StringLeIsTotal();
    SortIgnoresOrder(StringLe(), a, b);
  }

  /** For names already in ordinal order the key hashes their plain
      concatenation. */
  lemma AlbumKeyOfSorted(md5: Md5, a: seq<string>)
    requires SortedBy(StringLe(), a)
    ensures AlbumKey(md5, a) == Md5Hex(md5, Utf8(Concat(a)))
  {
    StringLeIsTotal();
    SortedUnique(StringLe(), OrdinalSorted(a), a);
  }

  /** Without a separator, different album-artist lists can share a key:
      "ab" with "c" and "a" with "bc" both hash "abc". */
  lemma AlbumKeyCollision(md5: Md5, a: seq<string>, b: seq<string>)
    requires a == ["ab", "c"] && b == ["a", "bc"]
    ensures multiset(a) != multiset(b)
    ensures AlbumKey(md5, a) == AlbumKey(md5, b)
  {
    var x1, x2, y1, y2 := a[0], a[1], b[0], b[1];
    assert a == [x1, x2] && b == [y1, y2];
    assert x1 + x2 == y1 + y2 by {
      assert x1 + x2 == ['a', 'b', 'c'];
      assert y1 + y2 == ['a', 'b', 'c'];
    }
    LeadingCharDecides(x1, x2);
    LeadingCharDecides(y1, y2);
    AlbumKeyOfPairs(md5, x1, x2, y1, y2);
    assert x1 in multiset(a);
    assert x1 != y1 && x1 != y2;
  }

  /** Two ordered pairs with the same concatenation share a key. */
  lemma AlbumKeyOfPairs(md5: Md5, x1: string, x2: string, y1: string, y2: string)
    requires OrdinalLe(x1, x2) && OrdinalLe(y1, y2)
    requires x1 + x2 == y1 + y2
    ensures AlbumKey(md5, [x1, x2]) == AlbumKey(md5, [y1, y2])
  {
    SortedPair(x1, x2);
    SortedPair(y1, y2);
    AlbumKeyOfSorted(md5, [x1, x2]);
    AlbumKeyOfSorted(md5, [y1, y2]);
    ConcatPair(x1, x2);
    ConcatPair(y1, y2);
  }

  lemma SortedPair(x: string, y: string)
    requires OrdinalLe(x, y)
    ensures SortedBy(StringLe(), [x, y])
  {
    OrdinalLeIsTotalAt(x, y, y);
  }

  /** The names are ordered by UTF-16 code unit, not by code point: an
      emoji (U+1F600) sorts before a full-width letter (U+FF21), so the key
      hashes the emoji first. */
  lemma AlbumKeySurrogateFirst(md5: Md5, a: seq<string>)
    requires a == ["\U{FF21}", "\U{1F600}"]
    ensures a[1][0] > a[0][0]
    ensures OrdinalSorted(a) == [a[1], a[0]]
    ensures AlbumKey(md5, a) == Md5Hex(md5, Utf8(a[1] + a[0]))
  {
    var x, y := a[1], a[0];
    assert a == [y, x];
    SurrogateSortsFirst(x, y);
    SortedPair(x, y);
    StringLeIsTotal();
    SortedUnique(StringLe(), OrdinalSorted(a), [x, y]);
    ConcatPair(x, y);
  }

  lemma ConcatPair(x: string, y: string)
    ensures Concat([x, y]) == x + y
  {
    assert Concat([x, y]) == x + Concat([y]);
    assert Concat([y]) == y + Concat([]);
  }

  // ---------------------------------------------------------------------
  // Upserting artists, album and genres
  // ---------------------------------------------------------------------

  /** The matching albums, pending first: the first of them. */
  function LegacyFindAlbum(albums: seq<Album>, stored: nat, title: string, key: string): (r: Option<nat>)
    requires stored <= |albums|
    ensures r.None? <==> forall k :: 0 <= k < |albums| ==> !(albums[k].title == title && albums[k].artistsHash == key)
    ensures r.Some? ==> r.value < |albums| && albums[r.value].title == title && albums[r.value].artistsHash == key
    ensures r.Some? && r.value < stored ==>
      forall k :: stored <= k < |albums| ==> !(albums[k].title == title && albums[k].artistsHash == key)
  {
    var pending := ML.FindAlbum(albums, title, key, stored);
    if pending.Some? then pending else ML.FindAlbum(albums, title, key, 0)
  }

  /** The album step: the first matching album is reused; otherwise a new
      pending album with the tag's title and key is linked to the pending
      and stored artists named as album artists. */
  function LegacyUpsertAlbum(md5: Md5, artists: seq<Artist>, storedArtists: nat,
                             albums: seq<Album>, storedAlbums: nat, tag: ML.TagInfo): (r: (seq<Album>, nat))
    requires storedArtists <= |artists| && storedAlbums <= |albums|
    ensures var key := AlbumKey(md5, tag.albumArtists);
      match LegacyFindAlbum(albums, storedAlbums, tag.album, key)
      case Some(k) => r.0 == albums && r.1 == k
      case None =>
        && |r.0| == |albums| + 1 && r.0[..|albums|] == albums && r.1 == |albums|
        && r.0[r.1].id == r.1 && r.0[r.1].title == tag.album && r.0[r.1].artistsHash == key
        && r.0[r.1].tracks == []
        && (forall a :: a in r.0[r.1].artists <==> 0 <= a < |artists| && artists[a].name in tag.albumArtists)
  {
    var key := AlbumKey(md5, tag.albumArtists);
    match LegacyFindAlbum(albums, storedAlbums, tag.album, key)
    case Some(k) => (albums, k)
    case None =>
      var ids := PendingFirst(ML.ArtistNames(artists), tag.albumArtists, storedArtists);
      (albums + [Album(|albums|, ids, key, 0, "", tag.album, [])], |albums|)
  }

  /** The genre names to add: the tag's genres that no pending genre has,
      each once and in the tag's order. Stored genres are not consulted. */
  function LegacyNewGenreNames(genres: seq<Genre>, stored: nat, wanted: seq<string>): (r: seq<string>)
    requires stored <= |genres|
    ensures forall x :: x in r <==>
      x in wanted && forall j :: stored <= j < |genres| ==> genres[j].name != x
    ensures forall i, j :: 0 <= i < j < |r| ==> r[i] != r[j]
    ensures forall i, j :: 0 <= i < j < |r| ==> ML.IndexOf(wanted, r[i]) < ML.IndexOf(wanted, r[j])
  {
    var pending := ML.GenreNames(genres)[stored..];
    assert forall x :: x in pending <==> exists j :: stored <= j < |genres| && genres[j].name == x by {
      forall x ensures x in pending ==> exists j :: stored <= j < |genres| && genres[j].name == x {
        if x in pending {
          var i :| 0 <= i < |pending| && pending[i] == x;
          assert genres[stored + i].name == x;
        }
      }
      forall j | stored <= j < |genres|
        ensures genres[j].name in pending
      {
        assert pending[j - stored] == genres[j].name;
      }
    }
    ML.ExceptKeepsOrder(wanted, pending);
    ML.Except(wanted, pending)
  }

  /** `addNonTrackEntitiesAndReturnAlbum`: new artists for the names no
      pending or stored artist has, the album upsert, and new genres for
      the names no pending genre has. Every addition is pending, so the
      stored counts stay as they are. */
  function LegacyAddNonTrackEntities(md5: Md5, s: Session, tag: ML.TagInfo): (r: (ML.Library, nat))
    requires WellFormed(s)
    ensures WellFormed(Session(r.0, s.stored))
    ensures r.0.tracks == s.lib.tracks
    ensures r.0.artists == ML.SaveArtists(s.lib.artists, ML.NewArtistNames(s.lib, tag))
    ensures r.0.genres == ML.SaveGenres(s.lib.genres, LegacyNewGenreNames(s.lib.genres, s.stored.genres, tag.genres))
    ensures (r.0.albums, r.1) == LegacyUpsertAlbum(md5, r.0.artists, s.stored.artists, s.lib.albums, s.stored.albums, tag)
  {
    var artists := ML.SaveArtists(s.lib.artists, ML.NewArtistNames(s.lib, tag));
    var albums := LegacyUpsertAlbum(md5, artists, s.stored.artists, s.lib.albums, s.stored.albums, tag).0;
    var album := LegacyUpsertAlbum(md5, artists, s.stored.artists, s.lib.albums, s.stored.albums, tag).1;
    var genres := ML.SaveGenres(s.lib.genres, LegacyNewGenreNames(s.lib.genres, s.stored.genres, tag.genres));
    (ML.Library(s.lib.tracks, artists, genres, albums), album)
  }

  /** Artist names stay unique, as in the current import: the artist lookup
      sees pending and stored artists alike. */
  lemma LegacyArtistsStayUnique(md5: Md5, s: Session, tag: ML.TagInfo)
    requires WellFormed(s) && ML.ArtistsValid(s.lib.artists)
    ensures var artists2 := LegacyAddNonTrackEntities(md5, s, tag).0.artists;
      && ML.ArtistsValid(artists2)
      && forall n :: n in tag.albumArtists || n in tag.performers ==> ML.HasExactlyOne(ML.ArtistNames(artists2), n)
  {
    var names := ML.NewArtistNames(s.lib, tag);
    ML.SaveArtistsValid(s.lib.artists, names);
    var artists2 := LegacyAddNonTrackEntities(md5, s, tag).0.artists;
    forall n | n in tag.albumArtists || n in tag.performers
      ensures ML.HasExactlyOne(ML.ArtistNames(artists2), n)
    {
      if n in names {
        ML.SavedNamesPresent(s.lib.artists, names, n);
      } else {
        ML.OldNamesPresent(s.lib.artists, names, n);
      }
    }
  }

  /** Genre names do not stay unique: a stored genre the tag names, with no
      pending genre of that name, is added a second time as a pending one. */
  lemma StoredGenreAddedAgain(md5: Md5, s: Session, tag: ML.TagInfo, k: nat)
    requires WellFormed(s)
    requires k < s.stored.genres && s.lib.genres[k].name in tag.genres
    requires forall j :: s.stored.genres <= j < |s.lib.genres| ==> s.lib.genres[j].name != s.lib.genres[k].name
    ensures var genres2 := LegacyAddNonTrackEntities(md5, s, tag).0.genres;
      exists j :: |s.lib.genres| <= j < |genres2| && genres2[j].name == genres2[k].name
    ensures !ML.GenresValid(LegacyAddNonTrackEntities(md5, s, tag).0.genres)
  {
    var n := s.lib.genres[k].name;
    var names := LegacyNewGenreNames(s.lib.genres, s.stored.genres, tag.genres);
    var genres2 := LegacyAddNonTrackEntities(md5, s, tag).0.genres;
    assert n in names;
    var i :| 0 <= i < |names| && names[i] == n;
    assert genres2[|s.lib.genres| + i].name == n;
    assert genres2[k] == s.lib.genres[k];
    assert k < |s.lib.genres| + i;
  }

  // ---------------------------------------------------------------------
  // Adding and updating a track
  // ---------------------------------------------------------------------

  /** `AddTrackToDatabase`'s new track: `DateAdded` is the default date,
      not the import time; the rating is the plain `GetRating` value; the
      numbers are stored without conversion. */
  function LegacyNewTrack(id: nat, path: string, f: ML.AudioFile, hash: string, album: nat,
                          artists: seq<int>, genres: seq<int>): (r: Result<Track, ML.ImportError>)
    ensures r.Failure? <==> |f.properties.codecs| == 0
    ensures r.Success? ==>
      && r.value.id == id && r.value.path == path && r.value.album == Some(album)
      && r.value.playcount == 0 && r.value.dateAdded == Dates.MinValue
      && (r.value.bpm.None? <==> f.tag.beatsPerMinute == 0)
      && r.value.rating == Some(f.tag.rating)
      && r.value.bitrate == f.properties.audioBitrate
      && r.value.tagLibHash == hash
      && r.value.artists == artists && r.value.genres == genres
  {
    var p := f.properties;
    var t := f.tag;
    if |p.codecs| == 0 then Failure(ML.NoCodec)
    else Success(Track(
      id, Some(album), artists, ML.BpmOf(t), p.audioBitrate, p.bitsPerSample,
      p.audioChannels, p.codecs[0].description, t.date, Dates.MinValue, Dates.MinValue, None,
      p.durationMs, genres, t.musicBrainzTrackId, path, 0, Some(t.rating),
      p.audioSampleRate, f.length, t.title, Some(t.track), hash))
  }

  /** The scalar fields `UpdateTrackInDatabase` overwrites. */
  function LegacyRescan(track: Track, path: string, f: ML.AudioFile, hash: string, album: nat): (r: Track)
    requires 0 < |f.properties.codecs|
    ensures r.id == track.id && r.playcount == track.playcount
    ensures r.dateAdded == track.dateAdded && r.dateLastPlayed == track.dateLastPlayed
    ensures r.artists == track.artists && r.genres == track.genres
    ensures r.path == path && r.album == Some(album) && r.tagLibHash == hash
    ensures r.title == f.tag.title && r.date == f.tag.date && r.rating == Some(f.tag.rating)
    ensures r.bpm.None? <==> f.tag.beatsPerMinute == 0
  {
    var p := f.properties;
    var t := f.tag;
    track.(path := path, title := t.title, album := Some(album), duration := p.durationMs,
      bitrate := p.audioBitrate, channelCount := p.audioChannels, sampleRate := p.audioSampleRate,
      bitsPerSample := p.bitsPerSample, codec := p.codecs[0].description, size := f.length,
      tagLibHash := hash, trackNumber := Some(t.track), date := t.date,
      musicBrainzId := t.musicBrainzTrackId, bpm := ML.BpmOf(t), rating := Some(t.rating))
  }

  /** `AddTrackToDatabase`: the new pending track is linked to the artists
      of `GetTrackArtistsForTag` and the genres of `GetTrackGenresForTag`. */
  function LegacyAddTrack(md5: Md5, s: Session, path: string, f: ML.AudioFile, hash: string): (r: Result<Session, ML.ImportError>)
    requires WellFormed(s)
    ensures r.Failure? <==> |f.properties.codecs| == 0
    ensures r.Success? ==>
      var lib2 := LegacyAddNonTrackEntities(md5, s, f.tag).0;
      var album := LegacyAddNonTrackEntities(md5, s, f.tag).1;
      && r.value.stored == s.stored
      && r.value.lib.artists == lib2.artists && r.value.lib.genres == lib2.genres
      && r.value.lib.albums == lib2.albums
      && |r.value.lib.tracks| == |s.lib.tracks| + 1 && r.value.lib.tracks[..|s.lib.tracks|] == s.lib.tracks
      && LegacyNewTrack(|s.lib.tracks|, path, f, hash, album,
           LegacyTrackArtists(lib2.artists, s.stored.artists, f.tag.performers),
           LegacyTrackGenres(lib2.genres, s.stored.genres, f.tag.genres)) == Success(r.value.lib.tracks[|s.lib.tracks|])
  {
    var lib2 := LegacyAddNonTrackEntities(md5, s, f.tag).0;
    var album := LegacyAddNonTrackEntities(md5, s, f.tag).1;
    var artists := LegacyTrackArtists(lib2.artists, s.stored.artists, f.tag.performers);
    var genres := LegacyTrackGenres(lib2.genres, s.stored.genres, f.tag.genres);
    match LegacyNewTrack(|s.lib.tracks|, path, f, hash, album, artists, genres)
    case Failure(e) => Failure(e)
    case Success(t) => Success(Session(lib2.(tracks := s.lib.tracks + [t]), s.stored))
  }

  /** `UpdateTrackInDatabase` on the track at position `k`, with the
      intended reconciliation of its artists and genres. */
  function LegacyUpdateTrack(md5: Md5, s: Session, k: nat, path: string, f: ML.AudioFile, hash: string): (r: Result<Session, ML.ImportError>)
    requires WellFormed(s) && k < |s.lib.tracks|
    ensures r.Failure? <==> |f.properties.codecs| == 0
    ensures r.Success? ==>
      var lib2 := LegacyAddNonTrackEntities(md5, s, f.tag).0;
      var album := LegacyAddNonTrackEntities(md5, s, f.tag).1;
      && r.value.stored == s.stored
      && r.value.lib.artists == lib2.artists && r.value.lib.genres == lib2.genres
      && r.value.lib.albums == lib2.albums
      && |r.value.lib.tracks| == |s.lib.tracks|
      && (forall j :: 0 <= j < |s.lib.tracks| && j != k ==> r.value.lib.tracks[j] == s.lib.tracks[j])
      && r.value.lib.tracks[k] == LegacyRescan(s.lib.tracks[k], path, f, hash, album).(
           artists := ML.Reconcile(s.lib.tracks[k].artists,
             LegacyTrackArtists(lib2.artists, s.stored.artists, f.tag.performers)),
           genres := ML.Reconcile(s.lib.tracks[k].genres,
             LegacyTrackGenres(lib2.genres, s.stored.genres, f.tag.genres)))
  {
    var lib2 := LegacyAddNonTrackEntities(md5, s, f.tag).0;
    var album := LegacyAddNonTrackEntities(md5, s, f.tag).1;
    if |f.properties.codecs| == 0 then Failure(ML.NoCodec)
    else
      var prior := s.lib.tracks[k];
      var artists := LegacyTrackArtists(lib2.artists, s.stored.artists, f.tag.performers);
      var genres := LegacyTrackGenres(lib2.genres, s.stored.genres, f.tag.genres);
      var track := LegacyRescan(prior, path, f, hash, album).(
        artists := ML.Reconcile(prior.artists, artists), genres := ML.Reconcile(prior.genres, genres));
      Success(Session(lib2.(tracks := s.lib.tracks[k := track]), s.stored))
  }

  // ---------------------------------------------------------------------
  // ImportFile and ImportDirectory
  // ---------------------------------------------------------------------

  /** `ImportFile`. The change key is built from the same texts as in the
      current import. */
  function LegacyImportFile(md5: Md5, s: Session, path: string, f: ML.AudioFile): (r: Result<Session, ML.ImportError>)
    requires WellFormed(s)
    ensures r.Success? ==> WellFormed(r.value) && r.value.stored == s.stored
    ensures r.Success? ==> |s.lib.tracks| <= |r.value.lib.tracks|
  {
    var hash := ML.TagLibHash(md5, f);
    match LegacyDecide(s, path, hash)
    case Add => LegacyAddTrack(md5, s, path, f, hash)
    case Update(k) => LegacyUpdateTrack(md5, s, k, path, f, hash)
    case Skip => Success(s)
  }

  /** No two tracks share a path. */
  predicate PathsUnique(tracks: seq<Track>) {
    forall i, j :: 0 <= i < j < |tracks| ==> tracks[i].path != tracks[j].path
  }

  /** One import keeps paths unique and leaves a track with the imported
      path and change key, because the decision looks at pending and stored
      tracks alike. */
  lemma LegacyImportFileKeepsPathsUnique(md5: Md5, s: Session, path: string, f: ML.AudioFile)
    requires WellFormed(s) && PathsUnique(s.lib.tracks)
    ensures var r := LegacyImportFile(md5, s, path, f);
      r.Success? ==> PathsUnique(r.value.lib.tracks) && ML.HasPathAndHash(r.value.lib.tracks, path, ML.TagLibHash(md5, f))
  {
    var hash := ML.TagLibHash(md5, f);
    match LegacyDecide(s, path, hash)
    case Skip =>
    case Add => LegacyAddKeepsPathsUnique(md5, s, path, f, hash);
    case Update(k) => LegacyUpdateKeepsPathsUnique(md5, s, k, path, f, hash);
  }

  lemma LegacyAddKeepsPathsUnique(md5: Md5, s: Session, path: string, f: ML.AudioFile, hash: string)
    requires WellFormed(s) && PathsUnique(s.lib.tracks)
    requires forall k :: 0 <= k < |s.lib.tracks| ==> s.lib.tracks[k].path != path
    ensures var r := LegacyAddTrack(md5, s, path, f, hash);
      r.Success? ==> PathsUnique(r.value.lib.tracks) && ML.HasPathAndHash(r.value.lib.tracks, path, hash)
  {
    var r := LegacyAddTrack(md5, s, path, f, hash);
    if r.Success? {
      var tracks := s.lib.tracks;
      var tracks2 := r.value.lib.tracks;
      var n := |tracks|;
      assert tracks2[n].path == path && tracks2[n].tagLibHash == hash;
      forall i, j | 0 <= i < j < |tracks2|
        ensures tracks2[i].path != tracks2[j].path
      {
        assert tracks2[i] == tracks[i];
        if j < n {
          assert tracks2[j] == tracks[j];
        }
      }
    }
  }

  lemma LegacyUpdateKeepsPathsUnique(md5: Md5, s: Session, k: nat, path: string, f: ML.AudioFile, hash: string)
    requires WellFormed(s) && PathsUnique(s.lib.tracks)
    requires k < |s.lib.tracks| && s.lib.tracks[k].path == path
    ensures var r := LegacyUpdateTrack(md5, s, k, path, f, hash);
      r.Success? ==> PathsUnique(r.value.lib.tracks) && ML.HasPathAndHash(r.value.lib.tracks, path, hash)
  {
    var r := LegacyUpdateTrack(md5, s, k, path, f, hash);
    if r.Success? {
      var tracks := s.lib.tracks;
      var tracks2 := r.value.lib.tracks;
      assert tracks2[k].path == path && tracks2[k].tagLibHash == hash;
      forall j | 0 <= j < |tracks2|
        ensures tracks2[j].path == tracks[j].path
      {
        if j != k {
          assert tracks2[j] == tracks[j];
        }
      }
    }
  }

  /** A file that is unchanged since it was last imported changes nothing. */
  lemma LegacyUnchangedFileSkipped(md5: Md5, s: Session, path: string, f: ML.AudioFile)
    requires WellFormed(s)
    requires ML.HasPathAndHash(s.lib.tracks, path, ML.TagLibHash(md5, f))
    ensures LegacyImportFile(md5, s, path, f) == Success(s)
  {
  }

  /** The files one after the other, in one session; the first exception
      ends the import. */
  function LegacyImportAll(md5: Md5, s: Session, files: seq<(string, ML.AudioFile)>): (r: Result<Session, ML.ImportError>)
    requires WellFormed(s)
    ensures r.Success? ==> WellFormed(r.value) && r.value.stored == s.stored
    decreases |files|
  {
    if |files| == 0 then Success(s)
    else match LegacyImportFile(md5, s, files[0].0, files[0].1)
      case Failure(e) => Failure(e)
      case Success(s2) => LegacyImportAll(md5, s2, files[1..])
  }

  lemma {:induction false} LegacyImportAllKeepsPathsUnique(md5: Md5, s: Session, files: seq<(string, ML.AudioFile)>)
    requires WellFormed(s) && PathsUnique(s.lib.tracks)
    ensures var r := LegacyImportAll(md5, s, files);
      r.Success? ==> PathsUnique(r.value.lib.tracks) && |s.lib.tracks| <= |r.value.lib.tracks|
    decreases |files|
  {
    if |files| > 0 {
      LegacyImportFileKeepsPathsUnique(md5, s, files[0].0, files[0].1);
      var r1 := LegacyImportFile(md5, s, files[0].0, files[0].1);
      if r1.Success? {
        LegacyImportAllKeepsPathsUnique(md5, r1.value, files[1..]);
      }
    }
  }

  /** `ImportDirectory`: nothing when the directory does not exist;
      otherwise the filtered files in one session, then `SaveChanges`. An
      exception from a file leaves the transaction uncompleted, so nothing
      is saved. */
  function LegacyImportDirectory(md5: Md5, s: Session, dirExists: bool, files: seq<(string, ML.AudioFile)>): (r: Result<Session, ML.ImportError>)
    requires WellFormed(s)
    ensures !dirExists ==> r == Success(s)
    ensures dirExists && r.Success? ==>
      && r.value.stored.tracks == |r.value.lib.tracks| && r.value.stored.artists == |r.value.lib.artists|
      && r.value.stored.genres == |r.value.lib.genres| && r.value.stored.albums == |r.value.lib.albums|
  {
    if !dirExists then Success(s)
    else match LegacyImportAll(md5, s, LegacyMusicFiles(files))
      case Failure(e) => Failure(e)
      case Success(s2) => Success(Commit(s2))
  }

  /** A directory import keeps track paths unique and keeps every track
      that was there. */
  lemma LegacyImportDirectoryKeepsPathsUnique(md5: Md5, s: Session, dirExists: bool, files: seq<(string, ML.AudioFile)>)
    requires WellFormed(s) && PathsUnique(s.lib.tracks)
    ensures var r := LegacyImportDirectory(md5, s, dirExists, files);
      r.Success? ==> PathsUnique(r.value.lib.tracks) && |s.lib.tracks| <= |r.value.lib.tracks|
  {
    if dirExists {
      LegacyImportAllKeepsPathsUnique(md5, s, LegacyMusicFiles(files));
    }
  }
}
