/** What the track lists show of a track: the row a list holds (a track with
    its album, artists and genres resolved), the comparisons the columns sort
    by, and the text each column renders. */
module TrackView {
  import opened Wrappers
  import opened Text
  import opened TrackProperties
  import Sorting
  import Entities
  import Dates
  import opened Durations

  // ---------------------------------------------------------------------
  // Rows
  // ---------------------------------------------------------------------

  /** A track's album as the views read it: the title, the MusicBrainz id,
      and the album artists as ids and as names, in list order. */
  datatype AlbumView = AlbumView(title: string, musicBrainzId: string, artistIds: seq<int>, artistNames: seq<string>)

  /** A list row: the track object, its album, and the names of its artists
      and genres in list order. */
  datatype Row = Row(track: Entities.Track, album: AlbumView, artistNames: seq<string>, genreNames: seq<string>)

  // ---------------------------------------------------------------------
  // Comparisons
  // ---------------------------------------------------------------------

  /** `string.Compare(a, b, StringComparison.CurrentCulture)` for two
      non-null strings: the culture's collation, left abstract; only the
      sign of its result is meaningful. */
  type Collation = (string, string) -> int

  /** A collation under which exchanging the operands flips the sign. */
  ghost predicate Antisymmetric(cmp: Collation) {
    forall a, b :: Sign(cmp(a, b)) == -Sign(cmp(b, a))
  }

  /** A collation under which every string ties with itself. */
  ghost predicate Reflexive(cmp: Collation) {
    forall a :: cmp(a, a) == 0
  }

  /** `string.Compare` with null strings: null ties with null and precedes
      every string. */
  function CompareStrings(cmp: Collation, a: Option<string>, b: Option<string>): (r: int)
    ensures a.None? ==> (r == 0 <==> b.None?) && (b.Some? ==> r < 0)
    ensures a.Some? && b.None? ==> r > 0
    ensures a.Some? && b.Some? ==> r == cmp(a.value, b.value)
  {
    match (a, b)
    case (None, None) => 0
    case (None, Some(_)) => -1
    case (Some(_), None) => 1
    case (Some(x), Some(y)) => cmp(x, y)
  }

  lemma CompareStringsAntisymmetric(cmp: Collation, a: Option<string>, b: Option<string>)
    requires Antisymmetric(cmp)
    ensures Sign(CompareStrings(cmp, a, b)) == -Sign(CompareStrings(cmp, b, a))
  {
    if a.Some? && b.Some? {
      assert Sign(cmp(a.value, b.value)) == -Sign(cmp(b.value, a.value));
    }
  }

  /** `CompareTo` on integers of any width: -1, 0 or 1 by numeric order. */
  function CompareNumbers(a: int, b: int): (r: int)
    ensures r == -1 || r == 0 || r == 1
    ensures r < 0 <==> a < b
    ensures r == 0 <==> a == b
  {
    if a < b then -1 else if a == b then 0 else 1
  }

  /** `x ?? 0`. */
  function OrZero(x: Option<int>): int {
    if x.Some? then x.value else 0
  }

  /** `String.Compare(a, b, StringComparison.Ordinal)`. .NET returns the
      difference of the first unequal UTF-16 code units (or of the
      lengths); the model keeps only its sign, as -1, 0 or 1, in the order
      `Sorting.OrdinalLe` defines. The one caller tests the result against
      0 only. */
  function Ordinal(a: string, b: string): (r: int)
    ensures r == -1 || r == 0 || r == 1
    ensures r == 0 <==> a == b
  {
    if a == b then 0 else if Sorting.OrdinalLe(a, b) then -1 else 1
  }

  lemma OrdinalIsAntisymmetric()
    ensures Antisymmetric(Ordinal)
  {
    forall a: string, b: string
      ensures Sign(Ordinal(a, b)) == -Sign(Ordinal(b, a))
    {
      Sorting.OrdinalLeIsTotalAt(a, b, b);
    }
  }

  // ---------------------------------------------------------------------
  // Property values
  // ---------------------------------------------------------------------

  /** The nullable numbers: BPM, disc number, rating and track number. */
  predicate IsNullableNumber(p: TrackProperty) {
    p == Bpm || p == DiscNumber || p == Rating || p == TrackNumber
  }

  /** The plain integer properties. */
  predicate IsCount(p: TrackProperty) {
    p == Bitrate || p == BitsPerSample || p == ChannelCount || p == Playcount || p == SampleRate || p == Size
  }

  /** The value of a nullable number property. */
  function NullableNumber(p: TrackProperty, r: Row): Option<int>
    requires IsNullableNumber(p)
  {
    match p
    case Bpm => r.track.bpm
    case DiscNumber => r.track.discNumber
    case Rating => r.track.rating
    case TrackNumber => r.track.trackNumber
  }

  /** The value of an integer property. */
  function Count(p: TrackProperty, r: Row): int
    requires IsCount(p)
  {
    match p
    case Bitrate => r.track.bitrate
    case BitsPerSample => r.track.bitsPerSample
    case ChannelCount => r.track.channelCount
    case Playcount => r.track.playcount
    case SampleRate => r.track.sampleRate
    case Size => r.track.size
  }

  // ---------------------------------------------------------------------
  // Column text
  // ---------------------------------------------------------------------

  /** The culture-dependent renderings, left abstract: the short date and
      long time of a timestamp, and a size in megabytes with one decimal
      (`{0:N1}` of a double). */
  datatype Culture = Culture(shortDate: Dates.DateTime -> string, longTime: Dates.DateTime -> string, megabytes: int -> string)

  /** `"{0} {1}"` of a timestamp's short date and long time. */
  function DateText(c: Culture, d: Dates.DateTime): string {
    c.shortDate(d) + " " + c.longTime(d)
  }

  /** `ToString()` of a nullable number: empty when null. */
  function NullableText(x: Option<int>): string {
    if x.Some? then IntToDecimal(x.value) else ""
  }

  /** The columns that go blank for a track without artists. */
  predicate IsArtistGated(p: TrackProperty) {
    p == Artist || p == AlbumArtist || p == Genre
  }

  /** The text a column of the base list controller shows for a row; `None`
      is a null string. Artist, album artist and genre columns are null when
      the track has no artists (the album artist and genre columns test the
      track's artists, not their own list), and the last-played column is
      null for the minimum timestamp. */
  function ColumnText(c: Culture, p: TrackProperty, r: Row): Option<string>
  {
    var t := r.track;
    match p
    case Album => Some(r.album.title)
    case Artist => if |t.artists| == 0 then None else Some(Join("; ", r.artistNames))
    case AlbumArtist => if |t.artists| == 0 then None else Some(Join("; ", r.album.artistNames))
    case Duration => Some(DurationText(t.duration))
    case Bitrate => Some(IntToDecimal(t.bitrate))
    case BitsPerSample => Some(IntToDecimal(t.bitsPerSample))
    case Bpm => Some(NullableText(t.bpm))
    case ChannelCount => Some(IntToDecimal(t.channelCount))
    case Codec => Some(t.codec)
    case Date => Some(t.date)
    case DateAdded => Some(DateText(c, t.dateAdded))
    case DateLastPlayed =>
      if Dates.CompareTo(t.dateLastPlayed, Dates.MinValue) > 0 then Some(DateText(c, t.dateLastPlayed)) else None
    case DiscNumber => Some(NullableText(t.discNumber))
    case Genre => if |t.artists| == 0 then None else Some(Join("; ", r.genreNames))
    case MusicBrainzAlbumId => Some(r.album.musicBrainzId)
    case MusicBrainzReleaseId => Some(t.musicBrainzId)
    case Path => Some(t.path)
    case Playcount => Some(IntToDecimal(t.playcount))
    case Rating => Some(NullableText(t.rating))
    case SampleRate => Some(IntToDecimal(t.sampleRate) + " Hz")
    case Size => Some(c.megabytes(t.size) + " MB")
    case Summary => Some(Join("; ", r.artistNames) + " - " + t.title)
    case Title => Some(t.title)
    case TrackNumber => Some(NullableText(t.trackNumber))
  }

  /** Exactly the artist-gated columns of a track without artists, and the
      last-played column of a never-played track, are null. */
  lemma ColumnTextNull(c: Culture, p: TrackProperty, r: Row)
    ensures ColumnText(c, p, r).None? <==>
      (IsArtistGated(p) && |r.track.artists| == 0) || (p == DateLastPlayed && r.track.dateLastPlayed == Dates.MinValue)
  {
    if p == DateLastPlayed {
      LastPlayedNull(c, r);
    }
  }

  /** The last-played column is null exactly for the minimum timestamp. */
  lemma LastPlayedNull(c: Culture, r: Row)
    ensures ColumnText(c, DateLastPlayed, r).None? <==> r.track.dateLastPlayed == Dates.MinValue
  {
    Dates.MinValueIsLeast(r.track.dateLastPlayed);
    Dates.CompareToAntisymmetric(Dates.MinValue, r.track.dateLastPlayed);
  }

  /** The columns that render a value rather than copy a field: nullable
      numbers blank when null, the duration as a clock, and the name lists
      joined with "; ". */
  lemma ColumnTextValues(c: Culture, p: TrackProperty, r: Row)
    ensures IsNullableNumber(p) ==> ColumnText(c, p, r) == Some(NullableText(NullableNumber(p, r)))
    ensures p == Duration ==> ColumnText(c, p, r) == Some(DurationText(r.track.duration))
    ensures p == Artist && |r.track.artists| > 0 ==> ColumnText(c, p, r) == Some(Join("; ", r.artistNames))
    ensures p == AlbumArtist && |r.track.artists| > 0 ==> ColumnText(c, p, r) == Some(Join("; ", r.album.artistNames))
    ensures p == Genre && |r.track.artists| > 0 ==> ColumnText(c, p, r) == Some(Join("; ", r.genreNames))
  {
  }

  /** A track with genres but no artists shows a blank genre cell, and a
      blank album artist cell however many artists its album has. */
  lemma GenreHiddenWithoutArtists(c: Culture, r: Row)
    requires |r.track.artists| == 0
    ensures ColumnText(c, Genre, r).None?
    ensures ColumnText(c, AlbumArtist, r).None?
  {
  }
}
