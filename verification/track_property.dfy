/** The track properties a list column can show, and the column titles
    `GetEnumDescription` derives from them. */
module TrackProperties {
  import opened Extensions

  /** The members in declaration order; `Album` comes first and is therefore
      the value an unassigned array slot holds. */
  datatype TrackProperty =
    | Album | AlbumArtist | Artist | Bpm | Bitrate | BitsPerSample
    | ChannelCount | Codec | Date | DateAdded | DateLastPlayed | DiscNumber
    | Duration | Genre | MusicBrainzReleaseId | MusicBrainzAlbumId | Path
    | Playcount | Rating | SampleRate | Size | Summary | Title | TrackNumber

  /** The enum's default value, `(TrackProperty)0`. */
  const DefaultProperty: TrackProperty := Album

  /** The member's identifier, as `Enum.ToString` renders it. */
  function Name(p: TrackProperty): string {
    match p
    case Album => "Album"
    case AlbumArtist => "AlbumArtist"
    case Artist => "Artist"
    case Bpm => "Bpm"
    case Bitrate => "Bitrate"
    case BitsPerSample => "BitsPerSample"
    case ChannelCount => "ChannelCount"
    case Codec => "Codec"
    case Date => "Date"
    case DateAdded => "DateAdded"
    case DateLastPlayed => "DateLastPlayed"
    case DiscNumber => "DiscNumber"
    case Duration => "Duration"
    case Genre => "Genre"
    case MusicBrainzReleaseId => "MusicBrainzReleaseId"
    case MusicBrainzAlbumId => "MusicBrainzAlbumId"
    case Path => "Path"
    case Playcount => "Playcount"
    case Rating => "Rating"
    case SampleRate => "SampleRate"
    case Size => "Size"
    case Summary => "Summary"
    case Title => "Title"
    case TrackNumber => "TrackNumber"
  }

  /** The `[Description]` attributes the member carries (at most one). */
  function Descriptions(p: TrackProperty): seq<string> {
    match p
    case AlbumArtist => ["Album Artist"]
    case Bpm => ["BPM"]
    case BitsPerSample => ["Bits per sample"]
    case ChannelCount => ["Channels"]
    case DateAdded => ["Date Added"]
    case DateLastPlayed => ["Last Played"]
    case DiscNumber => ["Disc #"]
    case SampleRate => ["Sample rate"]
    case TrackNumber => ["Track #"]
    case _ => []
  }

  /** The member as reflection presents it to `GetEnumDescription`. */
  function Member(p: TrackProperty): EnumMember {
    EnumMember(Name(p), Descriptions(p))
  }

  /** A column's title: the description where the member has one, and the
      member's identifier otherwise. */
  function ColumnTitle(p: TrackProperty): (r: string)
    ensures Descriptions(p) == [] ==> r == Name(p)
    ensures p == AlbumArtist ==> r == "Album Artist"
    ensures p == Bpm ==> r == "BPM"
    ensures p == BitsPerSample ==> r == "Bits per sample"
    ensures p == ChannelCount ==> r == "Channels"
    ensures p == DateAdded ==> r == "Date Added"
    ensures p == DateLastPlayed ==> r == "Last Played"
    ensures p == DiscNumber ==> r == "Disc #"
    ensures p == SampleRate ==> r == "Sample rate"
    ensures p == TrackNumber ==> r == "Track #"
  {
    GetEnumDescription(Member(p))
  }

  /** No two properties share a column title, so a title names its
      property. */
  lemma ColumnTitlesDistinct(p: TrackProperty, q: TrackProperty)
    ensures ColumnTitle(p) == ColumnTitle(q) <==> p == q
  {
    if ColumnTitle(p) == ColumnTitle(q) {
      TitleKeyOf(p);
      TitleKeyOf(q);
      KeyDecodes(p);
      KeyDecodes(q);
    }
  }

  lemma KeyDecodes(p: TrackProperty)
    ensures PropertyOfKey(TitleKey(p)) == p
  {
  }

  /** The length and first letter of a property's column title, which
      already tell the titles apart. */
  function TitleKey(p: TrackProperty): (int, char) {
    match p
    case Album => (5, 'A')
    case AlbumArtist => (12, 'A')
    case Artist => (6, 'A')
    case Bpm => (3, 'B')
    case Bitrate => (7, 'B')
    case BitsPerSample => (15, 'B')
    case ChannelCount => (8, 'C')
    case Codec => (5, 'C')
    case Date => (4, 'D')
    case DateAdded => (10, 'D')
    case DateLastPlayed => (11, 'L')
    case DiscNumber => (6, 'D')
    case Duration => (8, 'D')
    case Genre => (5, 'G')
    case MusicBrainzReleaseId => (20, 'M')
    case MusicBrainzAlbumId => (18, 'M')
    case Path => (4, 'P')
    case Playcount => (9, 'P')
    case Rating => (6, 'R')
    case SampleRate => (11, 'S')
    case Size => (4, 'S')
    case Summary => (7, 'S')
    case Title => (5, 'T')
    case TrackNumber => (7, 'T')
  }

  lemma TitleKeyOf(p: TrackProperty)
    ensures 0 < |ColumnTitle(p)| && (|ColumnTitle(p)|, ColumnTitle(p)[0]) == TitleKey(p)
  {
  }

  /** The property a title key belongs to (`Album` for keys of no title). */
  function PropertyOfKey(k: (int, char)): TrackProperty {
    match k.1
    case 'A' => if k.0 == 12 then AlbumArtist else if k.0 == 6 then Artist else Album
    case 'B' => if k.0 == 3 then Bpm else if k.0 == 7 then Bitrate else BitsPerSample
    case 'C' => if k.0 == 8 then ChannelCount else Codec
    case 'D' => if k.0 == 4 then Date else if k.0 == 10 then DateAdded else if k.0 == 6 then DiscNumber else Duration
    case 'G' => Genre
    case 'L' => DateLastPlayed
    case 'M' => if k.0 == 20 then MusicBrainzReleaseId else MusicBrainzAlbumId
    case 'P' => if k.0 == 4 then Path else Playcount
    case 'R' => Rating
    case 'S' => if k.0 == 11 then SampleRate else if k.0 == 4 then Size else Summary
    case 'T' => if k.0 == 5 then Title else TrackNumber
    case _ => Album
  }
}
