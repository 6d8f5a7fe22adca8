/** The now-playing list controller: its default columns and widths, the
    column layout and initial sort it builds from the saved settings, the
    text each column shows, and the comparers its columns sort by. Only the
    disc and track number columns compare values; every other column
    compares its rendered text. */
module TrackList {
  import opened Wrappers
  import opened Text
  import opened TrackProperties
  import opened TrackView
  import BaseTrackList
  import Sorting

  // ---------------------------------------------------------------------
  // Settings
  // ---------------------------------------------------------------------

  /** The columns shown when no property array was saved. */
  const DefaultColumns: seq<TrackProperty> :=
    [TrackNumber, Title, Artist, Album, AlbumArtist, Date, Genre, Rating, Bitrate, Size, DateAdded, Codec, Path]

  /** The widths used when none were saved: one for every property. */
  const DefaultWidths: map<TrackProperty, int> := map[
    Album := 200, AlbumArtist := 200, Artist := 200, Bitrate := 80, BitsPerSample := 30, Bpm := 50,
    ChannelCount := 20, Codec := 100, Date := 200, DateAdded := 200, DateLastPlayed := 200,
    DiscNumber := 20, Duration := 50, Genre := 200, MusicBrainzAlbumId := 200,
    MusicBrainzReleaseId := 200, Path := 200, Playcount := 30, Rating := 200, SampleRate := 50,
    Size := 50, Summary := 200, Title := 200, TrackNumber := 30]

  // ---------------------------------------------------------------------
  // Construction
  // ---------------------------------------------------------------------

  /** The index of the last Artist column, if there is one. */
  predicate IsLastArtist(props: seq<TrackProperty>, i: nat) {
    i < |props| && props[i] == Artist && forall j :: i < j < |props| ==> props[j] != Artist
  }

  /** The controller after construction: one column per configured property
      (a property may appear twice) and the column sorted by initially. */
  datatype Controller = Controller(columns: seq<BaseTrackList.Column>, sortColumn: Option<nat>)

  /** A layout of one column per property, with the property's position as
      sort id and its saved width, or 200 when it has none. */
  predicate ColumnsFor(props: seq<TrackProperty>, widths: map<TrackProperty, int>, columns: seq<BaseTrackList.Column>) {
    && |columns| == |props|
    && forall i :: 0 <= i < |props| ==>
      columns[i] == BaseTrackList.Column(props[i], i, BaseTrackList.InitialWidth(widths, props[i]))
  }

  /** The constructor's column loop: each property gets the next sort id and
      its width; the Artist column seen last becomes the sort column. */
  method AddColumns(props: seq<TrackProperty>, widths: map<TrackProperty, int>)
    returns (columns: seq<BaseTrackList.Column>, sortColumn: Option<nat>)
    ensures ColumnsFor(props, widths, columns)
    ensures sortColumn.None? <==> Artist !in props
    ensures sortColumn.Some? ==> IsLastArtist(props, sortColumn.value)
  {
    columns := [];
    var sortColumnId := 0;
    var artistSortColumnId := -1;
    while sortColumnId < |props|
      invariant 0 <= sortColumnId <= |props|
      invariant ColumnsFor(props[..sortColumnId], widths, columns)
      invariant -1 <= artistSortColumnId < sortColumnId
      invariant artistSortColumnId == -1 <==> Artist !in props[..sortColumnId]
      invariant artistSortColumnId >= 0 ==>
        props[artistSortColumnId] == Artist && forall j :: artistSortColumnId < j < sortColumnId ==> props[j] != Artist
    {
      var property := props[sortColumnId];
      if property == Artist {
        artistSortColumnId := sortColumnId;
      }
      assert props[..sortColumnId + 1] == props[..sortColumnId] + [property];
      columns := columns + [BaseTrackList.Column(property, sortColumnId, BaseTrackList.InitialWidth(widths, property))];
      sortColumnId := sortColumnId + 1;
    }
    assert props[..sortColumnId] == props;
    sortColumn := if artistSortColumnId >= 0 then Some(artistSortColumnId) else None;
  }

  /** The constructor: the saved property array (the defaults when none or
      an empty one was saved) and the saved widths (the defaults when none
      were saved) give the columns; the list starts sorted ascending by the
      last Artist column, and keeps its default order without one. */
  method NewController(savedProps: Option<seq<TrackProperty>>, savedWidths: Option<map<TrackProperty, int>>)
    returns (r: Controller)
    ensures ColumnsFor(BaseTrackList.ConfiguredProperties(savedProps, DefaultColumns),
                       BaseTrackList.ConfiguredWidths(savedWidths, DefaultWidths), r.columns)
    ensures r.sortColumn.None? <==> Artist !in BaseTrackList.ConfiguredProperties(savedProps, DefaultColumns)
    ensures r.sortColumn.Some? ==> IsLastArtist(BaseTrackList.ConfiguredProperties(savedProps, DefaultColumns), r.sortColumn.value)
  {
    var columns, sortColumn := AddColumns(BaseTrackList.ConfiguredProperties(savedProps, DefaultColumns),
                                          BaseTrackList.ConfiguredWidths(savedWidths, DefaultWidths));
    r := Controller(columns, sortColumn);
  }

  /** A column whose property has no saved width starts 200 wide, and a
      property listed twice gets two columns, where the base controller
      refuses to build. */
  lemma ColumnsForWidths(props: seq<TrackProperty>, widths: map<TrackProperty, int>, columns: seq<BaseTrackList.Column>, i: nat)
    requires ColumnsFor(props, widths, columns)
    requires i < |props|
    ensures props[i] in widths ==> columns[i].width == widths[props[i]]
    ensures props[i] !in widths ==> columns[i].width == 200
    ensures BaseTrackList.HasDuplicate(props) ==> |columns| == |props| && BaseTrackList.Layout(props, widths).None?
  {
  }

  /** With the default settings every column gets its listed width, and the
      list starts sorted by the third column, Artist. */
  lemma DefaultSettings()
    ensures forall p: TrackProperty :: p in DefaultWidths
    ensures IsLastArtist(DefaultColumns, 2)
    ensures DefaultWidths[TrackNumber] == 30 && DefaultWidths[Bitrate] == 80
  {
    forall p: TrackProperty ensures p in DefaultWidths {
      match p
      case Album =>
      case AlbumArtist =>
      case Artist =>
      case Bpm =>
      case Bitrate =>
      case BitsPerSample =>
      case ChannelCount =>
      case Codec =>
      case Date =>
      case DateAdded =>
      case DateLastPlayed =>
      case DiscNumber =>
      case Duration =>
      case Genre =>
      case MusicBrainzReleaseId =>
      case MusicBrainzAlbumId =>
      case Path =>
      case Playcount =>
      case Rating =>
      case SampleRate =>
      case Size =>
      case Summary =>
      case Title =>
      case TrackNumber =>
    }
  }

  // ---------------------------------------------------------------------
  // Column text and comparers
  // ---------------------------------------------------------------------

  /** The text a column of this controller shows: the base controller's
      text, except that the bitrate carries a " kbps" suffix. */
  function CellText(c: Culture, p: TrackProperty, r: Row): (t: Option<string>)
    ensures p != Bitrate ==> t == ColumnText(c, p, r)
    ensures p == Bitrate ==> t.Some? && t.value == ColumnText(c, p, r).value + " kbps"
  {
    if p == Bitrate then Some(IntToDecimal(r.track.bitrate) + " kbps") else ColumnText(c, p, r)
  }

  /** `Int64.MinValue`. */
  const MinInt64: int := -0x8000_0000_0000_0000

  /** `x ?? Int64.MinValue`. */
  function OrMinInt64(x: Option<int>): int {
    if x.Some? then x.value else MinInt64
  }

  /** The comparer a column registers: the disc number column compares
      numbers with null as 0, the track number column with null as
      `Int64.MinValue`, and every other column compares its text under the
      culture's collation, null first. */
  function Comparer(cmp: Collation, c: Culture, p: TrackProperty, r1: Row, r2: Row): (x: int)
    ensures p == DiscNumber ==> x == CompareNumbers(OrZero(r1.track.discNumber), OrZero(r2.track.discNumber))
    ensures p == TrackNumber ==> x == CompareNumbers(OrMinInt64(r1.track.trackNumber), OrMinInt64(r2.track.trackNumber))
    ensures p != DiscNumber && p != TrackNumber ==> x == CompareStrings(cmp, CellText(c, p, r1), CellText(c, p, r2))
  {
    if p == DiscNumber then CompareNumbers(OrZero(r1.track.discNumber), OrZero(r2.track.discNumber))
    else if p == TrackNumber then CompareNumbers(OrMinInt64(r1.track.trackNumber), OrMinInt64(r2.track.trackNumber))
    else CompareStrings(cmp, CellText(c, p, r1), CellText(c, p, r2))
  }

  /** A column's sort function: its comparer, with ties broken by the same
      five-key default order as the base controller's. */
  function ColumnOrder(cmp: Collation, c: Culture, p: TrackProperty, r1: Row, r2: Row): (x: int)
    ensures x == 0 <==> Comparer(cmp, c, p, r1, r2) == 0 && BaseTrackList.DefaultOrder(cmp, r1, r2) == 0
    ensures Comparer(cmp, c, p, r1, r2) != 0 ==> x == Comparer(cmp, c, p, r1, r2)
  {
    var x := Comparer(cmp, c, p, r1, r2);
    if x != 0 then x else BaseTrackList.DefaultOrder(cmp, r1, r2)
  }

  /** Every column's sort function is antisymmetric whenever the collation
      is. */
  lemma ColumnOrderAntisymmetric(cmp: Collation, c: Culture, p: TrackProperty, r1: Row, r2: Row)
    requires Antisymmetric(cmp)
    ensures Sign(ColumnOrder(cmp, c, p, r1, r2)) == -Sign(ColumnOrder(cmp, c, p, r2, r1))
  {
    if p != DiscNumber && p != TrackNumber {
      CompareStringsAntisymmetric(cmp, CellText(c, p, r1), CellText(c, p, r2));
    }
    BaseTrackList.DefaultOrderAntisymmetric(cmp, r1, r2);
  }

  /** Where the base controller sorts a column by its text, this controller
      sorts it the same way. */
  lemma TextColumnsAgree(cmp: Collation, c: Culture, p: TrackProperty, r1: Row, r2: Row)
    requires BaseTrackList.SortsByText(p)
    ensures Comparer(cmp, c, p, r1, r2) == BaseTrackList.Comparer(cmp, c, p, r1, r2)
    ensures ColumnOrder(cmp, c, p, r1, r2) == BaseTrackList.ColumnOrder(cmp, c, p, r1, r2)
  {
  }

  /** A track without a number sorts before every numbered track, track 0
      included; the base controller ties it with track 0. */
  lemma MissingTrackNumberSortsFirst(cmp: Collation, c: Culture, r1: Row, r2: Row)
    requires r1.track.trackNumber.None? && r2.track.trackNumber.Some? && r2.track.trackNumber.value >= 0
    ensures Comparer(cmp, c, TrackNumber, r1, r2) < 0
    ensures ColumnOrder(cmp, c, TrackNumber, r1, r2) < 0
    ensures r2.track.trackNumber.value == 0 ==> BaseTrackList.Comparer(cmp, c, TrackNumber, r1, r2) == 0
  {
  }

  /** A missing disc number ties with disc 0. */
  lemma MissingDiscNumberIsZero(cmp: Collation, c: Culture, r1: Row, r2: Row)
    requires r1.track.discNumber.None? && r2.track.discNumber == Some(0)
    ensures Comparer(cmp, c, DiscNumber, r1, r2) == 0
  {
  }

  /** The leading digit of a three-digit number. */
  lemma HundredsDigitLeads(n: nat)
    requires 100 <= n < 1000
    ensures NatToDecimal(n)[0] == DigitChar(n / 100)
  {
    var front := n / 10;
    assert NatToDecimal(n)[0] == NatToDecimal(front)[0];
    TensDigitLeads(front);
  }

  /** The bitrate column sorts by its text: under an ordinal collation a
      320 kbps track ("320 kbps") sorts before a 96 kbps one ("96 kbps"). */
  lemma BitrateSortsAsText(c: Culture, r1: Row, r2: Row)
    requires 100 <= r1.track.bitrate < 1000 && 10 <= r2.track.bitrate < 100
    requires r1.track.bitrate / 100 < r2.track.bitrate / 10
    ensures r1.track.bitrate > r2.track.bitrate
    ensures Comparer(Ordinal, c, Bitrate, r1, r2) < 0
  {
    var b1, b2 := r1.track.bitrate, r2.track.bitrate;
    var a, b := CellText(c, Bitrate, r1).value, CellText(c, Bitrate, r2).value;
    assert a[0] < b[0] by {
      assert a[0] == NatToDecimal(b1)[0] && b[0] == NatToDecimal(b2)[0];
      HundredsDigitLeads(b1);
      TensDigitLeads(b2);
    }
    Sorting.LeadingCharDecides(a, b);
  }

  /** The play count column sorts by its text: under an ordinal collation
      a track played 10 times ("10") sorts before one played 9 times
      ("9"). */
  lemma PlaycountSortsAsText(c: Culture, r1: Row, r2: Row)
    requires 10 <= r1.track.playcount < 100 && 0 <= r2.track.playcount < 10
    requires r1.track.playcount / 10 < r2.track.playcount
    ensures r1.track.playcount > r2.track.playcount
    ensures Comparer(Ordinal, c, Playcount, r1, r2) < 0
  {
    var n1, n2 := r1.track.playcount, r2.track.playcount;
    var a, b := CellText(c, Playcount, r1).value, CellText(c, Playcount, r2).value;
    assert a[0] < b[0] by {
      assert a == NatToDecimal(n1) && b == NatToDecimal(n2);
      TensDigitLeads(n1);
    }
    Sorting.LeadingCharDecides(a, b);
  }
}
