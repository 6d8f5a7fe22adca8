/** The list controller the now-playing and filtered lists share: its
    default five-key order, the comparer and tie-break of every column, the
    column layout it builds from the saved settings, the width it persists
    when a column is resized, and the property array it saves when columns
    are reordered. */
module BaseTrackList {
  import opened Wrappers
  import opened Text
  import opened TrackProperties
  import opened TrackView
  import opened Durations
  import Dates
  import Sorting

  // ---------------------------------------------------------------------
  // Default order
  // ---------------------------------------------------------------------

  /** `ToString()` of an artist object. Artist defines no `ToString`, so
      every artist renders as its type's full name. */
  const ArtistTypeName: string := "Howler.Core.MediaLibrary.Entities.Artist"

  /** `string.Join("", track.Artists)` where each artist renders as
      `typeName`: one type name per artist. Both list controllers join
      their artists this way, each with its own artist class. */
  function ArtistsKey(typeName: string, r: Row): (k: string)
    ensures |k| == |r.track.artists| * |typeName|
  {
    Repeat(typeName, |r.track.artists|)
  }

  /** `string.Join("", track.Album.Artists)`, likewise. */
  function AlbumArtistsKey(typeName: string, r: Row): (k: string)
    ensures |k| == |r.album.artistIds| * |typeName|
  {
    Repeat(typeName, |r.album.artistIds|)
  }

  /** The joined artists are one type name per artist, whatever the
      artists are called: two rows' keys agree exactly when the rows have
      equally many artists (or the type name is empty). */
  lemma ArtistsKeyIsTypeNames(typeName: string, r1: Row, r2: Row, b: nat)
    ensures b < |r1.track.artists| ==>
      b * |typeName| + |typeName| <= |ArtistsKey(typeName, r1)| &&
      ArtistsKey(typeName, r1)[b * |typeName|..b * |typeName| + |typeName|] == typeName
    ensures typeName != "" ==>
      (ArtistsKey(typeName, r1) == ArtistsKey(typeName, r2) <==> |r1.track.artists| == |r2.track.artists|)
  {
    if b < |r1.track.artists| {
      RepeatBlock(typeName, |r1.track.artists|, b);
    }
    if typeName != "" {
      RepeatEqual(typeName, |r1.track.artists|, |r2.track.artists|);
    }
  }

  /** The joined album artists likewise: one type name per album artist. */
  lemma AlbumArtistsKeyIsTypeNames(typeName: string, r1: Row, r2: Row, b: nat)
    ensures b < |r1.album.artistIds| ==>
      b * |typeName| + |typeName| <= |AlbumArtistsKey(typeName, r1)| &&
      AlbumArtistsKey(typeName, r1)[b * |typeName|..b * |typeName| + |typeName|] == typeName
    ensures typeName != "" ==>
      (AlbumArtistsKey(typeName, r1) == AlbumArtistsKey(typeName, r2) <==> |r1.album.artistIds| == |r2.album.artistIds|)
  {
    if b < |r1.album.artistIds| {
      RepeatBlock(typeName, |r1.album.artistIds|, b);
    }
    if typeName != "" {
      RepeatEqual(typeName, |r1.album.artistIds|, |r2.album.artistIds|);
    }
  }

  /** What the default order can see of a row: the numbers of artists and
      album artists, the album title, and disc and track numbers with null
      read as 0. No artist name appears. */
  datatype SortKey = SortKey(artists: nat, albumArtists: nat, title: string, disc: int, number: int)

  function KeyOf(r: Row): SortKey {
    SortKey(|r.track.artists|, |r.album.artistIds|, r.album.title, OrZero(r.track.discNumber), OrZero(r.track.trackNumber))
  }

  /** `DefaultSortFunc`: the joined artists, the joined album artists and
      the album title under the culture's collation, then disc number and
      track number with null as 0; the first stage that does not tie
      decides. */
  function DefaultOrder(cmp: Collation, r1: Row, r2: Row): (c: int)
    ensures c == 0 <==>
      && cmp(ArtistsKey(ArtistTypeName, r1), ArtistsKey(ArtistTypeName, r2)) == 0
      && cmp(AlbumArtistsKey(ArtistTypeName, r1), AlbumArtistsKey(ArtistTypeName, r2)) == 0
      && cmp(r1.album.title, r2.album.title) == 0
      && OrZero(r1.track.discNumber) == OrZero(r2.track.discNumber)
      && OrZero(r1.track.trackNumber) == OrZero(r2.track.trackNumber)
    ensures cmp(ArtistsKey(ArtistTypeName, r1), ArtistsKey(ArtistTypeName, r2)) != 0 ==> c == cmp(ArtistsKey(ArtistTypeName, r1), ArtistsKey(ArtistTypeName, r2))
  {
    var byArtists := cmp(ArtistsKey(ArtistTypeName, r1), ArtistsKey(ArtistTypeName, r2));
    if byArtists != 0 then byArtists
    else
      var byAlbumArtists := cmp(AlbumArtistsKey(ArtistTypeName, r1), AlbumArtistsKey(ArtistTypeName, r2));
      if byAlbumArtists != 0 then byAlbumArtists
      else
        var byTitle := cmp(r1.album.title, r2.album.title);
        if byTitle != 0 then byTitle
        else
          var byDisc := CompareNumbers(OrZero(r1.track.discNumber), OrZero(r2.track.discNumber));
          if byDisc != 0 then byDisc
          else CompareNumbers(OrZero(r1.track.trackNumber), OrZero(r2.track.trackNumber))
  }

  /** The default order depends on nothing but the sort keys: rows whose
      keys agree are ordered alike against every row. */
  lemma DefaultOrderByKeys(cmp: Collation, r1: Row, r1': Row, r2: Row)
    requires KeyOf(r1) == KeyOf(r1')
    ensures DefaultOrder(cmp, r1, r2) == DefaultOrder(cmp, r1', r2)
    ensures DefaultOrder(cmp, r2, r1) == DefaultOrder(cmp, r2, r1')
  {
    assert ArtistsKey(ArtistTypeName, r1) == ArtistsKey(ArtistTypeName, r1');
    assert AlbumArtistsKey(ArtistTypeName, r1) == AlbumArtistsKey(ArtistTypeName, r1');
  }

  /** Tracks by different artists on same-titled albums with equal artist
      counts and numbers tie: the artist stages compare type names, not
      artist names. */
  lemma ArtistNamesIgnored(cmp: Collation, r1: Row, r2: Row)
    requires Reflexive(cmp)
    requires KeyOf(r1) == KeyOf(r2)
    ensures DefaultOrder(cmp, r1, r2) == 0
  {
    assert ArtistsKey(ArtistTypeName, r1) == ArtistsKey(ArtistTypeName, r2);
    assert AlbumArtistsKey(ArtistTypeName, r1) == AlbumArtistsKey(ArtistTypeName, r2);
  }

  /** Swapping the rows flips the sign of the default order whenever the
      collation is antisymmetric. */
  lemma DefaultOrderAntisymmetric(cmp: Collation, r1: Row, r2: Row)
    requires Antisymmetric(cmp)
    ensures Sign(DefaultOrder(cmp, r1, r2)) == -Sign(DefaultOrder(cmp, r2, r1))
  {
    assert Sign(cmp(ArtistsKey(ArtistTypeName, r1), ArtistsKey(ArtistTypeName, r2))) == -Sign(cmp(ArtistsKey(ArtistTypeName, r2), ArtistsKey(ArtistTypeName, r1)));
    assert Sign(cmp(AlbumArtistsKey(ArtistTypeName, r1), AlbumArtistsKey(ArtistTypeName, r2))) == -Sign(cmp(AlbumArtistsKey(ArtistTypeName, r2), AlbumArtistsKey(ArtistTypeName, r1)));
    assert Sign(cmp(r1.album.title, r2.album.title)) == -Sign(cmp(r2.album.title, r1.album.title));
  }

  // ---------------------------------------------------------------------
  // Column comparers
  // ---------------------------------------------------------------------

  /** The columns that sort by their rendered text. */
  predicate SortsByText(p: TrackProperty) {
    match p
    case Album | Artist | AlbumArtist | Duration | Codec | Date | Genre | MusicBrainzAlbumId | MusicBrainzReleaseId | Path | Summary | Title => true
    case _ => false
  }

  /** The comparer `AddColumn` registers for a property: text columns by
      their text (null first), integer columns numerically, the nullable
      numbers with null read as 0, and the two dates chronologically. */
  function Comparer(cmp: Collation, c: Culture, p: TrackProperty, r1: Row, r2: Row): (x: int)
    ensures SortsByText(p) ==> x == CompareStrings(cmp, ColumnText(c, p, r1), ColumnText(c, p, r2))
    ensures IsCount(p) ==> x == CompareNumbers(Count(p, r1), Count(p, r2))
    ensures IsNullableNumber(p) ==> x == CompareNumbers(OrZero(NullableNumber(p, r1)), OrZero(NullableNumber(p, r2)))
    ensures p == DateAdded ==> x == Dates.CompareTo(r1.track.dateAdded, r2.track.dateAdded)
    ensures p == DateLastPlayed ==> x == Dates.CompareTo(r1.track.dateLastPlayed, r2.track.dateLastPlayed)
  {
    if SortsByText(p) then CompareStrings(cmp, ColumnText(c, p, r1), ColumnText(c, p, r2))
    else if IsCount(p) then CompareNumbers(Count(p, r1), Count(p, r2))
    else if IsNullableNumber(p) then CompareNumbers(OrZero(NullableNumber(p, r1)), OrZero(NullableNumber(p, r2)))
    else if p == DateAdded then Dates.CompareTo(r1.track.dateAdded, r2.track.dateAdded)
    else Dates.CompareTo(r1.track.dateLastPlayed, r2.track.dateLastPlayed)
  }

  /** A missing BPM, disc number, rating or track number ties with 0. */
  lemma MissingNumberIsZero(cmp: Collation, c: Culture, p: TrackProperty, r1: Row, r2: Row)
    requires IsNullableNumber(p)
    requires NullableNumber(p, r1) == None && NullableNumber(p, r2) == Some(0)
    ensures Comparer(cmp, c, p, r1, r2) == 0
  {
  }

  /** "1:00:00" leads with '1'. */
  lemma HourLeads(d: int)
    requires d == 3_600_000
    ensures DurationText(d)[0] == '1'
  {
    assert Fields(d)[0] == Hours(d) == 1;
    DurationTextLeads(d);
    assert IntToDecimal(1) == "1";
  }

  /** "59:59" leads with '5'. */
  lemma MinuteLeads(d: int)
    requires d == 3_599_000
    ensures DurationText(d)[0] == '5'
  {
    assert Fields(d)[0] == Minutes(d) == 59;
    DurationTextLeads(d);
    TensDigitLeads(59);
  }

  /** The duration column sorts by its text, so under an ordinal collation
      a one-hour track ("1:00:00") sorts before a shorter one ("59:59"). */
  lemma DurationSortsAsText(c: Culture, r1: Row, r2: Row)
    requires r1.track.duration == 3_600_000 && r2.track.duration == 3_599_000
    ensures r1.track.duration > r2.track.duration
    ensures Comparer(Ordinal, c, Duration, r1, r2) < 0
  {
    HourLeads(r1.track.duration);
    MinuteLeads(r2.track.duration);
    DurationLeadDecides(c, r1, r2);
  }

  /** Under an ordinal collation, durations whose texts start with
      different digits sort by those digits. */
  lemma DurationLeadDecides(c: Culture, r1: Row, r2: Row)
    requires 0 < |DurationText(r1.track.duration)| && 0 < |DurationText(r2.track.duration)|
    requires DurationText(r1.track.duration)[0] < DurationText(r2.track.duration)[0] <= '9'
    ensures Comparer(Ordinal, c, Duration, r1, r2) < 0
  {
    var a, b := DurationText(r1.track.duration), DurationText(r2.track.duration);
    ColumnTextValues(c, Duration, r1);
    ColumnTextValues(c, Duration, r2);
    Sorting.LeadingCharDecides(a, b);
    assert Ordinal(a, b) == -1;
  }

  /** The sort function of a column: its comparer, with ties broken by the
      default order. */
  function ColumnOrder(cmp: Collation, c: Culture, p: TrackProperty, r1: Row, r2: Row): (x: int)
    ensures x == 0 <==> Comparer(cmp, c, p, r1, r2) == 0 && DefaultOrder(cmp, r1, r2) == 0
    ensures Comparer(cmp, c, p, r1, r2) != 0 ==> x == Comparer(cmp, c, p, r1, r2)
  {
    var x := Comparer(cmp, c, p, r1, r2);
    if x != 0 then x else DefaultOrder(cmp, r1, r2)
  }

  lemma ComparerAntisymmetric(cmp: Collation, c: Culture, p: TrackProperty, r1: Row, r2: Row)
    requires Antisymmetric(cmp)
    ensures Sign(Comparer(cmp, c, p, r1, r2)) == -Sign(Comparer(cmp, c, p, r2, r1))
  {
    if SortsByText(p) {
      CompareStringsAntisymmetric(cmp, ColumnText(c, p, r1), ColumnText(c, p, r2));
    } else if p == DateAdded {
      Dates.CompareToAntisymmetric(r1.track.dateAdded, r2.track.dateAdded);
    } else if p == DateLastPlayed {
      Dates.CompareToAntisymmetric(r1.track.dateLastPlayed, r2.track.dateLastPlayed);
    }
  }

  /** Every column's sort function is antisymmetric whenever the collation
      is, so a sorted list has a consistent order in both directions. */
  lemma ColumnOrderAntisymmetric(cmp: Collation, c: Culture, p: TrackProperty, r1: Row, r2: Row)
    requires Antisymmetric(cmp)
    ensures Sign(ColumnOrder(cmp, c, p, r1, r2)) == -Sign(ColumnOrder(cmp, c, p, r2, r1))
  {
    ComparerAntisymmetric(cmp, c, p, r1, r2);
    DefaultOrderAntisymmetric(cmp, r1, r2);
  }

  // ---------------------------------------------------------------------
  // Column layout
  // ---------------------------------------------------------------------

  /** The saved property array, or the defaults when none was saved or it
      is empty. */
  function ConfiguredProperties(saved: Option<seq<TrackProperty>>, defaults: seq<TrackProperty>): (r: seq<TrackProperty>)
    ensures saved.Some? && |saved.value| > 0 ==> r == saved.value
    ensures saved.None? || |saved.value| == 0 ==> r == defaults
  {
    if saved.None? || |saved.value| == 0 then defaults else saved.value
  }

  /** The saved widths, or the defaults when none were saved. */
  function ConfiguredWidths(saved: Option<map<TrackProperty, int>>, defaults: map<TrackProperty, int>): (r: map<TrackProperty, int>)
    ensures saved.Some? ==> r == saved.value
    ensures saved.None? ==> r == defaults
  {
    if saved.None? then defaults else saved.value
  }

  /** The width a new column starts with: the saved one, or 200. */
  function InitialWidth(widths: map<TrackProperty, int>, p: TrackProperty): (w: int)
    ensures p in widths ==> w == widths[p]
    ensures p !in widths ==> w == 200
  {
    if p in widths then widths[p] else 200
  }

  /** A column as the constructor creates it. */
  datatype Column = Column(property: TrackProperty, sortId: nat, width: int)

  /** Some property occurs twice. */
  predicate HasDuplicate(props: seq<TrackProperty>) {
    exists i, j :: 0 <= i < j < |props| && props[i] == props[j]
  }

  /** The columns the constructor adds, one per configured property, with
      the property's position as sort id. A property listed twice makes
      `PropertiesToColumns.Add` throw, and the controller is not built. */
  function Layout(props: seq<TrackProperty>, widths: map<TrackProperty, int>): (r: Option<seq<Column>>)
    ensures r.None? <==> HasDuplicate(props)
    ensures r.Some? ==> |r.value| == |props|
    ensures r.Some? ==> forall i :: 0 <= i < |props| ==>
      r.value[i] == Column(props[i], i, InitialWidth(widths, props[i]))
  {
    if HasDuplicate(props) then None
    else Some(seq(|props|, i requires 0 <= i < |props| => Column(props[i], i, InitialWidth(widths, props[i]))))
  }

  /** Each column of a layout sorts by its own id. */
  lemma LayoutSortIdsDistinct(props: seq<TrackProperty>, widths: map<TrackProperty, int>, i: nat, j: nat)
    requires Layout(props, widths).Some?
    requires i < j < |props|
    ensures Layout(props, widths).value[i].sortId != Layout(props, widths).value[j].sortId
    ensures Layout(props, widths).value[i].property != Layout(props, widths).value[j].property
  {
  }

  // ---------------------------------------------------------------------
  // Width persistence
  // ---------------------------------------------------------------------

  /** The saved widths after a resize notification, and whether they were
      saved. */
  datatype WidthUpdate = WidthUpdate(widths: map<TrackProperty, int>, saved: bool)

  /** `TrackListViewColumnNotifyHandler`: `column` reports `width`. The
      width is stored only for a column the controller created, whose
      property already has a stored width, when the width differs from the
      stored one and exceeds 5. */
  function WidthChanged(columns: map<nat, TrackProperty>, widths: map<TrackProperty, int>, column: nat, width: int): (r: WidthUpdate)
    ensures r.saved <==>
      column in columns && columns[column] in widths && widths[columns[column]] != width && width > 5
    ensures r.saved ==> r.widths == widths[columns[column] := width]
    ensures !r.saved ==> r.widths == widths
    ensures r.widths.Keys == widths.Keys
    ensures forall p :: p in widths && (column !in columns || p != columns[column]) ==> r.widths[p] == widths[p]
  {
    if column !in columns then WidthUpdate(widths, false)
    else
      var p := columns[column];
      if p !in widths then WidthUpdate(widths, false)
      else if widths[p] == width || width <= 5 then WidthUpdate(widths, false)
      else WidthUpdate(widths[p := width], true)
  }

  /** A saved width is the one the next controller gives the column. */
  lemma SavedWidthIsRestored(columns: map<nat, TrackProperty>, widths: map<TrackProperty, int>, column: nat, width: int)
    requires WidthChanged(columns, widths, column, width).saved
    ensures InitialWidth(WidthChanged(columns, widths, column, width).widths, columns[column]) == width
  {
  }

  /** A property without a stored width never gets one by resizing, so it
      keeps starting at 200. */
  lemma UnstoredWidthStaysDefault(columns: map<nat, TrackProperty>, widths: map<TrackProperty, int>, column: nat, width: int)
    requires column in columns && columns[column] !in widths
    ensures InitialWidth(WidthChanged(columns, widths, column, width).widths, columns[column]) == 200
  {
  }

  // ---------------------------------------------------------------------
  // Columns changed
  // ---------------------------------------------------------------------

  /** The properties of the columns the controller knows, in column order. */
  function Mapped(columns: seq<nat>, mapping: map<nat, TrackProperty>): (r: seq<TrackProperty>)
    ensures |r| <= |columns|
  {
    if |columns| == 0 then []
    else
      var last := columns[|columns| - 1];
      Mapped(columns[..|columns| - 1], mapping) + (if last in mapping then [mapping[last]] else [])
  }

  /** When every column is known, the mapped properties are the columns'
      properties position by position. */
  lemma {:induction false} MappedAll(columns: seq<nat>, mapping: map<nat, TrackProperty>)
    requires forall i :: 0 <= i < |columns| ==> columns[i] in mapping
    ensures |Mapped(columns, mapping)| == |columns|
    ensures forall i :: 0 <= i < |columns| ==> Mapped(columns, mapping)[i] == mapping[columns[i]]
  {
    if |columns| > 0 {
      MappedAll(columns[..|columns| - 1], mapping);
    }
  }

  /** `TrackListViewOnColumnsChanged`: an array with one slot per column,
      filled from the front with the known columns' properties in column
      order; slots left over keep the enum default. */
  method ColumnsChanged(columns: seq<nat>, mapping: map<nat, TrackProperty>) returns (r: seq<TrackProperty>)
    ensures |r| == |columns|
    ensures r == Mapped(columns, mapping) + seq(|columns| - |Mapped(columns, mapping)|, _ => DefaultProperty)
  {
    r := seq(|columns|, _ => DefaultProperty);
    var filled := 0;
    for i := 0 to |columns|
      invariant filled == |Mapped(columns[..i], mapping)|
      invariant r == Mapped(columns[..i], mapping) + seq(|columns| - filled, _ => DefaultProperty)
    {
      assert columns[..i + 1][..i] == columns[..i];
      if columns[i] in mapping {
        r := r[filled := mapping[columns[i]]];
        filled := filled + 1;
      }
    }
    assert columns[..|columns|] == columns;
  }

  /** Saving after a reorder records the columns' properties in their new
      order when every column is known. */
  lemma ColumnsChangedAllKnown(columns: seq<nat>, mapping: map<nat, TrackProperty>, r: seq<TrackProperty>)
    requires forall i :: 0 <= i < |columns| ==> columns[i] in mapping
    requires r == Mapped(columns, mapping) + seq(|columns| - |Mapped(columns, mapping)|, _ => DefaultProperty)
    ensures |r| == |columns|
    ensures forall i :: 0 <= i < |columns| ==> r[i] == mapping[columns[i]]
  {
    MappedAll(columns, mapping);
  }
}
