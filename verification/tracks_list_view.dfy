/** The library list controller: every track of the legacy database in a
    store, a filter the source tree replaces, the fixed columns plus one per
    string property of the track class, and a default order that never
    looks at track numbers. Its tracks and artists are the legacy database
    classes; a row has the same shape as in the other lists. */
module Tracks {
  import opened Wrappers
  import opened Text
  import opened TrackProperties
  import opened TrackView
  import opened TrackListStore
  import BaseTrackList
  import TrackList

  // ---------------------------------------------------------------------
  // Default order
  // ---------------------------------------------------------------------

  /** `ToString()` of a legacy artist: the class defines none, so every
      artist renders as its type's full name. */
  const ArtistTypeName: string := "Howler.Core.Database.Artist"

  /** `string.Join("", track.Artists)` over legacy artists. */
  function ArtistsKey(r: Row): string {
    BaseTrackList.ArtistsKey(ArtistTypeName, r)
  }

  /** `string.Join("", track.Album.Artists)` over legacy artists. */
  function AlbumArtistsKey(r: Row): string {
    BaseTrackList.AlbumArtistsKey(ArtistTypeName, r)
  }

  /** The joined artists and album artists are the legacy type name once
      per artist, whatever the artists are called: two rows' keys agree
      exactly when the rows have equally many artists. */
  lemma KeysAreTypeNames(r1: Row, r2: Row, b: nat)
    ensures b < |r1.track.artists| ==>
      b * |ArtistTypeName| + |ArtistTypeName| <= |ArtistsKey(r1)| &&
      ArtistsKey(r1)[b * |ArtistTypeName|..b * |ArtistTypeName| + |ArtistTypeName|] == ArtistTypeName
    ensures b < |r1.album.artistIds| ==>
      b * |ArtistTypeName| + |ArtistTypeName| <= |AlbumArtistsKey(r1)| &&
      AlbumArtistsKey(r1)[b * |ArtistTypeName|..b * |ArtistTypeName| + |ArtistTypeName|] == ArtistTypeName
    ensures ArtistsKey(r1) == ArtistsKey(r2) <==> |r1.track.artists| == |r2.track.artists|
    ensures AlbumArtistsKey(r1) == AlbumArtistsKey(r2) <==> |r1.album.artistIds| == |r2.album.artistIds|
  {
    BaseTrackList.ArtistsKeyIsTypeNames(ArtistTypeName, r1, r2, b);
    BaseTrackList.AlbumArtistsKeyIsTypeNames(ArtistTypeName, r1, r2, b);
  }

  /** `DefaultSortFunc`: the joined artists, the joined album artists and
      the album title under the culture's collation; there is no disc stage,
      and the last stage compares the first row's track number with
      itself. */
  function DefaultOrder(cmp: Collation, r1: Row, r2: Row): (c: int)
    ensures c == 0 <==>
      && cmp(ArtistsKey(r1), ArtistsKey(r2)) == 0
      && cmp(AlbumArtistsKey(r1), AlbumArtistsKey(r2)) == 0
      && cmp(r1.album.title, r2.album.title) == 0
    ensures cmp(ArtistsKey(r1), ArtistsKey(r2)) != 0 ==> c == cmp(ArtistsKey(r1), ArtistsKey(r2))
  {
    var byArtists := cmp(ArtistsKey(r1), ArtistsKey(r2));
    if byArtists != 0 then byArtists
    else
      var byAlbumArtists := cmp(AlbumArtistsKey(r1), AlbumArtistsKey(r2));
      if byAlbumArtists != 0 then byAlbumArtists
      else
        var byTitle := cmp(r1.album.title, r2.album.title);
        if byTitle != 0 then byTitle
        else
          var trackNumber1 := TrackList.OrMinInt64(r1.track.trackNumber);
          var trackNumber2 := TrackList.OrMinInt64(r1.track.trackNumber);
          CompareNumbers(trackNumber1, trackNumber2)
  }

  /** Two tracks of one album tie whatever their disc and track numbers,
      where the five-key order of the other lists tells them apart. */
  lemma NumbersIgnored(cmp: Collation, r1: Row, r2: Row)
    requires Reflexive(cmp)
    requires |r1.track.artists| == |r2.track.artists| && r1.album.artistIds == r2.album.artistIds
    requires r1.album.title == r2.album.title
    ensures DefaultOrder(cmp, r1, r2) == 0
    ensures OrZero(r1.track.trackNumber) != OrZero(r2.track.trackNumber) ==> BaseTrackList.DefaultOrder(cmp, r1, r2) != 0
  {
    assert ArtistsKey(r1) == ArtistsKey(r2);
    assert BaseTrackList.ArtistsKey(BaseTrackList.ArtistTypeName, r1) == BaseTrackList.ArtistsKey(BaseTrackList.ArtistTypeName, r2);
  }

  lemma DefaultOrderAntisymmetric(cmp: Collation, r1: Row, r2: Row)
    requires Antisymmetric(cmp)
    ensures Sign(DefaultOrder(cmp, r1, r2)) == -Sign(DefaultOrder(cmp, r2, r1))
  {
    assert Sign(cmp(ArtistsKey(r1), ArtistsKey(r2))) == -Sign(cmp(ArtistsKey(r2), ArtistsKey(r1)));
    assert Sign(cmp(AlbumArtistsKey(r1), AlbumArtistsKey(r2))) == -Sign(cmp(AlbumArtistsKey(r2), AlbumArtistsKey(r1)));
    assert Sign(cmp(r1.album.title, r2.album.title)) == -Sign(cmp(r2.album.title, r1.album.title));
  }

  // ---------------------------------------------------------------------
  // Columns
  // ---------------------------------------------------------------------

  /** Where a column's text comes from: a track property rendered as in
      the other lists, or a string property of the track class read by
      reflection. */
  datatype Source = Property(property: TrackProperty) | Reflected(name: string)

  /** A column: its title, its text source and its sort id; a negative id
      registers no sort function. */
  datatype Column = Column(title: string, source: Source, sortId: int)

  /** The constructor's columns: Title, Artist, Album Artist and Album with
      sort ids 0 to 3, Length with id -1, then one column per string
      property of the track class, in reflection order, numbered on from
      4. */
  function Columns(reflected: seq<string>): (r: seq<Column>)
    ensures |r| == 5 + |reflected|
    ensures forall k :: 0 <= k < 5 ==>
      r[k].source.Property? && r[k].sortId == (if k < 4 then k else -1)
    ensures r[0].source.property == Title && r[1].source.property == Artist
      && r[2].source.property == AlbumArtist && r[3].source.property == Album
      && r[4].source.property == Duration
    ensures forall k :: 5 <= k < |r| ==>
      r[k] == Column(reflected[k - 5], Reflected(reflected[k - 5]), k - 1)
  {
    [Column("Title", Property(Title), 0), Column("Artist", Property(Artist), 1),
     Column("Album Artist", Property(AlbumArtist), 2), Column("Album", Property(Album), 3),
     Column("Length", Property(Duration), -1)]
    + seq(|reflected|, k requires 0 <= k < |reflected| => Column(reflected[k], Reflected(reflected[k]), 4 + k))
  }

  /** Only the Length column is unsortable; the others have distinct sort
      ids, and id 1, which the list starts sorted by, is the Artist
      column. */
  lemma ColumnSortIds(reflected: seq<string>, i: nat, j: nat)
    requires i < j < 5 + |reflected|
    ensures Columns(reflected)[i].sortId < 0 <==> i == 4
    ensures Columns(reflected)[j].sortId < 0 <==> j == 4
    ensures Columns(reflected)[i].sortId >= 0 ==> Columns(reflected)[i].sortId != Columns(reflected)[j].sortId
    ensures Columns(reflected)[i].sortId == 1 <==> i == 1
    ensures Columns(reflected)[1].source == Property(Artist)
  {
  }

  /** The text a column shows: a property column as in the other lists, a
      reflected column the property's value, here a parameter. */
  function CellText(c: Culture, reflect: (string, Row) -> Option<string>, col: Column, r: Row): Option<string> {
    match col.source
    case Property(p) => ColumnText(c, p, r)
    case Reflected(name) => reflect(name, r)
  }

  /** A column's sort function, when it has one: its text under the
      culture's collation, null first, with ties broken by the default
      order. */
  function ColumnOrder(cmp: Collation, c: Culture, reflect: (string, Row) -> Option<string>, col: Column, r1: Row, r2: Row): (x: Option<int>)
    ensures x.None? <==> col.sortId < 0
    ensures x.Some? ==> (x.value == 0 <==>
      CompareStrings(cmp, CellText(c, reflect, col, r1), CellText(c, reflect, col, r2)) == 0 && DefaultOrder(cmp, r1, r2) == 0)
    ensures x.Some? && CompareStrings(cmp, CellText(c, reflect, col, r1), CellText(c, reflect, col, r2)) != 0 ==>
      x.value == CompareStrings(cmp, CellText(c, reflect, col, r1), CellText(c, reflect, col, r2))
  {
    if col.sortId < 0 then None
    else
      var x := CompareStrings(cmp, CellText(c, reflect, col, r1), CellText(c, reflect, col, r2));
      Some(if x != 0 then x else DefaultOrder(cmp, r1, r2))
  }

  lemma ColumnOrderAntisymmetric(cmp: Collation, c: Culture, reflect: (string, Row) -> Option<string>, col: Column, r1: Row, r2: Row)
    requires Antisymmetric(cmp) && col.sortId >= 0
    ensures Sign(ColumnOrder(cmp, c, reflect, col, r1, r2).value) == -Sign(ColumnOrder(cmp, c, reflect, col, r2, r1).value)
  {
    CompareStringsAntisymmetric(cmp, CellText(c, reflect, col, r1), CellText(c, reflect, col, r2));
    DefaultOrderAntisymmetric(cmp, r1, r2);
  }

  // ---------------------------------------------------------------------
  // Filtering
  // ---------------------------------------------------------------------

  /** The rows a filter accepts, in store order. */
  function Filter(accepts: Row -> bool, rows: seq<Row>): (r: seq<Row>)
    ensures |r| <= |rows|
  {
    if |rows| == 0 then []
    else
      var init := Filter(accepts, rows[..|rows| - 1]);
      var last := rows[|rows| - 1];
      if accepts(last) then init + [last] else init
  }

  /** A row is shown exactly when it is stored and accepted. */
  lemma {:induction false} FilterMembers(accepts: Row -> bool, rows: seq<Row>, x: Row)
    ensures x in Filter(accepts, rows) <==> x in rows && accepts(x)
    decreases |rows|
  {
    if |rows| > 0 {
      FilterMembers(accepts, rows[..|rows| - 1], x);
      assert rows == rows[..|rows| - 1] + [rows[|rows| - 1]];
    }
  }

  /** Filtering keeps the store's order: the rows of a concatenation are
      filtered part by part. */
  lemma {:induction false} FilterAppend(accepts: Row -> bool, a: seq<Row>, b: seq<Row>)
    ensures Filter(accepts, a + b) == Filter(accepts, a) + Filter(accepts, b)
    decreases |b|
  {
    if |b| == 0 {
      assert a + b == a;
    } else {
      var init, last := b[..|b| - 1], b[|b| - 1];
      FilterAppend(accepts, a, init);
      var ab := a + b;
      assert ab[..|ab| - 1] == a + init;
      assert ab[|ab| - 1] == last;
      var rest := Filter(accepts, a + init);
      assert Filter(accepts, ab) == if accepts(last) then rest + [last] else rest;
      assert Filter(accepts, b) == if accepts(last) then Filter(accepts, init) + [last] else Filter(accepts, init);
    }
  }

  /** A filter that accepts every row shows the whole store. */
  lemma {:induction false} FilterAcceptAll(accepts: Row -> bool, rows: seq<Row>)
    requires forall x :: accepts(x)
    ensures Filter(accepts, rows) == rows
    decreases |rows|
  {
    if |rows| > 0 {
      FilterAcceptAll(accepts, rows[..|rows| - 1]);
      assert rows == rows[..|rows| - 1] + [rows[|rows| - 1]];
    }
  }

  /** The controller's state: the unfiltered store and the current
      filter. */
  datatype View = View(store: Store<Row>, accepts: Row -> bool)

  /** The rows the view shows: those the current filter accepts. */
  function Visible(v: View): seq<Row> {
    Filter(v.accepts, v.store.rows)
  }

  /** The constructor: every track of the collection in a store, which
      throws on a duplicate, and a filter that accepts every track, so
      every row is visible. */
  method NewView(tracks: seq<Row>) returns (v: Option<View>)
    ensures v.Some? <==> Distinct(tracks)
    ensures v.Some? ==> v.value.store == Store(tracks, None) && Visible(v.value) == tracks
  {
    var store := NewStore(tracks);
    if store.None? {
      return None;
    }
    var view := View(store.value, (_: Row) => true);
    FilterAcceptAll(view.accepts, tracks);
    v := Some(view);
  }

  /** `FilterStore`: the filter is replaced and the rows are refiltered;
      the store is untouched. */
  function FilterStore(v: View, accepts: Row -> bool): (r: View)
    ensures r.store == v.store
    ensures Visible(r) == Filter(accepts, v.store.rows)
  {
    View(v.store, accepts)
  }

  /** `AudioPlayerOnTrackChanged`: the new track becomes the current one,
      and rows held by the store, visible or not, are signalled as
      changed; the filter and the rows stay as they are. */
  function TrackChanged(v: View, oldRow: Option<Row>, newRow: Option<Row>): (r: (View, seq<Row>))
    ensures r.0.store.rows == v.store.rows && r.0.store.current == newRow
    ensures Visible(r.0) == Visible(v)
    ensures forall x :: x in r.1 <==> x in v.store.rows && (Some(x) == newRow || Some(x) == oldRow)
  {
    var (store, signals) := HandleTrackChanged(v.store, oldRow, newRow);
    (View(store, v.accepts), signals)
  }
}
