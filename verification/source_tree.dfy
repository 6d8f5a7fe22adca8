/** The source tree beside the library list: a "Music" root, an "Artist &
    Album Artist" node under it, a node per artist and, under each artist, a
    node per album. Every node carries the filter that selecting it hands to
    the library list. */
module SourceTree {
  import opened Wrappers
  import opened TrackView
  import Tracks

  /** A node of the tree: the value the tree store holds. */
  datatype Node = Music | ArtistsHeader | ArtistNode(id: int, name: string) | AlbumNode(title: string)

  /** The text a node displays. */
  function DisplayString(n: Node): string {
    match n
    case Music => "Music"
    case ArtistsHeader => "Artist & Album Artist"
    case ArtistNode(_, name) => name
    case AlbumNode(title) => title
  }

  /** The node's `TrackFilter`: the two top nodes accept every track; an
      artist node accepts a track when the artist's id is among the album's
      artists or the track's artists; an album node accepts a track whose
      album title is ordinally equal to its own. */
  predicate Accepts(n: Node, r: Row) {
    match n
    case Music => true
    case ArtistsHeader => true
    case ArtistNode(id, _) => (exists i :: 0 <= i < |r.album.artistIds| && r.album.artistIds[i] == id)
                              || (exists i :: 0 <= i < |r.track.artists| && r.track.artists[i] == id)
    case AlbumNode(title) => Ordinal(r.album.title, title) == 0
  }

  /** What each filter admits, in terms of the row alone. */
  lemma AcceptsCases(n: Node, r: Row)
    ensures n == Music || n == ArtistsHeader ==> Accepts(n, r)
    ensures n.ArtistNode? ==> (Accepts(n, r) <==> n.id in r.album.artistIds || n.id in r.track.artists)
    ensures n.AlbumNode? ==> (Accepts(n, r) <==> r.album.title == n.title)
  {
    if n.ArtistNode? {
      if n.id in r.album.artistIds {
        var i :| 0 <= i < |r.album.artistIds| && r.album.artistIds[i] == n.id;
      }
      if n.id in r.track.artists {
        var i :| 0 <= i < |r.track.artists| && r.track.artists[i] == n.id;
      }
    }
  }

  /** An album node admits the tracks of every album with that title,
      whoever its artists are. */
  lemma AlbumNodeIgnoresArtists(title: string, r1: Row, r2: Row)
    requires r1.album.title == title && r2.album.title == title
    requires r1.album.artistIds != r2.album.artistIds
    ensures Accepts(AlbumNode(title), r1) && Accepts(AlbumNode(title), r2)
  {
  }

  /** An artist node admits the tracks of albums the artist is credited
      on, even where the track itself names other artists. */
  lemma ArtistNodeAdmitsAlbumTracks(id: int, name: string, r: Row)
    requires id in r.album.artistIds && id !in r.track.artists
    ensures Accepts(ArtistNode(id, name), r)
  {
    AcceptsCases(ArtistNode(id, name), r);
  }

  /** The filter a node hands over. */
  function FilterOf(n: Node): Row -> bool {
    (r: Row) => Accepts(n, r)
  }

  /** The selection handler: a selected node forwards exactly its filter
      to the library list; with no node value nothing changes. */
  function SelectionChanged(v: Tracks.View, selected: Option<Node>): (r: Tracks.View)
    ensures r.store == v.store
    ensures selected.None? ==> Tracks.Visible(r) == Tracks.Visible(v)
    ensures selected.Some? ==> Tracks.Visible(r) == Tracks.Filter(FilterOf(selected.value), v.store.rows)
  {
    if selected.Some? then Tracks.FilterStore(v, FilterOf(selected.value)) else v
  }

  /** After selecting a node the list shows exactly the stored rows the
      node accepts; after selecting a top node, all of them. */
  lemma SelectedRowsShown(v: Tracks.View, n: Node, x: Row)
    ensures x in Tracks.Visible(SelectionChanged(v, Some(n))) <==> x in v.store.rows && Accepts(n, x)
    ensures n == Music || n == ArtistsHeader ==> Tracks.Visible(SelectionChanged(v, Some(n))) == v.store.rows
  {
    Tracks.FilterMembers(FilterOf(n), v.store.rows, x);
    if n == Music || n == ArtistsHeader {
      Tracks.FilterAcceptAll(FilterOf(n), v.store.rows);
    }
  }
}
