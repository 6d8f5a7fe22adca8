/** What both track list controllers do when a row is activated: copy every
    row of the view, in view order, into a fresh track array and hand it to
    the player with the activated row's index. */
module RowActivation {
  import opened Wrappers
  import opened Numeric
  import opened Entities
  import opened TrackView
  import opened AudioPlayer

  /** The tracks of the view's rows, in view order. */
  predicate TracksOfView(view: seq<Row>, tracks: seq<Track>) {
    |tracks| == |view| && forall i :: 0 <= i < |view| ==> tracks[i] == view[i].track
  }

  /** The walk from `GetIterFirst` through `IterNext`, storing each row's
      track at the next index of the array. */
  method ViewTracks(view: seq<Row>) returns (tracks: seq<Track>)
    ensures TracksOfView(view, tracks)
  {
    tracks := [];
    var valid := |view| > 0;
    var trackIndex := 0;
    while valid
      invariant 0 <= trackIndex <= |view|
      invariant valid <==> trackIndex < |view|
      invariant TracksOfView(view[..trackIndex], tracks)
      decreases |view| - trackIndex
    {
      tracks := tracks + [view[trackIndex].track];
      trackIndex := trackIndex + 1;
      valid := trackIndex < |view|;
    }
    assert view[..trackIndex] == view;
  }

  /** `OnRowActivated`: the whole view becomes the playlist and the
      activated row, `selected`, the current track. The row count and the
      path index are `int`s, and the index is cast to `uint`. */
  method RowActivated(p: Player, view: seq<Row>, selected: nat) returns (r: Step)
    requires |view| <= MaxInt32 && selected <= MaxInt32
    ensures selected >= |view| ==> r == Step(p, None, Some(IndexOutOfBounds))
    ensures selected < |view| ==>
      && r.error.None?
      && TracksOfView(view, r.player.playlist)
      && r.player.index == selected
      && r.player.engine == Playing
      && r.changed.Some? && r.changed.value.newTrack == view[selected].track
  {
    var tracks := ViewTracks(view);
    r := ReplacePlaylistAndPlay(p, tracks, selected);
  }
}
