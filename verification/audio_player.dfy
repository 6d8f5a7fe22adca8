/** The playback queue: a playlist, the index of the current track, the URI
    handed to the engine, and the engine state last requested. Each
    operation returns the new player with the `TrackChanged` event it
    raised, if any, and the exception it threw, if any. The engine itself
    is left out: only the state the player requests from it is kept, and
    the states it reports are parameters of `IsPlaying`. */
module AudioPlayer {
  import opened Wrappers
  import opened Numeric
  import opened Entities

  /** The GStreamer element states. */
  datatype EngineState = VoidPending | Null | Ready | Paused | Playing

  /** A `Track[]`: a CLR array holds at most `int.MaxValue` elements. */
  type TrackArray = s: seq<Track> | |s| <= MaxInt32

  /** The player's fields: the track array, the `uint` index, the engine's
      URI (`None` for null) and the state last requested of the engine. */
  datatype Player = Player(playlist: TrackArray, index: UInt32, uri: Option<string>, engine: EngineState)

  /** The `TrackChanged` arguments; `oldTrack` is `None` for null. */
  datatype TrackChange = TrackChange(oldTrack: Option<Track>, newTrack: Track)

  /** `ArgumentException` from a bad index, and `IndexOutOfRangeException`
      from reading the array. */
  datatype PlayerError = IndexOutOfBounds | IndexOutOfRange

  /** The outcome of one operation. */
  datatype Step = Step(player: Player, changed: Option<TrackChange>, error: Option<PlayerError>)

  /** `PathStringToUri`: a `file:` URI with an empty authority. */
  function PathStringToUri(path: string): (r: string)
    ensures |r| == |path| + 8 && r[..8] == "file:///" && r[8..] == path
  {
    "file:///" + path
  }

  /** Two paths give the engine the same URI exactly when they are the same
      path, so the URI names the track file it came from. */
  lemma PathStringToUriInjective(a: string, b: string)
    ensures PathStringToUri(a) == PathStringToUri(b) <==> a == b
  {
    if PathStringToUri(a) == PathStringToUri(b) {
      assert a == PathStringToUri(a)[8..] == PathStringToUri(b)[8..] == b;
    }
  }

  /** The constructor: an empty array, index 0, no URI, and an engine that
      has not been asked for any state. */
  function NewPlayer(): (p: Player)
    ensures p.playlist == [] && p.index == 0 && p.uri.None? && p.engine == Null
  {
    Player([], 0, None, Null)
  }

  /** `IsPlaying`, from the current and pending states the engine reports. */
  predicate IsPlaying(current: EngineState, pending: EngineState) {
    pending == Playing || (current == Playing && pending == VoidPending)
  }

  /** A player is playing while a change to `Playing` is pending, or when it
      is in `Playing` with nothing pending; any other pending change means
      it is not. */
  lemma IsPlayingCases(current: EngineState, pending: EngineState)
    ensures pending == Playing ==> IsPlaying(current, pending)
    ensures pending != Playing && pending != VoidPending ==> !IsPlaying(current, pending)
    ensures pending == VoidPending ==> (IsPlaying(current, pending) <==> current == Playing)
  {
  }

  /** The index points into the playlist, or is 0. */
  predicate IndexOk(p: Player) {
    p.index < |p.playlist| || p.index == 0
  }

  /** The index points into the playlist. */
  predicate Current(p: Player) {
    p.index < |p.playlist|
  }

  /** `ReplacePlaylistAndPlay`: an index past the end throws before any
      change; otherwise the event names the new track and the old one (null
      when the old index was out of range), and the player starts the new
      track. */
  function ReplacePlaylistAndPlay(p: Player, tracks: TrackArray, trackIndex: UInt32): (r: Step)
    ensures trackIndex >= |tracks| ==> r == Step(p, None, Some(IndexOutOfBounds))
    ensures trackIndex < |tracks| ==>
      && r.error.None?
      && r.player.playlist == tracks && r.player.index == trackIndex
      && r.player.uri == Some(PathStringToUri(tracks[trackIndex].path))
      && r.player.engine == Playing
      && r.changed.Some? && r.changed.value.newTrack == tracks[trackIndex]
      && (r.changed.value.oldTrack.Some? <==> p.index < |p.playlist|)
      && (p.index < |p.playlist| ==> r.changed.value.oldTrack == Some(p.playlist[p.index]))
  {
    if trackIndex >= |tracks| then Step(p, None, Some(IndexOutOfBounds))
    else
      var oldTrack := if p.index < |p.playlist| then Some(p.playlist[p.index]) else None;
      Step(Player(tracks, trackIndex, Some(PathStringToUri(tracks[trackIndex].path)), Playing),
           Some(TrackChange(oldTrack, tracks[trackIndex])), None)
  }

  /** `NextTrack`: moves to the following track when there is one, and
      otherwise only asks the engine for `Ready`. */
  function NextTrack(p: Player): (r: Step)
    ensures r.error.None?
    ensures r.changed.Some? <==> p.index + 1 < |p.playlist|
    ensures p.index + 1 < |p.playlist| ==>
      && r.player.playlist == p.playlist && r.player.index == p.index + 1
      && r.player.uri == Some(PathStringToUri(p.playlist[p.index + 1].path))
      && r.player.engine == Playing
      && r.changed == Some(TrackChange(Some(p.playlist[p.index]), p.playlist[p.index + 1]))
    ensures p.index + 1 >= |p.playlist| ==> r.player == p.(engine := Ready)
  {
    if p.index + 1 < |p.playlist| then Advance(p)
    else Step(p.(engine := Ready), None, None)
  }

  /** The move to the following track that `NextTrack` and end-of-stream
      share. */
  function Advance(p: Player): (r: Step)
    requires p.index + 1 < |p.playlist|
    ensures r.player.index == p.index + 1 && r.player.playlist == p.playlist
  {
    var next := p.playlist[p.index + 1];
    Step(Player(p.playlist, p.index + 1, Some(PathStringToUri(next.path)), Playing),
         Some(TrackChange(Some(p.playlist[p.index]), next)), None)
  }

  /** The end-of-stream message: like `NextTrack` when there is a following
      track; at the last track nothing at all changes. */
  function EndOfStream(p: Player): (r: Step)
    ensures r.error.None?
    ensures p.index + 1 < |p.playlist| ==> r == NextTrack(p)
    ensures p.index + 1 >= |p.playlist| ==> r == Step(p, None, None)
  {
    if p.index + 1 < |p.playlist| then Advance(p) else Step(p, None, None)
  }

  /** `PreviousTrack`: nothing at index 0; otherwise the engine is asked for
      `Null` and the previous track is read, which throws when the index is
      past the end of the array, and played. */
  function PreviousTrack(p: Player): (r: Step)
    ensures p.index == 0 ==> r == Step(p, None, None)
    ensures 0 < p.index < |p.playlist| ==>
      && r.error.None?
      && r.player.playlist == p.playlist && r.player.index == p.index - 1
      && r.player.uri == Some(PathStringToUri(p.playlist[p.index - 1].path))
      && r.player.engine == Playing
      && r.changed == Some(TrackChange(Some(p.playlist[p.index]), p.playlist[p.index - 1]))
    ensures 0 < p.index && |p.playlist| <= p.index ==>
      r == Step(p.(engine := Null), None, Some(IndexOutOfRange))
  {
    if p.index == 0 then Step(p, None, None)
    else if |p.playlist| <= p.index then Step(p.(engine := Null), None, Some(IndexOutOfRange))
    else
      var prev := p.playlist[p.index - 1];
      Step(Player(p.playlist, p.index - 1, Some(PathStringToUri(prev.path)), Playing),
           Some(TrackChange(Some(p.playlist[p.index]), prev)), None)
  }

  /** `ClearQueue`: no URI and an empty array; the index stays. */
  function ClearQueue(p: Player): (r: Player)
    ensures r.playlist == [] && r.uri.None?
    ensures r.index == p.index && r.engine == p.engine
  {
    Player([], p.index, None, p.engine)
  }

  /** `Play`, `Pause` and `Stop` only request an engine state. */
  function Request(p: Player, state: EngineState): (r: Player)
    ensures r.engine == state
    ensures r.playlist == p.playlist && r.index == p.index && r.uri == p.uri
  {
    p.(engine := state)
  }

  function Play(p: Player): (r: Player)
    ensures r.engine == Playing
    ensures r.playlist == p.playlist && r.index == p.index && r.uri == p.uri
  {
    Request(p, Playing)
  }

  function Pause(p: Player): (r: Player)
    ensures r.engine == Paused
    ensures r.playlist == p.playlist && r.index == p.index && r.uri == p.uri
  {
    Request(p, Paused)
  }

  function Stop(p: Player): (r: Player)
    ensures r.engine == Ready
    ensures r.playlist == p.playlist && r.index == p.index && r.uri == p.uri
  {
    Request(p, Ready)
  }

  // ---------------------------------------------------------------------
  // The index invariant
  // ---------------------------------------------------------------------

  /** A successful replacement makes the index point into the playlist, and
      moving forwards, backwards or past the end of a stream keeps it
      there. */
  lemma CurrentPreserved(p: Player, tracks: TrackArray, trackIndex: UInt32)
    ensures ReplacePlaylistAndPlay(p, tracks, trackIndex).error.None? ==>
      Current(ReplacePlaylistAndPlay(p, tracks, trackIndex).player)
    ensures Current(p) ==> Current(NextTrack(p).player)
    ensures Current(p) ==> Current(PreviousTrack(p).player)
    ensures Current(p) ==> Current(EndOfStream(p).player)
  {
  }

  /** The weaker invariant holds from construction on and is kept by every
      operation except `ClearQueue`, and under it `PreviousTrack` never
      throws. */
  lemma IndexOkPreserved(p: Player, tracks: TrackArray, trackIndex: UInt32)
    requires IndexOk(p)
    ensures IndexOk(NewPlayer())
    ensures IndexOk(ReplacePlaylistAndPlay(p, tracks, trackIndex).player)
    ensures IndexOk(NextTrack(p).player)
    ensures IndexOk(PreviousTrack(p).player) && PreviousTrack(p).error.None?
    ensures IndexOk(EndOfStream(p).player)
  {
  }

  /** `ClearQueue` keeps a non-zero index while emptying the array, so the
      next `PreviousTrack` reads past the end and throws, after it has
      already stopped the engine. */
  lemma ClearQueueLeavesIndexDangling(p: Player)
    requires 0 < p.index
    ensures !IndexOk(ClearQueue(p))
    ensures PreviousTrack(ClearQueue(p)).error == Some(IndexOutOfRange)
    ensures PreviousTrack(ClearQueue(p)).player.engine == Null
  {
  }

  /** After a queue is cleared `NextTrack` finds no following track and
      only asks for `Ready`. */
  lemma NextAfterClear(p: Player)
    ensures NextTrack(ClearQueue(p)) == Step(ClearQueue(p).(engine := Ready), None, None)
  {
  }

  /** `PreviousTrack` undoes `NextTrack`: the index, URI and array return to
      what they were after a move forwards and back. */
  lemma NextThenPrevious(p: Player)
    requires Current(p) && p.index + 1 < |p.playlist|
    ensures var q := PreviousTrack(NextTrack(p).player).player;
      q.index == p.index && q.playlist == p.playlist
      && q.uri == Some(PathStringToUri(p.playlist[p.index].path))
  {
  }
}
