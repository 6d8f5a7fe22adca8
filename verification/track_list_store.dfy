/** The list store behind the now-playing list: its rows in order, the
    dictionary from each track to its row, and the track marked as playing.
    The dictionary always holds exactly the stored tracks, so it is not kept
    apart from the rows; a track is identified by its value. */
module TrackListStore {
  import opened Wrappers

  /** The rows in list order and `CurrentTrack` (`None` for null). */
  datatype Store<T> = Store(rows: seq<T>, current: Option<T>)

  /** No element occurs twice. */
  predicate Distinct<T(==)>(s: seq<T>) {
    forall i, j :: 0 <= i < j < |s| ==> s[i] != s[j]
  }

  // ---------------------------------------------------------------------
  // Construction
  // ---------------------------------------------------------------------

  /** The constructor: each track is appended and then added to the
      dictionary, which throws for a track already added; the store is then
      never built. */
  method NewStore<T(==)>(tracks: seq<T>) returns (r: Option<Store<T>>)
    ensures r.Some? <==> Distinct(tracks)
    ensures r.Some? ==> r.value == Store(tracks, None)
  {
    var rows: seq<T> := [];
    for i := 0 to |tracks|
      invariant rows == tracks[..i]
      invariant Distinct(rows)
    {
      var track := tracks[i];
      if track in rows {
        var j :| 0 <= j < i && rows[j] == track;
        assert tracks[j] == tracks[i];
        return None;
      }
      rows := rows + [track];
    }
    assert tracks[..|tracks|] == tracks;
    r := Some(Store(rows, None));
  }

  // ---------------------------------------------------------------------
  // Insertion
  // ---------------------------------------------------------------------

  /** `InsertWithValues(position, x)`: inside the list the row goes before
      the one at `position`; a negative position or one past the end
      appends it. */
  function InsertAt<T>(rows: seq<T>, position: int, x: T): (r: seq<T>)
    ensures |r| == |rows| + 1
  {
    if 0 <= position <= |rows| then rows[..position] + [x] + rows[position..]
    else rows + [x]
  }

  /** Inserting each of `tracks` in turn at the same position. */
  function InsertAll<T>(rows: seq<T>, position: int, tracks: seq<T>): (r: seq<T>)
    ensures |r| == |rows| + |tracks|
    decreases |tracks|
  {
    if |tracks| == 0 then rows
    else InsertAt(InsertAll(rows, position, tracks[..|tracks| - 1]), position, tracks[|tracks| - 1])
  }

  lemma InsertAllStep<T>(rows: seq<T>, position: int, tracks: seq<T>, x: T)
    ensures InsertAll(rows, position, tracks + [x]) == InsertAt(InsertAll(rows, position, tracks), position, x)
  {
    assert (tracks + [x])[..|tracks|] == tracks;
  }

  /** Whatever the position, the rows afterwards are the stored rows and
      the inserted tracks, each as often as before. */
  lemma {:induction false} InsertAllElements<T>(rows: seq<T>, position: int, tracks: seq<T>)
    ensures multiset(InsertAll(rows, position, tracks)) == multiset(rows) + multiset(tracks)
    decreases |tracks|
  {
    if |tracks| > 0 {
      InsertAllElements(rows, position, tracks[..|tracks| - 1]);
      InsertAtElements(InsertAll(rows, position, tracks[..|tracks| - 1]), position, tracks[|tracks| - 1]);
      assert tracks == tracks[..|tracks| - 1] + [tracks[|tracks| - 1]];
    }
  }

  /** One insertion adds exactly the row. */
  lemma InsertAtElements<T>(rows: seq<T>, position: int, x: T)
    ensures multiset(InsertAt(rows, position, x)) == multiset(rows) + multiset{x}
  {
    if 0 <= position <= |rows| {
      assert rows == rows[..position] + rows[position..];
    }
  }

  function Reverse<T>(s: seq<T>): (r: seq<T>)
    ensures |r| == |s|
    ensures forall i :: 0 <= i < |s| ==> r[i] == s[|s| - 1 - i]
  {
    if |s| == 0 then [] else [s[|s| - 1]] + Reverse(s[..|s| - 1])
  }

  /** The track at `k` is new: neither stored nor earlier in `tracks`. */
  predicate FreshAt<T(==)>(rows: seq<T>, tracks: seq<T>, k: nat)
    requires k < |tracks|
  {
    tracks[k] !in rows && tracks[k] !in tracks[..k]
  }

  /** `InsertTracks(position, tracks)`. The position never advances, so
      each track goes in front of the one inserted before it. A track
      already in the store, or listed twice, makes the dictionary throw
      after its row was inserted: the insertion stops there, keeping the
      rows inserted so far and the offending one. `failed` is the index of
      that track. */
  method InsertTracks<T(==)>(s: Store<T>, position: int, tracks: seq<T>) returns (r: Store<T>, failed: Option<nat>)
    ensures r.current == s.current
    ensures failed.None? ==> (forall k :: 0 <= k < |tracks| ==> FreshAt(s.rows, tracks, k))
    ensures failed.None? ==> r.rows == InsertAll(s.rows, position, tracks)
    ensures failed.Some? ==>
      && failed.value < |tracks|
      && (forall k :: 0 <= k < failed.value ==> FreshAt(s.rows, tracks, k))
      && !FreshAt(s.rows, tracks, failed.value)
      && r.rows == InsertAll(s.rows, position, tracks[..failed.value + 1])
  {
    var rows := s.rows;
    for i := 0 to |tracks|
      invariant rows == InsertAll(s.rows, position, tracks[..i])
      invariant forall k :: 0 <= k < i ==> FreshAt(s.rows, tracks, k)
    {
      var track := tracks[i];
      var known := track in s.rows || track in tracks[..i];
      assert tracks[..i + 1] == tracks[..i] + [track];
      InsertAllStep(s.rows, position, tracks[..i], track);
      rows := InsertAt(rows, position, track);
      if known {
        return Store(rows, s.current), Some(i);
      }
    }
    assert tracks[..|tracks|] == tracks;
    return Store(rows, s.current), None;
  }

  /** Inside the list, the inserted tracks end up in reverse order at the
      position, with the stored rows around them in their old order. */
  lemma {:induction false} InsertAllReverses<T>(rows: seq<T>, position: int, tracks: seq<T>)
    requires 0 <= position <= |rows|
    ensures InsertAll(rows, position, tracks) == rows[..position] + Reverse(tracks) + rows[position..]
    decreases |tracks|
  {
    if |tracks| > 0 {
      var init, last := tracks[..|tracks| - 1], tracks[|tracks| - 1];
      InsertAllReverses(rows, position, init);
      var before := rows[..position] + Reverse(init) + rows[position..];
      assert tracks == init + [last];
      InsertAllStep(rows, position, init, last);
      assert InsertAll(rows, position, tracks) == before[..position] + [last] + before[position..];
      assert before[..position] == rows[..position];
      assert before[position..] == Reverse(init) + rows[position..];
      assert Reverse(tracks) == [last] + Reverse(init);
    }
  }

  /** With a negative position every track is appended, so they keep their
      order after the stored rows. */
  lemma {:induction false} InsertAllAppends<T>(rows: seq<T>, position: int, tracks: seq<T>)
    requires position < 0
    ensures InsertAll(rows, position, tracks) == rows + tracks
    decreases |tracks|
  {
    if |tracks| > 0 {
      var init := tracks[..|tracks| - 1];
      InsertAllAppends(rows, position, init);
      assert tracks == init + [tracks[|tracks| - 1]];
      InsertAllStep(rows, position, init, tracks[|tracks| - 1]);
    }
  }

  /** Inserting two new tracks at the front puts the second first. */
  lemma TwoTracksReversed<T>(rows: seq<T>, a: T, b: T)
    ensures InsertAll(rows, 0, [a, b]) == [b, a] + rows
  {
    InsertAllReverses(rows, 0, [a, b]);
    assert Reverse([a, b]) == [b, a];
  }

  // ---------------------------------------------------------------------
  // Track changes
  // ---------------------------------------------------------------------

  /** `HandleTrackChanged`: the new track becomes the current one
      unconditionally; a row-changed signal goes out for the new track and
      then for the old one, each only if the store holds it. */
  function HandleTrackChanged<T(==,!new)>(s: Store<T>, oldTrack: Option<T>, newTrack: Option<T>): (r: (Store<T>, seq<T>))
    ensures r.0.rows == s.rows && r.0.current == newTrack
    ensures forall x :: x in r.1 <==> x in s.rows && (Some(x) == newTrack || Some(x) == oldTrack)
    ensures |r.1| <= 2
    ensures newTrack.Some? && newTrack.value in s.rows ==> r.1[0] == newTrack.value
  {
    var forNew := if newTrack.Some? && newTrack.value in s.rows then [newTrack.value] else [];
    var forOld := if oldTrack.Some? && oldTrack.value in s.rows then [oldTrack.value] else [];
    (Store(s.rows, newTrack), forNew + forOld)
  }
}
