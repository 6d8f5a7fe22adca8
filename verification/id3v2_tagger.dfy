/** Ratings, play counts and recording dates in ID3v2 tags. Ratings live in
    POPM (popularimeter) frames, section 4.17 of the ID3v2.4.0 native frames
    document: an e-mail-like user name, a one-byte rating where 0 means
    unknown, and a play counter. Each player uses its own rating scale, so a
    rating is translated per user. Dates live in TDRC text frames. */
module Id3v2Tagger {
  import opened Wrappers
  import opened Numeric
  import opened Text
  import opened Dates

  // ---------------------------------------------------------------------
  // Frames
  // ---------------------------------------------------------------------

  /** One POPM frame. */
  datatype Popm = Popm(user: string, rating: Byte, playCount: UInt64)

  /** The parts of an ID3v2 tag this code touches: its POPM frames and the
      texts of its TDRC frames, each in frame order. */
  datatype Id3v2Tag = Id3v2Tag(popms: seq<Popm>, tdrc: seq<seq<string>>)

  const HowlerUser: string := "Howler"
  const BansheeUser: string := "Banshee"
  const QuodLibetUser: string := "quodlibet@lists.sacredchao.net"
  const MediaMonkeyUser: string := "no@email"
  const WindowsMediaPlayerUser: string := "Windows Media Player 9 Series"

  /** The users whose frames are read, highest priority first. */
  const KnownCreators: seq<string> :=
    [HowlerUser, BansheeUser, MediaMonkeyUser, QuodLibetUser, WindowsMediaPlayerUser]

  /** The index of the first frame of `user`, compared ordinally. */
  function FindUser(frames: seq<Popm>, user: string): (r: Option<nat>)
    ensures r.Some? ==> r.value < |frames| && frames[r.value].user == user
    ensures r.Some? ==> forall j :: 0 <= j < r.value ==> frames[j].user != user
    ensures r.None? <==> forall j :: 0 <= j < |frames| ==> frames[j].user != user
  {
    if |frames| == 0 then None
    else if frames[0].user == user then Some(0)
    else
      match FindUser(frames[1..], user)
      case Some(k) => Some(k + 1)
      case None =>
        assert forall j :: 1 <= j < |frames| ==> frames[j] == frames[1..][j - 1];
        None
  }

  /** `PopularimeterFrame.Get(tag, user, false)`: the first frame of `user`. */
  function Get(frames: seq<Popm>, user: string): (r: Option<Popm>)
    ensures r.Some? <==> exists j :: 0 <= j < |frames| && frames[j].user == user
    ensures r.Some? ==> r.value in frames && r.value.user == user
  {
    match FindUser(frames, user)
    case Some(k) => Some(frames[k])
    case None => None
  }

  /** `PopularimeterFrame.Get(tag, user, true)`: the frames afterwards and the
      index of the first frame of `user`, which is appended with rating 0 and
      play count 0 when there is none. */
  function GetOrCreate(frames: seq<Popm>, user: string): (r: (seq<Popm>, nat))
    ensures r.1 < |r.0| && r.0[r.1].user == user
    ensures (exists j :: 0 <= j < |frames| && frames[j].user == user) ==> r.0 == frames
    ensures (forall j :: 0 <= j < |frames| ==> frames[j].user != user) ==>
      r.0 == frames + [Popm(user, 0, 0)] && r.1 == |frames|
  {
    match FindUser(frames, user)
    case Some(k) => (frames, k)
    case None => (frames + [Popm(user, 0, 0)], |frames|)
  }

  // ---------------------------------------------------------------------
  // Rating scales
  // ---------------------------------------------------------------------

  /** `PopmToBanshee`: the five bands 1-63, 64-127, 128-191, 192-254 and 255
      become one to five stars; 0 stays unrated. */
  function PopmToBanshee(p: Byte): (b: int)
    ensures 0 <= b <= 5
    ensures b == 0 <==> p == 0
  {
    if p == 0 then 0
    else if p < 0x40 then 1
    else if p < 0x80 then 2
    else if p < 0xC0 then 3
    else if p < 0xFF then 4
    else 5
  }

  /** `BansheeToPopm`: the lowest byte of each band; any other number of
      stars is unrated. */
  function BansheeToPopm(b: int): (p: Byte)
    ensures !(1 <= b <= 5) ==> p == 0
  {
    if b == 1 then 0x01
    else if b == 2 then 0x40
    else if b == 3 then 0x80
    else if b == 4 then 0xC0
    else if b == 5 then 0xFF
    else 0
  }

  /** A byte reaches `b` stars exactly when it is at least the byte that
      encodes `b` stars: the star bands are the intervals between the
      encodings. */
  lemma PopmToBansheeBands(p: Byte, b: int)
    requires 1 <= b <= 5
    ensures PopmToBanshee(p) >= b <==> p >= BansheeToPopm(b)
  {
  }

  lemma PopmToBansheeMonotone(p: Byte, q: Byte)
    requires p <= q
    ensures PopmToBanshee(p) <= PopmToBanshee(q)
  {
  }

  /** Stars survive encoding and decoding. */
  lemma BansheeRoundTrip(b: int)
    requires 0 <= b <= 5
    ensures PopmToBanshee(BansheeToPopm(b)) == b
  {
  }

  /** `MediaMonkeyToPopm`, with the unchecked `byte` cast: ratings above 103
      wrap around. */
  function MediaMonkeyToPopm(r: int): (p: Byte)
    ensures r <= 0 ==> p == 0
    ensures 0 < r <= 103 ==> 0 < p
  {
    if r <= 0 then 0
    else if r <= 25 then ToByte(r + 3)
    else if r <= 45 then ToByte(r + 24)
    else if r <= 65 then ToByte(r + 68)
    else if r <= 85 then ToByte(r + 116)
    else ToByte(r + 152)
  }

  /** `PopmToMediaMonkey`. */
  function PopmToMediaMonkey(p: Byte): (r: int)
    ensures 0 <= r <= p
  {
    if p > 85 + 116 then p - 152
    else if p > 65 + 68 then p - 116
    else if p > 45 + 24 then p - 68
    else if p > 25 + 3 then p - 24
    else p
  }

  /** The MediaMonkey scale only partly round-trips: ratings 26 to 103 come
      back unchanged, ratings 1 to 25 come back three higher, and ratings up
      to 0 come back as 0. */
  lemma MediaMonkeyRoundTrip(r: int)
    ensures 26 <= r <= 103 ==> PopmToMediaMonkey(MediaMonkeyToPopm(r)) == r
    ensures 1 <= r <= 25 ==> PopmToMediaMonkey(MediaMonkeyToPopm(r)) == r + 3
    ensures r <= 0 ==> PopmToMediaMonkey(MediaMonkeyToPopm(r)) == 0
  {
  }

  /** `HowlerToPopm`: a negative rating is stored as 255, anything else as
      its low byte. */
  function HowlerToPopm(r: int): (p: Byte)
    ensures 0 <= r <= 255 ==> p == r
    ensures r < 0 ==> p == 255
  {
    if r < 0 then 255 else ToByte(r)
  }

  /** `PopmToHowler`: the frame's rating on the 0-100 scale by the scale of
      its user, -1 for a Howler byte above 100 or an unknown user. */
  function PopmToHowler(f: Popm): (r: int)
    ensures -1 <= r <= 255
    ensures f.user == BansheeUser || f.user == QuodLibetUser ==> r % 20 == 0 && 0 <= r <= 100
    ensures f.user !in KnownCreators ==> r == -1
  {
    if f.user == BansheeUser || f.user == QuodLibetUser then PopmToBanshee(f.rating) * 20
    else if f.user == MediaMonkeyUser || f.user == WindowsMediaPlayerUser then PopmToMediaMonkey(f.rating)
    else if f.user == HowlerUser then (if f.rating > 100 then -1 else f.rating)
    else -1
  }

  /** A Howler frame reads back the rating written to it for 0..100, and -1
      for every negative rating. */
  lemma HowlerRoundTrip(user: string, r: int, n: UInt64)
    requires user == HowlerUser
    ensures 0 <= r <= 100 ==> PopmToHowler(Popm(user, HowlerToPopm(r), n)) == r
    ensures r < 0 ==> PopmToHowler(Popm(user, HowlerToPopm(r), n)) == -1
  {
  }

  // ---------------------------------------------------------------------
  // StoreRating
  // ---------------------------------------------------------------------

  /** The byte written to a Banshee or Quod Libet frame: one star for a
      rating of 0, otherwise the stars `⌈rating / 5⌉`. */
  function BansheeByte(rating: Int32): (p: Byte)
    ensures 1 <= rating <= 25 ==> PopmToBanshee(p) == CeilDiv(rating, 5)
    ensures rating == 0 ==> p == 1
  {
    if rating == 0 then BansheeToPopm(1) else BansheeToPopm(CeilDiv(rating, 5))
  }

  /** Every rating above 25 or below 0 is stored in a Banshee frame as 0,
      which Banshee reads as unrated. */
  lemma BansheeByteOutOfRange(rating: Int32)
    requires rating < 0 || 25 < rating
    ensures BansheeByte(rating) == 0
  {
  }

  /** One frame after the rating switch. */
  function RateFrame(rating: Int32, f: Popm): (g: Popm)
    ensures g.user == f.user && g.playCount == f.playCount
    ensures f.user == HowlerUser ==> g.rating == HowlerToPopm(rating)
    ensures f.user !in KnownCreators ==> g == f
  {
    if f.user == BansheeUser || f.user == QuodLibetUser then f.(rating := BansheeByte(rating))
    else if f.user == WindowsMediaPlayerUser || f.user == MediaMonkeyUser then f.(rating := MediaMonkeyToPopm(rating))
    else if f.user == HowlerUser then f.(rating := HowlerToPopm(rating))
    else f
  }

  function RateFrames(rating: Int32, frames: seq<Popm>): (r: seq<Popm>)
    ensures |r| == |frames|
    ensures forall i :: 0 <= i < |frames| ==> r[i] == RateFrame(rating, frames[i])
  {
    if |frames| == 0 then [] else [RateFrame(rating, frames[0])] + RateFrames(rating, frames[1..])
  }

  /** `StoreRating`: rewrites every frame of a known user on that user's
      scale, then adds a Howler frame when there was none. */
  function StoreRating(rating: Int32, tag: Id3v2Tag): (r: Id3v2Tag)
    ensures r.tdrc == tag.tdrc
    ensures |tag.popms| <= |r.popms| <= |tag.popms| + 1
    ensures exists j :: 0 <= j < |r.popms| && r.popms[j].user == HowlerUser
    ensures forall j :: 0 <= j < |r.popms| && r.popms[j].user == HowlerUser ==>
      r.popms[j].rating == HowlerToPopm(rating)
    ensures forall i :: 0 <= i < |tag.popms| ==>
      r.popms[i] == RateFrame(rating, tag.popms[i])
    ensures forall i :: 0 <= i < |tag.popms| ==>
      r.popms[i].user == tag.popms[i].user && r.popms[i].playCount == tag.popms[i].playCount
    ensures forall i :: 0 <= i < |tag.popms| && tag.popms[i].user !in KnownCreators ==>
      r.popms[i] == tag.popms[i]
    ensures forall i :: 0 <= i < |tag.popms| && tag.popms[i].user in {BansheeUser, QuodLibetUser} ==>
      r.popms[i].rating == (if rating == 0 then 1 else BansheeToPopm(CeilDiv(rating, 5)))
    ensures |r.popms| > |tag.popms| ==>
      r.popms[|tag.popms|].user == HowlerUser && r.popms[|tag.popms|].playCount == 0
  {
    var rated := RateFrames(rating, tag.popms);
    var howlerFound := exists j :: 0 <= j < |rated| && rated[j].user == HowlerUser;
    if howlerFound then tag.(popms := rated)
    else
      var (frames, k) := GetOrCreate(rated, HowlerUser);
      var popms := frames[k := frames[k].(rating := HowlerToPopm(rating))];
      assert popms[k].user == HowlerUser;
      tag.(popms := popms)
  }

  // ---------------------------------------------------------------------
  // StorePlayCount
  // ---------------------------------------------------------------------

  function CountFrames(count: UInt64, frames: seq<Popm>): (r: seq<Popm>)
    ensures |r| == |frames|
    ensures forall i :: 0 <= i < |frames| ==> r[i] == frames[i].(playCount := count)
  {
    if |frames| == 0 then [] else [frames[0].(playCount := count)] + CountFrames(count, frames[1..])
  }

  predicate HasKnownFrame(frames: seq<Popm>) {
    exists j :: 0 <= j < |frames| && frames[j].user in KnownCreators
  }

  /** `StorePlayCount`: `(ulong)playcount` into every frame, whatever its user,
      then a Howler frame when no frame of a known user existed. */
  function StorePlayCount(playcount: Int32, tag: Id3v2Tag): (r: Id3v2Tag)
    ensures r.tdrc == tag.tdrc
    ensures |tag.popms| <= |r.popms|
    ensures forall j :: 0 <= j < |r.popms| ==> r.popms[j].playCount == ToUInt64(playcount)
    ensures forall i :: 0 <= i < |tag.popms| ==>
      r.popms[i].user == tag.popms[i].user && r.popms[i].rating == tag.popms[i].rating
    ensures HasKnownFrame(tag.popms) ==> |r.popms| == |tag.popms|
    ensures !HasKnownFrame(tag.popms) ==>
      |r.popms| == |tag.popms| + 1 && r.popms[|tag.popms|] == Popm(HowlerUser, 0, ToUInt64(playcount))
  {
    var count := ToUInt64(playcount);
    var counted := CountFrames(count, tag.popms);
    if HasKnownFrame(counted) then tag.(popms := counted)
    else
      var (frames, k) := GetOrCreate(counted, HowlerUser);
      tag.(popms := frames[k := frames[k].(playCount := count)])
  }

  // ---------------------------------------------------------------------
  // GetRatingAndPlayCount
  // ---------------------------------------------------------------------

  /** The first frame of the first user in `creators` that has one. */
  function FirstOf(frames: seq<Popm>, creators: seq<string>): (r: Option<Popm>)
    ensures r.Some? ==> r.value in frames && r.value.user in creators
    ensures r.Some? ==> Get(frames, r.value.user) == r
    ensures r.None? <==> forall j :: 0 <= j < |frames| ==> frames[j].user !in creators
  {
    if |creators| == 0 then None
    else
      match Get(frames, creators[0])
      case Some(f) => Some(f)
      case None => FirstOf(frames, creators[1..])
  }

  /** `FirstOf` respects the order of `creators`: no user listed before the
      chosen one has a frame. */
  lemma {:induction false} FirstOfPriority(frames: seq<Popm>, creators: seq<string>, i: nat)
    requires i < |creators| && FirstOf(frames, creators).Some?
    requires Get(frames, creators[i]).Some?
    ensures exists k :: 0 <= k <= i && creators[k] == FirstOf(frames, creators).value.user
  {
    if Get(frames, creators[0]).None? {
      FirstOfPriority(frames, creators[1..], i - 1);
      var k :| 0 <= k <= i - 1 && creators[1..][k] == FirstOf(frames, creators).value.user;
      assert creators[k + 1] == creators[1..][k];
    }
  }

  /** `GetRatingAndPlayCount`: the rating and `(int)` play count of the
      highest-priority known frame, or -1 and 0 when there is none. */
  function GetRatingAndPlayCount(tag: Id3v2Tag): (r: (int, Int32))
    ensures !HasKnownFrame(tag.popms) ==> r == (-1, 0)
    ensures HasKnownFrame(tag.popms) ==>
      exists j :: 0 <= j < |tag.popms| && tag.popms[j].user in KnownCreators
        && r == (PopmToHowler(tag.popms[j]), ToInt32(tag.popms[j].playCount))
    ensures FirstOf(tag.popms, KnownCreators).Some? ==>
      var f := FirstOf(tag.popms, KnownCreators).value;
      r == (PopmToHowler(f), ToInt32(f.playCount))
  {
    match FirstOf(tag.popms, KnownCreators)
    case Some(f) => (PopmToHowler(f), ToInt32(f.playCount))
    case None => (-1, 0)
  }

  /** A Howler frame, whenever present, supplies the values read. */
  lemma HowlerFrameWins(tag: Id3v2Tag)
    requires Get(tag.popms, HowlerUser).Some?
    ensures GetRatingAndPlayCount(tag) ==
      (PopmToHowler(Get(tag.popms, HowlerUser).value), ToInt32(Get(tag.popms, HowlerUser).value.playCount))
  {
  }

  /** A rating stored and read back is the rating, for 0..100; a negative
      rating reads back as -1, which callers treat as unrated. */
  lemma StoreRatingThenRead(rating: Int32, tag: Id3v2Tag)
    ensures 0 <= rating <= 100 ==> GetRatingAndPlayCount(StoreRating(rating, tag)).0 == rating
    ensures rating < 0 ==> GetRatingAndPlayCount(StoreRating(rating, tag)).0 == -1
  {
    var t := StoreRating(rating, tag);
    var f := Get(t.popms, HowlerUser);
    assert f.Some?;
    HowlerFrameWins(t);
    var j :| 0 <= j < |t.popms| && t.popms[j] == f.value;
    assert f.value == Popm(HowlerUser, HowlerToPopm(rating), f.value.playCount);
    HowlerRoundTrip(HowlerUser, rating, f.value.playCount);
  }

  /** A play count stored and read back is the play count, for every 32-bit
      count, negative ones included. */
  lemma StorePlayCountThenRead(playcount: Int32, tag: Id3v2Tag)
    ensures GetRatingAndPlayCount(StorePlayCount(playcount, tag)).1 == playcount
  {
    var t := StorePlayCount(playcount, tag);
    if !HasKnownFrame(tag.popms) {
      assert t.popms[|tag.popms|].user in KnownCreators;
    } else {
      var j :| 0 <= j < |tag.popms| && tag.popms[j].user in KnownCreators;
      assert t.popms[j].user in KnownCreators;
    }
    Int32ThroughUInt64(playcount);
  }

  // ---------------------------------------------------------------------
  // Dates
  // ---------------------------------------------------------------------

  datatype Error = ArgumentNull(parameter: string)

  /** `Tag.SetTextFrame("TDRC", texts)`: with no non-empty text every TDRC
      frame is removed; otherwise the first TDRC frame (created at the end
      when there is none) takes the texts and the others stay. */
  function SetTextFrame(tdrc: seq<seq<string>>, texts: seq<string>): (r: seq<seq<string>>)
    ensures (forall i :: 0 <= i < |texts| ==> texts[i] == "") ==> r == []
    ensures (exists i :: 0 <= i < |texts| && texts[i] != "") ==>
      0 < |r| && r[0] == texts && (|tdrc| == 0 || r[1..] == tdrc[1..])
  {
    if forall i :: 0 <= i < |texts| ==> texts[i] == "" then []
    else if |tdrc| == 0 then [texts]
    else [texts] + tdrc[1..]
  }

  function FormatAll(tuples: seq<(DateTime, Granularity)>): (r: seq<string>)
    ensures |r| == |tuples|
    ensures forall i :: 0 <= i < |tuples| ==> r[i] == Format(tuples[i].0, tuples[i].1)
  {
    if |tuples| == 0 then [] else [Format(tuples[0].0, tuples[0].1)] + FormatAll(tuples[1..])
  }

  /** `SetDates`: one text per timestamp, written with its granularity, into
      the TDRC frame; `null` throws `ArgumentNullException`. */
  function SetDates(tag: Id3v2Tag, tuples: Option<seq<(DateTime, Granularity)>>): (r: Result<Id3v2Tag, Error>)
    ensures tuples.None? ==> r == Failure(ArgumentNull("tuples"))
    ensures tuples.Some? ==> r.Success? && r.value.popms == tag.popms
    ensures tuples.Some? && |tuples.value| == 0 ==> r.value.tdrc == []
    ensures tuples.Some? && 0 < |tuples.value| ==>
      |r.value.tdrc| == (if |tag.tdrc| == 0 then 1 else |tag.tdrc|)
      && |r.value.tdrc[0]| == |tuples.value|
      && forall i :: 0 <= i < |tuples.value| ==>
        |r.value.tdrc[0][i]| == 4 + 3 * tuples.value[i].1.Rank()
        && r.value.tdrc[0][i] == Format(tuples.value[i].0, tuples.value[i].1)
  {
    match tuples
    case None => Failure(ArgumentNull("tuples"))
    case Some(ts) =>
      var texts := FormatAll(ts);
      assert 0 < |texts| ==> texts[0] != "";
      Success(tag.(tdrc := SetTextFrame(tag.tdrc, texts)))
  }

  /** Each text written for a timestamp is a prefix of every finer text for
      the same timestamp. */
  lemma SetDatesPrefix(d: DateTime, g1: Granularity, g2: Granularity)
    requires g1.Rank() <= g2.Rank()
    ensures Format(d, g1) == Format(d, g2)[..4 + 3 * g1.Rank()]
  {
    FormatPrefix(d, g1, g2);
  }

  function Flatten(frames: seq<seq<string>>): (r: seq<string>)
    ensures forall t :: t in r <==> exists i :: 0 <= i < |frames| && t in frames[i]
  {
    if |frames| == 0 then [] else frames[0] + Flatten(frames[1..])
  }

  /** `GetDate`: the longest text of all TDRC frames in frame order, the
      first of equally long ones, or "" when there is none. */
  function GetDate(tag: Id3v2Tag): (r: string)
    ensures forall i, t :: 0 <= i < |tag.tdrc| && t in tag.tdrc[i] ==> |t| <= |r|
    ensures r == "" || exists i :: 0 <= i < |tag.tdrc| && r in tag.tdrc[i]
    ensures r == "" || FirstOfLength(Flatten(tag.tdrc), r)
  {
    Longest(Flatten(tag.tdrc))
  }

  /** Dates written into a tag without TDRC frames read back as the finest
      timestamp written, the first of equally fine ones. */
  lemma SetDatesThenGetDate(tag: Id3v2Tag, ts: seq<(DateTime, Granularity)>, k: nat)
    requires |tag.tdrc| == 0 && k < |ts|
    requires forall i :: 0 <= i < |ts| ==> ts[i].1.Rank() <= ts[k].1.Rank()
    ensures |GetDate(SetDates(tag, Some(ts)).value)| == 4 + 3 * ts[k].1.Rank()
  {
    var t := SetDates(tag, Some(ts)).value;
    var texts := FormatAll(ts);
    assert t.tdrc == [texts];
    var r := GetDate(t);
    assert |texts[k]| <= |r| by {
      assert texts[k] in t.tdrc[0];
    }
    assert |texts[k]| == 4 + 3 * ts[k].1.Rank();
    assert |r| <= |texts[k]| by {
      if r != "" {
        var i :| 0 <= i < |t.tdrc| && r in t.tdrc[i];
        assert r in texts;
        var j :| 0 <= j < |texts| && texts[j] == r;
        assert |texts[j]| == 4 + 3 * ts[j].1.Rank();
        assert ts[j].1.Rank() <= ts[k].1.Rank();
      }
    }
  }
}
