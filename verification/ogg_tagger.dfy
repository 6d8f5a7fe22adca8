/** Ratings, play counts and dates in Xiph (Vorbis) comments, following the
    Quod Libet convention: `RATING:<creator>` holds a rating between 0.0 and
    1.0 (0.5 = unrated), `PLAYCOUNT:<creator>` a play count, and a bare
    `RATING` field the MediaMonkey rating. This program writes its own fields
    as `RATING:HOWLER` (0-100, decimal) and `PLAYCOUNT:HOWLER`.

    A comment is a sequence of fields in iteration order. Field names are
    dictionary keys compared ignoring case; a field that is set keeps its
    place and a new field goes at the end. */
module OggTagger {
  import opened Wrappers
  import opened Numeric
  import opened Text

  datatype Field = Field(name: string, values: seq<string>)

  type Comment = seq<Field>

  const HowlerName: string := "HOWLER"
  const RatingPrefix: string := "RATING:"
  const MediaMonkeyRatingField: string := "RATING"
  const PlaycountPrefix: string := "PLAYCOUNT:"
  const HowlerRatingField: string := "RATING:HOWLER"
  const HowlerPlaycountField: string := "PLAYCOUNT:HOWLER"

  /** Stars 0..5, as `OggToBanshee` returns them. */
  type Stars = b: int | 0 <= b <= 5

  // ---------------------------------------------------------------------
  // Field access (TagLib's XiphComment)
  // ---------------------------------------------------------------------

  /** Some field of `c` has `name`, ignoring case. */
  predicate Has(c: Comment, name: string) {
    exists i :: 0 <= i < |c| && EqualsIgnoreCase(c[i].name, name)
  }

  /** `GetField(name)`: the values of the field named `name`, or none. */
  function GetField(c: Comment, name: string): seq<string> {
    GetFieldFrom(c, name, 0)
  }

  /** The lookup from field `i` on. */
  function GetFieldFrom(c: Comment, name: string, i: nat): seq<string>
    requires i <= |c|
    decreases |c| - i
  {
    if i == |c| then []
    else if EqualsIgnoreCase(c[i].name, name) then c[i].values
    else GetFieldFrom(c, name, i + 1)
  }

  /** A lookup finds the values of the first field with the name, and none
      when no field has it. */
  lemma GetFieldFinds(c: Comment, name: string)
    ensures !Has(c, name) ==> GetField(c, name) == []
    ensures forall i ::
      (0 <= i < |c| && EqualsIgnoreCase(c[i].name, name)
        && forall j :: 0 <= j < i ==> !EqualsIgnoreCase(c[j].name, name))
      ==> GetField(c, name) == c[i].values
  {
    if !Has(c, name) {
      GetFieldFromNone(c, name, 0);
    }
    forall i | 0 <= i < |c| && EqualsIgnoreCase(c[i].name, name)
        && forall j :: 0 <= j < i ==> !EqualsIgnoreCase(c[j].name, name)
      ensures GetField(c, name) == c[i].values
    {
      GetFieldFromAt(c, name, 0, i);
    }
  }

  lemma {:induction false} GetFieldFromNone(c: Comment, name: string, k: nat)
    requires k <= |c|
    requires forall j :: k <= j < |c| ==> !EqualsIgnoreCase(c[j].name, name)
    ensures GetFieldFrom(c, name, k) == []
    decreases |c| - k
  {
    if k < |c| {
      GetFieldFromNone(c, name, k + 1);
    }
  }

  lemma {:induction false} GetFieldFromAt(c: Comment, name: string, k: nat, i: nat)
    requires k <= i < |c| && EqualsIgnoreCase(c[i].name, name)
    requires forall j :: k <= j < i ==> !EqualsIgnoreCase(c[j].name, name)
    ensures GetFieldFrom(c, name, k) == c[i].values
    decreases i - k
  {
    if k < i {
      GetFieldFromAt(c, name, k + 1, i);
    }
  }

  /** `GetFirstField(name)`: the first value, or "" where TagLib returns
      null (the program treats both alike). */
  function GetFirstField(c: Comment, name: string): string {
    var vs := GetField(c, name);
    if |vs| == 0 then "" else vs[0]
  }

  /** `SetField(name, value)` with a non-empty value: every field named
      `name` takes the single value in place; with none, the field is
      appended. */
  function SetField(c: Comment, name: string, value: string): (r: Comment)
    ensures Has(c, name) ==> |r| == |c|
    ensures Has(c, name) ==> forall i :: 0 <= i < |c| ==>
      r[i] == if EqualsIgnoreCase(c[i].name, name) then c[i].(values := [value]) else c[i]
    ensures !Has(c, name) ==> r == c + [Field(name, [value])]
  {
    if Has(c, name) then Overwrite(c, name, value) else c + [Field(name, [value])]
  }

  function Overwrite(c: Comment, name: string, value: string): (r: Comment)
    ensures |r| == |c|
    ensures forall i :: 0 <= i < |c| ==>
      r[i] == if EqualsIgnoreCase(c[i].name, name) then c[i].(values := [value]) else c[i]
  {
    if |c| == 0 then []
    else
      var f := if EqualsIgnoreCase(c[0].name, name) then c[0].(values := [value]) else c[0];
      [f] + Overwrite(c[1..], name, value)
  }

  /** `RemoveField(name)`: the comment without the fields named `name`. */
  function RemoveField(c: Comment, name: string): (r: Comment)
    ensures |r| <= |c|
    ensures forall i :: 0 <= i < |r| ==> !EqualsIgnoreCase(r[i].name, name)
    ensures forall i :: 0 <= i < |c| && !EqualsIgnoreCase(c[i].name, name) ==> c[i] in r
  {
    if |c| == 0 then []
    else if EqualsIgnoreCase(c[0].name, name) then RemoveField(c[1..], name)
    else [c[0]] + RemoveField(c[1..], name)
  }

  // ---------------------------------------------------------------------
  // Field names
  // ---------------------------------------------------------------------

  predicate HasRatingPrefix(n: string) {
    StartsWithIgnoreCase(n, RatingPrefix)
  }

  /** `RATING:HOWLER` as the reader recognises it: the prefix, then a creator
      equal to `HOWLER`. */
  predicate IsHowlerRating(n: string) {
    HasRatingPrefix(n) && EqualsIgnoreCase(n[|RatingPrefix|..], HowlerName)
  }

  predicate IsBareRating(n: string) {
    EqualsIgnoreCase(n, MediaMonkeyRatingField)
  }

  /** The fields `StoreRating` collects. */
  predicate IsRatingName(n: string) {
    HasRatingPrefix(n) || IsBareRating(n)
  }

  predicate HasPlaycountPrefix(n: string) {
    StartsWithIgnoreCase(n, PlaycountPrefix)
  }

  predicate IsHowlerPlaycount(n: string) {
    HasPlaycountPrefix(n) && EqualsIgnoreCase(n[|PlaycountPrefix|..], HowlerName)
  }

  /** The writer's test for `RATING:HOWLER`: the whole name compared. */
  predicate IsHowlerRatingField(n: string) {
    EqualsIgnoreCase(n, HowlerRatingField)
  }

  /** The reader's test for `RATING:HOWLER` and the writer's whole-name
      comparison agree. */
  lemma HowlerRatingNames(n: string)
    ensures IsHowlerRating(n) <==> IsHowlerRatingField(n)
  {
    var k := |RatingPrefix|;
    StartsWithIgnoreCaseAt(n, RatingPrefix);
    EqualsIgnoreCaseAt(n, HowlerRatingField);
    assert HowlerRatingField == RatingPrefix + HowlerName;
    if |n| >= k {
      EqualsIgnoreCaseAt(n[k..], HowlerName);
      assert forall j :: k <= j < |n| ==> n[j] == n[k..][j - k];
    }
  }

  /** Names equal ignoring case fall in the same class. */
  lemma NameClasses(a: string, b: string)
    requires EqualsIgnoreCase(a, b)
    ensures HasRatingPrefix(a) <==> HasRatingPrefix(b)
    ensures IsBareRating(a) <==> IsBareRating(b)
    ensures IsRatingName(a) <==> IsRatingName(b)
    ensures HasPlaycountPrefix(a) <==> HasPlaycountPrefix(b)
    ensures IsHowlerRatingField(a) <==> IsHowlerRatingField(b)
  {
    StartsWithRespectsCase(a, b, RatingPrefix);
    StartsWithRespectsCase(a, b, PlaycountPrefix);
    EqualsIgnoreCaseIsEquivalence(a, b, MediaMonkeyRatingField);
    EqualsIgnoreCaseIsEquivalence(b, a, MediaMonkeyRatingField);
    EqualsIgnoreCaseIsEquivalence(a, b, HowlerRatingField);
    EqualsIgnoreCaseIsEquivalence(b, a, HowlerRatingField);
  }

  // ---------------------------------------------------------------------
  // GetRatingAndPlayCount
  // ---------------------------------------------------------------------

  /** The scan's local variables. */
  datatype Scan = Scan(
    ratingDone: bool, playcountDone: bool, mediaMonkey: bool,
    ratingRaw: string, playcountRaw: string)

  const Start: Scan := Scan(false, false, false, "", "")

  /** One iteration of the scan, for the field named `name`. Until a
      `RATING:HOWLER` field has been seen only rating fields are read; after
      it only play count fields, until `PLAYCOUNT:HOWLER`. */
  function Step(c: Comment, s: Scan, name: string): Scan {
    if !s.ratingDone then
      if HasRatingPrefix(name) then
        s.(ratingRaw := GetFirstField(c, name), ratingDone := IsHowlerRating(name))
      else if IsBareRating(name) then
        s.(ratingRaw := GetFirstField(c, name), mediaMonkey := true)
      else s
    else if !s.playcountDone && HasPlaycountPrefix(name) then
      s.(playcountRaw := GetFirstField(c, name), playcountDone := IsHowlerPlaycount(name))
    else s
  }

  /** The scan over the first `k` fields. */
  function ScanPrefix(c: Comment, k: nat): Scan
    requires k <= |c|
  {
    if k == 0 then Start else Step(c, ScanPrefix(c, k - 1), c[k - 1].name)
  }

  /** The index of the first `RATING:HOWLER` field. */
  function FirstHowlerRating(c: Comment): (r: Option<nat>)
    ensures r.Some? ==> r.value < |c| && IsHowlerRating(c[r.value].name)
    ensures r.Some? ==> forall j :: 0 <= j < r.value ==> !IsHowlerRating(c[j].name)
    ensures r.None? ==> forall j :: 0 <= j < |c| ==> !IsHowlerRating(c[j].name)
  {
    if |c| == 0 then None
    else if IsHowlerRating(c[0].name) then Some(0)
    else
      match FirstHowlerRating(c[1..])
      case Some(k) => Some(k + 1)
      case None =>
        assert forall j :: 1 <= j < |c| ==> c[j] == c[1..][j - 1];
        None
  }

  /** How many of the first `k` fields the rating part of the scan looks at:
      up to and including the first `RATING:HOWLER`. */
  function RatingLimit(c: Comment, k: nat): (lim: nat)
    requires k <= |c|
    ensures lim <= k
  {
    match FirstHowlerRating(c)
    case Some(h) => if h < k then h + 1 else k
    case None => k
  }

  /** The scan has met `RATING:HOWLER` exactly when one of the fields
      scanned is one. */
  lemma {:induction false} ScanDone(c: Comment, k: nat)
    requires k <= |c|
    ensures ScanPrefix(c, k).ratingDone <==> exists i :: 0 <= i < k && IsHowlerRating(c[i].name)
  {
    if k > 0 {
      ScanDone(c, k - 1);
    }
  }

  /** Until `RATING:HOWLER` the rating part looks at every field; after it,
      at no more. */
  lemma LimitStep(c: Comment, k: nat)
    requires 0 < k <= |c|
    ensures ScanPrefix(c, k - 1).ratingDone ==> RatingLimit(c, k) == RatingLimit(c, k - 1)
    ensures !ScanPrefix(c, k - 1).ratingDone ==> RatingLimit(c, k - 1) == k - 1 && RatingLimit(c, k) == k
  {
    ScanDone(c, k - 1);
  }

  /** The last rating field among the first `lim` fields. */
  function LastRatingField(c: Comment, lim: nat): (r: Option<nat>)
    requires lim <= |c|
    ensures r.Some? ==> r.value < lim && IsRatingName(c[r.value].name)
    ensures r.Some? ==> forall j :: r.value < j < lim ==> !IsRatingName(c[j].name)
    ensures r.None? ==> forall j :: 0 <= j < lim ==> !IsRatingName(c[j].name)
  {
    if lim == 0 then None
    else if IsRatingName(c[lim - 1].name) then Some(lim - 1)
    else LastRatingField(c, lim - 1)
  }

  /** The text the rating part of the scan keeps for a field index. */
  function TextOf(c: Comment, i: Option<nat>): string
    requires i.Some? ==> i.value < |c|
  {
    match i
    case Some(k) => GetFirstField(c, c[k].name)
    case None => ""
  }

  /** A bare `RATING` is too short to carry the `RATING:` prefix. */
  lemma BareIsNotPrefixed(n: string)
    ensures IsBareRating(n) ==> !HasRatingPrefix(n)
  {
  }

  /** One step of the scan, variable by variable. */
  lemma StepEffect(c: Comment, s: Scan, n: string)
    ensures Step(c, s, n).ratingDone == (s.ratingDone || IsHowlerRating(n))
    ensures Step(c, s, n).mediaMonkey == (s.mediaMonkey || (!s.ratingDone && IsBareRating(n)))
    ensures Step(c, s, n).ratingRaw ==
      if !s.ratingDone && IsRatingName(n) then GetFirstField(c, n) else s.ratingRaw
    ensures Step(c, s, n).playcountDone ==
      (s.playcountDone || (s.ratingDone && IsHowlerPlaycount(n)))
    ensures Step(c, s, n).playcountRaw ==
      if s.ratingDone && !s.playcountDone && HasPlaycountPrefix(n) then GetFirstField(c, n)
      else s.playcountRaw
  {
    BareIsNotPrefixed(n);
  }

  /** The scan agrees with a direct description: the rating text is the
      first value of the last rating field up to the first `RATING:HOWLER`,
      and the MediaMonkey mode is set by a bare `RATING` field in that
      range. */
  lemma ScanRating(c: Comment, k: nat)
    requires k <= |c|
    ensures ScanPrefix(c, k).mediaMonkey <==>
      exists i :: 0 <= i < RatingLimit(c, k) && IsBareRating(c[i].name)
    ensures ScanPrefix(c, k).ratingRaw == TextOf(c, LastRatingField(c, RatingLimit(c, k)))
  {
    ScanMediaMonkey(c, k);
    ScanRatingText(c, k);
  }

  lemma {:induction false} ScanMediaMonkey(c: Comment, k: nat)
    requires k <= |c|
    ensures ScanPrefix(c, k).mediaMonkey <==>
      exists i :: 0 <= i < RatingLimit(c, k) && IsBareRating(c[i].name)
  {
    if k > 0 {
      ScanMediaMonkey(c, k - 1);
      LimitStep(c, k);
      var s := ScanPrefix(c, k - 1);
      StepEffect(c, s, c[k - 1].name);
      if !s.ratingDone && IsBareRating(c[k - 1].name) {
        assert 0 <= k - 1 < RatingLimit(c, k);
      }
    }
  }

  lemma {:induction false} ScanRatingText(c: Comment, k: nat)
    requires k <= |c|
    ensures ScanPrefix(c, k).ratingRaw == TextOf(c, LastRatingField(c, RatingLimit(c, k)))
  {
    if k > 0 {
      ScanRatingText(c, k - 1);
      LimitStep(c, k);
      var s := ScanPrefix(c, k - 1);
      var n := c[k - 1].name;
      StepEffect(c, s, n);
      if !s.ratingDone {
        assert LastRatingField(c, k) ==
          if IsRatingName(n) then Some(k - 1) else LastRatingField(c, k - 1);
      }
    }
  }

  /** The index of the first `PLAYCOUNT:HOWLER` field among the fields
      from `lo` up to `hi`. */
  function FirstHowlerPlaycount(c: Comment, lo: nat, hi: nat): (r: Option<nat>)
    requires hi <= |c|
    ensures r.Some? ==> lo <= r.value < hi && IsHowlerPlaycount(c[r.value].name)
    ensures r.Some? ==> forall j :: lo <= j < r.value ==> !IsHowlerPlaycount(c[j].name)
    ensures r.None? ==> forall j :: lo <= j < hi ==> !IsHowlerPlaycount(c[j].name)
  {
    if hi <= lo then None
    else
      match FirstHowlerPlaycount(c, lo, hi - 1)
      case Some(p) => Some(p)
      case None => if IsHowlerPlaycount(c[hi - 1].name) then Some(hi - 1) else None
  }

  /** Where the play count part of the scan stops among the first `k`
      fields: after the first `PLAYCOUNT:HOWLER` that follows `RATING:HOWLER`. */
  function PlaycountLimit(c: Comment, k: nat): (lim: nat)
    requires k <= |c|
    ensures RatingLimit(c, k) <= lim <= k
  {
    match FirstHowlerPlaycount(c, RatingLimit(c, k), k)
    case Some(p) => p + 1
    case None => k
  }

  /** The last `PLAYCOUNT:*` field among the fields from `lo` up to `hi`. */
  function LastPlaycountField(c: Comment, lo: nat, hi: nat): (r: Option<nat>)
    requires hi <= |c|
    ensures r.Some? ==> lo <= r.value < hi && HasPlaycountPrefix(c[r.value].name)
    ensures r.Some? ==> forall j :: r.value < j < hi ==> !HasPlaycountPrefix(c[j].name)
    ensures r.None? ==> forall j :: lo <= j < hi ==> !HasPlaycountPrefix(c[j].name)
  {
    if hi <= lo then None
    else if HasPlaycountPrefix(c[hi - 1].name) then Some(hi - 1)
    else LastPlaycountField(c, lo, hi - 1)
  }

  /** The scan agrees with a direct description of the play count: nothing
      is read before `RATING:HOWLER`; after it, the text kept is the first
      value of the last `PLAYCOUNT:*` field up to and including the first
      `PLAYCOUNT:HOWLER`, and the play count part is done exactly when such
      a `PLAYCOUNT:HOWLER` exists. */
  lemma ScanPlaycount(c: Comment, k: nat)
    requires k <= |c|
    ensures !ScanPrefix(c, k).ratingDone ==> ScanPrefix(c, k).playcountRaw == ""
    ensures ScanPrefix(c, k).playcountDone <==> FirstHowlerPlaycount(c, RatingLimit(c, k), k).Some?
    ensures ScanPrefix(c, k).playcountRaw ==
      TextOf(c, LastPlaycountField(c, RatingLimit(c, k), PlaycountLimit(c, k)))
  {
    ScanPlaycountDone(c, k);
    ScanPlaycountText(c, k);
    assert PlaycountTextKept(c, k);
  }

  lemma {:induction false} ScanPlaycountDone(c: Comment, k: nat)
    requires k <= |c|
    ensures ScanPrefix(c, k).playcountDone <==> FirstHowlerPlaycount(c, RatingLimit(c, k), k).Some?
  {
    if k > 0 {
      ScanPlaycountDone(c, k - 1);
      LimitStep(c, k);
      var s := ScanPrefix(c, k - 1);
      StepEffect(c, s, c[k - 1].name);
      if s.ratingDone {
        var lo := RatingLimit(c, k);
        assert lo == RatingLimit(c, k - 1) <= k - 1;
        assert FirstHowlerPlaycount(c, lo, k) ==
          match FirstHowlerPlaycount(c, lo, k - 1)
          case Some(p) => Some(p)
          case None => if IsHowlerPlaycount(c[k - 1].name) then Some(k - 1) else None;
      }
    }
  }

  lemma {:induction false} ScanPlaycountText(c: Comment, k: nat)
    requires k <= |c|
    ensures PlaycountTextKept(c, k)
  {
    if k > 0 {
      ScanPlaycountText(c, k - 1);
      ScanPlaycountDone(c, k - 1);
      PlaycountTextStep(c, k);
    }
  }

  /** What `ScanPlaycountText` states about the first `k` fields. */
  ghost predicate PlaycountTextKept(c: Comment, k: nat)
    requires k <= |c|
  {
    && (!ScanPrefix(c, k).ratingDone ==> ScanPrefix(c, k).playcountRaw == "")
    && ScanPrefix(c, k).playcountRaw ==
      TextOf(c, LastPlaycountField(c, RatingLimit(c, k), PlaycountLimit(c, k)))
  }

  lemma PlaycountTextStep(c: Comment, k: nat)
    requires 0 < k <= |c|
    requires PlaycountTextKept(c, k - 1)
    requires ScanPrefix(c, k - 1).playcountDone <==>
      FirstHowlerPlaycount(c, RatingLimit(c, k - 1), k - 1).Some?
    ensures PlaycountTextKept(c, k)
  {
    if !ScanPrefix(c, k - 1).ratingDone {
      PlaycountTextBefore(c, k);
    } else if ScanPrefix(c, k - 1).playcountDone {
      PlaycountTextAfter(c, k);
    } else {
      PlaycountTextOpen(c, k);
    }
  }

  /** Before `RATING:HOWLER` no play count text is kept. */
  lemma PlaycountTextBefore(c: Comment, k: nat)
    requires 0 < k <= |c|
    requires !ScanPrefix(c, k - 1).ratingDone
    requires ScanPrefix(c, k - 1).playcountRaw == ""
    ensures ScanPrefix(c, k).playcountRaw == ""
    ensures TextOf(c, LastPlaycountField(c, RatingLimit(c, k), PlaycountLimit(c, k))) == ""
  {
    LimitStep(c, k);
    StepEffect(c, ScanPrefix(c, k - 1), c[k - 1].name);
    assert PlaycountLimit(c, k) == k;
  }

  /** After `PLAYCOUNT:HOWLER` the kept text stays. */
  lemma PlaycountTextAfter(c: Comment, k: nat)
    requires 0 < k <= |c|
    requires ScanPrefix(c, k - 1).ratingDone && ScanPrefix(c, k - 1).playcountDone
    requires FirstHowlerPlaycount(c, RatingLimit(c, k - 1), k - 1).Some?
    requires ScanPrefix(c, k - 1).playcountRaw ==
      TextOf(c, LastPlaycountField(c, RatingLimit(c, k - 1), PlaycountLimit(c, k - 1)))
    ensures ScanPrefix(c, k).ratingDone
    ensures ScanPrefix(c, k).playcountRaw ==
      TextOf(c, LastPlaycountField(c, RatingLimit(c, k), PlaycountLimit(c, k)))
  {
    StepEffect(c, ScanPrefix(c, k - 1), c[k - 1].name);
    PlaycountLimitKept(c, k);
  }

  /** Between `RATING:HOWLER` and `PLAYCOUNT:HOWLER` every `PLAYCOUNT:*`
      field replaces the kept text. */
  lemma PlaycountTextOpen(c: Comment, k: nat)
    requires 0 < k <= |c|
    requires ScanPrefix(c, k - 1).ratingDone && !ScanPrefix(c, k - 1).playcountDone
    requires FirstHowlerPlaycount(c, RatingLimit(c, k - 1), k - 1).None?
    requires ScanPrefix(c, k - 1).playcountRaw ==
      TextOf(c, LastPlaycountField(c, RatingLimit(c, k - 1), PlaycountLimit(c, k - 1)))
    ensures ScanPrefix(c, k).ratingDone
    ensures ScanPrefix(c, k).playcountRaw ==
      TextOf(c, LastPlaycountField(c, RatingLimit(c, k), PlaycountLimit(c, k)))
  {
    LimitStep(c, k);
    StepEffect(c, ScanPrefix(c, k - 1), c[k - 1].name);
    var lo := RatingLimit(c, k);
    assert PlaycountLimit(c, k - 1) == k - 1;
    assert FirstHowlerPlaycount(c, lo, k).Some? ==> FirstHowlerPlaycount(c, lo, k).value == k - 1;
    assert PlaycountLimit(c, k) == k;
  }

  /** Once the play count part is done, a further field moves nothing. */
  lemma PlaycountLimitKept(c: Comment, k: nat)
    requires 0 < k <= |c|
    requires ScanPrefix(c, k - 1).ratingDone
    requires FirstHowlerPlaycount(c, RatingLimit(c, k - 1), k - 1).Some?
    ensures RatingLimit(c, k) == RatingLimit(c, k - 1)
    ensures PlaycountLimit(c, k) == PlaycountLimit(c, k - 1)
  {
    LimitStep(c, k);
    var lo := RatingLimit(c, k);
    assert FirstHowlerPlaycount(c, lo, k) == FirstHowlerPlaycount(c, lo, k - 1);
  }

  /** The exceptions `int.Parse` throws: FormatException when the text
      spells no integer, OverflowException when it spells one outside 32
      bits. */
  datatype Error = FormatError(text: string) | OverflowError(text: string)

  /** The exception `int.Parse` throws on a text it does not return a
      value for. */
  function ParseError(text: string): Error {
    if ReadInteger(text).None? then FormatError(text) else OverflowError(text)
  }

  /** `int.Parse(text, CultureInfo.InvariantCulture)`: the integer the text
      spells when it fits in 32 bits, and otherwise the exception. */
  function ParseOrThrow(text: string): (r: Result<int, Error>)
    ensures r.Success? <==> ParseInt32(text).Some?
    ensures r.Success? ==> InInt32(r.value) && ParseInt32(text) == Some(r.value)
    ensures r.Failure? ==> r.error == ParseError(text)
  {
    match ReadInteger(text)
    case None => Failure(FormatError(text))
    case Some(v) => if InInt32(v) then Success(v) else Failure(OverflowError(text))
  }

  /** A stored number outside 32 bits reads back as the OverflowException,
      and a fraction as the FormatException. */
  lemma ParseOrThrowErrors(i: int)
    requires !InInt32(i)
    ensures ParseOrThrow(IntToDecimal(i)) == Failure(OverflowError(IntToDecimal(i)))
    ensures ParseOrThrow("0.6") == Failure(FormatError("0.6"))
  {
    OutOfRangeOverflows(i);
    DecimalNotParsed();
  }

  /** The rating the scan's variables give: -1 without a rating text; the
      integer itself in the `RATING:HOWLER` and MediaMonkey modes; otherwise
      five times the stars `oggToBanshee` reads from the 0.0-1.0 text, with 0
      stars (unrated or unreadable) as -1. */
  function RatingOf(oggToBanshee: string -> Stars, s: Scan): (r: Result<int, Error>)
    ensures s.ratingRaw == "" ==> r == Success(-1)
    ensures s.ratingRaw != "" && !s.ratingDone && !s.mediaMonkey ==>
      r.Success? && r.value in {-1, 5, 10, 15, 20, 25}
  {
    if s.ratingRaw == "" then Success(-1)
    else if s.ratingDone || s.mediaMonkey then ParseOrThrow(s.ratingRaw)
    else
      var stars := oggToBanshee(s.ratingRaw);
      Success(if stars == 0 then -1 else stars * 5)
  }

  /** The play count the scan's text gives: 0 without a text, otherwise the
      32-bit integer it spells, and the parse exception when it spells none. */
  function PlaycountOf(s: Scan): (r: Result<int, Error>)
    ensures s.playcountRaw == "" ==> r == Success(0)
    ensures r.Failure? <==> s.playcountRaw != "" && ParseInt32(s.playcountRaw).None?
    ensures r.Success? && s.playcountRaw != "" ==> ParseInt32(s.playcountRaw) == Some(r.value)
    ensures r.Failure? ==> r.error == ParseError(s.playcountRaw)
  {
    if s.playcountRaw == "" then Success(0) else ParseOrThrow(s.playcountRaw)
  }

  /** The rating text kept after all fields: the first value of the last
      rating field up to the first `RATING:HOWLER`. */
  function KeptRating(c: Comment): string {
    TextOf(c, LastRatingField(c, RatingLimit(c, |c|)))
  }

  /** The play count text kept after all fields: the first value of the last
      `PLAYCOUNT:*` field after `RATING:HOWLER`, up to and including the
      first `PLAYCOUNT:HOWLER` after it. */
  function KeptPlaycount(c: Comment): string {
    TextOf(c, LastPlaycountField(c, RatingLimit(c, |c|), PlaycountLimit(c, |c|)))
  }

  /** The rating text is read as an integer: a `RATING:HOWLER` field exists,
      or a bare `RATING` field comes before the first one. */
  ghost predicate IntegerRating(c: Comment) {
    || (exists j :: 0 <= j < |c| && IsHowlerRating(c[j].name))
    || (exists j :: 0 <= j < RatingLimit(c, |c|) && IsBareRating(c[j].name))
  }

  /** The scan over all fields keeps the texts and mode described directly. */
  lemma ScanFacts(c: Comment)
    ensures ScanPrefix(c, |c|).ratingRaw == KeptRating(c)
    ensures ScanPrefix(c, |c|).ratingDone || ScanPrefix(c, |c|).mediaMonkey <==> IntegerRating(c)
    ensures ScanPrefix(c, |c|).playcountRaw == KeptPlaycount(c)
  {
    ScanDone(c, |c|);
    ScanRating(c, |c|);
    ScanPlaycount(c, |c|);
  }

  /** `GetRatingAndPlayCount`: the scan over all fields, then the rating and
      play count parsed from the texts it kept; a parse failure is the
      exception `int.Parse` throws, the rating's first. */
  function GetRatingAndPlayCount(oggToBanshee: string -> Stars, c: Comment): (r: Result<(int, int), Error>)
    ensures var t := KeptRating(c);
      var ratingFails := t != "" && IntegerRating(c) && ParseInt32(t).None?;
      && (ratingFails ==> r == Failure(ParseError(t)))
      && (r.Success? ==>
            r.value.0 == (if t == "" then -1
              else if IntegerRating(c) then ParseInt32(t).value
              else if oggToBanshee(t) == 0 then -1
              else 5 * oggToBanshee(t)))
    ensures var t := KeptRating(c); var p := KeptPlaycount(c);
      var ratingFails := t != "" && IntegerRating(c) && ParseInt32(t).None?;
      var countFails := p != "" && ParseInt32(p).None?;
      && (r.Failure? <==> ratingFails || countFails)
      && (!ratingFails && countFails ==> r == Failure(ParseError(p)))
      && (r.Success? ==> r.value.1 == (if p == "" then 0 else ParseInt32(p).value))
  {
    ScanFacts(c);
    var s := ScanPrefix(c, |c|);
    match RatingOf(oggToBanshee, s)
    case Failure(e) => Failure(e)
    case Success(rating) =>
      match PlaycountOf(s)
      case Failure(e) => Failure(e)
      case Success(count) => Success((rating, count))
  }

  /** Without a rating field the track reads as unrated with no plays. */
  lemma NoRatingFieldReadsUnrated(oggToBanshee: string -> Stars, c: Comment)
    requires forall i :: 0 <= i < |c| ==> !IsRatingName(c[i].name)
    ensures GetRatingAndPlayCount(oggToBanshee, c) == Success((-1, 0))
  {
    ScanDone(c, |c|);
    ScanRating(c, |c|);
    ScanPlaycount(c, |c|);
    assert forall i :: 0 <= i < |c| ==> !IsHowlerRating(c[i].name);
  }

  /** Play counts are read only after a `RATING:HOWLER` field: without one
      every `PLAYCOUNT` field, `PLAYCOUNT:HOWLER` included, is ignored. */
  lemma PlaycountNeedsHowlerRating(oggToBanshee: string -> Stars, c: Comment)
    requires forall i :: 0 <= i < |c| ==> !IsHowlerRating(c[i].name)
    ensures GetRatingAndPlayCount(oggToBanshee, c).Success? ==>
      GetRatingAndPlayCount(oggToBanshee, c).value.1 == 0
  {
    ScanDone(c, |c|);
    ScanRating(c, |c|);
    ScanPlaycount(c, |c|);
  }

  /** Which field supplies the rating and how its text is read: the last
      rating field up to the first `RATING:HOWLER`, parsed as an integer when
      `RATING:HOWLER` exists or a bare `RATING` field precedes it, and
      converted from the 0.0-1.0 scale otherwise. */
  lemma RatingSource(oggToBanshee: string -> Stars, c: Comment, i: nat)
    requires i < RatingLimit(c, |c|) && IsRatingName(c[i].name)
    requires forall j :: i < j < RatingLimit(c, |c|) ==> !IsRatingName(c[j].name)
    requires GetFirstField(c, c[i].name) != ""
    ensures var text := GetFirstField(c, c[i].name);
      var intMode := (exists j :: 0 <= j < |c| && IsHowlerRating(c[j].name))
        || (exists j :: 0 <= j < RatingLimit(c, |c|) && IsBareRating(c[j].name));
      RatingOf(oggToBanshee, ScanPrefix(c, |c|)) ==
        if intMode then ParseOrThrow(text)
        else Success(if oggToBanshee(text) == 0 then -1 else 5 * oggToBanshee(text))
  {
    ScanDone(c, |c|);
    ScanRating(c, |c|);
    var lim := RatingLimit(c, |c|);
    LastRatingFieldIs(c, lim, i);
    var s := ScanPrefix(c, |c|);
    var text := GetFirstField(c, c[i].name);
    assert s.ratingRaw == text;
    assert s.ratingDone || s.mediaMonkey <==>
      (exists j :: 0 <= j < |c| && IsHowlerRating(c[j].name))
      || (exists j :: 0 <= j < lim && IsBareRating(c[j].name));
    RatingOfText(oggToBanshee, s, text);
  }

  /** The last rating field is the one no later rating field follows. */
  lemma {:induction false} LastRatingFieldIs(c: Comment, lim: nat, i: nat)
    requires lim <= |c| && i < lim && IsRatingName(c[i].name)
    requires forall j :: i < j < lim ==> !IsRatingName(c[j].name)
    ensures LastRatingField(c, lim) == Some(i)
  {
    if i < lim - 1 {
      LastRatingFieldIs(c, lim - 1, i);
    }
  }

  lemma RatingOfText(oggToBanshee: string -> Stars, s: Scan, text: string)
    requires s.ratingRaw == text && text != ""
    ensures RatingOf(oggToBanshee, s) ==
      if s.ratingDone || s.mediaMonkey then ParseOrThrow(text)
      else Success(if oggToBanshee(text) == 0 then -1 else 5 * oggToBanshee(text))
  {
  }

  // ---------------------------------------------------------------------
  // StoreRating and StorePlayCount
  // ---------------------------------------------------------------------

  /** `BansheeToOgg`: stars on the 0.0-1.0 scale; any other number is the
      unrated 0.5. */
  function BansheeToOgg(stars: int): (r: string)
    ensures !(1 <= stars <= 5) ==> r == "0.5"
    ensures r != "0.5" ==> 1 <= stars <= 5
  {
    if stars == 1 then "0.2"
    else if stars == 2 then "0.4"
    else if stars == 3 then "0.6"
    else if stars == 4 then "0.8"
    else if stars == 5 then "1.0"
    else "0.5"
  }

  /** Ratings 0 and above 100 are stored in other players' fields as the
      unrated 0.5. */
  lemma UnratedOggText(rating: Int32)
    requires rating == 0 || 100 < rating
    ensures BansheeToOgg(CeilDiv(rating, 20)) == "0.5"
  {
  }

  /** Some field of `c` is named exactly `n`. */
  ghost predicate FieldName(c: Comment, n: string) {
    exists i :: 0 <= i < |c| && c[i].name == n
  }

  lemma FieldNameTail(c: Comment)
    requires |c| > 0
    ensures FieldName(c, c[0].name)
    ensures forall n :: FieldName(c[1..], n) ==> FieldName(c, n)
  {
    forall n | FieldName(c[1..], n) ensures FieldName(c, n) {
      var i :| 0 <= i < |c| - 1 && c[1..][i].name == n;
      assert c[i + 1].name == n;
    }
  }

  /** The names of the rating fields, in iteration order. */
  function RatingNames(c: Comment): (r: seq<string>)
    ensures forall k :: 0 <= k < |r| ==> IsRatingName(r[k]) && FieldName(c, r[k])
    ensures forall i :: 0 <= i < |c| && IsRatingName(c[i].name) ==> c[i].name in r
    ensures (forall i :: 0 <= i < |c| ==> !IsRatingName(c[i].name)) ==> r == []
  {
    if |c| == 0 then []
    else
      var rest := RatingNames(c[1..]);
      FieldNameTail(c);
      assert forall i :: 1 <= i < |c| ==> c[i] == c[1..][i - 1];
      if IsRatingName(c[0].name) then [c[0].name] + rest else rest
  }

  function PlaycountNames(c: Comment): (r: seq<string>)
    ensures forall k :: 0 <= k < |r| ==> HasPlaycountPrefix(r[k]) && FieldName(c, r[k])
    ensures forall i :: 0 <= i < |c| && HasPlaycountPrefix(c[i].name) ==> c[i].name in r
    ensures (forall i :: 0 <= i < |c| ==> !HasPlaycountPrefix(c[i].name)) ==> r == []
  {
    if |c| == 0 then []
    else
      var rest := PlaycountNames(c[1..]);
      FieldNameTail(c);
      assert forall i :: 1 <= i < |c| ==> c[i] == c[1..][i - 1];
      if HasPlaycountPrefix(c[0].name) then [c[0].name] + rest else rest
  }

  function RemoveFields(c: Comment, names: seq<string>): Comment
    decreases |names|
  {
    if |names| == 0 then c else RemoveFields(RemoveField(c, names[0]), names[1..])
  }

  function SetFields(c: Comment, names: seq<string>, value: string -> string): Comment
    decreases |names|
  {
    if |names| == 0 then c else SetFields(SetField(c, names[0], value(names[0])), names[1..], value)
  }

  /** The text written to a rating field: the decimal rating for
      `RATING:HOWLER` and `RATING`, the stars `⌈rating / 20⌉` on the 0.0-1.0
      scale for every other `RATING:*` field. */
  function RatingText(rating: Int32, name: string): string {
    if IsHowlerRatingField(name) || IsBareRating(name) then IntToDecimal(rating)
    else BansheeToOgg(CeilDiv(rating, 20))
  }

  /** Some field is a rating field. */
  predicate HasRatingField(c: Comment) {
    exists i :: 0 <= i < |c| && IsRatingName(c[i].name)
  }

  /** Some field is a `PLAYCOUNT:*` field. */
  predicate HasPlaycountField(c: Comment) {
    exists i :: 0 <= i < |c| && HasPlaycountPrefix(c[i].name)
  }

  /** `StoreRating`: collects the rating fields (or `RATING:HOWLER` when
      there is none and the rating is not negative), then removes them all
      for a negative rating and sets each otherwise. A negative rating
      leaves exactly the non-rating fields, in order; a rating of 0 or more
      rewrites each rating field in place with its text and changes nothing
      else, or, without rating fields, appends exactly `RATING:HOWLER`. */
  function StoreRating(rating: Int32, c: Comment): (r: Comment)
    ensures rating < 0 ==> r == NonRating(c)
    ensures rating >= 0 && HasRatingField(c) ==> |r| == |c| && forall i :: 0 <= i < |c| ==>
      r[i] == if IsRatingName(c[i].name) then c[i].(values := [RatingText(rating, c[i].name)]) else c[i]
    ensures rating >= 0 && !HasRatingField(c) ==> r == c + [Field(HowlerRatingField, [IntToDecimal(rating)])]
  {
    var found := RatingNames(c);
    var names := if |found| == 0 && rating >= 0 then [HowlerRatingField] else found;
    var value := name => RatingText(rating, name);
    if rating < 0 then
      RemoveRatingFields(c);
      RemoveFields(c, names)
    else
      SetRatingFields(rating, c, value);
      SetFields(c, names, value)
  }

  /** `StorePlayCount`: every `PLAYCOUNT:*` field set in place to the
      decimal count and nothing else changed, or, without such fields, a
      `PLAYCOUNT:HOWLER` field appended. */
  function StorePlayCount(playcount: Int32, c: Comment): (r: Comment)
    ensures HasPlaycountField(c) ==> |r| == |c| && forall i :: 0 <= i < |c| ==>
      r[i] == if HasPlaycountPrefix(c[i].name) then c[i].(values := [IntToDecimal(playcount)]) else c[i]
    ensures !HasPlaycountField(c) ==> r == c + [Field(HowlerPlaycountField, [IntToDecimal(playcount)])]
  {
    var found := PlaycountNames(c);
    var names := if |found| == 0 then [HowlerPlaycountField] else found;
    var value: string -> string := _ => IntToDecimal(playcount);
    SetPlaycountFields(playcount, c, value);
    SetFields(c, names, value)
  }

  // The fold lemmas behind the StoreRating and StorePlayCount properties.

  predicate MatchesAny(n: string, names: seq<string>) {
    exists k :: 0 <= k < |names| && EqualsIgnoreCase(n, names[k])
  }

  /** The fields of `c` that no name in `names` matches. */
  function Without(c: Comment, names: seq<string>): (r: Comment)
    ensures forall f :: f in r <==> f in c && !MatchesAny(f.name, names)
  {
    if |c| == 0 then []
    else if MatchesAny(c[0].name, names) then Without(c[1..], names)
    else [c[0]] + Without(c[1..], names)
  }

  lemma {:induction false} WithoutOne(c: Comment, n: string, rest: seq<string>)
    ensures Without(RemoveField(c, n), rest) == Without(c, [n] + rest)
  {
    if |c| > 0 {
      WithoutOne(c[1..], n, rest);
      assert MatchesAny(c[0].name, [n] + rest) <==>
        EqualsIgnoreCase(c[0].name, n) || MatchesAny(c[0].name, rest) by {
        assert ([n] + rest)[0] == n;
        if MatchesAny(c[0].name, rest) {
          var k :| 0 <= k < |rest| && EqualsIgnoreCase(c[0].name, rest[k]);
          assert ([n] + rest)[k + 1] == rest[k];
        }
        if MatchesAny(c[0].name, [n] + rest) {
          var k :| 0 <= k < |[n] + rest| && EqualsIgnoreCase(c[0].name, ([n] + rest)[k]);
          if k > 0 {
            assert ([n] + rest)[k] == rest[k - 1];
          }
        }
      }
    }
  }

  lemma {:induction false} RemoveFieldsIsWithout(c: Comment, names: seq<string>)
    ensures RemoveFields(c, names) == Without(c, names)
    decreases |names|
  {
    if |names| == 0 {
      WithoutNothing(c);
    } else {
      RemoveFieldsIsWithout(RemoveField(c, names[0]), names[1..]);
      WithoutOne(c, names[0], names[1..]);
      assert [names[0]] + names[1..] == names;
    }
  }

  lemma {:induction false} WithoutNothing(c: Comment)
    ensures Without(c, []) == c
  {
    if |c| > 0 {
      WithoutNothing(c[1..]);
      assert c == [c[0]] + c[1..];
    }
  }

  /** The fields that are not rating fields, in order. */
  function NonRating(c: Comment): (r: Comment)
    ensures forall f :: f in r <==> f in c && !IsRatingName(f.name)
  {
    if |c| == 0 then []
    else if IsRatingName(c[0].name) then NonRating(c[1..])
    else [c[0]] + NonRating(c[1..])
  }

  /** Removing by a list of rating names that covers every rating field of
      `c` leaves exactly the non-rating fields. */
  lemma {:induction false} WithoutRatingNames(c: Comment, names: seq<string>)
    requires forall k :: 0 <= k < |names| ==> IsRatingName(names[k])
    requires forall i :: 0 <= i < |c| && IsRatingName(c[i].name) ==> c[i].name in names
    ensures Without(c, names) == NonRating(c)
  {
    if |c| > 0 {
      assert forall i :: 1 <= i < |c| ==> c[i] == c[1..][i - 1];
      WithoutRatingNames(c[1..], names);
      if IsRatingName(c[0].name) {
        var k :| 0 <= k < |names| && names[k] == c[0].name;
        EqualsIgnoreCaseIsEquivalence(c[0].name, c[0].name, c[0].name);
      } else if MatchesAny(c[0].name, names) {
        var k :| 0 <= k < |names| && EqualsIgnoreCase(c[0].name, names[k]);
        NameClasses(c[0].name, names[k]);
      }
    }
  }

  /** Removing the collected rating names keeps exactly the non-rating
      fields, in order. */
  lemma RemoveRatingFields(c: Comment)
    ensures RemoveFields(c, RatingNames(c)) == NonRating(c)
  {
    var names := RatingNames(c);
    RemoveFieldsIsWithout(c, names);
    WithoutRatingNames(c, names);
  }

  /** Each field, rewritten when a name in `names` matches it. */
  function Marked(c: Comment, names: seq<string>, value: string -> string): (r: Comment)
    ensures |r| == |c|
    ensures forall i :: 0 <= i < |c| ==>
      r[i] == if MatchesAny(c[i].name, names) then c[i].(values := [value(c[i].name)]) else c[i]
  {
    if |c| == 0 then []
    else
      var f := if MatchesAny(c[0].name, names) then c[0].(values := [value(c[0].name)]) else c[0];
      [f] + Marked(c[1..], names, value)
  }

  /** `value` gives names equal ignoring case the same text. */
  ghost predicate RespectsCase(value: string -> string) {
    forall a, b :: EqualsIgnoreCase(a, b) ==> value(a) == value(b)
  }

  /** Setting fields one name at a time, when every name is present and the
      text depends only on the name's case-folded form, rewrites exactly the
      fields some name matches. */
  lemma {:induction false} SetFieldsIsMarked(c: Comment, names: seq<string>, value: string -> string)
    requires RespectsCase(value)
    requires AllPresent(c, names)
    ensures SetFields(c, names, value) == Marked(c, names, value)
    decreases |names|
  {
    if |names| == 0 {
      MarkedByNothing(c, value);
    } else {
      SetFirstField(c, names, value);
      SetFieldsIsMarked(SetField(c, names[0], value(names[0])), names[1..], value);
    }
  }

  /** Setting the first name keeps the rest present and leaves the same
      marking to do. */
  lemma SetFirstField(c: Comment, names: seq<string>, value: string -> string)
    requires RespectsCase(value)
    requires AllPresent(c, names) && |names| > 0
    ensures var c1 := SetField(c, names[0], value(names[0]));
      && AllPresent(c1, names[1..])
      && Marked(c1, names[1..], value) == Marked(c, names, value)
      && SetFields(c, names, value) == SetFields(c1, names[1..], value)
  {
    var n := names[0];
    SetFieldKeepsNames(c, n, value(n), names[1..]);
    MarkedStep(c, n, names[1..], value);
    assert [n] + names[1..] == names;
  }

  lemma MarkedByNothing(c: Comment, value: string -> string)
    ensures Marked(c, [], value) == c
  {
    var r := Marked(c, [], value);
    assert forall i :: 0 <= i < |c| ==> r[i] == c[i];
  }

  /** Every name in `names` is present in `c`. */
  ghost predicate AllPresent(c: Comment, names: seq<string>) {
    forall k :: 0 <= k < |names| ==> Has(c, names[k])
  }

  /** Setting a present field changes no name, so every name stays present. */
  lemma SetFieldKeepsNames(c: Comment, n: string, v: string, rest: seq<string>)
    requires Has(c, n)
    requires AllPresent(c, rest)
    ensures AllPresent(SetField(c, n, v), rest)
  {
    var c1 := SetField(c, n, v);
    assert forall i :: 0 <= i < |c| ==> c1[i].name == c[i].name;
    forall k | 0 <= k < |rest| ensures Has(c1, rest[k]) {
      var i :| 0 <= i < |c| && EqualsIgnoreCase(c[i].name, rest[k]);
      assert EqualsIgnoreCase(c1[i].name, rest[k]);
    }
  }

  /** Setting the first name, then marking by the rest, marks by all. */
  lemma MarkedStep(c: Comment, n: string, rest: seq<string>, value: string -> string)
    requires RespectsCase(value) && Has(c, n)
    ensures Marked(SetField(c, n, value(n)), rest, value) == Marked(c, [n] + rest, value)
  {
    var c1 := SetField(c, n, value(n));
    var names := [n] + rest;
    forall i | 0 <= i < |c|
      ensures Marked(c1, rest, value)[i] == Marked(c, names, value)[i]
    {
      MarkedAt(c, c1, n, rest, value, i);
    }
  }

  lemma MarkedAt(c: Comment, c1: Comment, n: string, rest: seq<string>, value: string -> string, i: nat)
    requires RespectsCase(value) && Has(c, n) && c1 == SetField(c, n, value(n))
    requires i < |c|
    ensures |c1| == |c|
    ensures Marked(c1, rest, value)[i] == Marked(c, [n] + rest, value)[i]
  {
    var names := [n] + rest;
    var m := c[i].name;
    var f := c[i];
    var f1 := c1[i];
    assert f1 == if EqualsIgnoreCase(m, n) then f.(values := [value(n)]) else f;
    assert f1.name == m;
    var left := Marked(c1, rest, value)[i];
    var right := Marked(c, names, value)[i];
    assert left == if MatchesAny(m, rest) then f1.(values := [value(m)]) else f1;
    assert right == if MatchesAny(m, names) then f.(values := [value(m)]) else f;
    assert MatchesAny(m, names) <==> EqualsIgnoreCase(m, n) || MatchesAny(m, rest) by {
      MatchesAnyCons(m, n, rest);
    }
    if EqualsIgnoreCase(m, n) {
      assert value(m) == value(n);
    }
  }

  lemma MatchesAnyCons(m: string, n: string, rest: seq<string>)
    ensures MatchesAny(m, [n] + rest) <==> EqualsIgnoreCase(m, n) || MatchesAny(m, rest)
  {
    var names := [n] + rest;
    assert names[0] == n;
    if MatchesAny(m, rest) {
      var k :| 0 <= k < |rest| && EqualsIgnoreCase(m, rest[k]);
      assert names[k + 1] == rest[k];
    }
    if MatchesAny(m, names) {
      var k :| 0 <= k < |names| && EqualsIgnoreCase(m, names[k]);
      if k > 0 {
        assert names[k] == rest[k - 1];
      }
    }
  }

  /** A name from the comment matches exactly the fields of its class. */
  lemma MatchesRatingNames(c: Comment, m: string)
    requires m in (set i | 0 <= i < |c| :: c[i].name)
    ensures MatchesAny(m, RatingNames(c)) <==> IsRatingName(m)
  {
    var names := RatingNames(c);
    if MatchesAny(m, names) {
      var k :| 0 <= k < |names| && EqualsIgnoreCase(m, names[k]);
      NameClasses(m, names[k]);
    }
    if IsRatingName(m) {
      var i :| 0 <= i < |c| && c[i].name == m;
      var k :| 0 <= k < |names| && names[k] == m;
      EqualsIgnoreCaseIsEquivalence(m, m, m);
    }
  }

  /** Names taken from the comment's own fields are all present. */
  lemma NamesPresent(c: Comment, names: seq<string>)
    requires forall k :: 0 <= k < |names| ==> FieldName(c, names[k])
    ensures AllPresent(c, names)
  {
    forall k | 0 <= k < |names| ensures Has(c, names[k]) {
      var j :| 0 <= j < |c| && c[j].name == names[k];
      EqualsIgnoreCaseIsEquivalence(names[k], names[k], names[k]);
    }
  }

  /** Marking by the collected rating names marks exactly the rating fields. */
  lemma MarkedRatingFields(c: Comment, value: string -> string)
    ensures forall i :: 0 <= i < |c| ==>
      Marked(c, RatingNames(c), value)[i] ==
        (if IsRatingName(c[i].name) then c[i].(values := [value(c[i].name)]) else c[i])
  {
    forall j | 0 <= j < |c| ensures MatchesAny(c[j].name, RatingNames(c)) <==> IsRatingName(c[j].name) {
      MatchesRatingNames(c, c[j].name);
    }
  }

  /** Marking by the collected play count names marks exactly the
      `PLAYCOUNT:*` fields. */
  lemma MarkedPlaycountFields(c: Comment, value: string -> string)
    ensures forall i :: 0 <= i < |c| ==>
      Marked(c, PlaycountNames(c), value)[i] ==
        (if HasPlaycountPrefix(c[i].name) then c[i].(values := [value(c[i].name)]) else c[i])
  {
    var names := PlaycountNames(c);
    forall j | 0 <= j < |c| ensures MatchesAny(c[j].name, names) <==> HasPlaycountPrefix(c[j].name) {
      if MatchesAny(c[j].name, names) {
        var k :| 0 <= k < |names| && EqualsIgnoreCase(c[j].name, names[k]);
        NameClasses(c[j].name, names[k]);
      }
      if HasPlaycountPrefix(c[j].name) {
        var k :| 0 <= k < |names| && names[k] == c[j].name;
        EqualsIgnoreCaseIsEquivalence(c[j].name, c[j].name, c[j].name);
      }
    }
  }

  /** Setting the collected rating names (or `RATING:HOWLER` when there
      is none) to their rating texts. */
  lemma SetRatingFields(rating: Int32, c: Comment, value: string -> string)
    requires rating >= 0
    requires forall n :: value(n) == RatingText(rating, n)
    ensures HasRatingField(c) <==> |RatingNames(c)| > 0
    ensures HasRatingField(c) ==>
      var r := SetFields(c, RatingNames(c), value);
      |r| == |c| && forall i :: 0 <= i < |c| ==>
        r[i] == if IsRatingName(c[i].name) then c[i].(values := [RatingText(rating, c[i].name)]) else c[i]
    ensures !HasRatingField(c) ==>
      SetFields(c, [HowlerRatingField], value) == c + [Field(HowlerRatingField, [IntToDecimal(rating)])]
  {
    if HasRatingField(c) {
      var i :| 0 <= i < |c| && IsRatingName(c[i].name);
      assert c[i].name in RatingNames(c);
      SetRatingFieldsPresent(rating, c, value);
    } else {
      SetHowlerRating(rating, c, value);
    }
  }

  lemma SetRatingFieldsPresent(rating: Int32, c: Comment, value: string -> string)
    requires forall n :: value(n) == RatingText(rating, n)
    ensures var r := SetFields(c, RatingNames(c), value);
      |r| == |c| && forall i :: 0 <= i < |c| ==>
        r[i] == if IsRatingName(c[i].name) then c[i].(values := [RatingText(rating, c[i].name)]) else c[i]
  {
    var names := RatingNames(c);
    NamesPresent(c, names);
    forall a, b | EqualsIgnoreCase(a, b) ensures value(a) == value(b) {
      NameClasses(a, b);
    }
    SetFieldsIsMarked(c, names, value);
    MarkedRatingFields(c, value);
  }

  lemma SetHowlerRating(rating: Int32, c: Comment, value: string -> string)
    requires rating >= 0
    requires forall n :: value(n) == RatingText(rating, n)
    requires !HasRatingField(c)
    ensures SetFields(c, [HowlerRatingField], value) == c + [Field(HowlerRatingField, [IntToDecimal(rating)])]
  {
    var n := HowlerRatingField;
    EqualsIgnoreCaseIsEquivalence(n, n, n);
    assert RatingText(rating, n) == IntToDecimal(rating);
    assert !Has(c, n) by {
      HowlerRatingNames(n);
      forall i | 0 <= i < |c| ensures !EqualsIgnoreCase(c[i].name, n) {
        if EqualsIgnoreCase(c[i].name, n) {
          NameClasses(c[i].name, n);
        }
      }
    }
    assert SetFields(c, [n], value) == SetFields(SetField(c, n, value(n)), [], value);
  }

  /** Setting the collected play count names (or `PLAYCOUNT:HOWLER` when
      there is none) to the count. */
  lemma SetPlaycountFields(playcount: Int32, c: Comment, value: string -> string)
    requires forall n :: value(n) == IntToDecimal(playcount)
    ensures HasPlaycountField(c) <==> |PlaycountNames(c)| > 0
    ensures HasPlaycountField(c) ==>
      var r := SetFields(c, PlaycountNames(c), value);
      |r| == |c| && forall i :: 0 <= i < |c| ==>
        r[i] == if HasPlaycountPrefix(c[i].name) then c[i].(values := [IntToDecimal(playcount)]) else c[i]
    ensures !HasPlaycountField(c) ==>
      SetFields(c, [HowlerPlaycountField], value) == c + [Field(HowlerPlaycountField, [IntToDecimal(playcount)])]
  {
    if HasPlaycountField(c) {
      var i :| 0 <= i < |c| && HasPlaycountPrefix(c[i].name);
      assert c[i].name in PlaycountNames(c);
      SetPlaycountFieldsPresent(playcount, c, value);
    } else {
      SetHowlerPlaycount(playcount, c, value);
    }
  }

  lemma SetPlaycountFieldsPresent(playcount: Int32, c: Comment, value: string -> string)
    requires forall n :: value(n) == IntToDecimal(playcount)
    ensures var r := SetFields(c, PlaycountNames(c), value);
      |r| == |c| && forall i :: 0 <= i < |c| ==>
        r[i] == if HasPlaycountPrefix(c[i].name) then c[i].(values := [IntToDecimal(playcount)]) else c[i]
  {
    var names := PlaycountNames(c);
    NamesPresent(c, names);
    SetFieldsIsMarked(c, names, value);
    MarkedPlaycountFields(c, value);
  }

  lemma SetHowlerPlaycount(playcount: Int32, c: Comment, value: string -> string)
    requires forall n :: value(n) == IntToDecimal(playcount)
    requires !HasPlaycountField(c)
    ensures SetFields(c, [HowlerPlaycountField], value) == c + [Field(HowlerPlaycountField, [IntToDecimal(playcount)])]
  {
    var n := HowlerPlaycountField;
    assert !Has(c, n) by {
      EqualsIgnoreCaseIsEquivalence(n, n, n);
      StartsWithIgnoreCaseAt(n, PlaycountPrefix);
      assert HasPlaycountPrefix(n);
      forall i | 0 <= i < |c| ensures !EqualsIgnoreCase(c[i].name, n) {
        if EqualsIgnoreCase(c[i].name, n) {
          NameClasses(c[i].name, n);
        }
      }
    }
    assert SetFields(c, [n], value) == SetFields(SetField(c, n, value(n)), [], value);
  }

  /** A rating written to a comment without rating fields reads back
      unchanged, for every rating of 0 or more; the play count then reads as
      0 whatever `PLAYCOUNT` fields exist, because they all precede the new
      `RATING:HOWLER`. */
  lemma StoreRatingThenRead(oggToBanshee: string -> Stars, rating: Int32, c: Comment)
    requires rating >= 0 && forall i :: 0 <= i < |c| ==> !IsRatingName(c[i].name)
    ensures GetRatingAndPlayCount(oggToBanshee, StoreRating(rating, c)) == Success((rating, 0))
  {
    var c1 := c + [Field(HowlerRatingField, [IntToDecimal(rating)])];
    assert StoreRating(rating, c) == c1;
    HowlerRatingAppended(rating, c);
    ParseFormatRoundTrip(rating);
  }

  /** After a `RATING:HOWLER` field appended to a comment without rating
      fields, its text is the rating text kept, read as an integer, and no
      play count text is kept. */
  lemma HowlerRatingAppended(rating: Int32, c: Comment)
    requires forall i :: 0 <= i < |c| ==> !IsRatingName(c[i].name)
    ensures var c1 := c + [Field(HowlerRatingField, [IntToDecimal(rating)])];
      KeptRating(c1) == IntToDecimal(rating) && IntegerRating(c1) && KeptPlaycount(c1) == ""
  {
    var n := HowlerRatingField;
    var c1 := c + [Field(n, [IntToDecimal(rating)])];
    HowlerRatingNames(n);
    EqualsIgnoreCaseIsEquivalence(n, n, n);
    assert IsHowlerRating(c1[|c|].name);
    forall i | 0 <= i < |c| ensures !EqualsIgnoreCase(c1[i].name, n) && !IsHowlerRating(c1[i].name) {
      assert c1[i] == c[i];
    }
    assert FirstHowlerRating(c1) == Some(|c|) by {
      var h := FirstHowlerRating(c1);
      assert h.Some?;
    }
    assert GetFirstField(c1, n) == IntToDecimal(rating) by {
      GetFieldFinds(c1, n);
      assert c1[|c|].values == [IntToDecimal(rating)];
    }
    assert LastRatingField(c1, |c1|) == Some(|c|);
    assert PlaycountLimit(c1, |c1|) == |c1|;
  }

  /** A play count stored on a comment without `RATING:HOWLER` is lost on
      the next read: the writer adds `PLAYCOUNT:HOWLER` but no rating field,
      and the reader looks at play counts only after `RATING:HOWLER`. */
  lemma PlayCountLostWithoutHowlerRating(oggToBanshee: string -> Stars, playcount: Int32, c: Comment)
    requires forall i :: 0 <= i < |c| ==> !IsHowlerRating(c[i].name)
    ensures var r := GetRatingAndPlayCount(oggToBanshee, StorePlayCount(playcount, c));
      r.Success? ==> r.value.1 == 0
  {
    var c1 := StorePlayCount(playcount, c);
    if HasPlaycountField(c) {
      assert forall i :: 0 <= i < |c1| ==> c1[i].name == c[i].name;
    } else {
      assert !IsHowlerRating(HowlerPlaycountField) by {
        StartsWithIgnoreCaseAt(HowlerPlaycountField, RatingPrefix);
        assert UpperAscii(HowlerPlaycountField[0]) != UpperAscii(RatingPrefix[0]);
      }
      assert forall i :: 0 <= i < |c| ==> c1[i] == c[i];
    }
    PlaycountNeedsHowlerRating(oggToBanshee, c1);
  }

  /** A MediaMonkey `RATING` field followed by another player's
      `RATING:<creator>` field: the writer puts the decimal rating in the
      first and the 0.0-1.0 text in the second, and the reader, having seen
      the bare field, parses the second as an integer and fails. Here a
      rating of 60 is stored as "60" and "0.6" and cannot be read back. */
  lemma MixedRatingFieldsFailToRead(oggToBanshee: string -> Stars, c0: Comment)
    requires c0 == [Field("RATING", ["1"]), Field("RATING:QUODLIBET", ["0.2"])]
    ensures |StoreRating(60, c0)| == 2
    ensures StoreRating(60, c0)[0] == Field("RATING", [IntToDecimal(60)])
    ensures StoreRating(60, c0)[1] == Field("RATING:QUODLIBET", ["0.6"])
    ensures GetRatingAndPlayCount(oggToBanshee, StoreRating(60, c0)) == Failure(FormatError("0.6"))
  {
    MixedNames();
    assert IsRatingName(c0[0].name);
    assert RatingText(60, "RATING") == IntToDecimal(60);
    assert RatingText(60, "RATING:QUODLIBET") == "0.6" by {
      assert CeilDiv(60, 20) == 3;
    }
    MixedRead(oggToBanshee, StoreRating(60, c0));
  }

  /** How the two names classify. */
  lemma MixedNames()
    ensures IsBareRating("RATING") && !HasRatingPrefix("RATING") && !IsHowlerRating("RATING")
    ensures HasRatingPrefix("RATING:QUODLIBET") && !IsHowlerRating("RATING:QUODLIBET")
    ensures !IsBareRating("RATING:QUODLIBET") && !IsHowlerRatingField("RATING:QUODLIBET")
    ensures !EqualsIgnoreCase("RATING", "RATING:QUODLIBET")
    ensures EqualsIgnoreCase("RATING:QUODLIBET", "RATING:QUODLIBET")
  {
    EqualsIgnoreCaseIsEquivalence("RATING", "RATING", "RATING");
    EqualsIgnoreCaseIsEquivalence("RATING:QUODLIBET", "RATING:QUODLIBET", "RATING:QUODLIBET");
    StartsWithIgnoreCaseAt("RATING:QUODLIBET", RatingPrefix);
    HowlerRatingNames("RATING:QUODLIBET");
  }

  lemma MixedRead(oggToBanshee: string -> Stars, c: Comment)
    requires |c| == 2 && c[0].name == "RATING" && c[1] == Field("RATING:QUODLIBET", ["0.6"])
    ensures GetRatingAndPlayCount(oggToBanshee, c) == Failure(FormatError("0.6"))
  {
    MixedNames();
    var n := "RATING:QUODLIBET";
    assert GetFirstField(c, n) == "0.6" by {
      assert GetFieldFrom(c, n, 1) == ["0.6"];
      assert GetFieldFrom(c, n, 0) == ["0.6"];
    }
    assert FirstHowlerRating(c) == None;
    assert RatingLimit(c, |c|) == 2;
    DecimalNotParsed();
    RatingSource(oggToBanshee, c, 1);
    assert IsBareRating(c[0].name);
  }

  /** `int.Parse` rejects a decimal fraction with a FormatException. */
  lemma DecimalNotParsed()
    ensures ReadInteger("0.6") == None && ParseInt32("0.6") == None
  {
    assert TrimNuls("0.6") == "0.6";
    assert TrimStart("0.6") == "0.6";
    assert TrimEnd("0.6") == "0.6";
    assert !AllDigits("0.6") by {
      assert !IsDigit("0.6"[1]);
    }
  }

  // ---------------------------------------------------------------------
  // GetDate
  // ---------------------------------------------------------------------

  /** `GetDate`: the longest `DATE` value, the first of equally long ones,
      or "" when there is none. */
  function GetDate(c: Comment): (r: string)
    ensures forall t :: t in GetField(c, "DATE") ==> |t| <= |r|
    ensures r == "" || FirstOfLength(GetField(c, "DATE"), r)
  {
    Longest(GetField(c, "DATE"))
  }
}
