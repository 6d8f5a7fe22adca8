/** The tag-kind dispatch in front of the two taggers: which tagger reads the
    rating of a tag, and which part of a combined tag supplies the date. */
module TagLibExtensions {
  import opened Wrappers
  import Id3 = Id3v2Tagger
  import Ogg = OggTagger

  /** The kinds of TagLib tag the code distinguishes. A FLAC metadata block
      may or may not hold a Xiph comment; a combined tag holds sub-tags in
      order; every other kind is `OtherTag`. In TagLib a FLAC file's
      `Metadata` is itself a combined tag, and callers hand these functions
      `file.Tag`, the file's combined tag; `FlacMetadata` stands for the
      combined tag's FLAC part, as `GetDate` inspects it. */
  datatype Tag =
    | Id3v2(id3: Id3.Id3v2Tag)
    | Xiph(comment: Ogg.Comment)
    | FlacMetadata(flacComment: Option<Ogg.Comment>)
    | Combined(tags: seq<Tag>)
    | OtherTag

  // ---------------------------------------------------------------------
  // GetRating
  // ---------------------------------------------------------------------

  /** `GetRating`: the ID3v2 reader for an ID3v2 tag, the Xiph reader for a
      Xiph comment, and 0 for every other tag (a combined tag included). The
      Xiph reader's `int.Parse` can throw, hence the `Result`. */
  function GetRating(oggToBanshee: string -> Ogg.Stars, tag: Tag): (r: Result<int, Ogg.Error>)
    ensures tag.Id3v2? ==> r == Success(Id3.GetRatingAndPlayCount(tag.id3).0)
    ensures tag.Xiph? && Ogg.GetRatingAndPlayCount(oggToBanshee, tag.comment).Success? ==>
      r == Success(Ogg.GetRatingAndPlayCount(oggToBanshee, tag.comment).value.0)
    ensures tag.Xiph? && Ogg.GetRatingAndPlayCount(oggToBanshee, tag.comment).Failure? ==>
      r == Failure(Ogg.GetRatingAndPlayCount(oggToBanshee, tag.comment).error)
    ensures !tag.Id3v2? && !tag.Xiph? ==> r == Success(0)
  {
    match tag
    case Id3v2(t) => Success(Id3.GetRatingAndPlayCount(t).0)
    case Xiph(c) =>
      (match Ogg.GetRatingAndPlayCount(oggToBanshee, c)
       case Success(v) => Success(v.0)
       case Failure(e) => Failure(e))
    case _ => Success(0)
  }

  /** A combined tag reads as rating 0 whatever ratings its parts hold. */
  lemma CombinedRatingIsZero(oggToBanshee: string -> Ogg.Stars, tags: seq<Tag>)
    ensures GetRating(oggToBanshee, Combined(tags)) == Success(0)
  {
  }

  // ---------------------------------------------------------------------
  // GetDate
  // ---------------------------------------------------------------------

  /** A sub-tag that ends the search: a Xiph comment or a FLAC block. */
  predicate Stops(t: Tag) {
    t.Xiph? || t.FlacMetadata?
  }

  /** The scan over the sub-tags from index `i`, with `current` the tag
      chosen so far (`None` for null): a Xiph comment is chosen and ends the
      scan; a FLAC block ends it with its comment, possibly null; an ID3v2
      tag is chosen and the scan goes on; anything else is skipped. */
  function SelectFrom(tags: seq<Tag>, i: nat, current: Option<Tag>): Option<Tag>
    requires i <= |tags|
    decreases |tags| - i
  {
    if i == |tags| then current
    else match tags[i]
      case Xiph(_) => Some(tags[i])
      case FlacMetadata(c) => (if c.Some? then Some(Xiph(c.value)) else None)
      case Id3v2(_) => SelectFrom(tags, i + 1, Some(tags[i]))
      case _ => SelectFrom(tags, i + 1, current)
  }

  /** The tag `GetDate` reads: the tag itself unless it is combined. */
  function DateTag(tag: Tag): Option<Tag> {
    if tag.Combined? then SelectFrom(tag.tags, 0, Some(tag)) else Some(tag)
  }

  /** `GetDate`: the Xiph or ID3v2 date of the chosen tag, or "". */
  function GetDate(tag: Tag): (r: string)
    ensures !tag.Combined? && tag.Xiph? ==> r == Ogg.GetDate(tag.comment)
    ensures !tag.Combined? && tag.Id3v2? ==> r == Id3.GetDate(tag.id3)
    ensures !tag.Xiph? && !tag.Id3v2? && !tag.Combined? ==> r == ""
  {
    match DateTag(tag)
    case Some(Xiph(c)) => Ogg.GetDate(c)
    case Some(Id3v2(t)) => Id3.GetDate(t)
    case _ => ""
  }

  /** The index of the first stopping sub-tag from `i` on. */
  function FirstStop(tags: seq<Tag>, i: nat): (r: Option<nat>)
    requires i <= |tags|
    ensures r.Some? ==> i <= r.value < |tags| && Stops(tags[r.value])
    ensures r.Some? ==> forall j :: i <= j < r.value ==> !Stops(tags[j])
    ensures r.None? ==> forall j :: i <= j < |tags| ==> !Stops(tags[j])
    decreases |tags| - i
  {
    if i == |tags| then None
    else if Stops(tags[i]) then Some(i)
    else FirstStop(tags, i + 1)
  }

  /** What the scan chooses, stated directly: the first Xiph comment or FLAC
      block (its comment, or null) when there is one, earlier ID3v2 tags
      notwithstanding; otherwise the last ID3v2 sub-tag; otherwise the
      combined tag itself. */
  function Chosen(tags: seq<Tag>, i: nat, current: Option<Tag>): Option<Tag>
    requires i <= |tags|
  {
    match FirstStop(tags, i)
    case Some(k) =>
      (match tags[k]
       case FlacMetadata(c) => (if c.Some? then Some(Xiph(c.value)) else None)
       case _ => Some(tags[k]))
    case None =>
      (match LastId3v2Since(tags, i)
       case Some(j) => Some(tags[j])
       case None => current)
  }

  /** The last ID3v2 sub-tag at index `i` or later. */
  function LastId3v2Since(tags: seq<Tag>, i: nat): (r: Option<nat>)
    requires i <= |tags|
    ensures r.Some? ==> i <= r.value < |tags| && tags[r.value].Id3v2?
    ensures r.Some? ==> forall j :: r.value < j < |tags| ==> !tags[j].Id3v2?
    ensures r.None? ==> forall j :: i <= j < |tags| ==> !tags[j].Id3v2?
    decreases |tags| - i
  {
    if i == |tags| then None
    else match LastId3v2Since(tags, i + 1)
      case Some(j) => Some(j)
      case None => if tags[i].Id3v2? then Some(i) else None
  }

  /** The scan agrees with the direct description. */
  lemma {:induction false} SelectFromIsChosen(tags: seq<Tag>, i: nat, current: Option<Tag>)
    requires i <= |tags|
    ensures SelectFrom(tags, i, current) == Chosen(tags, i, current)
    decreases |tags| - i
  {
    if i < |tags| && !Stops(tags[i]) {
      var next := if tags[i].Id3v2? then Some(tags[i]) else current;
      SelectFromIsChosen(tags, i + 1, next);
    }
  }

  /** In a combined tag the first Xiph comment wins, even after an ID3v2
      sub-tag. */
  lemma FirstXiphWins(tags: seq<Tag>, k: nat)
    requires k < |tags| && tags[k].Xiph?
    requires forall j :: 0 <= j < k ==> !Stops(tags[j])
    ensures GetDate(Combined(tags)) == Ogg.GetDate(tags[k].comment)
  {
    SelectFromIsChosen(tags, 0, Some(Combined(tags)));
    assert Stops(tags[k]);
  }

  /** A FLAC block ends the search with its comment; without one the date
      is "". */
  lemma FlacBlockDecides(tags: seq<Tag>, k: nat)
    requires k < |tags| && tags[k].FlacMetadata?
    requires forall j :: 0 <= j < k ==> !Stops(tags[j])
    ensures tags[k].flacComment.Some? ==> GetDate(Combined(tags)) == Ogg.GetDate(tags[k].flacComment.value)
    ensures tags[k].flacComment.None? ==> GetDate(Combined(tags)) == ""
  {
    SelectFromIsChosen(tags, 0, Some(Combined(tags)));
    assert Stops(tags[k]);
  }

  /** Without a Xiph comment or FLAC block the last ID3v2 sub-tag supplies
      the date, and with no ID3v2 sub-tag either the date is "". */
  lemma LastId3v2Wins(tags: seq<Tag>)
    requires forall j :: 0 <= j < |tags| ==> !Stops(tags[j])
    ensures LastId3v2Since(tags, 0).Some? ==>
      GetDate(Combined(tags)) == Id3.GetDate(tags[LastId3v2Since(tags, 0).value].id3)
    ensures LastId3v2Since(tags, 0).None? ==> GetDate(Combined(tags)) == ""
  {
    SelectFromIsChosen(tags, 0, Some(Combined(tags)));
  }
}
