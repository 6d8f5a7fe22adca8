/** Calendar timestamps as `System.DateTime` holds them (to the 100-ns tick), the
    invariant-culture formats `yyyy` … `yyyy-MM-ddTHH:mm:ss` used for the
    ID3v2 recording time, and the ordering `DateTime.CompareTo` gives. The
    timestamp formats are the subset of ISO 8601 allowed by section 4 of the
    ID3v2.4.0 structure document. */
module Dates {
  import opened Wrappers
  import opened Text

  predicate IsLeapYear(y: int) {
    y % 4 == 0 && (y % 100 != 0 || y % 400 == 0)
  }

  function DaysInMonth(y: int, m: int): int {
    if m == 2 then (if IsLeapYear(y) then 29 else 28)
    else if m == 4 || m == 6 || m == 9 || m == 11 then 30
    else 31
  }

  /** The 100-ns ticks in one second. */
  const TicksPerSecond: nat := 10_000_000

  /** A timestamp's calendar fields and `ticks`, the 100-ns ticks past the
      whole second (what `DateTime.Now` carries below the second). */
  datatype DateParts = DateParts(year: int, month: int, day: int, hour: int, minute: int, second: int, ticks: int) {
    predicate Valid() {
      && 1 <= year <= 9999
      && 1 <= month <= 12
      && 1 <= day <= DaysInMonth(year, month)
      && 0 <= hour < 24
      && 0 <= minute < 60
      && 0 <= second < 60
      && 0 <= ticks < TicksPerSecond
    }
  }

  /** A valid timestamp; the range is that of `DateTime`. */
  type DateTime = d: DateParts | d.Valid() witness DateParts(1, 1, 1, 0, 0, 0, 0)

  /** `DateTime.MinValue`, also the value of `new DateTime()`. */
  const MinValue: DateTime := DateParts(1, 1, 1, 0, 0, 0, 0)

  /** The calendar fields the formats write, from the most significant down. */
  function Fields(d: DateTime): (fs: seq<nat>)
    ensures |fs| == 6
  {
    [d.year, d.month, d.day, d.hour, d.minute, d.second]
  }

  /** Everything the tick count of a timestamp depends on, from the most
      significant down: the calendar fields, then the sub-second ticks. */
  function Instant(d: DateTime): (fs: seq<nat>)
    ensures |fs| == 7
  {
    Fields(d) + [d.ticks]
  }

  // ---------------------------------------------------------------------
  // Ordering (DateTime.CompareTo)
  // ---------------------------------------------------------------------

  function CompareFields(a: seq<nat>, b: seq<nat>): (c: int)
    requires |a| == |b|
    ensures c == -1 || c == 0 || c == 1
    ensures c == 0 <==> a == b
  {
    if |a| == 0 then 0
    else if a[0] < b[0] then -1
    else if a[0] > b[0] then 1
    else
      var c := CompareFields(a[1..], b[1..]);
      assert a == [a[0]] + a[1..] && b == [b[0]] + b[1..];
      c
  }

  lemma {:induction false} CompareFieldsAntisymmetric(a: seq<nat>, b: seq<nat>)
    requires |a| == |b|
    ensures CompareFields(a, b) == -CompareFields(b, a)
  {
    if |a| > 0 && a[0] == b[0] {
      CompareFieldsAntisymmetric(a[1..], b[1..]);
    }
  }

  /** A sequence that is nowhere greater compares as not greater. */
  lemma {:induction false} CompareFieldsPointwise(a: seq<nat>, b: seq<nat>)
    requires |a| == |b|
    requires forall i :: 0 <= i < |a| ==> a[i] <= b[i]
    ensures CompareFields(a, b) <= 0
  {
    if |a| > 0 && a[0] == b[0] {
      CompareFieldsPointwise(a[1..], b[1..]);
    }
  }

  /** `d1.CompareTo(d2)`: chronological order, down to the tick. */
  function CompareTo(d1: DateTime, d2: DateTime): (c: int)
    ensures c == -1 || c == 0 || c == 1
    ensures c == 0 <==> d1 == d2
  {
    var c := CompareFields(Instant(d1), Instant(d2));
    assert Instant(d1) == Instant(d2) ==> d1 == d2 by {
      if Instant(d1) == Instant(d2) {
        assert Fields(d1) == Instant(d1)[..6] == Instant(d2)[..6] == Fields(d2);
        assert d1.ticks == Instant(d1)[6] == Instant(d2)[6] == d2.ticks;
        assert Fields(d1)[0] == Fields(d2)[0] && Fields(d1)[1] == Fields(d2)[1] && Fields(d1)[2] == Fields(d2)[2];
        assert Fields(d1)[3] == Fields(d2)[3] && Fields(d1)[4] == Fields(d2)[4] && Fields(d1)[5] == Fields(d2)[5];
      }
    }
    c
  }

  lemma CompareToAntisymmetric(d1: DateTime, d2: DateTime)
    ensures CompareTo(d1, d2) == -CompareTo(d2, d1)
  {
    CompareFieldsAntisymmetric(Instant(d1), Instant(d2));
  }

  /** No timestamp precedes `MinValue`. */
  lemma MinValueIsLeast(d: DateTime)
    ensures CompareTo(MinValue, d) <= 0
  {
    CompareFieldsPointwise(Instant(MinValue), Instant(d));
  }

  /** Two timestamps within the same second are ordered by their ticks:
      tracks imported in one second still sort by import time. */
  lemma {:induction false} CompareToWithinSecond(d1: DateTime, d2: DateTime)
    requires Fields(d1) == Fields(d2) && d1.ticks < d2.ticks
    ensures CompareTo(d1, d2) == -1
  {
    var a, b := Instant(d1), Instant(d2);
    assert a[..6] == b[..6];
    CompareFieldsSamePrefix(a, b, 6);
  }

  /** Sequences equal up to index `k` compare as their remainders do. */
  lemma {:induction false} CompareFieldsSamePrefix(a: seq<nat>, b: seq<nat>, k: nat)
    requires |a| == |b| && k <= |a| && a[..k] == b[..k]
    ensures CompareFields(a, b) == CompareFields(a[k..], b[k..])
    decreases k
  {
    if k > 0 {
      assert a[0] == a[..k][0] == b[0];
      assert a[1..][..k - 1] == a[..k][1..] == b[1..][..k - 1];
      CompareFieldsSamePrefix(a[1..], b[1..], k - 1);
      assert a[1..][k - 1..] == a[k..] && b[1..][k - 1..] == b[k..];
    }
  }

  // ---------------------------------------------------------------------
  // Invariant-culture formatting by granularity
  // ---------------------------------------------------------------------

  /** How much of a timestamp is written. */
  datatype Granularity = Year | Month | Day | Hour | Minute | Second {
    /** The number of fields written after the year. */
    function Rank(): (k: nat)
      ensures k <= 5
    {
      match this
      case Year => 0
      case Month => 1
      case Day => 2
      case Hour => 3
      case Minute => 4
      case Second => 5
    }
  }

  function GranularityOfRank(k: nat): (g: Granularity)
    requires k <= 5
    ensures g.Rank() == k
  {
    if k == 0 then Year else if k == 1 then Month else if k == 2 then Day
    else if k == 3 then Hour else if k == 4 then Minute else Second
  }

  /** The literal written before field `k` (1 = month, …, 5 = second). */
  function Separator(k: nat): char
    requires 1 <= k <= 5
  {
    if k <= 2 then '-' else if k == 3 then 'T' else ':'
  }

  const YearDigits: nat := 4
  const FieldDigits: nat := 2

  /** Field values that fit the fixed-width formats: a four-digit year and
      two-digit remaining fields. */
  predicate Writable(fs: seq<nat>) {
    && |fs| == 6
    && fs[0] < Pow10(YearDigits)
    && forall i :: 1 <= i < 6 ==> fs[i] < Pow10(FieldDigits)
  }

  /** Field `k` as written: `yyyy` for the year, otherwise its separator
      and two digits. */
  function Part(fs: seq<nat>, k: nat): (s: string)
    requires Writable(fs) && k <= 5
    ensures |s| == if k == 0 then 4 else 3
  {
    if k == 0 then Pad(fs[0], YearDigits) else [Separator(k)] + Pad(fs[k], FieldDigits)
  }

  /** The first `k + 1` fields written one after the other. */
  function FormatFields(fs: seq<nat>, k: nat): (s: string)
    requires Writable(fs) && k <= 5
    ensures |s| == 4 + 3 * k
  {
    if k == 0 then Part(fs, 0) else FormatFields(fs, k - 1) + Part(fs, k)
  }

  /** `d.ToString(format, CultureInfo.InvariantCulture)` for the format of
      granularity `g`: `yyyy`, `yyyy-MM`, `yyyy-MM-dd`, `yyyy-MM-ddTHH`,
      `yyyy-MM-ddTHH:mm` or `yyyy-MM-ddTHH:mm:ss`. */
  function Format(d: DateTime, g: Granularity): (s: string)
    ensures |s| == 4 + 3 * g.Rank()
  {
    FormatFields(Fields(d), g.Rank())
  }

  lemma {:induction false} FormatFieldsPrefix(fs: seq<nat>, k1: nat, k2: nat)
    requires Writable(fs) && k1 <= k2 <= 5
    ensures FormatFields(fs, k1) == FormatFields(fs, k2)[..4 + 3 * k1]
    decreases k2
  {
    if k1 < k2 {
      FormatFieldsPrefix(fs, k1, k2 - 1);
      PrefixOfAppend(FormatFields(fs, k2 - 1), Part(fs, k2), 4 + 3 * k1);
    }
  }

  lemma PrefixOfAppend(a: string, b: string, n: nat)
    requires n <= |a|
    ensures (a + b)[..n] == a[..n]
  {
  }

  /** A coarser format of a timestamp is a prefix of every finer one. */
  lemma FormatPrefix(d: DateTime, g1: Granularity, g2: Granularity)
    requires g1.Rank() <= g2.Rank()
    ensures Format(d, g1) == Format(d, g2)[..|Format(d, g1)|]
  {
    FormatFieldsPrefix(Fields(d), g1.Rank(), g2.Rank());
  }

  /** Reads a timestamp written in one of the six formats back into its
      fields; `None` for any other text. */
  function ParseFields(s: string): (r: Option<seq<nat>>)
    ensures r.Some? ==> 1 <= |r.value| <= 6 && |s| == 4 + 3 * (|r.value| - 1)
    decreases |s|
  {
    if |s| == 4 then
      if AllDigits(s) then Some([DigitsValue(s)]) else None
    else if 7 <= |s| <= 19 then
      var n := |s|;
      match ParseFields(s[..n - 3])
      case Some(fs) =>
        if |fs| <= 5 && s[n - 3] == Separator(|fs|) && AllDigits(s[n - 2..])
        then Some(fs + [DigitsValue(s[n - 2..])])
        else None
      case None => None
    else None
  }

  /** Appending one separator and a two-digit field extends the parse. */
  lemma ParseFieldsStep(p: string, c: char, two: string, fs: seq<nat>)
    requires ParseFields(p) == Some(fs) && |fs| <= 5 && c == Separator(|fs|)
    requires |two| == 2 && AllDigits(two)
    ensures ParseFields(p + ([c] + two)) == Some(fs + [DigitsValue(two)])
  {
    var s := p + ([c] + two);
    assert s[..|s| - 3] == p;
    assert s[|s| - 3] == c;
    assert s[|s| - 2..] == two;
  }

  lemma TakeOneMore(fs: seq<nat>, k: nat)
    requires k < |fs|
    ensures fs[..k + 1] == fs[..k] + [fs[k]]
  {
  }

  lemma ParseYear(fs: seq<nat>)
    requires Writable(fs)
    ensures ParseFields(FormatFields(fs, 0)) == Some(fs[..1])
  {
    var s := Pad(fs[0], YearDigits);
    assert FormatFields(fs, 0) == s;
    assert |s| == 4 && AllDigits(s) && DigitsValue(s) == fs[0];
    assert fs[..1] == [fs[0]];
  }

  /** Writing one more field extends the fields read back by one. */
  lemma ParseFormatStep(fs: seq<nat>, k: nat)
    requires Writable(fs) && 1 <= k <= 5
    requires ParseFields(FormatFields(fs, k - 1)) == Some(fs[..k])
    ensures ParseFields(FormatFields(fs, k)) == Some(fs[..k + 1])
  {
    var prev := FormatFields(fs, k - 1);
    var two := Pad(fs[k], FieldDigits);
    assert ParseFields(prev + ([Separator(k)] + two)) == Some(fs[..k + 1]) by {
      assert |fs[..k]| == k;
      ParseFieldsStep(prev, Separator(k), two, fs[..k]);
      TakeOneMore(fs, k);
    }
    assert FormatFields(fs, k) == prev + ([Separator(k)] + two);
  }

  lemma {:induction false} ParseFormatFields(fs: seq<nat>, k: nat)
    requires Writable(fs) && k <= 5
    ensures ParseFields(FormatFields(fs, k)) == Some(fs[..k + 1])
    decreases k
  {
    if k == 0 {
      ParseYear(fs);
    } else {
      ParseFormatFields(fs, k - 1);
      ParseFormatStep(fs, k);
    }
  }

  /** Every written timestamp reads back as the fields it was written with. */
  lemma ParseFormat(d: DateTime, g: Granularity)
    ensures ParseFields(Format(d, g)) == Some(Fields(d)[..g.Rank() + 1])
  {
    ParseFormatFields(Fields(d), g.Rank());
  }
}
