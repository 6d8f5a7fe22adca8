/** `TimeSpan` components and the `H:MM:SS` / `M:SS` text the duration
    column renders, with the parser that reads such a text back. */
module Durations {
  import opened Wrappers
  import opened Text

  /** `TimeSpan.Hours`, `Minutes` and `Seconds` of a span of `ms`
      milliseconds. C# divides and takes remainders rounding toward zero,
      so the components of a negative span are those of its magnitude,
      negated. */
  function Hours(ms: int): (h: int)
    ensures -24 < h < 24
    ensures ms >= 0 ==> 0 <= h
  {
    if ms < 0 then -((-ms) / 3_600_000 % 24) else ms / 3_600_000 % 24
  }

  function Minutes(ms: int): (m: int)
    ensures -60 < m < 60
    ensures ms >= 0 ==> 0 <= m
  {
    if ms < 0 then -((-ms) / 60_000 % 60) else ms / 60_000 % 60
  }

  function Seconds(ms: int): (sec: int)
    ensures -60 < sec < 60
    ensures ms >= 0 ==> 0 <= sec
  {
    if ms < 0 then -((-ms) / 1000 % 60) else ms / 1000 % 60
  }

  /** For a non-negative span the components are the usual clock fields,
      with the hours taken modulo 24. */
  lemma ClockComponents(ms: nat)
    ensures Hours(ms) == ms / 3_600_000 % 24
    ensures Minutes(ms) == ms / 60_000 % 60
    ensures Seconds(ms) == ms / 1000 % 60
  {
  }

  /** `{0:D2}`: at least two digits, with a minus sign before them when
      negative. */
  function TwoDigits(x: int): (s: string)
    requires -60 < x < 60
    ensures x >= 0 ==> s == Pad(x, 2)
  {
    assert Pow10(2) == 100;
    if x < 0 then "-" + Pad(-x, 2) else Pad(x, 2)
  }

  /** The fields a clock text can show after its leading one: minutes or
      seconds components. */
  predicate ClockFields(fields: seq<int>) {
    |fields| > 0 && forall i :: 1 <= i < |fields| ==> -60 < fields[i] < 60
  }

  /** The clock text of `fields`: the leading field with `{0}` and each
      later one as `:{n:D2}`. */
  function ClockText(fields: seq<int>): string
    requires ClockFields(fields)
    decreases |fields|
  {
    if |fields| == 1 then IntToDecimal(fields[0])
    else
      ClockText(fields[..|fields| - 1]) + ":" + TwoDigits(fields[|fields| - 1])
  }

  /** The fields the duration column shows for a span of `ms` milliseconds:
      hours, minutes and seconds from one hour on, minutes and seconds
      below. */
  function Fields(ms: int): (fields: seq<int>)
    ensures ClockFields(fields)
  {
    if ms >= 3_600_000 then [Hours(ms), Minutes(ms), Seconds(ms)] else [Minutes(ms), Seconds(ms)]
  }

  /** The duration column: `TimeSpan.FromMilliseconds(ms)` rendered with
      `{0}:{1:D2}:{2:D2}` of its hours, minutes and seconds from one hour
      on, and with `{0}:{1:D2}` of its minutes and seconds below. */
  function DurationText(ms: int): string
  {
    ClockText(Fields(ms))
  }

  /** A clock text split at its last field: what precedes the final ':'
      and the value of the two digits after it. */
  datatype Clock = Clock(front: string, field: nat)

  function SplitLast(s: string): (r: Option<Clock>)
    ensures r.Some? ==> |r.value.front| < |s|
  {
    if |s| >= 3 && s[|s| - 3] == ':' && AllDigits(s[|s| - 2..]) then
      Some(Clock(s[..|s| - 3], DigitsValue(s[|s| - 2..])))
    else None
  }

  lemma SplitLastOf(a: string, b: string)
    requires |b| == 2 && AllDigits(b)
    ensures SplitLast(a + ":" + b) == Some(Clock(a, DigitsValue(b)))
  {
    var t := a + ":" + b;
    assert t[|t| - 2..] == b;
    assert t[..|t| - 3] == a;
  }

  /** Reads a clock text back into its fields: a run of decimal digits,
      followed by any number of `:` and two digits. */
  function ParseClock(s: string): Option<seq<nat>>
    decreases |s|
  {
    if |s| > 0 && AllDigits(s) then Some([DigitsValue(s)])
    else
      match SplitLast(s)
      case None => None
      case Some(c) =>
        match ParseClock(c.front)
        case None => None
        case Some(front) => Some(front + [c.field])
  }

  /** The whole seconds that clock fields stand for, each field counting
      sixty of the next. */
  function ClockSeconds(fields: seq<nat>): nat
    decreases |fields|
  {
    if |fields| == 0 then 0 else 60 * ClockSeconds(fields[..|fields| - 1]) + fields[|fields| - 1]
  }

  /** Reads a duration text back as whole seconds: `M:SS` or `H:MM:SS`. */
  function ParseDuration(s: string): Option<nat> {
    match ParseClock(s)
    case Some(fields) => if 2 <= |fields| <= 3 then Some(ClockSeconds(fields)) else None
    case None => None
  }

  /** Appending `:` and two digits to a parsable clock text appends one
      field. */
  lemma ParseClockStep(front: string, fields: seq<nat>, last: nat)
    requires last < 60 && ParseClock(front) == Some(fields)
    ensures ParseClock(front + ":" + Pad(last, 2)) == Some(fields + [last])
  {
    var t := front + ":" + Pad(last, 2);
    SplitLastOf(front, Pad(last, 2));
    assert t[|front|] == ':';
  }

  /** Clock fields with a non-negative leading field and later fields
      below sixty read back from their text unchanged. */
  lemma {:induction false} ParseClockText(fields: seq<nat>)
    requires |fields| > 0 && forall i :: 1 <= i < |fields| ==> fields[i] < 60
    ensures ParseClock(ClockText(fields)) == Some(fields)
    decreases |fields|
  {
    if |fields| == 1 {
      assert ClockText(fields) == NatToDecimal(fields[0]);
      assert fields == [fields[0]];
    } else {
      var init := fields[..|fields| - 1];
      var last := fields[|fields| - 1];
      assert init + [last] == fields;
      ParseClockText(init);
      assert ClockText(fields) == ClockText(init) + ":" + Pad(last, 2);
      ParseClockStep(ClockText(init), init, last);
    }
  }

  /** The text of a clock starts with its leading field. */
  lemma {:induction false} ClockTextLeads(fields: seq<int>)
    requires ClockFields(fields)
    ensures IntToDecimal(fields[0]) <= ClockText(fields)
    decreases |fields|
  {
    if |fields| > 1 {
      var init := fields[..|fields| - 1];
      ClockTextLeads(init);
      assert init[0] == fields[0];
    }
  }

  /** A duration text starts with the digits of its leading field. */
  lemma DurationTextLeads(ms: int)
    ensures IntToDecimal(Fields(ms)[0]) <= DurationText(ms)
  {
    ClockTextLeads(Fields(ms));
  }

  /** How the clock fields of a span shorter than a day make up its whole
      seconds. */
  lemma MillisecondFields(ms: nat)
    ensures ms / 60_000 == ms / 1000 / 60
    ensures ms / 3_600_000 == ms / 1000 / 3600
  {
    var total := ms / 1000;
    assert ms == 1000 * total + ms % 1000;
    assert total == 60 * (total / 60) + total % 60;
    assert ms == 60_000 * (total / 60) + (1000 * (total % 60) + ms % 1000);
    assert total == 3600 * (total / 3600) + total % 3600;
    assert ms == 3_600_000 * (total / 3600) + (1000 * (total % 3600) + ms % 1000);
  }

  lemma WholeSecondFields(total: nat)
    requires total < 86400
    ensures total == 3600 * (total / 3600) + 60 * (total / 60 % 60) + total % 60
    ensures total / 3600 < 24
  {
    var m := total / 60;
    assert total == 60 * m + total % 60;
    assert m == 60 * (m / 60) + m % 60;
    assert total == 3600 * (m / 60) + (60 * (m % 60) + total % 60);
    assert m / 60 == total / 3600;
  }

  lemma ClockArithmetic(ms: nat)
    requires ms < 86_400_000
    ensures ms / 1000 == 3600 * (ms / 3_600_000 % 24) + 60 * (ms / 60_000 % 60) + ms / 1000 % 60
    ensures ms < 3_600_000 ==> ms / 3_600_000 % 24 == 0
  {
    MillisecondFields(ms);
    WholeSecondFields(ms / 1000);
    assert ms / 3_600_000 % 24 == ms / 3_600_000;
  }

  /** Below one hour the minutes and seconds make up the whole seconds. */
  lemma ShortClockFields(ms: nat)
    requires ms < 3_600_000
    ensures ms / 1000 == 60 * Minutes(ms) + Seconds(ms)
  {
    ClockComponents(ms);
    ClockArithmetic(ms);
  }

  /** Below one day the hours, minutes and seconds make up the whole
      seconds. */
  lemma LongClockFields(ms: nat)
    requires ms < 86_400_000
    ensures ms / 1000 == 3600 * Hours(ms) + 60 * Minutes(ms) + Seconds(ms)
  {
    ClockComponents(ms);
    ClockArithmetic(ms);
  }

  lemma ClockSecondsOf(a: nat, b: nat, c: nat)
    ensures ClockSeconds([a, b]) == 60 * a + b
    ensures ClockSeconds([a, b, c]) == 3600 * a + 60 * b + c
  {
    assert [a][..0] == [];
    assert ClockSeconds([a]) == a;
    assert [a, b][..1] == [a];
    assert ClockSeconds([a, b]) == 60 * a + b;
    assert [a, b, c][..2] == [a, b];
  }

  lemma {:induction false} HourShift(ms: nat)
    ensures (ms + 86_400_000) / 3_600_000 == ms / 3_600_000 + 24
  {
  }

  lemma {:induction false} MinuteShift(ms: nat)
    ensures (ms + 86_400_000) / 60_000 == ms / 60_000 + 1440
  {
  }

  lemma {:induction false} SecondShift(ms: nat)
    ensures (ms + 86_400_000) / 1000 == ms / 1000 + 86400
  {
  }

  /** A day more leaves every clock field as it was. */
  lemma {:induction false} ClockShift(ms: nat)
    ensures Hours(ms + 86_400_000) == Hours(ms)
    ensures Minutes(ms + 86_400_000) == Minutes(ms)
    ensures Seconds(ms + 86_400_000) == Seconds(ms)
  {
    assert Hours(ms + 86_400_000) == Hours(ms) by {
      HourShift(ms);
      assert (ms / 3_600_000 + 24) % 24 == ms / 3_600_000 % 24;
    }
    assert Minutes(ms + 86_400_000) == Minutes(ms) by {
      MinuteShift(ms);
      assert (ms / 60_000 + 1440) % 60 == ms / 60_000 % 60;
    }
    assert Seconds(ms + 86_400_000) == Seconds(ms) by {
      SecondShift(ms);
      assert (ms / 1000 + 86400) % 60 == ms / 1000 % 60;
    }
  }
}

/** What the duration column's text keeps of a duration and what it loses. */
module DurationColumn {
  import opened Wrappers
  import opened Durations

  /** A span of one hour or more reads back as its hours, minutes and
      seconds; a shorter one as its minutes and seconds. */
  lemma {:induction false} DurationTextFields(ms: int)
    requires 0 <= ms
    ensures ms >= 3_600_000 ==> ParseClock(DurationText(ms)) == Some([Hours(ms), Minutes(ms), Seconds(ms)])
    ensures ms < 3_600_000 ==> ParseClock(DurationText(ms)) == Some([Minutes(ms), Seconds(ms)])
  {
    var fields: seq<nat> := Fields(ms);
    ParseClockText(fields);
  }

  lemma {:induction false} ShortRoundTrip(ms: int)
    requires 0 <= ms < 3_600_000
    ensures ParseDuration(DurationText(ms)) == Some(ms / 1000)
  {
    var m, sec := Minutes(ms), Seconds(ms);
    assert ParseClock(DurationText(ms)) == Some([m, sec]) by {
      DurationTextFields(ms);
    }
    assert ClockSeconds([m, sec]) == ms / 1000 by {
      ShortClockFields(ms);
      ClockSecondsOf(m, sec, 0);
    }
  }

  lemma {:induction false} LongRoundTrip(ms: int)
    requires 3_600_000 <= ms < 86_400_000
    ensures ParseDuration(DurationText(ms)) == Some(ms / 1000)
  {
    var h, m, sec := Hours(ms), Minutes(ms), Seconds(ms);
    assert ParseClock(DurationText(ms)) == Some([h, m, sec]) by {
      DurationTextFields(ms);
    }
    assert ClockSeconds([h, m, sec]) == ms / 1000 by {
      LongClockFields(ms);
      ClockSecondsOf(h, m, sec);
    }
  }

  /** Below one day the duration text loses only the milliseconds. */
  lemma {:induction false} DurationTextRoundTrip(ms: int)
    requires 0 <= ms < 86_400_000
    ensures ParseDuration(DurationText(ms)) == Some(ms / 1000)
  {
    if ms < 3_600_000 {
      ShortRoundTrip(ms);
    } else {
      LongRoundTrip(ms);
    }
  }

  /** The hour component wraps at 24: a track a day longer than another
      shows the same text. */
  lemma {:induction false} DurationTextWrapsAtOneDay(ms: int)
    requires 3_600_000 <= ms
    ensures DurationText(ms + 86_400_000) == DurationText(ms)
  {
    ClockShift(ms);
    assert Fields(ms + 86_400_000) == Fields(ms);
  }
}
