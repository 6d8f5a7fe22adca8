/** Strings as the .NET runtime formats, parses and compares them, restricted
    to what the modelled code uses: ordinal-ignore-case comparison (taken as
    ASCII case folding), invariant-culture decimal formatting, `int.Parse`,
    zero padding, `String.Join` and `String.Concat`. */
module Text {
  import opened Wrappers
  import opened Numeric

  /** The sign of a comparison result: -1, 0 or 1. */
  function Sign(x: int): int {
    if x < 0 then -1 else if x == 0 then 0 else 1
  }

  // ---------------------------------------------------------------------
  // Case-insensitive comparison (StringComparison.OrdinalIgnoreCase)
  // ---------------------------------------------------------------------

  /** Upper-cases an ASCII letter and leaves every other character alone. */
  function UpperAscii(c: char): char {
    if 'a' <= c <= 'z' then (c as int - 32) as char else c
  }

  /** The characters of `p` from index `i` on match those of `s` ignoring
      case (and `s` is long enough). */
  predicate MatchFrom(s: string, p: string, i: nat)
    decreases |p| - i
  {
    i >= |p| || (i < |s| && UpperAscii(s[i]) == UpperAscii(p[i]) && MatchFrom(s, p, i + 1))
  }

  lemma {:induction false} MatchFromAt(s: string, p: string, i: nat)
    requires i <= |p|
    ensures MatchFrom(s, p, i) <==>
      (i == |p| || |p| <= |s|) && forall j :: i <= j < |p| && j < |s| ==> UpperAscii(s[j]) == UpperAscii(p[j])
    decreases |p| - i
  {
    if i < |p| {
      MatchFromAt(s, p, i + 1);
    }
  }

  /** `String.Compare(a, b, StringComparison.OrdinalIgnoreCase) == 0`. */
  predicate EqualsIgnoreCase(a: string, b: string) {
    |a| == |b| && MatchFrom(a, b, 0)
  }

  /** `s.StartsWith(prefix, StringComparison.OrdinalIgnoreCase)`. */
  predicate StartsWithIgnoreCase(s: string, prefix: string) {
    |prefix| <= |s| && MatchFrom(s, prefix, 0)
  }

  lemma EqualsIgnoreCaseAt(a: string, b: string)
    ensures EqualsIgnoreCase(a, b) <==>
      |a| == |b| && forall j :: 0 <= j < |a| ==> UpperAscii(a[j]) == UpperAscii(b[j])
  {
    MatchFromAt(a, b, 0);
  }

  lemma StartsWithIgnoreCaseAt(s: string, prefix: string)
    ensures StartsWithIgnoreCase(s, prefix) <==>
      |prefix| <= |s| && forall j :: 0 <= j < |prefix| ==> UpperAscii(s[j]) == UpperAscii(prefix[j])
  {
    MatchFromAt(s, prefix, 0);
  }

  /** Case-insensitive equality is an equivalence relation, so it can stand
      for key identity in a dictionary. */
  lemma EqualsIgnoreCaseIsEquivalence(a: string, b: string, c: string)
    ensures EqualsIgnoreCase(a, a)
    ensures EqualsIgnoreCase(a, b) ==> EqualsIgnoreCase(b, a)
    ensures EqualsIgnoreCase(a, b) && EqualsIgnoreCase(b, c) ==> EqualsIgnoreCase(a, c)
  {
    EqualsIgnoreCaseAt(a, a);
    EqualsIgnoreCaseAt(a, b);
    EqualsIgnoreCaseAt(b, a);
    EqualsIgnoreCaseAt(b, c);
    EqualsIgnoreCaseAt(a, c);
  }

  /** A string equal to a name ignoring case starts with every prefix that
      name starts with, ignoring case. */
  lemma StartsWithRespectsCase(s: string, t: string, prefix: string)
    requires EqualsIgnoreCase(s, t)
    ensures StartsWithIgnoreCase(s, prefix) <==> StartsWithIgnoreCase(t, prefix)
  {
    EqualsIgnoreCaseAt(s, t);
    StartsWithIgnoreCaseAt(s, prefix);
    StartsWithIgnoreCaseAt(t, prefix);
  }

  // ---------------------------------------------------------------------
  // Decimal formatting and parsing (InvariantCulture, NumberStyles.Integer)
  // ---------------------------------------------------------------------

  predicate IsDigit(c: char) {
    '0' <= c <= '9'
  }

  predicate AllDigits(s: string) {
    forall i :: 0 <= i < |s| ==> IsDigit(s[i])
  }

  function DigitChar(d: nat): (c: char)
    requires d < 10
    ensures IsDigit(c) && c as int - '0' as int == d
  {
    ('0' as int + d) as char
  }

  /** The value of a string of decimal digits, most significant first. */
  function DigitsValue(s: string): nat
    requires AllDigits(s)
  {
    if |s| == 0 then 0 else 10 * DigitsValue(s[..|s| - 1]) + (s[|s| - 1] as int - '0' as int)
  }

  /** `n.ToString(CultureInfo.InvariantCulture)` for a non-negative number. */
  function NatToDecimal(n: nat): (s: string)
    ensures 0 < |s|
    ensures AllDigits(s)
    ensures DigitsValue(s) == n
    ensures |s| > 1 ==> s[0] != '0'
    decreases n
  {
    if n < 10 then [DigitChar(n)]
    else
      var front := NatToDecimal(n / 10);
      var s := front + [DigitChar(n % 10)];
      assert s[..|s| - 1] == front;
      s
  }

  /** A two-digit number is written with its tens digit first. */
  lemma TensDigitLeads(n: nat)
    requires 10 <= n < 100
    ensures NatToDecimal(n)[0] == DigitChar(n / 10)
  {
    assert NatToDecimal(n / 10) == [DigitChar(n / 10)];
  }

  /** `i.ToString(CultureInfo.InvariantCulture)` for any integer. */
  function IntToDecimal(i: int): string {
    if i < 0 then "-" + NatToDecimal(-i) else NatToDecimal(i)
  }

  /** The white space `int.Parse` skips at either end: U+0009..U+000D and
      the space. */
  predicate IsWhite(c: char) {
    c == ' ' || '\t' <= c <= '\r'
  }

  predicate AllWhite(s: string) {
    forall i :: 0 <= i < |s| ==> IsWhite(s[i])
  }

  /** `s` without its leading white space: a suffix of `s` that does not
      start with white space, and only white space was cut off. */
  function TrimStart(s: string): (t: string)
    ensures |t| <= |s| && t == s[|s| - |t|..]
    ensures AllWhite(s[..|s| - |t|])
    ensures |t| == 0 || !IsWhite(t[0])
  {
    if 0 < |s| && IsWhite(s[0]) then
      var r := s[1..];
      var t := TrimStart(r);
      assert r[|r| - |t|..] == s[|s| - |t|..];
      assert AllWhite(s[..|s| - |t|]) by {
        forall i | 0 <= i < |s| - |t|
          ensures IsWhite(s[i])
        {
          if 0 < i {
            assert s[i] == r[..|r| - |t|][i - 1];
          }
        }
      }
      t
    else s
  }

  /** `s` without its trailing white space: a prefix of `s` that does not
      end with white space, and only white space was cut off. */
  function TrimEnd(s: string): (t: string)
    ensures |t| <= |s| && t == s[..|t|]
    ensures AllWhite(s[|t|..])
    ensures |t| == 0 || !IsWhite(t[|t| - 1])
  {
    if 0 < |s| && IsWhite(s[|s| - 1]) then
      var t := TrimEnd(s[..|s| - 1]);
      assert s[|t|..] == s[..|s| - 1][|t|..] + [s[|s| - 1]];
      t
    else s
  }

  /** Leading white space is removed whatever follows it. */
  lemma TrimStartOf(w: string, x: string)
    requires AllWhite(w)
    requires |x| == 0 || !IsWhite(x[0])
    ensures TrimStart(w + x) == x
  {
    var s := w + x;
    var t := TrimStart(s);
    assert s[|s| - |x|..] == x;
  }

  /** Trailing white space is removed whatever precedes it. */
  lemma TrimEndOf(x: string, w: string)
    requires AllWhite(w)
    requires |x| == 0 || !IsWhite(x[|x| - 1])
    ensures TrimEnd(x + w) == x
  {
    var s := x + w;
    var t := TrimEnd(s);
    assert s[..|x|] == x;
  }

  predicate AllNul(s: string) {
    forall i :: 0 <= i < |s| ==> s[i] == '\0'
  }

  /** `s` without its trailing NUL characters: a prefix of `s` that does
      not end with NUL, and only NULs were cut off. */
  function TrimNuls(s: string): (t: string)
    ensures |t| <= |s| && t == s[..|t|]
    ensures AllNul(s[|t|..])
    ensures |t| == 0 || t[|t| - 1] != '\0'
  {
    if 0 < |s| && s[|s| - 1] == '\0' then
      var t := TrimNuls(s[..|s| - 1]);
      assert s[|t|..] == s[..|s| - 1][|t|..] + [s[|s| - 1]];
      t
    else s
  }

  /** The sign and digits `int.Parse` reads once the white space and NULs
      are cut, as an unbounded integer. */
  function ReadTrimmed(t: string): Option<int> {
    if |t| == 0 then None
    else
      var negative := t[0] == '-';
      var digits := if t[0] == '-' || t[0] == '+' then t[1..] else t;
      if |digits| == 0 || !AllDigits(digits) then None
      else
        var magnitude: int := DigitsValue(digits);
        Some(if negative then -magnitude else magnitude)
  }

  /** The integer `int.Parse(s, CultureInfo.InvariantCulture)` reads before
      its range check: optional white space, an optional sign, at least one
      ASCII digit, optional white space, and optional NUL characters, which
      the runtime's number parser accepts after the number. `None` stands
      for the FormatException the runtime throws. */
  function ReadInteger(s: string): Option<int> {
    ReadTrimmed(TrimEnd(TrimStart(TrimNuls(s))))
  }

  /** `int.Parse(s, CultureInfo.InvariantCulture)`: the integer read, when
      it fits in 32 bits. `None` stands for the FormatException (nothing is
      read) or the OverflowException (what is read does not fit) the
      runtime throws. */
  function ParseInt32(s: string): (r: Option<int>)
    ensures r.Some? ==> InInt32(r.value)
  {
    var read := ReadInteger(s);
    if read.Some? && InInt32(read.value) then read else None
  }

  /** Every 32-bit integer the program writes as text reads back unchanged. */
  lemma ParseFormatRoundTrip(i: int)
    requires InInt32(i)
    ensures ParseInt32(IntToDecimal(i)) == Some(i)
  {
    DecimalReadBack(i);
  }

  /** Any integer's decimal text is read back before the range check. */
  lemma DecimalReadBack(i: int)
    ensures ReadInteger(IntToDecimal(i)) == Some(i)
  {
    var s := IntToDecimal(i);
    assert IsDigit(s[|s| - 1]);
    ReadBare(s);
    DecimalReads(i);
  }

  lemma DecimalReads(i: int)
    ensures ReadTrimmed(IntToDecimal(i)) == Some(i)
  {
    var s := IntToDecimal(i);
    var d := NatToDecimal(if i < 0 then -i else i);
    if i < 0 {
      assert s[1..] == d;
    } else {
      assert s[0] != '-' && s[0] != '+';
    }
  }

  /** A text with nothing to cut at either end is read as it stands. */
  lemma ReadBare(s: string)
    requires 0 < |s| && !IsWhite(s[0]) && IsDigit(s[|s| - 1])
    ensures ReadInteger(s) == ReadTrimmed(s)
  {
    assert TrimNuls(s) == s;
    assert TrimStart(s) == s;
    assert TrimEnd(s) == s;
  }

  /** A parsed string is never empty and never white space only. */
  lemma ParseRejectsBlank(s: string)
    requires forall i :: 0 <= i < |s| ==> IsWhite(s[i])
    ensures ParseInt32(s) == None
  {
    assert TrimNuls(s) == s;
    TrimStartOf(s, "");
    assert s + "" == s;
  }

  /** `s` spells the integer `v` the way `int.Parse` reads it: white space
      `s[..i]`, an optional sign `s[i..j]`, the decimal digits `s[j..k]`
      (at least one, leading zeros allowed), white space `s[k..l]` and NUL
      characters `s[l..]`. */
  ghost predicate Spells(s: string, v: int) {
    exists i, j, k, l :: 0 <= i <= j < k <= l <= |s| && SpellsAt(s, v, i, j, k, l)
  }

  ghost predicate SpellsAt(s: string, v: int, i: nat, j: nat, k: nat, l: nat)
    requires i <= j < k <= l <= |s|
  {
    && AllWhite(s[..i])
    && (j == i || (j == i + 1 && (s[i] == '-' || s[i] == '+')))
    && AllDigits(s[j..k])
    && AllWhite(s[k..l])
    && AllNul(s[l..])
    && v == (if j == i + 1 && s[i] == '-' then 0 - DigitsValue(s[j..k]) else DigitsValue(s[j..k]))
  }

  /** `int.Parse` reads exactly the texts that spell an integer, and reads
      the integer spelled. */
  lemma ReadIntegerAccepts(s: string, v: int)
    ensures ReadInteger(s) == Some(v) <==> Spells(s, v)
  {
    if ReadInteger(s) == Some(v) {
      ReadSpells(s, v);
    }
    if Spells(s, v) {
      var i, j, k, l :| 0 <= i <= j < k <= l <= |s| && SpellsAt(s, v, i, j, k, l);
      SpelledReads(s, v, i, j, k, l);
    }
  }

  /** `int.Parse` returns `v` exactly when the text spells the 32-bit
      integer `v`; it throws OverflowException exactly when the text spells
      an integer outside 32 bits, and FormatException exactly when it
      spells none. */
  lemma ParseInt32Accepts(s: string, v: int)
    ensures ParseInt32(s) == Some(v) <==> Spells(s, v) && InInt32(v)
    ensures ReadInteger(s) == Some(v) && !InInt32(v) <==> Spells(s, v) && !InInt32(v)
    ensures ReadInteger(s).None? <==> forall w :: !Spells(s, w)
  {
    ReadIntegerAccepts(s, v);
    if ReadInteger(s).None? {
      forall w ensures !Spells(s, w) {
        ReadIntegerAccepts(s, w);
      }
    } else {
      ReadIntegerAccepts(s, ReadInteger(s).value);
    }
  }

  /** NUL characters after the number and its white space are accepted. */
  lemma TrailingNulsAccepted()
    ensures ParseInt32("5 \0\0") == Some(5)
  {
    var s := "5 \0\0";
    assert AllDigits(s[0..1]) && DigitsValue(s[0..1]) == 5;
    assert SpellsAt(s, 5, 0, 0, 1, 2);
    ReadIntegerAccepts(s, 5);
  }

  /** A NUL followed by white space is not accepted. */
  lemma NulBeforeWhiteRejected(s: string)
    requires s == "5\0 "
    ensures ReadInteger(s) == None
  {
    assert TrimNuls(s) == s;
    assert AllWhite(s[2..]) && !IsWhite(s[1]);
    TrimEndAt(s, 2);
    var t := s[..2];
    assert !IsWhite(t[0]);
    assert TrimStart(t) == t;
    assert !IsDigit(t[1]);
  }

  /** A number outside 32 bits, printed, is read and then rejected: the
      OverflowException case. */
  lemma OutOfRangeOverflows(i: int)
    requires !InInt32(i)
    ensures ReadInteger(IntToDecimal(i)) == Some(i)
    ensures ParseInt32(IntToDecimal(i)) == None
  {
    DecimalReadBack(i);
  }

  lemma ReadSpells(s: string, v: int)
    requires ReadInteger(s) == Some(v)
    ensures Spells(s, v)
  {
    var u := TrimNuls(s);
    var i, k := CutPoints(u);
    var l := |u|;
    SliceOfPrefix(s, u, i, k);
    TrimmedSpells(s, v, i, k, l);
  }

  /** Where the white space cut from both ends of `u` begins and ends. */
  lemma CutPoints(u: string) returns (i: nat, k: nat)
    ensures i <= k <= |u|
    ensures AllWhite(u[..i]) && AllWhite(u[k..])
    ensures u[i..k] == TrimEnd(TrimStart(u))
  {
    var t1 := TrimStart(u);
    var t := TrimEnd(t1);
    i := |u| - |t1|;
    k := i + |t|;
    assert u[i..k] == t;
    assert u[k..] == t1[|t|..];
  }

  lemma SliceOfPrefix(s: string, u: string, i: nat, k: nat)
    requires i <= k <= |u| <= |s| && u == s[..|u|]
    ensures s[..i] == u[..i] && s[k..|u|] == u[k..] && s[i..k] == u[i..k]
  {
  }

  lemma TrimmedSpells(s: string, v: int, i: nat, k: nat, l: nat)
    requires i <= k <= l <= |s|
    requires AllWhite(s[..i]) && AllWhite(s[k..l]) && AllNul(s[l..])
    requires ReadTrimmed(s[i..k]) == Some(v)
    ensures Spells(s, v)
  {
    var t := s[i..k];
    var j := if t[0] == '-' || t[0] == '+' then i + 1 else i;
    assert s[j..k] == t[j - i..];
    assert SpellsAt(s, v, i, j, k, l);
  }

  lemma SpelledReads(s: string, v: int, i: nat, j: nat, k: nat, l: nat)
    requires i <= j < k <= l <= |s| && SpellsAt(s, v, i, j, k, l)
    ensures ReadInteger(s) == Some(v)
  {
    SpelledCut(s, v, i, j, k, l);
    SpelledSign(s, v, i, j, k, l);
  }

  /** Cutting the NULs and the white space leaves the sign and digits. */
  lemma SpelledCut(s: string, v: int, i: nat, j: nat, k: nat, l: nat)
    requires i <= j < k <= l <= |s| && SpellsAt(s, v, i, j, k, l)
    ensures TrimEnd(TrimStart(TrimNuls(s))) == s[i..k]
  {
    SpelledEnds(s, v, i, j, k, l);
    TrimNulsAt(s, l);
    var u := s[..l];
    SliceOfPrefix(s, u, i, k);
    assert u[i] == s[i] && u[k - 1] == s[k - 1];
    TrimBoth(u, i, k);
  }

  /** The spelled number starts with a sign or digit and ends with a
      digit, and what precedes the NULs is no NUL. */
  lemma SpelledEnds(s: string, v: int, i: nat, j: nat, k: nat, l: nat)
    requires i <= j < k <= l <= |s| && SpellsAt(s, v, i, j, k, l)
    ensures !IsWhite(s[i]) && !IsWhite(s[k - 1])
    ensures AllNul(s[l..]) && s[l - 1] != '\0'
  {
    assert IsDigit(s[j]) by { assert s[j..k][0] == s[j]; }
    assert IsDigit(s[k - 1]) by { assert s[j..k][k - 1 - j] == s[k - 1]; }
    if k < l {
      assert IsWhite(s[l - 1]) by { assert s[k..l][l - 1 - k] == s[l - 1]; }
    }
  }

  lemma SpelledSign(s: string, v: int, i: nat, j: nat, k: nat, l: nat)
    requires i <= j < k <= l <= |s| && SpellsAt(s, v, i, j, k, l)
    ensures ReadTrimmed(s[i..k]) == Some(v)
  {
    var t := s[i..k];
    assert t[j - i..] == s[j..k];
    assert t[0] == s[i];
    SignedReads(t, j - i, v);
  }

  lemma SignedReads(t: string, o: nat, v: int)
    requires o <= 1 && o < |t|
    requires o == 1 ==> t[0] == '-' || t[0] == '+'
    requires AllDigits(t[o..])
    requires v == (if o == 1 && t[0] == '-' then 0 - DigitsValue(t[o..]) else DigitsValue(t[o..]))
    ensures ReadTrimmed(t) == Some(v)
  {
    if o == 0 {
      assert t[0..][0] == t[0];
      assert t[0..] == t;
    }
  }

  /** Cutting the NULs stops at the last character that is not one. */
  lemma {:induction false} TrimNulsAt(x: string, l: nat)
    requires 0 < l <= |x|
    requires AllNul(x[l..]) && x[l - 1] != '\0'
    ensures TrimNuls(x) == x[..l]
    decreases |x|
  {
    if l < |x| {
      assert x[l..][|x| - 1 - l] == x[|x| - 1];
      var y := x[..|x| - 1];
      assert y[l..] == x[l..][..|x| - 1 - l];
      TrimNulsAt(y, l);
      assert y[..l] == x[..l];
    }
  }

  /** Trimming cuts exactly the white space around a middle part that
      starts and ends with a non-white character. */
  lemma TrimBoth(s: string, i: nat, k: nat)
    requires i < k <= |s|
    requires AllWhite(s[..i]) && AllWhite(s[k..])
    requires !IsWhite(s[i]) && !IsWhite(s[k - 1])
    ensures TrimEnd(TrimStart(s)) == s[i..k]
  {
    TrimStartAt(s, i);
    TrimEndAfter(s[i..], s, i, k);
  }

  lemma TrimEndAfter(x: string, s: string, i: nat, k: nat)
    requires i < k <= |s| && x == s[i..]
    requires AllWhite(s[..i]) && AllWhite(s[k..])
    requires !IsWhite(s[i]) && !IsWhite(s[k - 1])
    ensures TrimEnd(x) == s[i..k]
  {
    assert x[k - i..] == s[k..];
    assert x[k - i - 1] == s[k - 1];
    TrimEndAt(x, k - i);
    assert x[..k - i] == s[i..k];
  }

  lemma {:induction false} TrimStartAt(s: string, i: nat)
    requires i < |s|
    requires AllWhite(s[..i]) && !IsWhite(s[i])
    ensures TrimStart(s) == s[i..]
  {
    if 0 < i {
      assert s[..i][0] == s[0];
      var y := s[1..];
      assert y[..i - 1] == s[..i][1..];
      TrimStartAt(y, i - 1);
      assert y[i - 1..] == s[i..];
    }
  }

  lemma {:induction false} TrimEndAt(x: string, k: nat)
    requires 0 < k <= |x|
    requires AllWhite(x[k..]) && !IsWhite(x[k - 1])
    ensures TrimEnd(x) == x[..k]
    decreases |x|
  {
    if k < |x| {
      assert x[k..][|x| - 1 - k] == x[|x| - 1];
      var y := x[..|x| - 1];
      assert y[k..] == x[k..][..|x| - 1 - k];
      TrimEndAt(y, k);
      assert y[..k] == x[..k];
    }
  }

  function Pow10(k: nat): (p: nat)
    ensures 1 <= p
  {
    if k == 0 then 1 else 10 * Pow10(k - 1)
  }

  /** `n.ToString("D<width>")` for a number of at most `width` digits: its
      decimal digits, left-padded with zeros to exactly `width` characters. */
  function Pad(n: nat, width: nat): (s: string)
    requires n < Pow10(width)
    ensures |s| == width
    ensures AllDigits(s)
    ensures DigitsValue(s) == n
    decreases width
  {
    if width == 0 then ""
    else
      var s := Pad(n / 10, width - 1) + [DigitChar(n % 10)];
      assert s[..|s| - 1] == Pad(n / 10, width - 1);
      s
  }

  /** Padding agrees with plain formatting when the number already has
      `width` digits. */
  lemma PadFullWidth(n: nat)
    requires 10 <= n < 100
    ensures Pad(n, 2) == NatToDecimal(n)
  {
  }

  // ---------------------------------------------------------------------
  // Joining and choosing strings
  // ---------------------------------------------------------------------

  /** `String.Join(separator, parts)`. */
  function Join(separator: string, parts: seq<string>): string {
    if |parts| == 0 then ""
    else if |parts| == 1 then parts[0]
    else parts[0] + separator + Join(separator, parts[1..])
  }

  /** `String.Concat(parts)`: joining with no separator. */
  function Concat(parts: seq<string>): string {
    if |parts| == 0 then "" else parts[0] + Concat(parts[1..])
  }

  lemma ConcatAppend(a: seq<string>, b: seq<string>)
    ensures Concat(a + b) == Concat(a) + Concat(b)
  {
    if |a| == 0 {
      assert a + b == b;
    } else {
      assert (a + b)[1..] == a[1..] + b;
      ConcatAppend(a[1..], b);
    }
  }

  /** `s` repeated `n` times. */
  function Repeat(s: string, n: nat): (r: string)
    ensures |r| == n * |s|
  {
    if n == 0 then "" else s + Repeat(s, n - 1)
  }

  /** Block `b` of `|s|` characters of `s` repeated `n` times is `s`: the
      repetition is `n` copies of the text and nothing else. */
  lemma {:induction false} RepeatBlock(s: string, n: nat, b: nat)
    requires b < n
    ensures b * |s| + |s| <= |Repeat(s, n)|
    ensures Repeat(s, n)[b * |s|..b * |s| + |s|] == s
  {
    var rest := Repeat(s, n - 1);
    assert Repeat(s, n) == s + rest;
    if b > 0 {
      RepeatBlock(s, n - 1, b - 1);
      assert b * |s| == |s| + (b - 1) * |s|;
      assert (s + rest)[b * |s|..b * |s| + |s|] == rest[(b - 1) * |s|..(b - 1) * |s| + |s|];
    }
  }

  /** Repetitions of one non-empty text are equal exactly when their counts
      are. */
  lemma RepeatEqual(s: string, m: nat, n: nat)
    requires 0 < |s|
    ensures Repeat(s, m) == Repeat(s, n) <==> m == n
  {
    if m != n {
      assert |Repeat(s, m)| != |Repeat(s, n)| by {
        if m < n {
          assert m * |s| < n * |s|;
        } else {
          assert n * |s| < m * |s|;
        }
      }
    }
  }

  /** The scan `if (text.Length > best.Length) best = text` over `texts`,
      started from `best`. */
  function LongestFrom(best: string, texts: seq<string>): (r: string)
    ensures |best| <= |r|
    ensures forall t :: t in texts ==> |t| <= |r|
    ensures r == best || (|best| < |r| && FirstOfLength(texts, r))
    decreases |texts|
  {
    if |texts| == 0 then best
    else
      var next := if |texts[0]| > |best| then texts[0] else best;
      var r := LongestFrom(next, texts[1..]);
      if r == next then r else FirstOfLengthCons(texts, r); r
  }

  lemma FirstOfLengthCons(texts: seq<string>, r: string)
    requires 0 < |texts| && |texts[0]| < |r| && FirstOfLength(texts[1..], r)
    ensures FirstOfLength(texts, r)
  {
    var i :| 0 <= i < |texts[1..]| && texts[1..][i] == r
      && forall j :: 0 <= j < i ==> |texts[1..][j]| < |r|;
    assert texts[i + 1] == r;
    assert forall j :: 0 <= j < i + 1 ==> |texts[j]| < |r| by {
      forall j | 0 <= j < i + 1 ensures |texts[j]| < |r| {
        if j > 0 {
          assert texts[j] == texts[1..][j - 1];
        }
      }
    }
  }

  /** `r` occurs in `texts` and every earlier text is strictly shorter. */
  ghost predicate FirstOfLength(texts: seq<string>, r: string) {
    exists i :: 0 <= i < |texts| && texts[i] == r && forall j :: 0 <= j < i ==> |texts[j]| < |r|
  }

  /** The longest text, the first one among equally long texts, or "" when
      every text is empty. */
  function Longest(texts: seq<string>): (r: string)
    ensures forall t :: t in texts ==> |t| <= |r|
    ensures r == "" || FirstOfLength(texts, r)
  {
    LongestFrom("", texts)
  }
}
