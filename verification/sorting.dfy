/** Sorting a sequence by a total order, as `OrderBy` does, and the fact that
    makes a key built from a sorted sequence independent of the input order:
    a sorted permutation is unique. */
module Sorting {

  ghost predicate IsTotalOrder<T(!new)>(le: (T, T) -> bool) {
    && (forall x :: le(x, x))
    && (forall x, y :: le(x, y) && le(y, x) ==> x == y)
    && (forall x, y, z :: le(x, y) && le(y, z) ==> le(x, z))
    && (forall x, y :: le(x, y) || le(y, x))
  }

  predicate SortedBy<T>(le: (T, T) -> bool, s: seq<T>) {
    forall i, j :: 0 <= i < j < |s| ==> le(s[i], s[j])
  }

  /** Inserts `x` before the first element it does not follow. */
  function Insert<T(!new)>(le: (T, T) -> bool, x: T, s: seq<T>): (r: seq<T>)
    requires IsTotalOrder(le) && SortedBy(le, s)
    ensures SortedBy(le, r)
    ensures multiset(r) == multiset(s) + multiset{x}
  {
    if |s| == 0 then [x]
    else if le(x, s[0]) then
      assert forall k :: 0 <= k < |s| ==> le(x, s[k]);
      [x] + s
    else
      var rest := Insert(le, x, s[1..]);
      assert s == [s[0]] + s[1..];
      assert forall y :: y in multiset(rest) ==> le(s[0], y) by {
        forall y | y in multiset(rest) ensures le(s[0], y) {
          if y != x {
            assert y in multiset(s[1..]);
            var k :| 0 <= k < |s[1..]| && s[1..][k] == y;
            assert s[k + 1] == y;
          }
        }
      }
      assert forall k :: 0 <= k < |rest| ==> rest[k] in multiset(rest);
      [s[0]] + rest
  }

  /** Insertion sort. */
  function Sort<T(!new)>(le: (T, T) -> bool, s: seq<T>): (r: seq<T>)
    requires IsTotalOrder(le)
    ensures SortedBy(le, r)
    ensures multiset(r) == multiset(s)
  {
    if |s| == 0 then []
    else
      assert s == [s[0]] + s[1..];
      Insert(le, s[0], Sort(le, s[1..]))
  }

  /** Two sorted sequences with the same elements are equal. */
  lemma {:induction false} SortedUnique<T(!new)>(le: (T, T) -> bool, a: seq<T>, b: seq<T>)
    requires IsTotalOrder(le)
    requires SortedBy(le, a) && SortedBy(le, b)
    requires multiset(a) == multiset(b)
    ensures a == b
  {
    if |a| == 0 {
      assert |b| == |multiset(b)| == 0;
    } else {
      assert |b| == |multiset(b)| == |multiset(a)| == |a|;
      HeadIsLeast(le, a, b[0]);
      HeadIsLeast(le, b, a[0]);
      assert a[0] == b[0];
      TailMultiset(a);
      TailMultiset(b);
      SortedUnique(le, a[1..], b[1..]);
      assert a == [a[0]] + a[1..];
      assert b == [b[0]] + b[1..];
    }
  }

  lemma HeadIsLeast<T(!new)>(le: (T, T) -> bool, s: seq<T>, x: T)
    requires IsTotalOrder(le) && SortedBy(le, s)
    requires x in multiset(s)
    ensures 0 < |s| && le(s[0], x)
  {
    var k :| 0 <= k < |s| && s[k] == x;
    if k > 0 {
      assert le(s[0], s[k]);
    }
  }

  lemma TailMultiset<T>(s: seq<T>)
    requires 0 < |s|
    ensures multiset(s[1..]) == multiset(s) - multiset{s[0]}
  {
    assert s == [s[0]] + s[1..];
  }

  /** Sorting forgets the input order: permutations sort to the same result. */
  lemma SortIgnoresOrder<T(!new)>(le: (T, T) -> bool, a: seq<T>, b: seq<T>)
    requires IsTotalOrder(le)
    requires multiset(a) == multiset(b)
    ensures Sort(le, a) == Sort(le, b)
  {
    SortedUnique(le, Sort(le, a), Sort(le, b));
  }

  // ---------------------------------------------------------------------
  // The two orders the program sorts by
  // ---------------------------------------------------------------------

  /** `OrderBy(id => id)` on Int32 artist ids. */
  function IntLe(): (int, int) -> bool {
    (x: int, y: int) => x <= y
  }

  lemma IntLeIsTotal()
    ensures IsTotalOrder(IntLe())
  {
  }

  /** The UTF-16 code units of one character, as a .NET string stores it:
      one unit below U+10000, otherwise a high surrogate (U+D800..U+DBFF)
      followed by a low surrogate (U+DC00..U+DFFF). */
  function Utf16(c: char): (r: seq<int>)
    ensures 1 <= |r| <= 2
    ensures forall k :: 0 <= k < |r| ==> 0 <= r[k] < 0x1_0000
    ensures |r| == 2 <==> 0xD800 <= r[0] < 0xDC00
    ensures |r| == 2 ==> 0xDC00 <= r[1] < 0xE000
    ensures (c as int) < 0x1_0000 ==> r == [c as int]
  {
    var v := c as int;
    if v < 0x1_0000 then [v]
    else [0xD800 + (v - 0x1_0000) / 0x400, 0xDC00 + (v - 0x1_0000) % 0x400]
  }

  /** The UTF-16 code units of a string. */
  function CodeUnits(s: string): (r: seq<int>)
    ensures |s| <= |r| <= 2 * |s|
  {
    if |s| == 0 then [] else Utf16(s[0]) + CodeUnits(s[1..])
  }

  /** Lexicographic order on code-unit sequences, a proper prefix first. */
  predicate UnitsLe(a: seq<int>, b: seq<int>)
    decreases |a|
  {
    |a| == 0 || (|b| > 0 && (a[0] < b[0] || (a[0] == b[0] && UnitsLe(a[1..], b[1..]))))
  }

  /** `StringComparer.Ordinal`: lexicographic by UTF-16 code unit, which is
      not the order of code points once a character above U+FFFF meets one
      in U+E000..U+FFFF. */
  predicate OrdinalLe(a: string, b: string) {
    UnitsLe(CodeUnits(a), CodeUnits(b))
  }

  lemma {:induction false} UnitsLeIsTotalAt(a: seq<int>, b: seq<int>, c: seq<int>)
    ensures UnitsLe(a, a)
    ensures UnitsLe(a, b) && UnitsLe(b, a) ==> a == b
    ensures UnitsLe(a, b) && UnitsLe(b, c) ==> UnitsLe(a, c)
    ensures UnitsLe(a, b) || UnitsLe(b, a)
    decreases |a|
  {
    if |a| > 0 {
      if |b| > 0 && |c| > 0 {
        UnitsLeIsTotalAt(a[1..], b[1..], c[1..]);
      } else if |b| > 0 {
        UnitsLeIsTotalAt(a[1..], b[1..], b[1..]);
      } else if |c| > 0 {
        UnitsLeIsTotalAt(a[1..], a[1..], c[1..]);
      } else {
        UnitsLeIsTotalAt(a[1..], a[1..], a[1..]);
      }
      if UnitsLe(a, b) && UnitsLe(b, a) {
        assert a == [a[0]] + a[1..];
        assert b == [b[0]] + b[1..];
      }
    }
  }

  /** Distinct characters have distinct encodings. */
  lemma Utf16Injective(c: char, d: char)
    ensures Utf16(c) == Utf16(d) ==> c == d
  {
    var v, w := c as int - 0x1_0000, d as int - 0x1_0000;
    if Utf16(c) == Utf16(d) && 0 <= v && 0 <= w {
      assert v / 0x400 == w / 0x400 && v % 0x400 == w % 0x400;
      assert v == 0x400 * (v / 0x400) + v % 0x400;
      assert w == 0x400 * (w / 0x400) + w % 0x400;
    }
  }

  /** UTF-16 is decodable: the code units determine the string. */
  lemma {:induction false} CodeUnitsInjective(a: string, b: string)
    ensures CodeUnits(a) == CodeUnits(b) ==> a == b
    decreases |a|
  {
    if CodeUnits(a) == CodeUnits(b) && 0 < |a| && 0 < |b| {
      var u := CodeUnits(a);
      var x, y := Utf16(a[0]), Utf16(b[0]);
      assert u[..|x|] == x && u[|x|..] == CodeUnits(a[1..]);
      assert u[..|y|] == y && u[|y|..] == CodeUnits(b[1..]);
      assert |x| == |y| by {
        assert x[0] == u[0] == y[0];
      }
      Utf16Injective(a[0], b[0]);
      CodeUnitsInjective(a[1..], b[1..]);
      assert a == [a[0]] + a[1..];
      assert b == [b[0]] + b[1..];
    }
  }

  lemma {:induction false} OrdinalLeIsTotalAt(a: string, b: string, c: string)
    ensures OrdinalLe(a, a)
    ensures OrdinalLe(a, b) && OrdinalLe(b, a) ==> a == b
    ensures OrdinalLe(a, b) && OrdinalLe(b, c) ==> OrdinalLe(a, c)
    ensures OrdinalLe(a, b) || OrdinalLe(b, a)
  {
    UnitsLeIsTotalAt(CodeUnits(a), CodeUnits(b), CodeUnits(c));
    CodeUnitsInjective(a, b);
  }

  /** Below U+D800 the code units are the characters, so the first
      characters decide when they differ there. */
  lemma LeadingCharDecides(a: string, b: string)
    requires 0 < |a| && 0 < |b| && a[0] < b[0] && (b[0] as int) < 0xD800
    ensures OrdinalLe(a, b) && !OrdinalLe(b, a)
  {
    assert CodeUnits(a)[0] == a[0] as int;
    assert CodeUnits(b)[0] == b[0] as int;
  }

  /** A character above U+FFFF sorts before one in U+E000..U+FFFF, the
      reverse of their code points: its high surrogate is below U+E000. */
  lemma SurrogateSortsFirst(a: string, b: string)
    requires |a| == 1 && |b| == 1
    requires 0x1_0000 <= (a[0] as int) && 0xE000 <= (b[0] as int) < 0x1_0000
    ensures b[0] < a[0]
    ensures OrdinalLe(a, b) && !OrdinalLe(b, a)
  {
    assert CodeUnits(a)[0] < 0xDC00;
    assert CodeUnits(b)[0] == b[0] as int;
  }

  function StringLe(): (string, string) -> bool {
    (a: string, b: string) => OrdinalLe(a, b)
  }

  lemma StringLeIsTotal()
    ensures IsTotalOrder(StringLe())
  {
    forall a: string, b: string, c: string
      ensures OrdinalLe(a, a)
      ensures OrdinalLe(a, b) && OrdinalLe(b, a) ==> a == b
      ensures OrdinalLe(a, b) && OrdinalLe(b, c) ==> OrdinalLe(a, c)
      ensures OrdinalLe(a, b) || OrdinalLe(b, a)
    {
      OrdinalLeIsTotalAt(a, b, c);
    }
  }
}
