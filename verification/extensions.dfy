/** The utility extensions the library code relies on: MD5 digests written as
    lower-case hex, hash sets built from sequences, and enum descriptions.
    The MD5 algorithm itself is a parameter: only its output length is known. */
module Extensions {
  import opened Wrappers
  import opened Numeric

  /** An MD5 digest: always sixteen bytes. */
  type Digest = d: seq<Byte> | |d| == 16 witness seq(16, _ => 0)

  // ---------------------------------------------------------------------
  // Lower-case hex ("x2" per byte)
  // ---------------------------------------------------------------------

  predicate IsLowerHex(c: char) {
    '0' <= c <= '9' || 'a' <= c <= 'f'
  }

  /** The digit for `n` in "0123456789abcdef". */
  function HexDigit(n: nat): (c: char)
    requires n < 16
    ensures IsLowerHex(c)
  {
    if n < 10 then ('0' as int + n) as char else ('a' as int + (n - 10)) as char
  }

  /** The inverse of `HexDigit` on lower-case hex digits. */
  function HexValue(c: char): (r: Option<nat>)
    ensures r.Some? <==> IsLowerHex(c)
    ensures r.Some? ==> r.value < 16 && HexDigit(r.value) == c
  {
    if '0' <= c <= '9' then Some(c as int - '0' as int)
    else if 'a' <= c <= 'f' then Some(c as int - 'a' as int + 10)
    else None
  }

  /** `b.ToString("x2", CultureInfo.InvariantCulture)`. */
  function HexByte(b: Byte): (s: string)
    ensures |s| == 2 && IsLowerHex(s[0]) && IsLowerHex(s[1])
  {
    [HexDigit(b / 16), HexDigit(b % 16)]
  }

  /** The digest bytes appended one "x2" pair at a time. */
  function Hex(data: seq<Byte>): (s: string)
    ensures |s| == 2 * |data|
    ensures forall i :: 0 <= i < |s| ==> IsLowerHex(s[i])
  {
    if |data| == 0 then "" else HexByte(data[0]) + Hex(data[1..])
  }

  /** Reads a hex string back into bytes; `None` for an odd length or a
      character that is not a lower-case hex digit. */
  function UnHex(s: string): (r: Option<seq<Byte>>)
    ensures r.Some? ==> 2 * |r.value| == |s|
    decreases |s|
  {
    if |s| == 0 then Some([])
    else if |s| == 1 then None
    else
      match (HexValue(s[0]), HexValue(s[1]), UnHex(s[2..]))
      case (Some(hi), Some(lo), Some(rest)) => Some([16 * hi + lo] + rest)
      case _ => None
  }

  lemma HexByteValues(b: Byte)
    ensures HexValue(HexByte(b)[0]) == Some(b / 16)
    ensures HexValue(HexByte(b)[1]) == Some(b % 16)
  {
  }

  /** The encoding loses nothing: decoding recovers the digest bytes. */
  lemma {:induction false} UnHexHex(data: seq<Byte>)
    ensures UnHex(Hex(data)) == Some(data)
  {
    if |data| > 0 {
      var s := Hex(data);
      HexByteValues(data[0]);
      assert s[2..] == Hex(data[1..]);
      UnHexHex(data[1..]);
      assert data == [16 * (data[0] / 16) + data[0] % 16] + data[1..];
    }
  }

  /** Different digests never print the same. */
  lemma HexInjective(a: seq<Byte>, b: seq<Byte>)
    requires Hex(a) == Hex(b)
    ensures a == b
  {
    UnHexHex(a);
    UnHexHex(b);
  }

  lemma {:induction false} HexAppend(a: seq<Byte>, b: Byte)
    ensures Hex(a + [b]) == Hex(a) + HexByte(b)
  {
    if |a| > 0 {
      assert (a + [b])[1..] == a[1..] + [b];
      HexAppend(a[1..], b);
    }
  }

  // ---------------------------------------------------------------------
  // UTF-8 (Encoding.UTF8.GetBytes)
  // ---------------------------------------------------------------------

  /** The UTF-8 bytes of one Unicode scalar value. */
  function Utf8Char(c: char): (r: seq<Byte>)
    ensures 1 <= |r| <= 4
    ensures |r| == 1 <==> c as int < 0x80
  {
    var n := c as int;
    if n < 0x80 then [n]
    else if n < 0x800 then [0xC0 + n / 0x40, 0x80 + n % 0x40]
    else if n < 0x1_0000 then [0xE0 + n / 0x1000, 0x80 + (n / 0x40) % 0x40, 0x80 + n % 0x40]
    else [0xF0 + n / 0x4_0000, 0x80 + (n / 0x1000) % 0x40, 0x80 + (n / 0x40) % 0x40, 0x80 + n % 0x40]
  }

  function Utf8(s: string): (r: seq<Byte>)
    ensures |s| <= |r| <= 4 * |s|
  {
    if |s| == 0 then [] else Utf8Char(s[0]) + Utf8(s[1..])
  }

  /** Encoding a concatenation encodes the parts one after the other. */
  lemma {:induction false} Utf8Append(a: string, b: string)
    ensures Utf8(a + b) == Utf8(a) + Utf8(b)
  {
    if |a| == 0 {
      assert a + b == b;
    } else {
      assert (a + b)[1..] == a[1..] + b;
      Utf8Append(a[1..], b);
    }
  }

  /** An ASCII string encodes to its character codes, one byte each. */
  lemma {:induction false} Utf8OfAscii(s: string)
    requires forall i :: 0 <= i < |s| ==> s[i] as int < 0x80
    ensures |Utf8(s)| == |s|
    ensures forall i :: 0 <= i < |s| ==> Utf8(s)[i] == s[i] as int
  {
    if |s| > 0 {
      Utf8OfAscii(s[1..]);
    }
  }

  // ---------------------------------------------------------------------
  // GetMd5Hash
  // ---------------------------------------------------------------------

  /** `md5Hash.GetMd5Hash(byte[] input)`: the digest of `input`, each byte
      appended as two lower-case hex digits. */
  method GetMd5HashOfBytes(md5: seq<Byte> -> Digest, input: seq<Byte>) returns (r: string)
    ensures |r| == 32
    ensures forall i :: 0 <= i < |r| ==> IsLowerHex(r[i])
    ensures UnHex(r) == Some(md5(input))
  {
    var data := md5(input);
    r := "";
    var i := 0;
    while i < |data|
      invariant 0 <= i <= |data|
      invariant r == Hex(data[..i])
    {
      HexAppend(data[..i], data[i]);
      assert data[..i + 1] == data[..i] + [data[i]];
      r := r + HexByte(data[i]);
      i := i + 1;
    }
    assert data[..i] == data;
    UnHexHex(data);
  }

  /** `md5Hash.GetMd5Hash(string input)`: the byte overload applied to the
      UTF-8 encoding of `input`. */
  method GetMd5HashOfString(md5: seq<Byte> -> Digest, input: string) returns (r: string)
    ensures |r| == 32
    ensures UnHex(r) == Some(md5(Utf8(input)))
  {
    r := GetMd5HashOfBytes(md5, Utf8(input));
  }

  /** The value both overloads compute, for use inside pure definitions. */
  function Md5Hex(md5: seq<Byte> -> Digest, input: seq<Byte>): (r: string)
    ensures |r| == 32
    ensures UnHex(r) == Some(md5(input))
  {
    UnHexHex(md5(input));
    Hex(md5(input))
  }

  /** Two inputs share a printed hash exactly when they share a digest. */
  lemma Md5HexEqual(md5: seq<Byte> -> Digest, a: seq<Byte>, b: seq<Byte>)
    ensures Md5Hex(md5, a) == Md5Hex(md5, b) <==> md5(a) == md5(b)
  {
    if Md5Hex(md5, a) == Md5Hex(md5, b) {
      HexInjective(md5(a), md5(b));
    }
  }

  // ---------------------------------------------------------------------
  // ToHashSet
  // ---------------------------------------------------------------------

  /** `new HashSet<T>(source)`: exactly the distinct elements of `source`. */
  method ToHashSet<T>(source: seq<T>) returns (r: set<T>)
    ensures forall x :: x in r <==> x in source
  {
    r := {};
    var i := 0;
    while i < |source|
      invariant 0 <= i <= |source|
      invariant forall x :: x in r <==> x in source[..i]
    {
      assert source[..i + 1] == source[..i] + [source[i]];
      r := r + {source[i]};
      i := i + 1;
    }
    assert source[..i] == source;
  }

  /** Some element of `r` is equal to `x` under `eq`. */
  predicate Covers<T>(eq: (T, T) -> bool, r: seq<T>, x: T) {
    exists k :: 0 <= k < |r| && eq(r[k], x)
  }

  /** Appending an element keeps every element covered. */
  lemma CoversAppend<T>(eq: (T, T) -> bool, r: seq<T>, y: T)
    ensures forall x :: Covers(eq, r, x) ==> Covers(eq, r + [y], x)
  {
    forall x | Covers(eq, r, x)
      ensures Covers(eq, r + [y], x)
    {
      var k :| 0 <= k < |r| && eq(r[k], x);
      assert (r + [y])[k] == r[k];
    }
  }

  /** No two elements of `r` are equal under `eq`. */
  predicate Unrelated<T>(eq: (T, T) -> bool, r: seq<T>) {
    forall j, k :: 0 <= j < k < |r| ==> !eq(r[j], r[k])
  }

  /** Appending an element no element is equal to keeps them unrelated. */
  lemma UnrelatedAppend<T>(eq: (T, T) -> bool, r: seq<T>, y: T)
    requires Unrelated(eq, r) && !Covers(eq, r, y)
    ensures Unrelated(eq, r + [y])
  {
    var r' := r + [y];
    forall j, k | 0 <= j < k < |r'|
      ensures !eq(r'[j], r'[k])
    {
      if k < |r| {
        assert r'[j] == r[j] && r'[k] == r[k];
      } else {
        assert r'[j] == r[j] && r'[k] == y;
      }
    }
  }

  /** `new HashSet<T>(source, comparer)`: the first element of each class of
      equal elements, in first-occurrence order (a hash set keeps the first
      of equal elements; its iteration order is not modelled). A comparer
      must at least call every element equal to itself. */
  method ToHashSetWith<T(!new)>(eq: (T, T) -> bool, source: seq<T>) returns (r: seq<T>)
    requires forall x :: eq(x, x)
    ensures forall k :: 0 <= k < |r| ==> r[k] in source
    ensures forall x :: x in source ==> Covers(eq, r, x)
    ensures Unrelated(eq, r)
  {
    r := [];
    var i := 0;
    while i < |source|
      invariant 0 <= i <= |source|
      invariant forall k :: 0 <= k < |r| ==> r[k] in source[..i]
      invariant forall y :: y in source[..i] ==> Covers(eq, r, y)
      invariant Unrelated(eq, r)
    {
      var x := source[i];
      assert source[..i + 1] == source[..i] + [x];
      if !Covers(eq, r, x) {
        CoversAppend(eq, r, x);
        UnrelatedAppend(eq, r, x);
        r := r + [x];
        assert eq(r[|r| - 1], x);
      }
      i := i + 1;
    }
    assert source[..i] == source;
  }

  // ---------------------------------------------------------------------
  // GetEnumDescription
  // ---------------------------------------------------------------------

  /** An enum member as reflection sees it: its name and the texts of its
      `[Description]` attributes in declaration order. */
  datatype EnumMember = EnumMember(name: string, descriptions: seq<string>)

  /** The first description, or the member's name when it has none. */
  function GetEnumDescription(m: EnumMember): (r: string)
    ensures r == m.name || r in m.descriptions
    ensures |m.descriptions| > 0 ==> r == m.descriptions[0]
    ensures |m.descriptions| == 0 ==> r == m.name
  {
    if |m.descriptions| > 0 then m.descriptions[0] else m.name
  }
}
