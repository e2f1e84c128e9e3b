/** UTF-16 and UTF-8 as `assertUnicodeScalarString`, `Buffer.from(_, "utf8")` and `compareUtf8` use them. */
module Unicode {
  import opened Options

  type CodeUnit = n: int | 0 <= n < 0x10000
  type Scalar = n: int | 0 <= n < 0xD800 || 0xE000 <= n < 0x110000
  type Byte = n: int | 0 <= n < 0x100

  // ---------------------------------------------------------------- UTF-16

  /** Section 2.1 of RFC 2781. */
  function Units(c: Scalar): (r: seq<CodeUnit>)
    ensures 1 <= |r| <= 2
  {
    if c < 0x10000 then [c]
    else [0xD800 + (c - 0x10000) / 0x400, 0xDC00 + (c - 0x10000) % 0x400]
  }

  function Utf16(cs: seq<Scalar>): seq<CodeUnit> {
    if cs == [] then [] else Units(cs[0]) + Utf16(cs[1..])
  }

  /** Well-formedness by definition: the text is the UTF-16 form of some scalar sequence. */
  ghost predicate WellFormed(s: seq<CodeUnit>) {
    exists cs: seq<Scalar> :: Utf16(cs) == s
  }

  predicate IsHigh(u: CodeUnit) { 0xD800 <= u <= 0xDBFF }
  predicate IsLow(u: CodeUnit) { 0xDC00 <= u <= 0xDFFF }

  function FromPair(high: CodeUnit, low: CodeUnit): Scalar
    requires IsHigh(high) && IsLow(low)
  {
    0x10000 + (high - 0xD800) * 0x400 + (low - 0xDC00)
  }

  function DecodeUtf16(s: seq<CodeUnit>): Option<seq<Scalar>> {
    if s == [] then Some([])
    else if IsHigh(s[0]) then
      if |s| < 2 || !IsLow(s[1]) then None
      else match DecodeUtf16(s[2..]) case None => None case Some(cs) => Some([FromPair(s[0], s[1])] + cs)
    else if IsLow(s[0]) then None
    else match DecodeUtf16(s[1..]) case None => None case Some(cs) => Some([s[0]] + cs)
  }

  lemma {:induction false} DecodeUtf16OfUtf16(cs: seq<Scalar>)
    ensures DecodeUtf16(Utf16(cs)) == Some(cs)
  {
    if cs != [] {
      DecodeUtf16OfUtf16(cs[1..]);
      var s := Utf16(cs);
      assert cs == [cs[0]] + cs[1..];
      if cs[0] < 0x10000 {
        assert s[1..] == Utf16(cs[1..]);
      } else {
        assert s[0] == Units(cs[0])[0] && s[1] == Units(cs[0])[1];
        assert s[2..] == Utf16(cs[1..]);
        assert FromPair(s[0], s[1]) == cs[0];
      }
    }
  }

  lemma {:induction false} Utf16OfDecodeUtf16(s: seq<CodeUnit>)
    requires DecodeUtf16(s).Some?
    ensures Utf16(DecodeUtf16(s).value) == s
  {
    if s != [] {
      var cs := DecodeUtf16(s).value;
      if IsHigh(s[0]) {
        Utf16OfDecodeUtf16(s[2..]);
        assert cs[1..] == DecodeUtf16(s[2..]).value;
        assert Units(cs[0]) == [s[0], s[1]];
      } else {
        Utf16OfDecodeUtf16(s[1..]);
        assert cs[1..] == DecodeUtf16(s[1..]).value;
      }
    }
  }

  lemma WellFormedIffDecodes(s: seq<CodeUnit>)
    ensures WellFormed(s) <==> DecodeUtf16(s).Some?
  {
    if DecodeUtf16(s).Some? {
      Utf16OfDecodeUtf16(s);
    }
    if WellFormed(s) {
      var cs: seq<Scalar> :| Utf16(cs) == s;
      DecodeUtf16OfUtf16(cs);
    }
  }

  datatype Verdict = Accepted | HasNul | Unpaired

  /** The verdict of the left-to-right scan. */
  function Scan(s: seq<CodeUnit>): Verdict {
    if s == [] then Accepted
    else if s[0] == 0 then HasNul
    else if IsHigh(s[0]) then if |s| >= 2 && IsLow(s[1]) then Scan(s[2..]) else Unpaired
    else if IsLow(s[0]) then Unpaired
    else Scan(s[1..])
  }

  lemma {:induction false} ScanAcceptsExactly(s: seq<CodeUnit>)
    ensures Scan(s).Accepted? <==> WellFormed(s) && 0 !in s
  {
    WellFormedIffDecodes(s);
    if s == [] {
    } else if IsHigh(s[0]) && |s| >= 2 && IsLow(s[1]) {
      ScanAcceptsExactly(s[2..]);
      WellFormedIffDecodes(s[2..]);
      assert s == [s[0], s[1]] + s[2..];
      assert 0 in s <==> 0 in s[2..];
    } else if s[0] != 0 && !IsHigh(s[0]) && !IsLow(s[0]) {
      ScanAcceptsExactly(s[1..]);
      WellFormedIffDecodes(s[1..]);
      assert s == [s[0]] + s[1..];
      assert 0 in s <==> 0 in s[1..];
    }
  }

  /** A surrogate at `i` without the one it needs. */
  predicate UnpairedAt(s: seq<CodeUnit>, i: nat) {
    i < |s| && (IsLow(s[i]) || (IsHigh(s[i]) && (i + 1 == |s| || !IsLow(s[i + 1]))))
  }

  /** A refused string is in order up to some place, and there has the defect that is named. */
  lemma {:induction false} ScanNamesTheDefect(s: seq<CodeUnit>) returns (i: nat)
    requires !Scan(s).Accepted?
    ensures i < |s| && WellFormed(s[..i]) && 0 !in s[..i]
    ensures if Scan(s).HasNul? then s[i] == 0 else UnpairedAt(s, i)
  {
    if s[0] == 0 || UnpairedAt(s, 0) {
      i := 0;
      assert Utf16([]) == s[..0];
    } else {
      var step := if IsHigh(s[0]) then 2 else 1;
      var j := ScanNamesTheDefect(s[step..]);
      i := j + step;
      assert s[..i] == s[..step] + s[step..][..j];
      WellFormedJoins(s[..step], s[step..][..j]);
    }
  }

  lemma WellFormedJoins(s: seq<CodeUnit>, t: seq<CodeUnit>)
    requires DecodeUtf16(s).Some? && |s| <= 2 && WellFormed(t)
    ensures WellFormed(s + t)
  {
    WellFormedIffDecodes(t);
    WellFormedIffDecodes(s + t);
    if s != [] {
      assert (s + t)[|s|..] == t;
      if |s| == 2 && !IsHigh(s[0]) {
        assert (s + t)[1..] == [s[1]] + t && (s + t)[1..][1..] == t;
        assert DecodeUtf16(s[1..]).Some? && s[1..] == [s[1]];
      }
    } else {
      assert s + t == t;
    }
  }

  method AssertUnicodeScalarString(value: seq<CodeUnit>) returns (verdict: Verdict)
    ensures verdict == Scan(value)
    ensures verdict.Accepted? <==> WellFormed(value) && 0 !in value
  {
    ScanAcceptsExactly(value);
    var index := 0;
    while index < |value|
      invariant 0 <= index <= |value|
      invariant Scan(value) == Scan(value[index..])
    {
      var codeUnit := value[index];
      assert value[index..][0] == codeUnit;
      assert value[index..][1..] == value[index + 1..];
      if codeUnit == 0 {
        return HasNul;
      } else if IsHigh(codeUnit) {
        // charCodeAt past the end is NaN, which fails both comparisons.
        if !(index + 1 < |value| && IsLow(value[index + 1])) {
          return Unpaired;
        }
        assert value[index..][1] == value[index + 1];
        assert value[index..][2..] == value[index + 2..];
        index := index + 1;
      } else if IsLow(codeUnit) {
        return Unpaired;
      }
      index := index + 1;
    }
    return Accepted;
  }

  // ----------------------------------------------------------------- UTF-8

  /** Section 3 of RFC 3629. */
  function Bytes(c: Scalar): (r: seq<Byte>)
    ensures 1 <= |r| <= 4
  {
    if c < 0x80 then [c]
    else if c < 0x800 then [0xC0 + c / 0x40, 0x80 + c % 0x40]
    else if c < 0x10000 then [0xE0 + c / 0x1000, 0x80 + c / 0x40 % 0x40, 0x80 + c % 0x40]
    else [0xF0 + c / 0x40000, 0x80 + c / 0x1000 % 0x40, 0x80 + c / 0x40 % 0x40, 0x80 + c % 0x40]
  }

  function Utf8(cs: seq<Scalar>): seq<Byte> {
    if cs == [] then [] else Bytes(cs[0]) + Utf8(cs[1..])
  }

  /** `Buffer.compare`: bytewise lexicographic, -1, 0 or 1. Used on scalars it is code-point order. */
  function Compare(a: seq<int>, b: seq<int>): (r: int)
    ensures r == 0 <==> a == b
    ensures r in {-1, 0, 1}
  {
    if a == [] then if b == [] then 0 else -1
    else if b == [] then 1
    else if a[0] < b[0] then -1
    else if a[0] > b[0] then 1
    else
      assert a == [a[0]] + a[1..] && b == [b[0]] + b[1..];
      Compare(a[1..], b[1..])
  }

  lemma {:induction false} CompareAntisymmetric(a: seq<int>, b: seq<int>)
    ensures Compare(a, b) == -Compare(b, a)
  {
    if a != [] && b != [] && a[0] == b[0] {
      CompareAntisymmetric(a[1..], b[1..]);
    }
  }

  lemma {:induction false} CompareTransitive(a: seq<int>, b: seq<int>, c: seq<int>)
    requires Compare(a, b) <= 0 && Compare(b, c) <= 0
    ensures Compare(a, c) <= 0
  {
    if a != [] && b != [] && c != [] && a[0] == b[0] == c[0] {
      CompareTransitive(a[1..], b[1..], c[1..]);
    }
  }

  lemma {:induction false} CompareCommonPrefix(p: seq<int>, a: seq<int>, b: seq<int>)
    ensures Compare(p + a, p + b) == Compare(a, b)
  {
    if p == [] {
      assert p + a == a && p + b == b;
    } else {
      assert (p + a)[1..] == p[1..] + a && (p + b)[1..] == p[1..] + b;
      CompareCommonPrefix(p[1..], a, b);
    }
  }

  lemma {:induction false} CompareFirstDifference(a: seq<int>, b: seq<int>, k: nat)
    requires k < |a| && k < |b|
    requires a[..k] == b[..k] && a[k] < b[k]
    ensures Compare(a, b) == -1
  {
    assert a == a[..k] + a[k..] && b == b[..k] + b[k..];
    CompareCommonPrefix(a[..k], a[k..], b[k..]);
  }

  lemma Remainders(c: int, d: int, m: int)
    requires 0 <= c < d && 0 < m
    ensures c / m <= d / m
    ensures c / m == d / m ==> c % m < d % m
  {
    assert c == m * (c / m) + c % m && d == m * (d / m) + d % m;
    if c / m > d / m {
      assert m * (c / m) >= m * (d / m + 1) by { Scale(m, d / m + 1, c / m); }
      assert false;
    }
  }

  lemma Scale(m: int, x: int, y: int)
    requires 0 <= m && x <= y
    ensures m * x <= m * y
  {
  }

  /** Two scalars in code-point order first differ, in UTF-8, at a byte that keeps their order. */
  lemma BytesDiffer(c: Scalar, d: Scalar) returns (k: nat)
    requires c < d
    ensures k < |Bytes(c)| && k < |Bytes(d)|
    ensures Bytes(c)[..k] == Bytes(d)[..k] && Bytes(c)[k] < Bytes(d)[k]
  {
    k := 0;
    if |Bytes(c)| == |Bytes(d)| {
      if 0x80 <= d < 0x800 {
        k := TwoBytes(c, d);
      } else if 0x800 <= d < 0x10000 {
        k := ThreeBytes(c, d);
      } else if 0x10000 <= d {
        k := FourBytes(c, d);
      }
    }
  }

  lemma TwoBytes(c: Scalar, d: Scalar) returns (k: nat)
    requires 0x80 <= c < d < 0x800
    ensures k < 2 && Bytes(c)[..k] == Bytes(d)[..k] && Bytes(c)[k] < Bytes(d)[k]
  {
    Remainders(c, d, 0x40);
    k := if c / 0x40 < d / 0x40 then 0 else 1;
  }

  lemma ThreeBytes(c: Scalar, d: Scalar) returns (k: nat)
    requires 0x800 <= c < d < 0x10000
    ensures k < 3 && Bytes(c)[..k] == Bytes(d)[..k] && Bytes(c)[k] < Bytes(d)[k]
  {
    Remainders(c, d, 0x40);
    assert c / 0x40 / 0x40 == c / 0x1000 && d / 0x40 / 0x40 == d / 0x1000;
    if c / 0x40 < d / 0x40 {
      Remainders(c / 0x40, d / 0x40, 0x40);
      k := if c / 0x1000 < d / 0x1000 then 0 else 1;
    } else {
      k := 2;
    }
  }

  lemma FourBytes(c: Scalar, d: Scalar) returns (k: nat)
    requires 0x10000 <= c < d
    ensures k < 4 && Bytes(c)[..k] == Bytes(d)[..k] && Bytes(c)[k] < Bytes(d)[k]
  {
    Remainders(c, d, 0x40);
    assert c / 0x40 / 0x40 == c / 0x1000 && d / 0x40 / 0x40 == d / 0x1000;
    assert c / 0x1000 / 0x40 == c / 0x40000 && d / 0x1000 / 0x40 == d / 0x40000;
    if c / 0x40 < d / 0x40 {
      Remainders(c / 0x40, d / 0x40, 0x40);
      if c / 0x1000 < d / 0x1000 {
        Remainders(c / 0x1000, d / 0x1000, 0x40);
        k := if c / 0x40000 < d / 0x40000 then 0 else 1;
      } else {
        k := 2;
      }
    } else {
      k := 3;
    }
  }

  /** Bytewise order of UTF-8 is code-point order. */
  lemma {:induction false} Utf8OrderIsCodePointOrder(a: seq<Scalar>, b: seq<Scalar>)
    ensures Compare(Utf8(a), Utf8(b)) == Compare(a, b)
  {
    if a == [] || b == [] {
    } else if a[0] == b[0] {
      Utf8OrderIsCodePointOrder(a[1..], b[1..]);
      CompareCommonPrefix(Bytes(a[0]), Utf8(a[1..]), Utf8(b[1..]));
    } else if a[0] < b[0] {
      Utf8HeadDecides(a, b);
    } else {
      Utf8HeadDecides(b, a);
      CompareAntisymmetric(Utf8(a), Utf8(b));
    }
  }

  lemma Utf8HeadDecides(a: seq<Scalar>, b: seq<Scalar>)
    requires a != [] && b != [] && a[0] < b[0]
    ensures Compare(Utf8(a), Utf8(b)) == -1
  {
    var k := BytesDiffer(a[0], b[0]);
    assert Utf8(a)[..k] == Bytes(a[0])[..k] && Utf8(b)[..k] == Bytes(b[0])[..k];
    CompareFirstDifference(Utf8(a), Utf8(b), k);
  }

  lemma Utf8Injective(a: seq<Scalar>, b: seq<Scalar>)
    requires Utf8(a) == Utf8(b)
    ensures a == b
  {
    Utf8OrderIsCodePointOrder(a, b);
  }

  /** The UTF-8 bytes of an accepted string. */
  function Encode(s: seq<CodeUnit>): seq<Byte>
  {
    match DecodeUtf16(s)
    case Some(cs) => Utf8(cs)
    case None => []
  }

  /** `compareUtf8` separates accepted keys. */
  lemma EncodeInjective(s: seq<CodeUnit>, t: seq<CodeUnit>)
    requires Scan(s).Accepted? && Scan(t).Accepted?
    ensures Compare(Encode(s), Encode(t)) == 0 <==> s == t
  {
    ScanAcceptsExactly(s);
    ScanAcceptsExactly(t);
    WellFormedIffDecodes(s);
    WellFormedIffDecodes(t);
    if Encode(s) == Encode(t) {
      Utf8Injective(DecodeUtf16(s).value, DecodeUtf16(t).value);
      Utf16OfDecodeUtf16(s);
      Utf16OfDecodeUtf16(t);
    }
  }

  /** `compareUtf8` on accepted strings is Unicode code-point order. */
  lemma CompareUtf8IsCodePointOrder(a: seq<Scalar>, b: seq<Scalar>)
    ensures Compare(Encode(Utf16(a)), Encode(Utf16(b))) == Compare(a, b)
  {
    DecodeUtf16OfUtf16(a);
    DecodeUtf16OfUtf16(b);
    Utf8OrderIsCodePointOrder(a, b);
  }

  // --------------------------------------------------------- UTF-8 decoding

  /** Length of the sequence a lead byte announces; 0 for a byte that cannot lead. */
  function LeadLength(b: Byte): (r: nat)
    ensures r <= 4
  {
    if b < 0x80 then 1 else if 0xC2 <= b < 0xE0 then 2 else if 0xE0 <= b < 0xF0 then 3
      else if 0xF0 <= b < 0xF5 then 4 else 0
  }

  function HeadCodePoint(bs: seq<int>, n: nat): int
    requires 1 <= n <= 4 && n <= |bs|
  {
    if n == 1 then bs[0]
    else if n == 2 then (bs[0] - 0xC0) * 0x40 + (bs[1] - 0x80)
    else if n == 3 then (bs[0] - 0xE0) * 0x1000 + (bs[1] - 0x80) * 0x40 + (bs[2] - 0x80)
    else (bs[0] - 0xF0) * 0x40000 + (bs[1] - 0x80) * 0x1000 + (bs[2] - 0x80) * 0x40 + (bs[3] - 0x80)
  }

  function DecodeUtf8(bs: seq<Byte>): Option<seq<Scalar>> {
    if bs == [] then Some([])
    else
      var n := LeadLength(bs[0]);
      if n == 0 || |bs| < n then None
      else
        var c := HeadCodePoint(bs, n);
        if !(0 <= c < 0xD800 || 0xE000 <= c < 0x110000) || Bytes(c) != bs[..n] then None
        else match DecodeUtf8(bs[n..]) case None => None case Some(cs) => Some([c] + cs)
  }

  lemma HeadOfBytes(c: Scalar)
    ensures LeadLength(Bytes(c)[0]) == |Bytes(c)|
    ensures HeadCodePoint(Bytes(c), |Bytes(c)|) == c
  {
    if c < 0x80 {
    } else if c < 0x800 {
    } else if c < 0x10000 {
      assert c / 0x40 == c / 0x1000 * 0x40 + c / 0x40 % 0x40;
    } else {
      assert c / 0x40 == c / 0x1000 * 0x40 + c / 0x40 % 0x40;
      assert c / 0x1000 == c / 0x40000 * 0x40 + c / 0x1000 % 0x40;
    }
  }

  lemma PrefixHead(c: Scalar, bs: seq<Byte>)
    requires |Bytes(c)| <= |bs| && bs[..|Bytes(c)|] == Bytes(c)
    ensures HeadCodePoint(bs, |Bytes(c)|) == c
  {
    HeadOfBytes(c);
    assert forall i :: 0 <= i < |Bytes(c)| ==> bs[i] == bs[..|Bytes(c)|][i];
  }

  function Prepend(cs: seq<Scalar>, decoded: Option<seq<Scalar>>): Option<seq<Scalar>> {
    match decoded case None => None case Some(ds) => Some(cs + ds)
  }

  lemma DecodeOneMore(c: Scalar, tail: seq<Byte>)
    ensures DecodeUtf8(Bytes(c) + tail) == Prepend([c], DecodeUtf8(tail))
  {
    var n, all := |Bytes(c)|, Bytes(c) + tail;
    HeadOfBytes(c);
    assert all[..n] == Bytes(c) && all[n..] == tail && all[0] == Bytes(c)[0];
    PrefixHead(c, all);
  }

  lemma PrependOne(cs: seq<Scalar>, decoded: Option<seq<Scalar>>)
    requires cs != []
    ensures Prepend([cs[0]], Prepend(cs[1..], decoded)) == Prepend(cs, decoded)
  {
    if decoded.Some? {
      assert [cs[0]] + (cs[1..] + decoded.value) == cs + decoded.value;
    }
  }

  lemma HeadBytes(cs: seq<Scalar>, rest: seq<Byte>)
    requires cs != []
    ensures Utf8(cs) + rest == Bytes(cs[0]) + (Utf8(cs[1..]) + rest)
  {
  }

  lemma PrependNothing(decoded: Option<seq<Scalar>>)
    ensures Prepend([], decoded) == decoded
  {
    if decoded.Some? { assert [] + decoded.value == decoded.value; }
  }

  lemma DecodeStep(cs: seq<Scalar>, rest: seq<Byte>)
    requires cs != [] && DecodeUtf8(Utf8(cs[1..]) + rest) == Prepend(cs[1..], DecodeUtf8(rest))
    ensures DecodeUtf8(Utf8(cs) + rest) == Prepend(cs, DecodeUtf8(rest))
  {
    HeadBytes(cs, rest);
    DecodeOneMore(cs[0], Utf8(cs[1..]) + rest);
    PrependOne(cs, DecodeUtf8(rest));
  }

  /** A string's bytes decode to the string, whatever bytes follow. */
  lemma {:induction false} DecodeUtf8Prefix(cs: seq<Scalar>, rest: seq<Byte>)
    ensures DecodeUtf8(Utf8(cs) + rest) == Prepend(cs, DecodeUtf8(rest))
  {
    if cs == [] {
      assert Utf8(cs) + rest == rest;
      PrependNothing(DecodeUtf8(rest));
    } else {
      DecodeUtf8Prefix(cs[1..], rest);
      DecodeStep(cs, rest);
    }
  }

  lemma DecodeUtf8OfUtf8(cs: seq<Scalar>)
    ensures DecodeUtf8(Utf8(cs)) == Some(cs)
  {
    DecodeUtf8Prefix(cs, []);
    assert Utf8(cs) + [] == Utf8(cs) && cs + [] == cs;
  }
}
