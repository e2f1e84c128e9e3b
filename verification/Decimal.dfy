/** `canonicalJsonNumber`: from the text `JSON.stringify` gives a number to exponent-free decimal. */
module Decimal {
  import opened Options

  type Digit = n: int | 0 <= n < 10

  /** A number value. A finite non-zero one is held as section 6.1.6.1.20 of ECMA-262
      (Number::toString) chooses it: significand digits and decimal point position `n`, so that its
      magnitude is 0.d1d2...dk times ten to the `n`. */
  datatype Number = NaN | Infinity(negative: bool) | Zero(negative: bool)
                  | Finite(negative: bool, digits: seq<Digit>, n: int)
  {
    /** The digit sequence is as short as possible. */
    predicate Normal() {
      Finite? ==> digits != [] && digits[0] != 0 && digits[|digits| - 1] != 0
    }
  }

  /** The capture groups of the regular expression applied to the serialised number. */
  datatype Serialised = Serialised(negative: bool, integer: seq<Digit>, fraction: seq<Digit>, exponent: int)

  function Zeros(k: nat): seq<Digit> { seq(k, _ => 0) }

  /** Number::toString for radix ten. */
  function Stringify(num: Number): (p: Serialised)
    requires num.Finite? && num.Normal()
    ensures p.integer != []
  {
    var k := |num.digits|;
    if k <= num.n <= 21 then Serialised(num.negative, num.digits + Zeros(num.n - k), [], 0)
    else if 0 < num.n <= 21 then Serialised(num.negative, num.digits[..num.n], num.digits[num.n..], 0)
    else if -6 < num.n <= 0 then Serialised(num.negative, [0], Zeros(-num.n) + num.digits, 0)
    else Serialised(num.negative, [num.digits[0]], num.digits[1..], num.n - 1)
  }

  function DigitChar(d: Digit): char { '0' + d as char }

  function Chars(ds: seq<Digit>): (r: string)
    ensures |r| == |ds|
    ensures forall i :: 0 <= i < |ds| ==> r[i] == DigitChar(ds[i])
  {
    seq(|ds|, i requires 0 <= i < |ds| => DigitChar(ds[i]))
  }

  function Magnitude(digits: seq<Digit>, scale: int): string {
    var point := |digits| + scale;
    if scale >= 0 then Chars(digits) + Chars(Zeros(scale))
    else if point > 0 then Chars(digits[..point]) + "." + Chars(digits[point..])
    else "0." + Chars(Zeros(-point)) + Chars(digits)
  }

  function PlainText(p: Serialised): string {
    (if p.negative then "-" else "") + Magnitude(p.integer + p.fraction, p.exponent - |p.fraction|)
  }

  /** The whole function; `None` is the thrown non-finite error. */
  function CanonicalNumber(num: Number): Option<string>
    requires num.Normal()
  {
    if num.NaN? || num.Infinity? then None
    else if num.Zero? then Some("0")
    else Some(PlainText(Stringify(num)))
  }

  // ------------------------------------------------------------ the meaning

  /** The rational `d` times ten to the `e`. */
  function Scaled(d: nat, e: int): real
    decreases if e < 0 then -e else e
  {
    if e == 0 then d as real else if e > 0 then Scaled(10 * d, e - 1) else Scaled(d, e + 1) / 10.0
  }

  function DigitsValue(ds: seq<Digit>): nat {
    if ds == [] then 0 else 10 * DigitsValue(ds[..|ds| - 1]) + ds[|ds| - 1]
  }

  function Signed(negative: bool, r: real): real { if negative then -r else r }

  /** The rational a serialisation with an exponent denotes. */
  function Value(p: Serialised): real {
    Signed(p.negative, Scaled(DigitsValue(p.integer + p.fraction), p.exponent - |p.fraction|))
  }

  function NumberValue(num: Number): real
    requires num.Finite?
  {
    Signed(num.negative, Scaled(DigitsValue(num.digits), num.n - |num.digits|))
  }

  predicate IsDigit(c: char) { '0' <= c <= '9' }

  predicate AllDigits(t: string) { forall i :: 0 <= i < |t| ==> IsDigit(t[i]) }

  function ReadDigits(t: string): (r: seq<Digit>)
    requires AllDigits(t)
    ensures |r| == |t|
  {
    seq(|t|, i requires 0 <= i < |t| && IsDigit(t[i]) => (t[i] - '0') as int)
  }

  /** `t` reads as `\d+(\.\d+)?` with its point, if any, at position `point`; its value follows. */
  predicate Unsigned(t: string, point: nat) {
    && 0 < point <= |t| && AllDigits(t[..point])
    && (point < |t| ==> t[point] == '.' && point + 1 < |t| && AllDigits(t[point + 1..]))
  }

  function UnsignedValue(t: string, point: nat): real
    requires Unsigned(t, point)
  {
    if point == |t| then Scaled(DigitsValue(ReadDigits(t[..point])), 0)
    else Scaled(DigitsValue(ReadDigits(t[..point]) + ReadDigits(t[point + 1..])), point + 1 - |t|)
  }

  /** `t` is an exponent-free decimal denoting `v`. */
  ghost predicate Denotes(t: string, v: real) {
    if t != [] && t[0] == '-' then exists p :: Unsigned(t[1..], p) && v == -UnsignedValue(t[1..], p)
    else exists p :: Unsigned(t, p) && v == UnsignedValue(t, p)
  }

  lemma DenotesOneValue(t: string, v: real, w: real)
    requires Denotes(t, v) && Denotes(t, w)
    ensures v == w
  {
    var u := if t != [] && t[0] == '-' then t[1..] else t;
    forall p, q | Unsigned(u, p) && Unsigned(u, q) ensures p == q {
      OnePoint(u, p, q);
    }
  }

  lemma AllDigitsAt(u: string, q: nat, i: nat)
    requires q <= |u| && AllDigits(u[..q]) && i < q
    ensures u[i] != '.'
  {
    assert u[i] == u[..q][i];
  }

  lemma OnePoint(u: string, p: nat, q: nat)
    requires Unsigned(u, p) && Unsigned(u, q)
    ensures p == q
  {
    if p < q {
      AllDigitsAt(u, q, p);
    } else if q < p {
      AllDigitsAt(u, p, q);
    }
  }

  // ----------------------------------------------------------------- scaling

  lemma {:induction false} ScaledTen(d: nat, e: int)
    ensures Scaled(10 * d, e) == Scaled(d, e + 1)
    decreases if e < 0 then -e else 0
  {
    if e < 0 {
      ScaledTen(d, e + 1);
    }
  }

  lemma {:induction false} ScaledMonotone(c: nat, d: nat, e: int)
    requires c < d
    ensures Scaled(c, e) < Scaled(d, e)
    decreases if e < 0 then -e else e
  {
    if e > 0 { ScaledMonotone(10 * c, 10 * d, e - 1); } else if e < 0 { ScaledMonotone(c, d, e + 1); }
  }

  lemma {:induction false} ScaledNought(e: int)
    ensures Scaled(0, e) == 0.0
    decreases if e < 0 then -e else e
  {
    if e > 0 { ScaledNought(e - 1); } else if e < 0 { ScaledNought(e + 1); }
  }

  lemma {:induction false} TrailingZeros(ds: seq<Digit>, k: nat, e: int)
    ensures Scaled(DigitsValue(ds + Zeros(k)), e) == Scaled(DigitsValue(ds), e + k)
    decreases k
  {
    if k == 0 {
      assert ds + Zeros(0) == ds;
    } else {
      var all := ds + Zeros(k);
      assert all[..|all| - 1] == ds + Zeros(k - 1);
      assert DigitsValue(all) == 10 * DigitsValue(ds + Zeros(k - 1));
      ScaledTen(DigitsValue(ds + Zeros(k - 1)), e);
      TrailingZeros(ds, k - 1, e + 1);
    }
  }

  lemma {:induction false} LeadingZeros(k: nat, ds: seq<Digit>)
    ensures DigitsValue(Zeros(k) + ds) == DigitsValue(ds)
    decreases |ds|, k
  {
    var all := Zeros(k) + ds;
    if ds != [] {
      assert all[..|all| - 1] == Zeros(k) + ds[..|ds| - 1];
      LeadingZeros(k, ds[..|ds| - 1]);
    } else if k > 0 {
      assert all[..|all| - 1] == Zeros(k - 1) + [];
      LeadingZeros(k - 1, []);
    }
  }

  lemma ReadOfChars(ds: seq<Digit>)
    ensures AllDigits(Chars(ds)) && ReadDigits(Chars(ds)) == ds
  {
  }

  // ------------------------------------------------------- value is preserved

  ghost predicate UnsignedDenotes(t: string, v: real) {
    exists p :: Unsigned(t, p) && v == UnsignedValue(t, p)
  }

  lemma AllDigitsDenote(all: seq<Digit>)
    requires all != []
    ensures UnsignedDenotes(Chars(all), Scaled(DigitsValue(all), 0))
  {
    var t := Chars(all);
    assert t[..|t|] == t;
    ReadOfChars(all);
    assert Unsigned(t, |t|);
  }

  lemma CharsJoin(a: seq<Digit>, b: seq<Digit>)
    ensures Chars(a) + Chars(b) == Chars(a + b)
  {
  }

  lemma WholeDenotes(digits: seq<Digit>, scale: nat)
    requires digits != []
    ensures UnsignedDenotes(Chars(digits) + Chars(Zeros(scale)), Scaled(DigitsValue(digits), scale))
  {
    AllDigitsDenote(digits + Zeros(scale));
    CharsJoin(digits, Zeros(scale));
    TrailingZeros(digits, scale, 0);
  }

  lemma PointDenotes(left: seq<Digit>, right: seq<Digit>)
    requires left != [] && right != []
    ensures UnsignedDenotes(Chars(left) + "." + Chars(right), Scaled(DigitsValue(left + right), -|right|))
  {
    var t := Chars(left) + "." + Chars(right);
    ReadOfChars(left);
    ReadOfChars(right);
    assert t[..|left|] == Chars(left) && t[|left| + 1..] == Chars(right);
    assert Unsigned(t, |left|);
  }

  lemma MagnitudeKeepsValue(digits: seq<Digit>, scale: int)
    requires digits != []
    ensures UnsignedDenotes(Magnitude(digits, scale), Scaled(DigitsValue(digits), scale))
  {
    if scale >= 0 {
      WholeDenotes(digits, scale);
    } else if |digits| + scale > 0 {
      SplitDenotes(digits, |digits| + scale, scale);
    } else {
      SmallDenotes(-(|digits| + scale), digits, scale);
    }
  }

  lemma SplitDenotes(digits: seq<Digit>, point: nat, e: int)
    requires 0 < point < |digits| && e == point - |digits|
    ensures UnsignedDenotes(Chars(digits[..point]) + "." + Chars(digits[point..]), Scaled(DigitsValue(digits), e))
  {
    PointDenotes(digits[..point], digits[point..]);
    assert digits[..point] + digits[point..] == digits;
  }

  lemma SmallText(k: nat, digits: seq<Digit>)
    ensures Chars([0]) + "." + Chars(Zeros(k) + digits) == "0." + Chars(Zeros(k)) + Chars(digits)
  {
    var left, middle := Chars(Zeros(k)), Chars(digits);
    assert Chars(Zeros(k) + digits) == left + middle;
    assert Chars([0]) + "." == "0.";
    assert ("0." + left) + middle == "0." + (left + middle);
  }

  lemma SmallDigits(k: nat, digits: seq<Digit>)
    ensures DigitsValue([0] + (Zeros(k) + digits)) == DigitsValue(digits)
  {
    assert [0] + (Zeros(k) + digits) == Zeros(k + 1) + digits;
    LeadingZeros(k + 1, digits);
  }

  lemma SmallDenotes(k: nat, digits: seq<Digit>, e: int)
    requires digits != [] && e == -(k + |digits|)
    ensures UnsignedDenotes("0." + Chars(Zeros(k)) + Chars(digits), Scaled(DigitsValue(digits), e))
  {
    SmallText(k, digits);
    SmallDigits(k, digits);
    ZeroPointDenotes(Zeros(k) + digits, "0." + Chars(Zeros(k)) + Chars(digits), DigitsValue(digits), e);
  }

  lemma ZeroPointDenotes(right: seq<Digit>, t: string, d: nat, e: int)
    requires right != [] && t == Chars([0]) + "." + Chars(right) && d == DigitsValue([0] + right) && e == -|right|
    ensures UnsignedDenotes(t, Scaled(d, e))
  {
    PointDenotes([0], right);
  }

  /** Every serialisation the regular expression can match: no exponent is left and the rational is kept. */
  lemma PlainTextKeepsValue(p: Serialised)
    requires p.integer != []
    ensures Denotes(PlainText(p), Value(p))
  {
    var t, v := PlainMagnitude(p);
    if p.negative {
      assert PlainText(p)[1..] == t;
      assert Denotes(PlainText(p), -v);
    } else {
      assert PlainText(p) == t;
    }
  }

  lemma PlainMagnitude(p: Serialised) returns (t: string, v: real)
    requires p.integer != []
    ensures PlainText(p) == (if p.negative then "-" else "") + t
    ensures UnsignedDenotes(t, v) && t != [] && t[0] != '-'
    ensures Value(p) == Signed(p.negative, v)
  {
    var digits, scale := p.integer + p.fraction, p.exponent - |p.fraction|;
    t, v := Magnitude(digits, scale), Scaled(DigitsValue(digits), scale);
    MagnitudeKeepsValue(digits, scale);
    UnsignedHead(t, v);
  }

  lemma UnsignedHead(t: string, v: real)
    requires UnsignedDenotes(t, v)
    ensures t != [] && t[0] != '-'
  {
    var q: nat :| Unsigned(t, q) && v == UnsignedValue(t, q);
    assert t[0] == t[..q][0];
  }

  lemma StringifyKeepsValue(num: Number)
    requires num.Finite? && num.Normal()
    ensures Value(Stringify(num)) == NumberValue(num)
  {
    var k := |num.digits|;
    var p := Stringify(num);
    if k <= num.n <= 21 {
      assert p.integer + p.fraction == num.digits + Zeros(num.n - k);
      TrailingZeros(num.digits, num.n - k, 0);
    } else if -6 < num.n <= 0 {
      assert p.integer + p.fraction == Zeros(1 - num.n) + num.digits;
      LeadingZeros(1 - num.n, num.digits);
    } else {
      assert p.integer + p.fraction == num.digits;
    }
  }

  // ------------------------------------------------- the serialised text itself

  /** The capture groups of `^(-?)(\d+)(?:\.(\d+))?(?:e([+-]?\d+))?$`, as text. */
  datatype Groups = Groups(negative: bool, integer: string, fraction: Option<string>, exponent: Option<string>)

  function Sign(negative: bool): string { if negative then "-" else "" }

  predicate SomeDigits(t: string) { t != "" && AllDigits(t) }

  /** `[+-]?\d+` */
  predicate SignedDigits(t: string) {
    if t != "" && (t[0] == '+' || t[0] == '-') then SomeDigits(t[1..]) else SomeDigits(t)
  }

  function ExponentPart(g: Groups): string {
    if g.exponent.Some? then "e" + g.exponent.value else ""
  }

  function FractionPart(g: Groups): string {
    if g.fraction.Some? then "." + g.fraction.value else ""
  }

  predicate Matches(t: string, g: Groups) {
    && SomeDigits(g.integer) && (g.fraction.Some? ==> SomeDigits(g.fraction.value))
    && (g.exponent.Some? ==> SignedDigits(g.exponent.value))
    && t == Sign(g.negative) + (g.integer + (FractionPart(g) + ExponentPart(g)))
  }

  /** `Number(exponentText)`. */
  function ReadSigned(t: string): int
    requires SignedDigits(t)
  {
    if t[0] == '-' then 0 - DigitsValue(ReadDigits(t[1..])) as int
    else if t[0] == '+' then DigitsValue(ReadDigits(t[1..]))
    else DigitsValue(ReadDigits(t))
  }

  /** The groups as the code goes on to use them: an absent fraction is empty, an absent exponent zero. */
  function Read(g: Groups): (p: Serialised)
    requires SomeDigits(g.integer) && (g.fraction.Some? ==> SomeDigits(g.fraction.value))
    requires g.exponent.Some? ==> SignedDigits(g.exponent.value)
    ensures p.integer != []
  {
    Serialised(g.negative, ReadDigits(g.integer), if g.fraction.Some? then ReadDigits(g.fraction.value) else [],
               if g.exponent.Some? then ReadSigned(g.exponent.value) else 0)
  }

  /** The digits at the front of `t` are its first `n` characters. */
  predicate DigitsEndAt(t: string, n: nat) {
    n <= |t| && AllDigits(t[..n]) && (n < |t| ==> !IsDigit(t[n]))
  }

  lemma OneDigitsEnd(t: string, m: nat, n: nat)
    requires DigitsEndAt(t, m) && DigitsEndAt(t, n)
    ensures m == n
  {
    assert forall i :: 0 <= i < m ==> t[i] == t[..m][i];
    assert forall i :: 0 <= i < n ==> t[i] == t[..n][i];
  }

  lemma DigitPrefixes(a: string, b: string, c: string, d: string)
    requires a + b == c + d && AllDigits(a) && AllDigits(c)
    requires (b == "" || !IsDigit(b[0])) && (d == "" || !IsDigit(d[0]))
    ensures a == c && b == d
  {
    var t := a + b;
    assert t[..|a|] == a && t[|a|..] == b && t[..|c|] == c && t[|c|..] == d;
    OneDigitsEnd(t, |a|, |c|);
  }

  lemma SameTail(a: string, b: string, c: string)
    requires a + b == a + c
    ensures b == c
  {
    assert b == (a + b)[|a|..] && c == (a + c)[|a|..];
  }

  lemma AfterPoint(f: string, tail: string)
    ensures ("." + f) + tail == "." + (f + tail)
  {
  }

  lemma NothingBefore(t: string)
    ensures "" + t == t
  {
  }

  lemma TailStart(g: Groups)
    ensures var t := FractionPart(g) + ExponentPart(g); g.fraction.Some? <==> t != "" && t[0] == '.'
  {
  }

  lemma TailsDecide(g: Groups, h: Groups)
    requires g.fraction.Some? ==> SomeDigits(g.fraction.value)
    requires h.fraction.Some? ==> SomeDigits(h.fraction.value)
    requires FractionPart(g) + ExponentPart(g) == FractionPart(h) + ExponentPart(h)
    ensures g.fraction == h.fraction && g.exponent == h.exponent
  {
    var t := FractionPart(g) + ExponentPart(g);
    TailStart(g);
    TailStart(h);
    if g.fraction.Some? {
      var a, b, c, d := g.fraction.value, ExponentPart(g), h.fraction.value, ExponentPart(h);
      AfterPoint(a, b);
      AfterPoint(c, d);
      SameTail(".", a + b, c + d);
      DigitPrefixes(a, b, c, d);
    } else {
      NothingBefore(ExponentPart(g));
      NothingBefore(ExponentPart(h));
    }
    if g.exponent.Some? {
      SameTail("e", g.exponent.value, h.exponent.value);
    }
  }

  /** A text matches in one way only: the expression recovers its groups. */
  lemma GroupsAreUnique(t: string, g: Groups, h: Groups)
    requires Matches(t, g) && Matches(t, h)
    ensures g == h
  {
    var gTail, hTail := FractionPart(g) + ExponentPart(g), FractionPart(h) + ExponentPart(h);
    SignDecides(g, t);
    SignDecides(h, t);
    SameTail(Sign(g.negative), g.integer + gTail, h.integer + hTail);
    DigitPrefixes(g.integer, gTail, h.integer, hTail);
    TailsDecide(g, h);
  }

  lemma SignDecides(g: Groups, t: string)
    requires Matches(t, g)
    ensures t != "" && (g.negative <==> t[0] == '-')
  {
  }

  function NatDigits(k: nat): (r: seq<Digit>)
    ensures r != []
  {
    if k < 10 then [k] else NatDigits(k / 10) + [k % 10]
  }

  lemma AppendDigit(ds: seq<Digit>, d: Digit)
    ensures DigitsValue(ds + [d]) == 10 * DigitsValue(ds) + d
  {
    assert (ds + [d])[..|ds|] == ds;
  }

  lemma {:induction false} NatDigitsValue(k: nat)
    ensures DigitsValue(NatDigits(k)) == k
  {
    if k < 10 {
      AppendDigit([], k);
      assert [] + [k] == [k];
    } else {
      NatDigitsValue(k / 10);
      AppendDigit(NatDigits(k / 10), k % 10);
    }
  }

  /** The exponent of Number::toString: always with a sign. */
  function ExponentText(e: int): string {
    (if e < 0 then "-" else "+") + Chars(NatDigits(if e < 0 then -e else e))
  }

  lemma ExponentTextReads(e: int)
    ensures SignedDigits(ExponentText(e)) && ReadSigned(ExponentText(e)) == e
  {
    var k := if e < 0 then -e else e;
    ReadOfChars(NatDigits(k));
    NatDigitsValue(k);
    assert ExponentText(e)[1..] == Chars(NatDigits(k));
  }

  /** Section 6.1.6.1.20 of ECMA-262, steps 6 to 10, as text. */
  function JsonText(num: Number): string
    requires num.Finite? && num.Normal()
  {
    var k := |num.digits|;
    if k <= num.n <= 21 then Sign(num.negative) + Chars(num.digits + Zeros(num.n - k))
    else if 0 < num.n <= 21 then Sign(num.negative) + Chars(num.digits[..num.n]) + "." + Chars(num.digits[num.n..])
    else if -6 < num.n <= 0 then Sign(num.negative) + "0." + Chars(Zeros(-num.n) + num.digits)
    else if k == 1 then Sign(num.negative) + Chars(num.digits) + "e" + ExponentText(num.n - 1)
    else Sign(num.negative) + Chars(num.digits[..1]) + "." + Chars(num.digits[1..]) + "e" + ExponentText(num.n - 1)
  }

  function OptionalDigits(ds: seq<Digit>): Option<string> { if ds == [] then None else Some(Chars(ds)) }

  function GroupsOf(num: Number): Groups
    requires num.Finite? && num.Normal()
  {
    var p := Stringify(num);
    Groups(p.negative, Chars(p.integer), OptionalDigits(p.fraction), if -6 < num.n <= 21 then None
      else Some(ExponentText(num.n - 1)))
  }

  lemma GroupsRead(num: Number)
    requires num.Finite? && num.Normal()
    ensures var g := GroupsOf(num);
      && SomeDigits(g.integer) && (g.fraction.Some? ==> SomeDigits(g.fraction.value))
      && (g.exponent.Some? ==> SignedDigits(g.exponent.value))
      && Read(g) == Stringify(num)
  {
    ExponentTextReads(num.n - 1);
    ReadOfChars(Stringify(num).integer);
    ReadOfChars(Stringify(num).fraction);
  }

  lemma WholeText(sign: string, a: string)
    ensures sign + a == sign + (a + ("" + ""))
  {
    assert a + ("" + "") == a;
  }

  lemma PointText(sign: string, a: string, f: string)
    ensures sign + a + "." + f == sign + (a + (("." + f) + ""))
  {
    assert ("." + f) + "" == "." + f;
    assert sign + a + "." + f == sign + (a + ("." + f));
  }

  lemma ExponentedText(sign: string, a: string, x: string)
    ensures sign + a + "e" + x == sign + (a + ("" + ("e" + x)))
  {
    assert "" + ("e" + x) == "e" + x;
  }

  lemma PointExponentText(sign: string, a: string, f: string, x: string)
    ensures sign + a + "." + f + "e" + x == sign + (a + (("." + f) + ("e" + x)))
  {
    assert sign + a + "." + f + "e" + x == sign + (a + ("." + f)) + ("e" + x);
    assert sign + (a + ("." + f)) + ("e" + x) == sign + ((a + ("." + f)) + ("e" + x));
    assert (a + ("." + f)) + ("e" + x) == a + (("." + f) + ("e" + x));
  }

  lemma SmallJsonText(sign: string, f: string)
    ensures sign + "0." + f == sign + Chars([0]) + "." + f
  {
    assert Chars([0]) == "0";
    assert sign + "0." == sign + "0" + ".";
  }

  ghost predicate Splits(num: Number)
    requires num.Finite? && num.Normal()
  {
    var g := GroupsOf(num);
    JsonText(num) == Sign(g.negative) + (g.integer + (FractionPart(g) + ExponentPart(g)))
  }

  lemma WholeSplits(num: Number)
    requires num.Finite? && num.Normal() && |num.digits| <= num.n <= 21
    ensures Splits(num)
  {
    WholeText(Sign(num.negative), Chars(num.digits + Zeros(num.n - |num.digits|)));
  }

  lemma MiddleSplits(num: Number)
    requires num.Finite? && num.Normal() && 0 < num.n < |num.digits| && num.n <= 21
    ensures Splits(num)
  {
    PointText(Sign(num.negative), Chars(num.digits[..num.n]), Chars(num.digits[num.n..]));
  }

  lemma SmallSplits(num: Number)
    requires num.Finite? && num.Normal() && -6 < num.n <= 0
    ensures Splits(num)
  {
    SmallJsonText(Sign(num.negative), Chars(Zeros(-num.n) + num.digits));
    PointText(Sign(num.negative), Chars([0]), Chars(Zeros(-num.n) + num.digits));
  }

  lemma ExponentSplits(num: Number)
    requires num.Finite? && num.Normal() && !(-6 < num.n <= 21)
    ensures Splits(num)
  {
    assert num.digits[..1] == [num.digits[0]];
    if |num.digits| == 1 {
      assert num.digits == num.digits[..1];
      ExponentedText(Sign(num.negative), Chars(num.digits), ExponentText(num.n - 1));
    } else {
      PointExponentText(Sign(num.negative), Chars(num.digits[..1]), Chars(num.digits[1..]), ExponentText(num.n - 1));
    }
  }

  lemma JsonTextSplits(num: Number)
    requires num.Finite? && num.Normal()
    ensures Splits(num)
  {
    if |num.digits| <= num.n <= 21 { WholeSplits(num); }
    else if 0 < num.n <= 21 { MiddleSplits(num); }
    else if -6 < num.n <= 0 { SmallSplits(num); }
    else { ExponentSplits(num); }
  }

  /** Main result: the serialised text of every finite non-zero number matches the expression, in one way, and its
      groups are the number: its sign, digits and exponent with the same rational. */
  lemma JsonTextMatches(num: Number, g: Groups)
    requires num.Finite? && num.Normal()
    ensures Matches(JsonText(num), GroupsOf(num))
    ensures Matches(JsonText(num), g) ==>
      g == GroupsOf(num) && Read(g) == Stringify(num) && Value(Read(g)) == NumberValue(num)
  {
    GroupsRead(num);
    JsonTextSplits(num);
    StringifyKeepsValue(num);
    if Matches(JsonText(num), g) {
      GroupsAreUnique(JsonText(num), g, GroupsOf(num));
    }
  }

  // --------------------------------------------------- one text per rational

  lemma {:induction false} DigitsInjective(a: seq<Digit>, b: seq<Digit>)
    requires DigitsValue(a) == DigitsValue(b)
    requires (a != [] ==> a[0] != 0) && (b != [] ==> b[0] != 0)
    ensures a == b
    decreases |a|
  {
    if a == [] {
      if b != [] { Leading(b); }
    } else if b == [] {
      Leading(a);
    } else {
      var a', b' := a[..|a| - 1], b[..|b| - 1];
      assert a[|a| - 1] == b[|b| - 1] && DigitsValue(a') == DigitsValue(b');
      DigitsInjective(a', b');
      assert a == a' + [a[|a| - 1]] && b == b' + [b[|b| - 1]];
    }
  }

  lemma {:induction false} Leading(a: seq<Digit>)
    requires a != [] && a[0] != 0
    ensures DigitsValue(a) > 0
  {
    if |a| > 1 {
      Leading(a[..|a| - 1]);
    } else {
      assert DigitsValue(a) == 10 * DigitsValue(a[..0]) + a[0];
    }
  }

  function Tens(d: nat, k: nat): nat { if k == 0 then d else 10 * Tens(d, k - 1) }

  lemma {:induction false} ScaledTens(d: nat, k: nat, e: int)
    ensures Scaled(Tens(d, k), e) == Scaled(d, e + k)
    decreases k
  {
    if k > 0 {
      ScaledTen(Tens(d, k - 1), e);
      ScaledTens(d, k - 1, e + 1);
    }
  }

  lemma NoExtraTens(a: seq<Digit>, e: int, b: nat, f: int)
    requires a != [] && a[|a| - 1] != 0
    requires e < f
    ensures Scaled(DigitsValue(a), e) != Scaled(b, f)
  {
    ScaledTens(b, f - e, e);
    var y := Tens(b, f - e);
    assert y == 10 * Tens(b, f - e - 1);
    if DigitsValue(a) < y {
      ScaledMonotone(DigitsValue(a), y, e);
    } else if y < DigitsValue(a) {
      ScaledMonotone(y, DigitsValue(a), e);
    }
  }

  /** Equal magnitudes of normal forms have the same point and digits. */
  lemma MagnitudeDeterminesDigits(a: seq<Digit>, e: int, b: seq<Digit>, f: int)
    requires a != [] && a[0] != 0 && a[|a| - 1] != 0
    requires b != [] && b[0] != 0 && b[|b| - 1] != 0
    requires Scaled(DigitsValue(a), e) == Scaled(DigitsValue(b), f)
    ensures a == b && e == f
  {
    if e < f {
      NoExtraTens(a, e, DigitsValue(b), f);
    } else if f < e {
      NoExtraTens(b, f, DigitsValue(a), e);
    } else if DigitsValue(a) < DigitsValue(b) {
      ScaledMonotone(DigitsValue(a), DigitsValue(b), e);
    } else if DigitsValue(b) < DigitsValue(a) {
      ScaledMonotone(DigitsValue(b), DigitsValue(a), e);
    } else {
      DigitsInjective(a, b);
    }
  }

  lemma PositiveMagnitude(a: Number)
    requires a.Finite? && a.Normal()
    ensures Scaled(DigitsValue(a.digits), a.n - |a.digits|) > 0.0
  {
    Leading(a.digits);
    ScaledMonotone(0, DigitsValue(a.digits), a.n - |a.digits|);
    ScaledNought(a.n - |a.digits|);
  }

  /** A normal form is determined by its rational. */
  lemma NumberValueInjective(a: Number, b: Number)
    requires a.Finite? && a.Normal() && b.Finite? && b.Normal()
    requires NumberValue(a) == NumberValue(b)
    ensures a == b
  {
    PositiveMagnitude(a);
    PositiveMagnitude(b);
    assert a.negative == b.negative;
    MagnitudeDeterminesDigits(a.digits, a.n - |a.digits|, b.digits, b.n - |b.digits|);
  }

  /** Negative and positive zero are the one number the text does not tell apart. */
  predicate SameNumber(a: Number, b: Number) {
    a == b || (a.Zero? && b.Zero?)
  }

  /** The rational a finite number stands for. */
  function Rational(num: Number): real
    requires num.Zero? || num.Finite?
  {
    if num.Zero? then 0.0 else NumberValue(num)
  }

  lemma TextDenotes(a: Number)
    requires a.Normal() && CanonicalNumber(a).Some?
    ensures (a.Zero? || a.Finite?) && Denotes(CanonicalNumber(a).value, Rational(a))
  {
    if a.Finite? {
      PlainTextKeepsValue(Stringify(a));
      StringifyKeepsValue(a);
    } else {
      ZeroDenotesZero();
    }
  }

  lemma RationalDecides(a: Number, b: Number)
    requires a.Normal() && b.Normal() && (a.Zero? || a.Finite?) && (b.Zero? || b.Finite?)
    ensures Rational(a) == Rational(b) <==> SameNumber(a, b)
  {
    if a.Finite? { PositiveMagnitude(a); }
    if b.Finite? { PositiveMagnitude(b); }
    if a.Finite? && b.Finite? && Rational(a) == Rational(b) {
      NumberValueInjective(a, b);
    }
  }

  /** Main result: exactly the non-finite numbers have no text; a text denotes its number, and two texts agree
      exactly when the rationals do, which tells all numbers apart but positive and negative zero. */
  lemma CanonicalNumberExact(a: Number, b: Number)
    requires a.Normal() && b.Normal()
    ensures CanonicalNumber(a).None? <==> a.NaN? || a.Infinity?
    ensures CanonicalNumber(a).Some? ==> Denotes(CanonicalNumber(a).value, Rational(a))
    ensures CanonicalNumber(a).Some? && CanonicalNumber(b).Some? ==>
      && (CanonicalNumber(a) == CanonicalNumber(b) <==> Rational(a) == Rational(b))
      && (Rational(a) == Rational(b) <==> SameNumber(a, b))
  {
    if CanonicalNumber(a).Some? && CanonicalNumber(b).Some? {
      TextDenotes(a);
      TextDenotes(b);
      RationalDecides(a, b);
      if CanonicalNumber(a) == CanonicalNumber(b) {
        DenotesOneValue(CanonicalNumber(a).value, Rational(a), Rational(b));
      }
    } else if CanonicalNumber(a).Some? {
      TextDenotes(a);
    }
  }

  lemma ZeroDenotesZero()
    ensures Denotes("0", 0.0)
  {
    assert Unsigned("0", 1);
    assert ReadDigits("0"[..1]) == [0];
    assert DigitsValue([0]) == 10 * DigitsValue([0][..0]) + 0;
  }

  // ------------------------------------------------------- one minimal text

  /** `\d+(\.\d+)?` without a superfluous zero: the integer part is a single nought or starts with another digit, and a
      fraction does not end in nought. */
  ghost predicate MinimalAt(u: string, point: nat) {
    Unsigned(u, point) && (point == 1 || u[0] != '0') && (point < |u| ==> u[|u| - 1] != '0')
  }

  /** Minimal decimal form, with a sign only if it says something. */
  ghost predicate Minimal(t: string) {
    if t != "" && t[0] == '-' then t != "-0" && exists p :: MinimalAt(t[1..], p)
    else exists p :: MinimalAt(t, p)
  }

  predicate IntegerDigits(ds: seq<Digit>) {
    ds == [0] || (ds != [] && ds[0] != 0)
  }

  predicate FractionDigits(ds: seq<Digit>) {
    ds == [] || ds[|ds| - 1] != 0
  }

  /** A decimal text of an integer part and, if there are any, decimals. */
  function DecimalText(left: seq<Digit>, right: seq<Digit>): string {
    if right == [] then Chars(left) else Chars(left) + "." + Chars(right)
  }

  lemma TextIsMinimal(left: seq<Digit>, right: seq<Digit>)
    requires IntegerDigits(left) && FractionDigits(right)
    ensures MinimalAt(DecimalText(left, right), |left|)
  {
    var t := DecimalText(left, right);
    ReadOfChars(left);
    ReadOfChars(right);
    assert t[..|left|] == Chars(left);
    if right != [] {
      assert t[|left| + 1..] == Chars(right);
      assert t[|t| - 1] == DigitChar(right[|right| - 1]);
    }
  }

  lemma WholeMagnitude(digits: seq<Digit>, scale: nat)
    ensures Magnitude(digits, scale) == DecimalText(digits + Zeros(scale), [])
  {
    CharsJoin(digits, Zeros(scale));
  }

  lemma SmallMagnitude(digits: seq<Digit>, scale: int)
    requires digits != [] && |digits| + scale <= 0
    ensures Magnitude(digits, scale) == DecimalText([0], Zeros(-(|digits| + scale)) + digits)
  {
    SmallText(-(|digits| + scale), digits);
  }

  /** The text of a non-zero number: `left` and `right` are its digits without a superfluous nought. */
  ghost predicate Parts(num: Number, left: seq<Digit>, right: seq<Digit>)
    requires num.Finite? && num.Normal()
  {
    && IntegerDigits(left) && FractionDigits(right) && (left == [0] ==> right != [])
    && var p := Stringify(num);
       p.negative == num.negative
         && Magnitude(p.integer + p.fraction, p.exponent - |p.fraction|) == DecimalText(left, right)
  }

  lemma MiddleMagnitude(digits: seq<Digit>, point: nat)
    requires 0 < point < |digits|
    ensures Magnitude(digits, point - |digits|) == DecimalText(digits[..point], digits[point..])
  {
  }

  /** What the digits and the scale are once the groups are read. */
  ghost predicate Scales(num: Number, digits: seq<Digit>, scale: int)
    requires num.Finite? && num.Normal()
  {
    var p := Stringify(num);
    p.integer + p.fraction == digits && p.exponent - |p.fraction| == scale && p.negative == num.negative
  }

  lemma SignificantScales(num: Number)
    requires num.Finite? && num.Normal() && (0 < num.n < |num.digits| || num.n <= -6)
    ensures Scales(num, num.digits, num.n - |num.digits|)
  {
    assert num.digits[..1] + num.digits[1..] == num.digits;
  }

  lemma ScaledParts(num: Number, digits: seq<Digit>, scale: int, left: seq<Digit>, right: seq<Digit>)
    requires num.Finite? && num.Normal() && Scales(num, digits, scale)
    requires IntegerDigits(left) && FractionDigits(right) && (left == [0] ==> right != [])
    requires Magnitude(digits, scale) == DecimalText(left, right)
    ensures Parts(num, left, right)
  {
  }

  lemma MiddleParts(num: Number)
    requires num.Finite? && num.Normal() && 0 < num.n < |num.digits|
    ensures Parts(num, num.digits[..num.n], num.digits[num.n..])
  {
    SignificantScales(num);
    MiddleMagnitude(num.digits, num.n);
    ScaledParts(num, num.digits, num.n - |num.digits|, num.digits[..num.n], num.digits[num.n..]);
  }

  lemma WholeParts(num: Number)
    requires num.Finite? && num.Normal() && |num.digits| <= num.n
    ensures Parts(num, num.digits + Zeros(num.n - |num.digits|), [])
  {
    var p := Stringify(num);
    var all, scale := p.integer + p.fraction, p.exponent - |p.fraction|;
    WholeMagnitude(all, scale);
    assert all + Zeros(scale) == num.digits + Zeros(num.n - |num.digits|);
  }

  lemma LeadingNought(right: seq<Digit>)
    requires right != []
    ensures Magnitude([0] + right, -|right|) == DecimalText([0], right)
  {
    MiddleMagnitude([0] + right, 1);
    assert ([0] + right)[..1] == [0] && ([0] + right)[1..] == right;
  }

  function SmallDecimals(num: Number): seq<Digit>
    requires num.Finite? && num.n <= 0
  {
    Zeros(-num.n) + num.digits
  }

  lemma SmallFraction(num: Number)
    requires num.Finite? && num.Normal() && num.n <= 0
    ensures var right := SmallDecimals(num);
      right != [] && FractionDigits(right) && -|right| == num.n - |num.digits|
  {
  }

  lemma SmallScales(num: Number)
    requires num.Finite? && num.Normal() && -6 < num.n <= 0
    ensures Scales(num, [0] + SmallDecimals(num), -|SmallDecimals(num)|)
  {
  }

  lemma SmallParts(num: Number)
    requires num.Finite? && num.Normal() && -6 < num.n <= 0
    ensures Parts(num, [0], SmallDecimals(num))
  {
    var right := SmallDecimals(num);
    SmallScales(num);
    SmallFraction(num);
    LeadingNought(right);
    ScaledParts(num, [0] + right, -|right|, [0], right);
  }

  lemma TinyParts(num: Number)
    requires num.Finite? && num.Normal() && num.n <= -6
    ensures Parts(num, [0], SmallDecimals(num))
  {
    var scale := num.n - |num.digits|;
    SignificantScales(num);
    SmallFraction(num);
    SmallMagnitude(num.digits, scale);
    ScaledParts(num, num.digits, scale, [0], SmallDecimals(num));
  }

  /** Whatever form the number was serialised in, its text comes out without a superfluous nought. */
  lemma TextHasParts(num: Number) returns (left: seq<Digit>, right: seq<Digit>)
    requires num.Finite? && num.Normal()
    ensures Parts(num, left, right)
  {
    if num.n <= 0 {
      left, right := [0], SmallDecimals(num);
      if num.n > -6 { SmallParts(num); } else { TinyParts(num); }
    } else if num.n < |num.digits| {
      left, right := num.digits[..num.n], num.digits[num.n..];
      MiddleParts(num);
    } else {
      left, right := num.digits + Zeros(num.n - |num.digits|), [];
      WholeParts(num);
    }
  }

  lemma PositiveIsMinimal(left: seq<Digit>, right: seq<Digit>)
    requires IntegerDigits(left) && FractionDigits(right)
    ensures Minimal(DecimalText(left, right))
  {
    TextIsMinimal(left, right);
    assert DecimalText(left, right)[0] == DigitChar(left[0]);
  }

  lemma NotNought(left: seq<Digit>, right: seq<Digit>)
    requires IntegerDigits(left) && (left == [0] ==> right != [])
    ensures DecimalText(left, right) != "0"
  {
    assert DecimalText(left, right)[0] == DigitChar(left[0]);
  }

  lemma NegativeIsMinimal(left: seq<Digit>, right: seq<Digit>)
    requires IntegerDigits(left) && FractionDigits(right) && (left == [0] ==> right != [])
    ensures Minimal("-" + DecimalText(left, right))
  {
    var u := DecimalText(left, right);
    TextIsMinimal(left, right);
    NotNought(left, right);
    assert ("-" + u)[1..] == u && "-0"[1..] == "0";
  }

  lemma CharsOfRead(t: string)
    requires AllDigits(t)
    ensures Chars(ReadDigits(t)) == t
  {
  }

  lemma ReadWhole(u: string)
    requires MinimalAt(u, |u|)
    ensures IntegerDigits(ReadDigits(u)) && u == Chars(ReadDigits(u))
    ensures UnsignedValue(u, |u|) == Scaled(DigitsValue(ReadDigits(u)), 0)
  {
    assert u[..|u|] == u;
    CharsOfRead(u);
  }

  lemma ReadPointed(u: string, point: nat)
    requires MinimalAt(u, point) && point < |u|
    ensures AllDigits(u[..point]) && AllDigits(u[point + 1..])
    ensures IntegerDigits(ReadDigits(u[..point])) && FractionDigits(ReadDigits(u[point + 1..]))
    ensures u == u[..point] + "." + u[point + 1..]
  {
    var left, right := u[..point], u[point + 1..];
    assert left[0] == u[0] && right[|right| - 1] == u[|u| - 1];
    assert u[point..point + 1] == ".";
  }

  lemma ReadMinimal(u: string, point: nat) returns (left: seq<Digit>, right: seq<Digit>)
    requires MinimalAt(u, point)
    ensures IntegerDigits(left) && FractionDigits(right) && u == DecimalText(left, right)
    ensures UnsignedValue(u, point) == Scaled(DigitsValue(left + right), -|right|)
  {
    if point == |u| {
      ReadWhole(u);
      left, right := ReadDigits(u), [];
      assert left + [] == left;
    } else {
      ReadPointed(u, point);
      left, right := ReadDigits(u[..point]), ReadDigits(u[point + 1..]);
      CharsOfRead(u[..point]);
      CharsOfRead(u[point + 1..]);
      assert right != [];
    }
  }

  lemma AppendLast(a: seq<Digit>, b: seq<Digit>)
    requires b != []
    ensures DigitsValue(a + b) == 10 * DigitsValue(a + b[..|b| - 1]) + b[|b| - 1]
  {
    AppendDigit(a + b[..|b| - 1], b[|b| - 1]);
    assert a + b[..|b| - 1] + [b[|b| - 1]] == a + b;
  }

  /** With as many decimals, equal digits are split alike. */
  lemma {:induction false} SameParts(a: seq<Digit>, b: seq<Digit>, c: seq<Digit>, d: seq<Digit>)
    requires IntegerDigits(a) && IntegerDigits(c) && |b| == |d| && DigitsValue(a + b) == DigitsValue(c + d)
    ensures a == c && b == d
    decreases |b|
  {
    if b == [] {
      assert a + b == a && c + d == c;
      SameIntegerDigits(a, c);
    } else {
      AppendLast(a, b);
      AppendLast(c, d);
      LastDigits(DigitsValue(a + b[..|b| - 1]), b[|b| - 1], DigitsValue(c + d[..|d| - 1]), d[|d| - 1]);
      SameParts(a, b[..|b| - 1], c, d[..|d| - 1]);
      assert b == b[..|b| - 1] + [b[|b| - 1]] && d == d[..|d| - 1] + [d[|d| - 1]];
    }
  }

  lemma LastDigits(x: nat, m: Digit, y: nat, n: Digit)
    requires 10 * x + m == 10 * y + n
    ensures x == y && m == n
  {
  }

  lemma SameIntegerDigits(a: seq<Digit>, c: seq<Digit>)
    requires IntegerDigits(a) && IntegerDigits(c) && DigitsValue(a) == DigitsValue(c)
    ensures a == c
  {
    if a == [0] || c == [0] {
      AppendDigit([], 0);
      assert [] + [0] == [0];
      if a != [0] { Leading(a); }
      if c != [0] { Leading(c); }
    } else {
      DigitsInjective(a, c);
    }
  }

  lemma LastOfJoin(a: seq<Digit>, b: seq<Digit>)
    requires IntegerDigits(a) && FractionDigits(b)
    ensures a + b != [] && (-|b| < 0 ==> (a + b)[|a + b| - 1] != 0)
  {
  }

  /** Digits that do not end in nought, and their scale, are determined by their rational; whole digits may. */
  lemma SameScale(a: seq<Digit>, e: int, c: seq<Digit>, f: int)
    requires a != [] && c != [] && (e < 0 ==> a[|a| - 1] != 0) && (f < 0 ==> c[|c| - 1] != 0) && e <= 0 && f <= 0
    requires Scaled(DigitsValue(a), e) == Scaled(DigitsValue(c), f)
    ensures e == f && DigitsValue(a) == DigitsValue(c)
  {
    if e < f {
      NoExtraTens(a, e, DigitsValue(c), f);
    } else if f < e {
      NoExtraTens(c, f, DigitsValue(a), e);
    } else if DigitsValue(a) < DigitsValue(c) {
      ScaledMonotone(DigitsValue(a), DigitsValue(c), e);
    } else if DigitsValue(c) < DigitsValue(a) {
      ScaledMonotone(DigitsValue(c), DigitsValue(a), e);
    }
  }

  lemma JoinEnds(a: seq<Digit>, b: seq<Digit>, x: seq<Digit>, e: int)
    requires IntegerDigits(a) && FractionDigits(b) && x == a + b && e == -|b|
    ensures e <= 0 && x != [] && (e < 0 ==> x[|x| - 1] != 0)
  {
    LastOfJoin(a, b);
  }

  lemma SameValues(a: seq<Digit>, b: seq<Digit>, x: nat, c: seq<Digit>, d: seq<Digit>, y: nat)
    requires IntegerDigits(a) && FractionDigits(b) && x == DigitsValue(a + b)
    requires IntegerDigits(c) && FractionDigits(d) && y == DigitsValue(c + d)
    requires Scaled(x, -|b|) == Scaled(y, -|d|)
    ensures a == c && b == d
  {
    JoinEnds(a, b, a + b, -|b|);
    JoinEnds(c, d, c + d, -|d|);
    SameScale(a + b, -|b|, c + d, -|d|);
    SameParts(a, b, c, d);
  }

  lemma SameDecimals(a: seq<Digit>, b: seq<Digit>, c: seq<Digit>, d: seq<Digit>)
    requires IntegerDigits(a) && FractionDigits(b) && IntegerDigits(c) && FractionDigits(d)
    requires Scaled(DigitsValue(a + b), -|b|) == Scaled(DigitsValue(c + d), -|d|)
    ensures a == c && b == d
  {
    SameValues(a, b, DigitsValue(a + b), c, d, DigitsValue(c + d));
  }

  lemma SameMinimal(u: string, p: nat, w: string, q: nat)
    requires MinimalAt(u, p) && MinimalAt(w, q) && UnsignedValue(u, p) == UnsignedValue(w, q)
    ensures u == w
  {
    var a, b := ReadMinimal(u, p);
    var c, d := ReadMinimal(w, q);
    SameDecimals(a, b, c, d);
  }

  lemma ScaledIsNatural(d: nat, e: int)
    ensures Scaled(d, e) >= 0.0
  {
    ScaledNought(e);
    if d > 0 { ScaledMonotone(0, d, e); }
  }

  lemma NoughtDecimals()
    ensures DecimalText([0], []) == "0" && Scaled(DigitsValue([0] + []), 0) == 0.0
  {
    assert Chars([0]) == "0";
    assert [0] + [] == [0];
    AppendDigit([], 0);
    assert [] + [0] == [0];
  }

  lemma MinimalValue(u: string, p: nat)
    requires MinimalAt(u, p)
    ensures UnsignedValue(u, p) >= 0.0 && (UnsignedValue(u, p) == 0.0 ==> u == "0")
  {
    var left, right := ReadMinimal(u, p);
    ScaledIsNatural(DigitsValue(left + right), -|right|);
    NoughtDecimals();
    if UnsignedValue(u, p) == 0.0 { SameDecimals(left, right, [0], []); }
  }

  ghost predicate MinimalDenotes(u: string, v: real) {
    exists p :: MinimalAt(u, p) && UnsignedValue(u, p) == v
  }

  lemma MinimalDenotation(t: string, v: real)
    requires Minimal(t) && Denotes(t, v)
    ensures if t != "" && t[0] == '-' then v < 0.0 && MinimalDenotes(t[1..], -v) else v >= 0.0 && MinimalDenotes(t, v)
  {
    var negative := t != "" && t[0] == '-';
    var u := if negative then t[1..] else t;
    var p: nat :| MinimalAt(u, p);
    var q: nat :| Unsigned(u, q) && v == if negative then -UnsignedValue(u, q) else UnsignedValue(u, q);
    OnePoint(u, p, q);
    MinimalValue(u, p);
    assert negative && u == "0" ==> t == "-0";
  }

  /** A rational has at most one minimal text. */
  lemma MinimalIsUnique(t: string, w: string, v: real)
    requires Minimal(t) && Denotes(t, v) && Minimal(w) && Denotes(w, v)
    ensures t == w
  {
    MinimalDenotation(t, v);
    MinimalDenotation(w, v);
    var a, b := if v < 0.0 then t[1..] else t, if v < 0.0 then w[1..] else w;
    var p: nat :| MinimalAt(a, p) && UnsignedValue(a, p) == if v < 0.0 then -v else v;
    var q: nat :| MinimalAt(b, q) && UnsignedValue(b, q) == if v < 0.0 then -v else v;
    SameMinimal(a, p, b, q);
    if v < 0.0 { assert t == [t[0]] + t[1..] && w == [w[0]] + w[1..]; }
  }

  lemma CanonicalIsMinimal(num: Number)
    requires num.Normal() && CanonicalNumber(num).Some?
    ensures Minimal(CanonicalNumber(num).value)
  {
    if num.Zero? {
      NoughtDecimals();
      PositiveIsMinimal([0], []);
    } else {
      var left, right := TextHasParts(num);
      if num.negative {
        NegativeIsMinimal(left, right);
      } else {
        PositiveIsMinimal(left, right);
        assert "" + DecimalText(left, right) == DecimalText(left, right);
      }
    }
  }

  /** Main result: the text is the number's minimal decimal form. It has no superfluous zero or sign, and it is the only
      such text that denotes the number's rational. */
  lemma CanonicalNumberIsMinimal(num: Number, t: string)
    requires num.Normal() && (num.Zero? || num.Finite?)
    ensures CanonicalNumber(num) == Some(t) <==> Minimal(t) && Denotes(t, Rational(num))
  {
    CanonicalIsMinimal(num);
    TextDenotes(num);
    if Minimal(t) && Denotes(t, Rational(num)) {
      MinimalIsUnique(t, CanonicalNumber(num).value, Rational(num));
    }
  }
}
