/** Canonical JSON v1: the normal form of a JSON value, its token stream, and a decoder for the stream. */
module CanonicalJson {
  import opened Options
  import opened Unicode
  import opened Decimal
  import opened Sorting

  datatype Rejection = NulCharacter | UnpairedSurrogate | NonFiniteNumber | SparseArray | NotPlainObject | Circular
                     | OutsideDomain

  datatype Result<+T> = Ok(value: T) | Err(error: Rejection)

  /** A script value as a tree. `Undefined` also stands for an array hole, `Instance` for an object whose
      prototype is not the plain one, `Foreign` for functions, symbols and big integers. */
  datatype Value = Null | Bool(b: bool) | Str(s: seq<CodeUnit>) | Num(n: Number)
                 | Arr(items: seq<Value>) | Obj(props: seq<Prop>)
                 | Undefined | Instance | Foreign
  datatype Keyed<+V> = Keyed(key: seq<CodeUnit>, value: V)
  type Prop = Keyed<Value>

  /** What canonical text determines: keys sorted, undefined properties gone, numbers as decimal text. */
  datatype Canon = CNull | CBool(b: bool) | CText(s: seq<CodeUnit>) | CNumeral(text: string)
                 | CList(items: seq<Canon>) | CRecord(fields: seq<Field>)
  type Field = Keyed<Canon>

  // ------------------------------------------------------------ normal form

  function CheckString(s: seq<CodeUnit>): Result<()> {
    match Scan(s)
    case Accepted => Ok(())
    case HasNul => Err(NulCharacter)
    case Unpaired => Err(UnpairedSurrogate)
  }

  /** Properties whose value is not undefined, in the object's own order. */
  function Defined(props: seq<Prop>): (r: seq<Prop>)
    ensures forall p :: p in r <==> p in props && !p.value.Undefined?
  {
    if props == [] then []
    else (if props[0].value.Undefined? then [] else [props[0]]) + Defined(props[1..])
  }

  function CheckKeys<V>(props: seq<Keyed<V>>): Result<()> {
    if props == [] then Ok(())
    else match CheckString(props[0].key) case Err(e) => Err(e) case Ok(_) => CheckKeys(props[1..])
  }

  predicate KeyLe<V>(p: Keyed<V>, q: Keyed<V>) {
    Compare(Encode(p.key), Encode(q.key)) <= 0
  }

  function SortKeys<V(!new)>(props: seq<Keyed<V>>): (r: seq<Keyed<V>>)
    ensures forall p :: p in r <==> p in props
    ensures |r| == |props|
  {
    var r := Sort(props, KeyLe<V>);
    assert forall p :: p in r <==> p in props by {
      SameElements(r, props);
      assert forall p :: p in r <==> p in multiset(r);
      assert forall p :: p in props <==> p in multiset(props);
    }
    r
  }

  function Normal(v: Value): Result<Canon>
    decreases v, 1
  {
    match v
    case Null => Ok(CNull)
    case Bool(b) => Ok(CBool(b))
    case Str(s) => (match CheckString(s) case Err(e) => Err(e) case Ok(_) => Ok(CText(s)))
    case Num(n) => NormalNumber(n)
    case Arr(items) => (match NormalItems(items) case Err(e) => Err(e) case Ok(cs) => Ok(CList(cs)))
    case Obj(props) =>
      var ps := Defined(props);
      (match CheckKeys(ps)
       case Err(e) => Err(e)
       case Ok(_) => match NormalFields(v, SortKeys(ps)) case Err(e) => Err(e) case Ok(fs) => Ok(CRecord(fs)))
    case Instance => Err(NotPlainObject)
    case Undefined => Err(OutsideDomain)
    case Foreign => Err(OutsideDomain)
  }

  function NormalNumber(n: Number): Result<Canon> {
    if !n.Normal() then Err(OutsideDomain)
    else match CanonicalNumber(n) case None => Err(NonFiniteNumber) case Some(t) => Ok(CNumeral(t))
  }

  function NormalItems(items: seq<Value>): Result<seq<Canon>>
    decreases items, 0
  {
    if items == [] then Ok([])
    else if items[0].Undefined? then Err(SparseArray)
    else match Normal(items[0])
      case Err(e) => Err(e)
      case Ok(c) => match NormalItems(items[1..]) case Err(e) => Err(e) case Ok(cs) => Ok([c] + cs)
  }

  function NormalFields(parent: Value, ps: seq<Prop>): Result<seq<Field>>
    requires parent.Obj? && forall p :: p in ps ==> p in parent.props
    decreases parent, 0, |ps|
  {
    if ps == [] then Ok([])
    else
      assert ps[0] in parent.props;
      match Normal(ps[0].value)
      case Err(e) => Err(e)
      case Ok(c) =>
        match NormalFields(parent, ps[1..]) case Err(e) => Err(e) case Ok(fs) => Ok([Keyed(ps[0].key, c)] + fs)
  }

  // ------------------------------------------------------------------ text

  function HexChar(n: nat): char
    requires n < 16
  {
    if n < 10 then '0' + n as char else 'a' + (n - 10) as char
  }

  function HexByte(b: Byte): string { [HexChar(b / 16), HexChar(b % 16)] }

  function Hex(bs: seq<Byte>): string {
    if bs == [] then "" else HexByte(bs[0]) + Hex(bs[1..])
  }

  /** A length or count in decimal. */
  function Count(n: nat): string {
    (if n < 10 then "" else Count(n / 10)) + [DigitChar(n % 10)]
  }

  /** A token is its tag, a count and what is counted. */
  function Framed(tag: char, n: nat, body: string): string {
    [tag] + Count(n) + ":" + body
  }

  function StringToken(s: seq<CodeUnit>): string {
    Framed('S', |Encode(s)|, Hex(Encode(s)))
  }

  function Render(c: Canon): string
    decreases c, 1
  {
    match c
    case CNull => "N"
    case CBool(b) => if b then "T" else "F"
    case CText(s) => StringToken(s)
    case CNumeral(text) => Framed('D', |text|, text)
    case CList(items) => Framed('A', |items|, RenderItems(items))
    case CRecord(fields) => Framed('O', |fields|, RenderFields(fields))
  }

  function RenderItems(items: seq<Canon>): string
    decreases items, 0
  {
    if items == [] then "" else Render(items[0]) + RenderItems(items[1..])
  }

  function RenderFields(fields: seq<Field>): string
    decreases fields, 0
  {
    if fields == [] then "" else StringToken(fields[0].key) + Render(fields[0].value) + RenderFields(fields[1..])
  }

  const PREFIX := "managed-oss-canonical-json.v1|"

  function Text(v: Value): Result<string> {
    match Normal(v) case Err(e) => Err(e) case Ok(c) => Ok(PREFIX + Render(c))
  }

  // --------------------------------------------------------------- decoder

  datatype Read<+T> = Fail | Got(value: T, rest: string)

  function ReadCount(t: string, acc: nat): (r: Read<nat>)
    ensures r.Got? ==> |r.rest| < |t|
  {
    if t == [] then Fail
    else if t[0] == ':' then Got(acc, t[1..])
    else if IsDigit(t[0]) then ReadCount(t[1..], 10 * acc + (t[0] - '0') as int)
    else Fail
  }

  function Nibble(c: char): Option<nat>
  {
    if '0' <= c <= '9' then Some((c - '0') as int)
    else if 'a' <= c <= 'f' then Some(10 + (c - 'a') as int)
    else None
  }

  function ReadHex(t: string, n: nat): (r: Read<seq<Byte>>)
    ensures r.Got? ==> |r.rest| <= |t|
    decreases n
  {
    if n == 0 then Got([], t)
    else if |t| < 2 then Fail
    else match (Nibble(t[0]), Nibble(t[1]))
      case (Some(h), Some(l)) =>
        if 16 * h + l >= 0x100 then Fail
        else (match ReadHex(t[2..], n - 1) case Fail => Fail case Got(bs, rest) => Got([16 * h + l] + bs, rest))
      case _ => Fail
  }

  function ReadString(t: string): (r: Read<seq<CodeUnit>>)
    ensures r.Got? ==> |r.rest| < |t|
  {
    if t == [] || t[0] != 'S' then Fail
    else match ReadCount(t[1..], 0)
      case Fail => Fail
      case Got(n, body) => match ReadHex(body, n)
        case Fail => Fail
        case Got(bs, rest) => match DecodeUtf8(bs) case None => Fail case Some(cs) => Got(Utf16(cs), rest)
  }

  function Decode(t: string): (r: Read<Canon>)
    ensures r.Got? ==> |r.rest| < |t|
    decreases |t|, 0, 0
  {
    if t == [] then Fail
    else if t[0] == 'N' then Got(CNull, t[1..])
    else if t[0] == 'T' then Got(CBool(true), t[1..])
    else if t[0] == 'F' then Got(CBool(false), t[1..])
    else if t[0] == 'S' then
      match ReadString(t) case Fail => Fail case Got(s, rest) => Got(CText(s), rest)
    else if t[0] !in "DAO" then Fail
    else match ReadCount(t[1..], 0)
      case Fail => Fail
      case Got(n, body) =>
        if t[0] == 'D' then if |body| < n then Fail else Got(CNumeral(body[..n]), body[n..])
        else if t[0] == 'A' then
          match DecodeItems(body, n) case Fail => Fail case Got(cs, rest) => Got(CList(cs), rest)
        else
          match DecodeFields(body, n) case Fail => Fail case Got(fs, rest) => Got(CRecord(fs), rest)
  }

  function DecodeItems(t: string, n: nat): (r: Read<seq<Canon>>)
    ensures r.Got? ==> |r.rest| <= |t|
    decreases |t|, 1, n
  {
    if n == 0 then Got([], t)
    else match Decode(t)
      case Fail => Fail
      case Got(c, more) => match DecodeItems(more, n - 1) case Fail => Fail case Got(cs, rest) => Got([c] + cs, rest)
  }

  function DecodeFields(t: string, n: nat): (r: Read<seq<Field>>)
    ensures r.Got? ==> |r.rest| <= |t|
    decreases |t|, 1, n
  {
    if n == 0 then Got([], t)
    else match ReadString(t)
      case Fail => Fail
      case Got(key, body) => match Decode(body)
        case Fail => Fail
        case Got(c, more) => match DecodeFields(more, n - 1)
          case Fail => Fail
          case Got(fs, rest) => Got([Keyed(key, c)] + fs, rest)
  }

  /** Every string inside is one `assertUnicodeScalarString` accepts. */
  predicate CleanStrings(c: Canon) {
    match c
    case CText(s) => Scan(s).Accepted?
    case CList(items) => forall i :: 0 <= i < |items| ==> CleanStrings(items[i])
    case CRecord(fields) =>
      forall i :: 0 <= i < |fields| ==> Scan(fields[i].key).Accepted? && CleanStrings(fields[i].value)
    case _ => true
  }

  // ------------------------------------------------------------ round trip

  lemma {:induction false} ReadCountOfCount(n: nat, t: string)
    ensures ReadCount(Count(n) + t, 0) == ReadCount(t, n)
  {
    var d := [DigitChar(n % 10)];
    if n < 10 {
      assert Count(n) + t == d + t;
    } else {
      assert Count(n) + t == Count(n / 10) + (d + t);
      ReadCountOfCount(n / 10, d + t);
    }
    assert (d + t)[1..] == t;
  }

  lemma ReadCountToken(n: nat, t: string)
    ensures ReadCount(Count(n) + ":" + t, 0) == Got(n, t)
  {
    assert Count(n) + ":" + t == Count(n) + (":" + t);
    ReadCountOfCount(n, ":" + t);
    assert (":" + t)[1..] == t;
  }

  lemma NibbleOf(n: nat)
    requires n < 16
    ensures Nibble(HexChar(n)) == Some(n)
  {
  }

  lemma {:induction false} ReadHexOfHex(bs: seq<Byte>, t: string)
    ensures ReadHex(Hex(bs) + t, |bs|) == Got(bs, t)
  {
    if bs == [] {
      assert Hex(bs) + t == t;
    } else {
      var u := Hex(bs) + t;
      assert u == HexByte(bs[0]) + (Hex(bs[1..]) + t);
      NibbleOf(bs[0] / 16);
      NibbleOf(bs[0] % 16);
      assert u[2..] == Hex(bs[1..]) + t;
      ReadHexOfHex(bs[1..], t);
      assert bs == [bs[0]] + bs[1..];
    }
  }

  lemma TaggedToken(tag: char, n: nat, body: string, t: string)
    ensures var u := Framed(tag, n, body) + t; u[0] == tag && ReadCount(u[1..], 0) == Got(n, body + t)
  {
    var u := Framed(tag, n, body) + t;
    assert u[1..] == Count(n) + ":" + (body + t);
    ReadCountToken(n, body + t);
  }

  lemma DecodeOfEncode(s: seq<CodeUnit>)
    requires Scan(s).Accepted?
    ensures DecodeUtf8(Encode(s)).Some? && Utf16(DecodeUtf8(Encode(s)).value) == s
  {
    ScanAcceptsExactly(s);
    WellFormedIffDecodes(s);
    DecodeUtf8OfUtf8(DecodeUtf16(s).value);
    Utf16OfDecodeUtf16(s);
  }

  lemma ReadStringOfToken(s: seq<CodeUnit>, t: string)
    requires Scan(s).Accepted?
    ensures ReadString(StringToken(s) + t) == Got(s, t)
  {
    var bs := Encode(s);
    TaggedToken('S', |bs|, Hex(bs), t);
    ReadHexOfHex(bs, t);
    DecodeOfEncode(s);
  }

  lemma DecodeOfNumeral(text: string, t: string)
    ensures Decode(Framed('D', |text|, text) + t) == Got(CNumeral(text), t)
  {
    TaggedToken('D', |text|, text, t);
    assert (text + t)[..|text|] == text && (text + t)[|text|..] == t;
  }

  lemma DecodeOfList(n: nat, items: seq<Canon>, body: string, t: string)
    requires DecodeItems(body + t, n) == Got(items, t)
    ensures Decode(Framed('A', n, body) + t) == Got(CList(items), t)
  {
    TaggedToken('A', n, body, t);
  }

  lemma DecodeOfRecord(n: nat, fields: seq<Field>, body: string, t: string)
    requires DecodeFields(body + t, n) == Got(fields, t)
    ensures Decode(Framed('O', n, body) + t) == Got(CRecord(fields), t)
  {
    TaggedToken('O', n, body, t);
  }

  lemma DecodeOfString(s: seq<CodeUnit>, t: string)
    requires Scan(s).Accepted?
    ensures Decode(StringToken(s) + t) == Got(CText(s), t)
  {
    ReadStringOfToken(s, t);
    assert (StringToken(s) + t)[0] == 'S';
  }

  /** The decoder undoes the encoder whatever follows the text. */
  lemma {:induction false} DecodeOfRender(c: Canon, t: string)
    requires CleanStrings(c)
    ensures Decode(Render(c) + t) == Got(c, t)
    decreases c, 1
  {
    match c {
      case CNull => assert ("N" + t)[1..] == t;
      case CBool(b) => assert ("T" + t)[1..] == t && ("F" + t)[1..] == t;
      case CText(s) => DecodeOfString(s, t);
      case CNumeral(text) => DecodeOfNumeral(text, t);
      case CList(items) =>
        DecodeOfItems(items, t);
        DecodeOfList(|items|, items, RenderItems(items), t);
      case CRecord(fields) =>
        DecodeOfFields(fields, t);
        DecodeOfRecord(|fields|, fields, RenderFields(fields), t);
    }
  }

  lemma ItemsText(first: Canon, rest: seq<Canon>, t: string)
    ensures RenderItems([first] + rest) + t == Render(first) + (RenderItems(rest) + t)
  {
    assert ([first] + rest)[1..] == rest;
  }

  lemma DecodeItemStep(u: string, first: Canon, more: string, rest: seq<Canon>, t: string)
    requires Decode(u) == Got(first, more) && DecodeItems(more, |rest|) == Got(rest, t)
    ensures DecodeItems(u, |rest| + 1) == Got([first] + rest, t)
  {
  }

  lemma {:induction false} DecodeOfItems(items: seq<Canon>, t: string)
    requires forall i :: 0 <= i < |items| ==> CleanStrings(items[i])
    ensures DecodeItems(RenderItems(items) + t, |items|) == Got(items, t)
    decreases items, 0
  {
    if items == [] {
      assert RenderItems(items) + t == t;
    } else {
      var first, rest := items[0], items[1..];
      DecodeOfRender(first, RenderItems(rest) + t);
      DecodeOfItems(rest, t);
      ItemsText(first, rest, t);
      DecodeItemStep(Render(first) + (RenderItems(rest) + t), first, RenderItems(rest) + t, rest, t);
      assert items == [first] + rest;
    }
  }

  lemma Regroup(a: string, b: string, c: string, t: string)
    ensures a + b + c + t == a + (b + (c + t))
  {
  }

  lemma FieldsText(f: Field, rest: seq<Field>, t: string)
    ensures RenderFields([f] + rest) + t == StringToken(f.key) + (Render(f.value) + (RenderFields(rest) + t))
  {
    assert ([f] + rest)[1..] == rest;
    Regroup(StringToken(f.key), Render(f.value), RenderFields(rest), t);
  }

  lemma DecodeFieldStep(u: string, f: Field, body: string, more: string, rest: seq<Field>, t: string)
    requires ReadString(u) == Got(f.key, body) && Decode(body) == Got(f.value, more)
    requires DecodeFields(more, |rest|) == Got(rest, t)
    ensures DecodeFields(u, |rest| + 1) == Got([f] + rest, t)
  {
  }

  lemma DecodeOfField(f: Field, more: string, rest: seq<Field>, t: string)
    requires Scan(f.key).Accepted? && Decode(Render(f.value) + more) == Got(f.value, more)
    requires DecodeFields(more, |rest|) == Got(rest, t)
    ensures DecodeFields(StringToken(f.key) + (Render(f.value) + more), |rest| + 1) == Got([f] + rest, t)
  {
    ReadStringOfToken(f.key, Render(f.value) + more);
    DecodeFieldStep(StringToken(f.key) + (Render(f.value) + more), f, Render(f.value) + more, more, rest, t);
  }

  lemma {:induction false} DecodeOfFields(fields: seq<Field>, t: string)
    requires forall i :: 0 <= i < |fields| ==> Scan(fields[i].key).Accepted? && CleanStrings(fields[i].value)
    ensures DecodeFields(RenderFields(fields) + t, |fields|) == Got(fields, t)
    decreases fields, 0
  {
    if fields == [] {
      assert RenderFields(fields) + t == t;
    } else {
      var f, rest := fields[0], fields[1..];
      var more := RenderFields(rest) + t;
      DecodeOfRender(f.value, more);
      DecodeOfFields(rest, t);
      DecodeOfField(f, more, rest, t);
      FieldsText(f, rest, t);
      assert fields == [f] + rest;
    }
  }

  /** The token stream is self-delimiting: no text is a proper prefix of another, and equal texts have one reading. */
  lemma RenderPrefixFree(c: Canon, d: Canon)
    requires CleanStrings(c) && CleanStrings(d)
    requires Render(c) <= Render(d)
    ensures c == d
  {
    var t := Render(d)[|Render(c)|..];
    assert Render(c) + t == Render(d) + "";
    DecodeOfRender(c, t);
    DecodeOfRender(d, "");
  }
}
