/** What a canonical form says of a value, stated without the encoder. */
module CanonicalMeaning {
  import opened Unicode
  import opened Decimal
  import opened Sorting
  import opened CanonicalJson
  import opened CanonicalEquality

  /** Keys strictly ascend by code point. */
  ghost predicate Rising(fs: seq<Field>) {
    forall i, j :: 0 <= i < j < |fs| ==> Precedes(fs[i].key, fs[j].key)
  }

  ghost predicate Precedes(s: seq<CodeUnit>, t: seq<CodeUnit>) {
    var x, y := DecodeUtf16(s), DecodeUtf16(t);
    x.Some? && y.Some? && Compare(x.value, y.value) == -1
  }

  /** `c` is the same datum: the same leaf, a number in minimal decimal form, item by item the same list, and the same
      object but for the order of its keys and its undefined properties. */
  ghost predicate Represents(c: Canon, v: Value) {
    match (c, v)
    case (CNull, Null) => true
    case (CBool(b), Bool(d)) => b == d
    case (CText(s), Str(t)) => s == t
    case (CNumeral(t), Num(n)) => (n.Zero? || n.Finite?) && Minimal(t) && Denotes(t, Rational(n))
    case (CList(cs), Arr(items)) => |cs| == |items| && forall i :: 0 <= i < |cs| ==> Represents(cs[i], items[i])
    case (CRecord(fs), Obj(ps)) =>
      && Rising(fs)
      && (forall i :: 0 <= i < |fs| ==> IsMember(fs[i], ps))
      && forall j :: 0 <= j < |ps| && !ps[j].value.Undefined? ==> HasKey(fs, ps[j].key)
    case _ => false
  }

  /** The object has a property with that key and a value of that form. */
  ghost predicate IsMember(f: Field, ps: seq<Prop>) {
    exists j :: 0 <= j < |ps| && ps[j].key == f.key && Represents(f.value, ps[j].value)
  }

  ghost predicate HasKey(fs: seq<Field>, key: seq<CodeUnit>) {
    exists i :: 0 <= i < |fs| && fs[i].key == key
  }

  // ------------------------------------------------------- the encoder's form

  lemma {:induction false} NormalRepresents(v: Value)
    requires Genuine(v) && Normal(v).Ok?
    ensures Represents(Normal(v).value, v)
  {
    match v
    case Num(n) => CanonicalNumberIsMinimal(n, Normal(v).value.text);
    case Arr(items) =>
      ItemsExact(items);
      forall i | 0 <= i < |items| ensures Represents(Normal(items[i]).value, items[i]) {
        NormalRepresents(items[i]);
      }
    case Obj(props) =>
      forall p | p in props && Genuine(p.value) && Normal(p.value).Ok?
        ensures Represents(Normal(p.value).value, p.value) {
        NormalRepresents(p.value);
      }
      RecordRepresents(v);
    case _ =>
  }

  lemma NormalRises(v: Value)
    requires v.Obj? && Genuine(v) && Normal(v).Ok?
    ensures Normal(v).value.CRecord? && Rising(Normal(v).value.fields)
  {
    SortedProps(v);
    var ps := SortKeys(Defined(v.props));
    var fs, ks := Normal(v).value.fields, Keys(ps);
    forall i, j | 0 <= i < j < |fs| ensures Precedes(fs[i].key, fs[j].key) {
      assert ks[i] in ks && ks[j] in ks && UnitsLe(ks[i], ks[j]) && ks[i] != ks[j];
      AscendByCodePoint(ks[i], ks[j]);
    }
  }

  lemma MemberRepresents(v: Value, p: Prop, f: Field)
    requires v.Obj? && Genuine(v) && p in v.props && f.key == p.key && Normal(p.value) == Ok(f.value)
    requires Genuine(p.value) && Normal(p.value).Ok? ==> Represents(Normal(p.value).value, p.value)
    ensures IsMember(f, v.props)
  {
    var j :| 0 <= j < |v.props| && v.props[j] == p;
    assert Genuine(v.props[j].value);
  }

  lemma FieldsAreMembers(v: Value)
    requires v.Obj? && Genuine(v) && Normal(v).Ok? && Normal(v).value.CRecord?
    requires forall p :: p in v.props && Genuine(p.value) && Normal(p.value).Ok? ==>
      Represents(Normal(p.value).value, p.value)
    ensures var fs := Normal(v).value.fields; forall i :: 0 <= i < |fs| ==> IsMember(fs[i], v.props)
  {
    SortedProps(v);
    var ps, fs := SortKeys(Defined(v.props)), Normal(v).value.fields;
    forall i | 0 <= i < |fs| ensures IsMember(fs[i], v.props) {
      assert ps[i] in ps;
      MemberRepresents(v, ps[i], fs[i]);
    }
  }

  lemma DefinedAreFields(v: Value, p: Prop)
    requires v.Obj? && Genuine(v) && Normal(v).Ok? && Normal(v).value.CRecord?
    requires p in v.props && !p.value.Undefined?
    ensures HasKey(Normal(v).value.fields, p.key)
  {
    SortedProps(v);
    var ps, fs := SortKeys(Defined(v.props)), Normal(v).value.fields;
    assert p in ps;
    var i :| 0 <= i < |ps| && ps[i] == p;
    assert fs[i].key == p.key;
  }

  lemma RecordRepresents(v: Value)
    requires v.Obj? && Genuine(v) && Normal(v).Ok?
    requires forall p :: p in v.props && Genuine(p.value) && Normal(p.value).Ok? ==>
      Represents(Normal(p.value).value, p.value)
    ensures Represents(Normal(v).value, v)
  {
    NormalRises(v);
    FieldsAreMembers(v);
    forall j | 0 <= j < |v.props| && !v.props[j].value.Undefined?
      ensures HasKey(Normal(v).value.fields, v.props[j].key) {
      DefinedAreFields(v, v.props[j]);
    }
  }

  // ------------------------------------------------------------------ only one

  function FieldKeys(fs: seq<Field>): (r: seq<seq<CodeUnit>>)
    ensures |r| == |fs| && forall i :: 0 <= i < |fs| ==> r[i] == fs[i].key
  {
    seq(|fs|, i requires 0 <= i < |fs| => fs[i].key)
  }

  lemma PrecedesUnits(s: seq<CodeUnit>, t: seq<CodeUnit>)
    requires CleanString(s) && CleanString(t) && Precedes(s, t)
    ensures UnitsLe(s, t) && s != t
  {
    ScanAcceptsExactly(s);
    ScanAcceptsExactly(t);
    WellFormedIffDecodes(s);
    WellFormedIffDecodes(t);
    Utf8OrderIsCodePointOrder(DecodeUtf16(s).value, DecodeUtf16(t).value);
    CompareAntisymmetric(DecodeUtf16(s).value, DecodeUtf16(t).value);
  }

  lemma RisingKeys(fs: seq<Field>)
    requires Rising(fs) && forall i :: 0 <= i < |fs| ==> CleanString(fs[i].key)
    ensures Sorted(FieldKeys(fs), UnitsLe) && Distinct(FieldKeys(fs))
  {
    var ks := FieldKeys(fs);
    forall i, j | 0 <= i < j < |ks| ensures UnitsLe(ks[i], ks[j]) && ks[i] != ks[j] {
      PrecedesUnits(fs[i].key, fs[j].key);
    }
  }

  lemma KeysOfObject(fs: seq<Field>, ps: seq<Prop>, key: seq<CodeUnit>)
    requires Represents(CRecord(fs), Obj(ps))
    ensures HasKey(fs, key) <==> exists j :: 0 <= j < |ps| && ps[j].key == key && !ps[j].value.Undefined?
  {
    if i :| 0 <= i < |fs| && fs[i].key == key {
      assert IsMember(fs[i], ps);
    }
  }

  lemma CleanKeys(fs: seq<Field>, ps: seq<Prop>)
    requires Represents(CRecord(fs), Obj(ps)) && InDomain(Obj(ps))
    ensures forall i :: 0 <= i < |fs| ==> CleanString(fs[i].key)
  {
    forall i | 0 <= i < |fs| ensures CleanString(fs[i].key) {
      assert IsMember(fs[i], ps);
    }
  }

  lemma SameFieldKeys(fs: seq<Field>, gs: seq<Field>, ps: seq<Prop>)
    requires Represents(CRecord(fs), Obj(ps)) && Represents(CRecord(gs), Obj(ps)) && InDomain(Obj(ps))
    ensures FieldKeys(fs) == FieldKeys(gs)
  {
    CleanKeys(fs, ps);
    CleanKeys(gs, ps);
    RisingKeys(fs);
    RisingKeys(gs);
    forall key ensures key in FieldKeys(fs) <==> key in FieldKeys(gs) {
      KeysOfObject(fs, ps, key);
      KeysOfObject(gs, ps, key);
      KeyIsListed(fs, key);
      KeyIsListed(gs, key);
    }
    forall k | k in FieldKeys(fs) ensures CleanString(k) {
      var i :| 0 <= i < |fs| && fs[i].key == k;
    }
    SortedKeysUnique(FieldKeys(fs), FieldKeys(gs));
  }

  lemma KeyIsListed(fs: seq<Field>, key: seq<CodeUnit>)
    ensures key in FieldKeys(fs) <==> HasKey(fs, key)
  {
    if i :| 0 <= i < |fs| && fs[i].key == key { assert FieldKeys(fs)[i] == key; }
  }

  /** A value has one canonical form. */
  lemma {:induction false} OneForm(c: Canon, d: Canon, v: Value)
    requires Genuine(v) && InDomain(v) && Represents(c, v) && Represents(d, v)
    ensures c == d
    decreases c
  {
    match v
    case Num(n) => MinimalIsUnique(c.text, d.text, Rational(n));
    case Arr(items) =>
      forall i | 0 <= i < |items| ensures c.items[i] == d.items[i] {
        OneForm(c.items[i], d.items[i], items[i]);
      }
    case Obj(ps) =>
      SameFieldKeys(c.fields, d.fields, ps);
      assert |FieldKeys(c.fields)| == |FieldKeys(d.fields)|;
      forall i | 0 <= i < |c.fields| ensures c.fields[i] == d.fields[i] {
        assert FieldKeys(c.fields)[i] == FieldKeys(d.fields)[i];
        var j := SameMember(c.fields[i], d.fields[i], ps);
        OneForm(c.fields[i].value, d.fields[i].value, ps[j].value);
      }
    case _ =>
  }

  lemma SameMember(f: Field, g: Field, ps: seq<Prop>) returns (j: nat)
    requires DistinctKeys(ps) && f.key == g.key && IsMember(f, ps) && IsMember(g, ps)
    ensures j < |ps| && Represents(f.value, ps[j].value) && Represents(g.value, ps[j].value)
  {
    j :| j < |ps| && ps[j].key == f.key && Represents(f.value, ps[j].value);
    var k :| 0 <= k < |ps| && ps[k].key == g.key && Represents(g.value, ps[k].value);
  }

  /** Main result: the encoder gives a value the one canonical form that is the same datum, and none outside the
      domain. */
  lemma NormalIsTheForm(v: Value, c: Canon)
    requires Genuine(v)
    ensures Normal(v) == Ok(c) <==> InDomain(v) && Represents(c, v)
  {
    AcceptsExactlyTheDomain(v);
    if Normal(v).Ok? {
      NormalRepresents(v);
      if Represents(c, v) { OneForm(c, Normal(v).value, v); }
    }
  }

  /** Main result: what the decoder reads off the text of a value in the domain is that datum. */
  lemma TextSaysTheValue(v: Value, suffix: string) returns (c: Canon)
    requires Genuine(v) && InDomain(v)
    ensures Represents(c, v) && Text(v).Ok? && |PREFIX| <= |Text(v).value|
    ensures Decode(Text(v).value[|PREFIX|..] + suffix) == Got(c, suffix)
  {
    AcceptsExactlyTheDomain(v);
    c := Normal(v).value;
    NormalIsTheForm(v, c);
    TextDecodes(v, suffix);
  }

  // -------------------------------------------------------------------- refusals

  ghost predicate TextHas(s: seq<CodeUnit>, e: Rejection) {
    (e.NulCharacter? && 0 in s) || (e.UnpairedSurrogate? && exists i: nat :: UnpairedAt(s, i))
  }

  /** The value has the defect somewhere. */
  ghost predicate Has(v: Value, e: Rejection) {
    match v
    case Str(s) => TextHas(s, e)
    case Num(n) => e.NonFiniteNumber? && (n.NaN? || n.Infinity?)
    case Arr(items) => exists i :: 0 <= i < |items| && ((e.SparseArray? && items[i].Undefined?) || Has(items[i], e))
    case Obj(ps) =>
      exists i :: 0 <= i < |ps| && !ps[i].value.Undefined? && (TextHas(ps[i].key, e) || Has(ps[i].value, e))
    case Instance => e.NotPlainObject?
    case Undefined => e.OutsideDomain?
    case Foreign => e.OutsideDomain?
    case _ => false
  }

  lemma StringRefusal(s: seq<CodeUnit>)
    requires CheckString(s).Err?
    ensures TextHas(s, CheckString(s).error)
  {
    var i := ScanNamesTheDefect(s);
    assert s[i] in s;
  }

  lemma {:induction false} KeyRefusal(ps: seq<Prop>) returns (p: Prop)
    requires CheckKeys(ps).Err?
    ensures p in ps && TextHas(p.key, CheckKeys(ps).error)
  {
    if CheckString(ps[0].key).Err? {
      p := ps[0];
      StringRefusal(p.key);
    } else {
      p := KeyRefusal(ps[1..]);
    }
  }

  lemma {:induction false} ItemRefusal(items: seq<Value>) returns (i: nat)
    requires NormalItems(items).Err?
    ensures i < |items|
    ensures (items[i].Undefined? && NormalItems(items).error.SparseArray?)
      || Normal(items[i]) == Err(NormalItems(items).error)
  {
    if items[0].Undefined? || Normal(items[0]).Err? {
      i := 0;
    } else {
      var j := ItemRefusal(items[1..]);
      i := j + 1;
    }
  }

  lemma {:induction false} FieldRefusal(parent: Value, ps: seq<Prop>) returns (p: Prop)
    requires parent.Obj? && (forall p :: p in ps ==> p in parent.props) && NormalFields(parent, ps).Err?
    ensures p in ps && Normal(p.value) == Err(NormalFields(parent, ps).error)
  {
    if Normal(ps[0].value).Err? {
      p := ps[0];
    } else {
      p := FieldRefusal(parent, ps[1..]);
    }
  }

  lemma AtProp(ps: seq<Prop>, p: Prop, e: Rejection)
    requires p in ps && !p.value.Undefined? && (TextHas(p.key, e) || Has(p.value, e))
    ensures Has(Obj(ps), e)
  {
    var i :| 0 <= i < |ps| && ps[i] == p;
  }

  /** Main result: the defect that a refusal names is one that the value has. */
  lemma {:induction false} RefusalsAreTrue(v: Value)
    requires Genuine(v) && Normal(v).Err?
    ensures Has(v, Normal(v).error)
  {
    match v
    case Str(s) => StringRefusal(s);
    case Num(n) => CanonicalNumberExact(n, n);
    case Arr(items) =>
      var i := ItemRefusal(items);
      if !items[i].Undefined? { RefusalsAreTrue(items[i]); }
    case Obj(ps) =>
      if CheckKeys(Defined(ps)).Err? {
        var p := KeyRefusal(Defined(ps));
        AtProp(ps, p, Normal(v).error);
      } else {
        var p := FieldRefusal(v, SortKeys(Defined(ps)));
        GenuineProp(v, p);
        RefusalsAreTrue(p.value);
        AtProp(ps, p, Normal(v).error);
      }
    case _ =>
  }

  lemma GenuineProp(v: Value, p: Prop)
    requires v.Obj? && Genuine(v) && p in v.props
    ensures Genuine(p.value)
  {
    var i :| 0 <= i < |v.props| && v.props[i] == p;
  }
}
