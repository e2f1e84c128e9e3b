/** When two script values have the same canonical text, and which values have one at all. */
module CanonicalEquality {
  import opened Unicode
  import opened Decimal
  import opened Sorting
  import opened CanonicalJson

  ghost predicate DistinctKeys(ps: seq<Prop>) {
    forall i, j :: 0 <= i < j < |ps| ==> ps[i].key != ps[j].key
  }

  /** What every script value satisfies: own keys are distinct, numbers serialise in shortest form. */
  ghost predicate Genuine(v: Value) {
    match v
    case Num(n) => n.Normal()
    case Arr(items) => forall i :: 0 <= i < |items| ==> Genuine(items[i])
    case Obj(props) => DistinctKeys(props) && forall i :: 0 <= i < |props| ==> Genuine(props[i].value)
    case _ => true
  }

  predicate CleanString(s: seq<CodeUnit>) { Scan(s).Accepted? }

  /** The canonical JSON domain, said without the encoder. */
  ghost predicate InDomain(v: Value) {
    match v
    case Null => true
    case Bool(_) => true
    case Str(s) => CleanString(s)
    case Num(n) => n.Zero? || n.Finite?
    case Arr(items) => forall i :: 0 <= i < |items| ==> InDomain(items[i])
    case Obj(props) =>
      forall i :: 0 <= i < |props| && !props[i].value.Undefined? ==>
        CleanString(props[i].key) && InDomain(props[i].value)
    case Undefined => false
    case Instance => false
    case Foreign => false
  }

  /** Equal up to key order, undefined properties and the sign of zero. */
  ghost predicate Same(v: Value, w: Value) {
    match (v, w)
    case (Num(m), Num(n)) => SameNumber(m, n)
    case (Arr(xs), Arr(ys)) => |xs| == |ys| && forall i :: 0 <= i < |xs| ==> Same(xs[i], ys[i])
    case (Obj(ps), Obj(qs)) =>
      && (forall i :: 0 <= i < |ps| && !ps[i].value.Undefined? ==>
            exists j :: 0 <= j < |qs| && qs[j].key == ps[i].key && Same(ps[i].value, qs[j].value))
      && (forall j :: 0 <= j < |qs| && !qs[j].value.Undefined? ==>
            exists i :: 0 <= i < |ps| && ps[i].key == qs[j].key && Same(ps[i].value, qs[j].value))
    case _ => v == w
  }

  // -------------------------------------------------------------- acceptance

  lemma {:induction false} CheckKeysExact(ps: seq<Prop>)
    ensures CheckKeys(ps).Ok? <==> forall p :: p in ps ==> CleanString(p.key)
  {
    if ps != [] {
      CheckKeysExact(ps[1..]);
      assert ps == [ps[0]] + ps[1..];
    }
  }

  lemma {:induction false} FieldsExact(parent: Value, ps: seq<Prop>)
    requires parent.Obj? && forall p :: p in ps ==> p in parent.props
    ensures NormalFields(parent, ps).Ok? <==> forall p :: p in ps ==> Normal(p.value).Ok?
    ensures NormalFields(parent, ps).Ok? ==>
      var fs := NormalFields(parent, ps).value;
      |fs| == |ps| && forall i :: 0 <= i < |ps| ==> fs[i].key == ps[i].key && Normal(ps[i].value) == Ok(fs[i].value)
  {
    if ps != [] {
      FieldsExact(parent, ps[1..]);
      assert ps == [ps[0]] + ps[1..];
    }
  }

  lemma {:induction false} ItemsExact(items: seq<Value>)
    ensures NormalItems(items).Ok? <==> forall i :: 0 <= i < |items| ==> Normal(items[i]).Ok?
    ensures NormalItems(items).Ok? ==>
      var cs := NormalItems(items).value;
      |cs| == |items| && forall i :: 0 <= i < |items| ==> Normal(items[i]) == Ok(cs[i])
  {
    if items != [] {
      ItemsExact(items[1..]);
      assert items == [items[0]] + items[1..];
    }
  }

  /** The encoder accepts exactly the domain. */
  lemma {:induction false} AcceptsExactlyTheDomain(v: Value)
    requires Genuine(v)
    ensures Normal(v).Ok? <==> InDomain(v)
  {
    match v {
      case Arr(items) =>
        ItemsExact(items);
        forall i | 0 <= i < |items| ensures Normal(items[i]).Ok? <==> InDomain(items[i]) {
          AcceptsExactlyTheDomain(items[i]);
        }
      case Obj(props) =>
        var ps := Defined(props);
        CheckKeysExact(ps);
        FieldsExact(v, SortKeys(ps));
        forall i | 0 <= i < |props| ensures Normal(props[i].value).Ok? <==> InDomain(props[i].value) {
          AcceptsExactlyTheDomain(props[i].value);
        }
        ObjectAccepted(v);
      case _ =>
    }
  }

  lemma ObjectAccepted(v: Value)
    requires v.Obj?
    requires forall i :: 0 <= i < |v.props| ==> (Normal(v.props[i].value).Ok? <==> InDomain(v.props[i].value))
    ensures Normal(v).Ok? <==> InDomain(v)
  {
    var ps := Defined(v.props);
    CheckKeysExact(ps);
    FieldsExact(v, SortKeys(ps));
    if InDomain(v) {
      forall p | p in ps ensures CleanString(p.key) && Normal(p.value).Ok? {
        var i :| 0 <= i < |v.props| && v.props[i] == p;
      }
    }
    if Normal(v).Ok? { AcceptedFields(v); }
  }

  lemma AcceptedFields(v: Value)
    requires v.Obj? && Normal(v).Ok?
    requires forall i :: 0 <= i < |v.props| ==> (Normal(v.props[i].value).Ok? <==> InDomain(v.props[i].value))
    ensures InDomain(v)
  {
    var ps := Defined(v.props);
    CheckKeysExact(ps);
    FieldsExact(v, SortKeys(ps));
    forall i | 0 <= i < |v.props| && !v.props[i].value.Undefined?
      ensures CleanString(v.props[i].key) && InDomain(v.props[i].value) {
      assert v.props[i] in ps && v.props[i] in SortKeys(ps);
    }
  }

  lemma {:induction false} NormalIsClean(v: Value)
    requires Normal(v).Ok?
    ensures CleanStrings(Normal(v).value)
  {
    match v {
      case Arr(items) =>
        forall i | 0 <= i < |items| && Normal(items[i]).Ok? ensures CleanStrings(Normal(items[i]).value) {
          NormalIsClean(items[i]);
        }
        ArrayIsClean(items);
      case Obj(props) =>
        forall p | p in props && Normal(p.value).Ok? ensures CleanStrings(Normal(p.value).value) {
          NormalIsClean(p.value);
        }
        ObjectIsClean(v);
      case _ =>
    }
  }

  lemma ArrayIsClean(items: seq<Value>)
    requires Normal(Arr(items)).Ok?
    requires forall i :: 0 <= i < |items| && Normal(items[i]).Ok? ==> CleanStrings(Normal(items[i]).value)
    ensures CleanStrings(Normal(Arr(items)).value)
  {
    ItemsExact(items);
  }

  lemma ObjectIsClean(v: Value)
    requires v.Obj? && Normal(v).Ok?
    requires forall p :: p in v.props && Normal(p.value).Ok? ==> CleanStrings(Normal(p.value).value)
    ensures CleanStrings(Normal(v).value)
  {
    var ps := SortKeys(Defined(v.props));
    CheckKeysExact(Defined(v.props));
    FieldsExact(v, ps);
    forall i | 0 <= i < |ps| ensures CleanString(ps[i].key) && CleanStrings(Normal(ps[i].value).value) {
      assert ps[i] in ps;
    }
  }

  // ------------------------------------------------------------ sorted keys

  function Keys(ps: seq<Prop>): (r: seq<seq<CodeUnit>>)
    ensures |r| == |ps| && forall i :: 0 <= i < |ps| ==> r[i] == ps[i].key
  {
    seq(|ps|, i requires 0 <= i < |ps| => ps[i].key)
  }

  predicate UnitsLe(s: seq<CodeUnit>, t: seq<CodeUnit>) { Compare(Encode(s), Encode(t)) <= 0 }

  lemma KeyLeIsTotal()
    ensures TotalPreorder(KeyLe<Value>)
  {
    forall x: Prop, y: Prop ensures KeyLe(x, y) || KeyLe(y, x) { CompareAntisymmetric(Encode(x.key), Encode(y.key)); }
    forall x: Prop, y: Prop, z: Prop | KeyLe(x, y) && KeyLe(y, z) ensures KeyLe(x, z) {
      CompareTransitive(Encode(x.key), Encode(y.key), Encode(z.key));
    }
  }

  lemma CleanKeysSeparate(ks: seq<seq<CodeUnit>>)
    requires forall k :: k in ks ==> CleanString(k)
    ensures Separates(UnitsLe, ks)
  {
    forall x, y | x in ks && y in ks && UnitsLe(x, y) && UnitsLe(y, x) ensures x == y {
      CompareAntisymmetric(Encode(x), Encode(y));
      EncodeInjective(x, y);
    }
  }

  /** Two repeat-free sorted key lists with the same keys are the same list. */
  lemma SortedKeysUnique(ks: seq<seq<CodeUnit>>, ls: seq<seq<CodeUnit>>)
    requires forall k :: k in ks ==> CleanString(k)
    requires Distinct(ks) && Distinct(ls)
    requires Sorted(ks, UnitsLe) && Sorted(ls, UnitsLe)
    requires forall k :: k in ks <==> k in ls
    ensures ks == ls
  {
    SameDistinct(ks, ls);
    CleanKeysSeparate(ks);
    SortedPermutationIsUnique(ks, ls, UnitsLe);
  }

  lemma {:induction false} DefinedKeepsDistinct(ps: seq<Prop>)
    requires DistinctKeys(ps)
    ensures DistinctKeys(Defined(ps))
  {
    if ps != [] {
      DefinedKeepsDistinct(ps[1..]);
      forall p | p in ps[1..] ensures p.key != ps[0].key {
        var j :| 0 <= j < |ps[1..]| && ps[1..][j] == p;
        assert ps[j + 1] == p;
      }
    }
  }

  lemma SortKeepsDistinct(ps: seq<Prop>)
    requires DistinctKeys(ps)
    ensures DistinctKeys(SortKeys(ps))
  {
    var r := SortKeys(ps);
    assert Distinct(ps);
    forall i, j | 0 <= i < j < |r| ensures r[i].key != r[j].key {
      if r[i].key == r[j].key {
        assert r[i] in ps && r[j] in ps;
        var x :| 0 <= x < |ps| && ps[x] == r[i];
        var y :| 0 <= y < |ps| && ps[y] == r[j];
        assert x == y;
        DistinctCount(ps, r[i]);
        TwiceCounted(r, i, j);
        assert false;
      }
    }
  }

  /** Facts about the sorted property list of an accepted object. */
  lemma SortedProps(v: Value)
    requires v.Obj? && Genuine(v) && Normal(v).Ok?
    ensures var ps := SortKeys(Defined(v.props));
      && DistinctKeys(ps) && Distinct(Keys(ps)) && Sorted(Keys(ps), UnitsLe)
      && (forall k :: k in Keys(ps) ==> CleanString(k))
      && (forall p :: p in ps <==> p in v.props && !p.value.Undefined?)
      && Normal(v).value.CRecord?
      && var fs := Normal(v).value.fields;
         |fs| == |ps| && forall i :: 0 <= i < |ps| ==> fs[i].key == ps[i].key && Normal(ps[i].value) == Ok(fs[i].value)
  {
    var ds := Defined(v.props);
    var ps := SortKeys(ds);
    DefinedKeepsDistinct(v.props);
    SortKeepsDistinct(ds);
    KeyLeIsTotal();
    SortSorts(ds, KeyLe<Value>);
    CheckKeysExact(ds);
    FieldsExact(v, ps);
    forall k | k in Keys(ps) ensures CleanString(k) {
      var i :| 0 <= i < |ps| && ps[i].key == k;
      assert ps[i] in ps;
    }
  }

  /** Record keys come out strictly ascending by Unicode code point. */
  lemma RecordKeysAscend(v: Value, i: nat, j: nat)
    requires v.Obj? && Genuine(v) && InDomain(v)
    ensures Normal(v).Ok? && Normal(v).value.CRecord?
    ensures var fs := Normal(v).value.fields;
      i < j < |fs| ==>
        && DecodeUtf16(fs[i].key).Some? && DecodeUtf16(fs[j].key).Some?
        && Compare(DecodeUtf16(fs[i].key).value, DecodeUtf16(fs[j].key).value) == -1
  {
    AcceptsExactlyTheDomain(v);
    SortedProps(v);
    var ks := Keys(SortKeys(Defined(v.props)));
    if i < j < |ks| {
      assert ks[i] in ks && ks[j] in ks && UnitsLe(ks[i], ks[j]) && ks[i] != ks[j];
      AscendByCodePoint(ks[i], ks[j]);
    }
  }

  lemma AscendByCodePoint(s: seq<CodeUnit>, t: seq<CodeUnit>)
    requires CleanString(s) && CleanString(t) && UnitsLe(s, t) && s != t
    ensures DecodeUtf16(s).Some? && DecodeUtf16(t).Some?
    ensures Compare(DecodeUtf16(s).value, DecodeUtf16(t).value) == -1
  {
    EncodeInjective(s, t);
    ScanAcceptsExactly(s);
    ScanAcceptsExactly(t);
    WellFormedIffDecodes(s);
    WellFormedIffDecodes(t);
    Utf8OrderIsCodePointOrder(DecodeUtf16(s).value, DecodeUtf16(t).value);
  }

  // ---------------------------------------------------------- text equality

  /** Equal normal forms are the same thing as equal values. */
  lemma {:induction false} NormalEqualIffSame(v: Value, w: Value)
    requires Genuine(v) && Genuine(w) && Normal(v).Ok? && Normal(w).Ok?
    ensures Normal(v) == Normal(w) <==> Same(v, w)
  {
    if v.Num? && w.Num? {
      CanonicalNumberExact(v.n, w.n);
    } else if v.Arr? && w.Arr? {
      if |v.items| == |w.items| {
        ItemsExact(v.items);
        ItemsExact(w.items);
        forall i | 0 <= i < |v.items|
          ensures Normal(v.items[i]) == Normal(w.items[i]) <==> Same(v.items[i], w.items[i]) {
          NormalEqualIffSame(v.items[i], w.items[i]);
        }
      }
      ListsEqual(v, w);
    } else if v.Obj? && w.Obj? {
      forall i, j | 0 <= i < |v.props| && 0 <= j < |w.props| && Normal(v.props[i].value).Ok?
        && Normal(w.props[j].value).Ok?
        ensures Normal(v.props[i].value) == Normal(w.props[j].value) <==> Same(v.props[i].value, w.props[j].value) {
        NormalEqualIffSame(v.props[i].value, w.props[j].value);
      }
      RecordsEqual(v, w);
    } else {
      OtherwiseEqual(v, w);
    }
  }

  lemma OtherwiseEqual(v: Value, w: Value)
    requires !(v.Num? && w.Num?) && !(v.Arr? && w.Arr?) && !(v.Obj? && w.Obj?)
    requires Normal(v).Ok? && Normal(w).Ok?
    ensures Normal(v) == Normal(w) <==> Same(v, w)
  {
  }

  lemma RecordsEqual(v: Value, w: Value)
    requires v.Obj? && w.Obj? && Genuine(v) && Genuine(w) && Normal(v).Ok? && Normal(w).Ok?
    requires AgreeBelow(v, w)
    ensures Normal(v) == Normal(w) <==> Same(v, w)
  {
    if Same(v, w) { SameGivesNormal(v, w); }
    if Normal(v) == Normal(w) { NormalGivesSame(v, w); }
  }

  lemma ListsEqual(v: Value, w: Value)
    requires v.Arr? && w.Arr? && Normal(v).Ok? && Normal(w).Ok?
    requires |v.items| == |w.items| ==>
      forall i :: 0 <= i < |v.items| ==> (Normal(v.items[i]) == Normal(w.items[i]) <==> Same(v.items[i], w.items[i]))
    ensures Normal(v) == Normal(w) <==> Same(v, w)
  {
    ItemsExact(v.items);
    ItemsExact(w.items);
    var cs, ds := Normal(v).value.items, Normal(w).value.items;
    if Same(v, w) {
      assert cs == ds;
    }
    if cs == ds {
      forall i | 0 <= i < |v.items| ensures Same(v.items[i], w.items[i]) {
        assert cs[i] == ds[i];
      }
    }
  }

  ghost predicate AgreeBelow(v: Value, w: Value)
    requires v.Obj? && w.Obj?
  {
    forall i, j | 0 <= i < |v.props| && 0 <= j < |w.props| ::
      Normal(v.props[i].value).Ok? && Normal(w.props[j].value).Ok? ==>
        (Normal(v.props[i].value) == Normal(w.props[j].value) <==> Same(v.props[i].value, w.props[j].value))
  }

  lemma SameGivesNormal(v: Value, w: Value)
    requires v.Obj? && w.Obj? && Genuine(v) && Genuine(w) && Normal(v).Ok? && Normal(w).Ok?
    requires AgreeBelow(v, w) && Same(v, w)
    ensures Normal(v) == Normal(w)
  {
    SortedProps(v);
    SortedProps(w);
    var ps, qs := SortKeys(Defined(v.props)), SortKeys(Defined(w.props));
    SameKeys(v, w);
    SortedKeysUnique(Keys(ps), Keys(qs));
    assert |Keys(ps)| == |Keys(qs)|;
    var fs, gs := Normal(v).value.fields, Normal(w).value.fields;
    forall i | 0 <= i < |ps| ensures fs[i] == gs[i] {
      assert Keys(ps)[i] == Keys(qs)[i];
      assert ps[i] in ps && qs[i] in qs;
      SameAtKey(v, w, ps[i], qs[i]);
    }
    assert fs == gs;
  }

  lemma SameAtKey(v: Value, w: Value, p: Prop, q: Prop)
    requires v.Obj? && w.Obj? && AgreeBelow(v, w) && Same(v, w) && DistinctKeys(w.props)
    requires p in v.props && !p.value.Undefined? && q in w.props && p.key == q.key
    requires Normal(p.value).Ok? && Normal(q.value).Ok?
    ensures Normal(p.value) == Normal(q.value)
  {
    var x :| 0 <= x < |v.props| && v.props[x] == p;
    var y :| 0 <= y < |w.props| && w.props[y].key == p.key && Same(p.value, w.props[y].value);
    var z :| 0 <= z < |w.props| && w.props[z] == q;
    assert y == z;
  }

  lemma SameKeys(v: Value, w: Value)
    requires v.Obj? && w.Obj? && Same(v, w)
    ensures var ps, qs := SortKeys(Defined(v.props)), SortKeys(Defined(w.props));
      forall k :: k in Keys(ps) <==> k in Keys(qs)
  {
    forall x | 0 <= x < |v.props| && !v.props[x].value.Undefined?
      ensures exists y :: 0 <= y < |w.props| && w.props[y].key == v.props[x].key && !w.props[y].value.Undefined? {
      var y :| 0 <= y < |w.props| && w.props[y].key == v.props[x].key && Same(v.props[x].value, w.props[y].value);
      DefinedSame(v.props[x].value, w.props[y].value);
    }
    KeysIncluded(v.props, w.props);
    forall y | 0 <= y < |w.props| && !w.props[y].value.Undefined?
      ensures exists x :: 0 <= x < |v.props| && v.props[x].key == w.props[y].key && !v.props[x].value.Undefined? {
      var x :| 0 <= x < |v.props| && v.props[x].key == w.props[y].key && Same(v.props[x].value, w.props[y].value);
      DefinedSame(v.props[x].value, w.props[y].value);
    }
    KeysIncluded(w.props, v.props);
  }

  lemma KeysIncluded(ps: seq<Prop>, qs: seq<Prop>)
    requires forall x :: 0 <= x < |ps| && !ps[x].value.Undefined? ==>
      exists y :: 0 <= y < |qs| && qs[y].key == ps[x].key && !qs[y].value.Undefined?
    ensures forall k :: k in Keys(SortKeys(Defined(ps))) ==> k in Keys(SortKeys(Defined(qs)))
  {
    var listed, bs := SortKeys(Defined(ps)), SortKeys(Defined(qs));
    forall k | k in Keys(listed) ensures k in Keys(bs) {
      var i :| 0 <= i < |listed| && listed[i].key == k;
      assert listed[i] in listed;
      var x :| 0 <= x < |ps| && ps[x] == listed[i];
      var y :| 0 <= y < |qs| && qs[y].key == k && !qs[y].value.Undefined?;
      assert qs[y] in bs;
      KeyListed(bs, qs[y]);
    }
  }

  lemma DefinedSame(x: Value, y: Value)
    requires Same(x, y)
    ensures x.Undefined? <==> y.Undefined?
  {
  }

  lemma KeyListed(ps: seq<Prop>, p: Prop)
    requires p in ps
    ensures p.key in Keys(ps)
  {
    var i :| 0 <= i < |ps| && ps[i] == p;
    assert Keys(ps)[i] == p.key;
  }

  lemma NormalGivesSame(v: Value, w: Value)
    requires v.Obj? && w.Obj? && Genuine(v) && Genuine(w) && Normal(v).Ok? && Normal(w).Ok?
    requires AgreeBelow(v, w) && Normal(v) == Normal(w)
    ensures Same(v, w)
  {
    SortedProps(v);
    SortedProps(w);
    forall x | 0 <= x < |v.props| && !v.props[x].value.Undefined?
      ensures exists y ::
        0 <= y < |w.props| && w.props[y].key == v.props[x].key && Same(v.props[x].value, w.props[y].value) {
      var y := Counterpart(v, w, x);
    }
    forall y | 0 <= y < |w.props| && !w.props[y].value.Undefined?
      ensures exists x ::
        0 <= x < |v.props| && v.props[x].key == w.props[y].key && Same(v.props[x].value, w.props[y].value) {
      var x := Counterpart(w, v, y);
    }
  }

  /** The property of `w` at the sorted position of `v.props[x]`. */
  lemma Counterpart(v: Value, w: Value, x: nat) returns (y: nat)
    requires v.Obj? && w.Obj? && Genuine(v) && Genuine(w) && Normal(v).Ok? && Normal(w) == Normal(v)
    requires x < |v.props| && !v.props[x].value.Undefined?
    ensures y < |w.props| && w.props[y].key == v.props[x].key
    ensures Normal(v.props[x].value).Ok? && Normal(v.props[x].value) == Normal(w.props[y].value)
  {
    SortedProps(v);
    SortedProps(w);
    var ps, qs := SortKeys(Defined(v.props)), SortKeys(Defined(w.props));
    assert v.props[x] in ps;
    var i :| 0 <= i < |ps| && ps[i] == v.props[x];
    assert qs[i] in qs;
    y :| 0 <= y < |w.props| && w.props[y] == qs[i];
  }

  /** Main result: two accepted values have equal text exactly when they are the same value, and otherwise
      neither text is a prefix of the other. */
  lemma EqualTextIffSame(v: Value, w: Value)
    requires Genuine(v) && Genuine(w) && InDomain(v) && InDomain(w)
    ensures Text(v).Ok? && Text(w).Ok?
    ensures Text(v) == Text(w) <==> Same(v, w)
    ensures Text(v).value <= Text(w).value <==> Same(v, w)
  {
    AcceptsExactlyTheDomain(v);
    AcceptsExactlyTheDomain(w);
    NormalIsClean(v);
    NormalIsClean(w);
    NormalEqualIffSame(v, w);
    var c, d := Normal(v).value, Normal(w).value;
    if PREFIX + Render(c) <= PREFIX + Render(d) {
      PrefixAfter(PREFIX, Render(c), Render(d));
      RenderPrefixFree(c, d);
    }
  }

  lemma PrefixAfter(p: string, a: string, b: string)
    requires p + a <= p + b
    ensures a <= b
  {
    assert a == (p + a)[|p|..] && b == (p + b)[|p|..];
    forall i | 0 <= i < |a| ensures a[i] == b[i] {
      assert (p + a)[|p| + i] == (p + b)[|p| + i];
    }
  }

  /** Main result: a decoder written against the format recovers the normal form from text followed by anything. */
  lemma TextDecodes(v: Value, suffix: string)
    requires Normal(v).Ok?
    ensures Text(v).Ok? && |PREFIX| <= |Text(v).value|
    ensures Decode(Text(v).value[|PREFIX|..] + suffix) == Got(Normal(v).value, suffix)
  {
    NormalIsClean(v);
    DecodeOfRender(Normal(v).value, suffix);
    assert (PREFIX + Render(Normal(v).value))[|PREFIX|..] == Render(Normal(v).value);
  }
}
