/** `canonicalJsonValue` on an object graph: a recursive walk with a mutable set of ancestors. */
module CanonicalWalk {
  import opened Unicode
  import opened Decimal
  import opened Sorting
  import opened CanonicalJson

  type Ref = nat

  /** A script value: a leaf, or a reference to an array or object in the heap. */
  datatype Item = INull | IBool(b: bool) | IStr(s: seq<CodeUnit>) | INum(n: Number)
                | IUndefined | IForeign | IRef(r: Ref)
  type Member = Keyed<Item>
  datatype Node = ArrayNode(items: seq<Item>) | ObjectNode(plain: bool, members: seq<Member>)
  type Heap = map<Ref, Node>

  predicate Live(h: Heap, v: Item) { v.IRef? ==> v.r in h }

  predicate Closed(h: Heap) {
    forall r :: r in h ==>
      match h[r]
      case ArrayNode(items) => forall i :: 0 <= i < |items| ==> Live(h, items[i])
      case ObjectNode(_, members) => forall i :: 0 <= i < |members| ==> Live(h, members[i].value)
  }

  predicate AllLive(h: Heap, members: seq<Member>) { forall m :: m in members ==> Live(h, m.value) }

  function Present(members: seq<Member>): (r: seq<Member>)
    ensures forall m :: m in r <==> m in members && !m.value.IUndefined?
  {
    if members == [] then []
    else (if members[0].value.IUndefined? then [] else [members[0]]) + Present(members[1..])
  }

  // --------------------------------------------------- the walk as a function

  function WalkLeaf(v: Item): Result<Canon>
    requires !v.IRef?
  {
    match v
    case INull => Ok(CNull)
    case IBool(b) => Ok(CBool(b))
    case IStr(s) => (match CheckString(s) case Err(e) => Err(e) case Ok(_) => Ok(CText(s)))
    case INum(n) => NormalNumber(n)
    case IUndefined => Err(OutsideDomain)
    case IForeign => Err(OutsideDomain)
  }

  function Walk(h: Heap, v: Item, ancestors: set<Ref>): Result<Canon>
    requires Closed(h) && Live(h, v)
    decreases h.Keys - ancestors, 2, 0
  {
    if !v.IRef? then WalkLeaf(v)
    else match h[v.r]
      case ArrayNode(items) =>
        if v.r in ancestors then Err(Circular)
        else (match WalkItems(h, items, ancestors + {v.r}) case Err(e) => Err(e) case Ok(cs) => Ok(CList(cs)))
      case ObjectNode(plain, members) =>
        if !plain then Err(NotPlainObject)
        else if v.r in ancestors then Err(Circular)
        else match CheckKeys(Present(members))
          case Err(e) => Err(e)
          case Ok(_) =>
            match WalkMembers(h, SortKeys(Present(members)), ancestors + {v.r})
            case Err(e) => Err(e)
            case Ok(fs) => Ok(CRecord(fs))
  }

  function WalkItems(h: Heap, items: seq<Item>, ancestors: set<Ref>): Result<seq<Canon>>
    requires Closed(h) && forall i :: 0 <= i < |items| ==> Live(h, items[i])
    decreases h.Keys - ancestors, 3, |items|
  {
    if items == [] then Ok([])
    else if items[0].IUndefined? then Err(SparseArray)
    else match Walk(h, items[0], ancestors)
      case Err(e) => Err(e)
      case Ok(c) => match WalkItems(h, items[1..], ancestors) case Err(e) => Err(e) case Ok(cs) => Ok([c] + cs)
  }

  function WalkMembers(h: Heap, members: seq<Member>, ancestors: set<Ref>): Result<seq<Field>>
    requires Closed(h) && AllLive(h, members)
    decreases h.Keys - ancestors, 3, |members|
  {
    if members == [] then Ok([])
    else match Walk(h, members[0].value, ancestors)
      case Err(e) => Err(e)
      case Ok(c) =>
        match WalkMembers(h, members[1..], ancestors)
        case Err(e) => Err(e)
        case Ok(fs) => Ok([Keyed(members[0].key, c)] + fs)
  }

  function Rendered(r: Result<Canon>): Result<string> {
    match r case Err(e) => Err(e) case Ok(c) => Ok(Render(c))
  }

  // -------------------------------------------------- the walk as it is coded

  function AfterItems(done: seq<Canon>, r: Result<seq<Canon>>): Result<seq<Canon>> {
    match r case Err(e) => Err(e) case Ok(cs) => Ok(done + cs)
  }

  function AfterFields(done: seq<Field>, r: Result<seq<Field>>): Result<seq<Field>> {
    match r case Err(e) => Err(e) case Ok(fs) => Ok(done + fs)
  }

  lemma {:induction false} RenderItemsAppend(cs: seq<Canon>, c: Canon)
    ensures RenderItems(cs + [c]) == RenderItems(cs) + Render(c)
  {
    if cs == [] {
      assert [] + [c] == [c];
    } else {
      assert (cs + [c])[1..] == cs[1..] + [c];
      RenderItemsAppend(cs[1..], c);
    }
  }

  lemma {:induction false} RenderFieldsAppend(fs: seq<Field>, f: Field)
    ensures RenderFields(fs + [f]) == RenderFields(fs) + (StringToken(f.key) + Render(f.value))
  {
    if fs == [] {
      assert [] + [f] == [f];
    } else {
      assert (fs + [f])[1..] == fs[1..] + [f];
      RenderFieldsAppend(fs[1..], f);
    }
  }

  lemma NothingDone(items: Result<seq<Canon>>, fields: Result<seq<Field>>)
    ensures AfterItems([], items) == items && AfterFields([], fields) == fields
  {
    if items.Ok? { assert [] + items.value == items.value; }
    if fields.Ok? { assert [] + fields.value == fields.value; }
  }

  lemma ItemStep(h: Heap, items: seq<Item>, i: nat, ancestors: set<Ref>, done: seq<Canon>, c: Canon)
    requires Closed(h) && (forall i :: 0 <= i < |items| ==> Live(h, items[i]))
    requires i < |items| && !items[i].IUndefined? && Walk(h, items[i], ancestors) == Ok(c)
    ensures AfterItems(done, WalkItems(h, items[i..], ancestors)) ==
            AfterItems(done + [c], WalkItems(h, items[i + 1..], ancestors))
  {
    assert items[i..][1..] == items[i + 1..];
    var rest := WalkItems(h, items[i + 1..], ancestors);
    if rest.Ok? {
      assert done + ([c] + rest.value) == done + [c] + rest.value;
    }
  }

  lemma MemberStep(h: Heap, ms: seq<Member>, i: nat, ancestors: set<Ref>, done: seq<Field>, c: Canon)
    requires Closed(h) && AllLive(h, ms)
    requires i < |ms| && Walk(h, ms[i].value, ancestors) == Ok(c)
    ensures AllLive(h, ms[i..]) && AllLive(h, ms[i + 1..])
    ensures AfterFields(done, WalkMembers(h, ms[i..], ancestors))
         == AfterFields(done + [Keyed(ms[i].key, c)], WalkMembers(h, ms[i + 1..], ancestors))
  {
    assert ms[i..][1..] == ms[i + 1..];
    var rest := WalkMembers(h, ms[i + 1..], ancestors);
    if rest.Ok? {
      assert done + ([Keyed(ms[i].key, c)] + rest.value) == done + [Keyed(ms[i].key, c)] + rest.value;
    }
  }

  lemma MemberFails(h: Heap, ms: seq<Member>, i: nat, ancestors: set<Ref>, done: seq<Field>, e: Rejection)
    requires Closed(h) && AllLive(h, ms) && i < |ms| && AllLive(h, ms[i..])
    requires Walk(h, ms[i].value, ancestors) == Err(e)
    ensures AfterFields(done, WalkMembers(h, ms[i..], ancestors)) == Err(e)
  {
    assert ms[i..][0] == ms[i];
  }

  lemma MembersDone(done: seq<Field>)
    ensures AfterFields(done, Ok([])) == Ok(done)
  {
    assert done + [] == done;
  }

  lemma ListText(cs: seq<Canon>)
    ensures Render(CList(cs)) == Framed('A', |cs|, RenderItems(cs))
  {
  }

  lemma RecordText(fs: seq<Field>)
    ensures Render(CRecord(fs)) == Framed('O', |fs|, RenderFields(fs))
  {
  }

  class Canonicalizer {
    var ancestors: set<Ref>

    constructor ()
      ensures ancestors == {}
    {
      ancestors := {};
    }

    /** Both exits, normal and throwing, take the visited reference out of the set again. */
    method CanonicalJsonValue(h: Heap, v: Item) returns (r: Result<string>)
      requires Closed(h) && Live(h, v)
      modifies this
      ensures ancestors == old(ancestors)
      ensures r == Rendered(Walk(h, v, old(ancestors)))
      decreases h.Keys - ancestors, 2
    {
      if !v.IRef? {
        r := CanonicalLeaf(v);
        return;
      }
      match h[v.r]
      case ArrayNode(items) =>
        if v.r in ancestors {
          return Err(Circular);
        }
        var outer := ancestors;
        ancestors := ancestors + {v.r};
        r := CanonicalItems(h, items);
        ancestors := ancestors - {v.r};
        assert ancestors == outer;
      case ObjectNode(plain, members) =>
        if !plain {
          return Err(NotPlainObject);
        }
        if v.r in ancestors {
          return Err(Circular);
        }
        var outer := ancestors;
        ancestors := ancestors + {v.r};
        var present := Present(members);
        match CheckKeys(present) {
          case Err(e) => r := Err(e);
          case Ok(_) => r := CanonicalMembers(h, SortKeys(present));
        }
        ancestors := ancestors - {v.r};
        assert ancestors == outer;
    }

    /** The texts of an array's items, one after the other. */
    method ItemTexts(h: Heap, items: seq<Item>) returns (r: Result<string>, ghost done: seq<Canon>)
      requires Closed(h) && forall i :: 0 <= i < |items| ==> Live(h, items[i])
      modifies this
      ensures ancestors == old(ancestors)
      ensures r.Err? ==> WalkItems(h, items, old(ancestors)) == Err(r.error)
      ensures r.Ok? ==>
        WalkItems(h, items, old(ancestors)) == Ok(done) && |done| == |items| && r.value == RenderItems(done)
      decreases h.Keys - ancestors, 3
    {
      var text := "";
      done := [];
      var index := 0;
      assert items[0..] == items;
      NothingDone(WalkItems(h, items, ancestors), Ok([]));
      while index < |items|
        invariant 0 <= index <= |items|
        invariant ancestors == old(ancestors)
        invariant |done| == index && text == RenderItems(done)
        invariant WalkItems(h, items, ancestors) == AfterItems(done, WalkItems(h, items[index..], ancestors))
      {
        if items[index].IUndefined? {
          return Err(SparseArray), done;
        }
        var token := CanonicalJsonValue(h, items[index]);
        if token.Err? {
          return Err(token.error), done;
        }
        ghost var c := Walk(h, items[index], ancestors).value;
        ItemStep(h, items, index, ancestors, done, c);
        RenderItemsAppend(done, c);
        text, done := text + token.value, done + [c];
        index := index + 1;
      }
      assert items[index..] == [] && done + [] == done;
      return Ok(text), done;
    }

    method CanonicalItems(h: Heap, items: seq<Item>) returns (r: Result<string>)
      requires Closed(h) && forall i :: 0 <= i < |items| ==> Live(h, items[i])
      modifies this
      ensures ancestors == old(ancestors)
      ensures r == match WalkItems(h, items, old(ancestors)) case Err(e) => Err(e) case Ok(cs) => Ok(Render(CList(cs)))
      decreases h.Keys - ancestors, 4
    {
      ghost var done;
      r, done := ItemTexts(h, items);
      if r.Ok? {
        ListText(done);
        r := Ok(Framed('A', |items|, r.value));
      }
    }

    /** The texts of an object's members, one after the other. */
    method MemberTexts(h: Heap, members: seq<Member>) returns (r: Result<string>, ghost done: seq<Field>)
      requires Closed(h) && AllLive(h, members)
      modifies this
      ensures ancestors == old(ancestors)
      ensures r.Err? ==> WalkMembers(h, members, old(ancestors)) == Err(r.error)
      ensures r.Ok? ==>
        WalkMembers(h, members, old(ancestors)) == Ok(done) && |done| == |members| && r.value == RenderFields(done)
      decreases h.Keys - ancestors, 3
    {
      var text := "";
      done := [];
      var index := 0;
      assert members[0..] == members;
      NothingDone(Ok([]), WalkMembers(h, members, ancestors));
      while index < |members|
        invariant 0 <= index <= |members|
        invariant ancestors == old(ancestors)
        invariant |done| == index && text == RenderFields(done)
        invariant AllLive(h, members[index..])
        invariant WalkMembers(h, members, ancestors) == AfterFields(done, WalkMembers(h, members[index..], ancestors))
      {
        var token := CanonicalJsonValue(h, members[index].value);
        if token.Err? {
          MemberFails(h, members, index, ancestors, done, token.error);
          return Err(token.error), done;
        }
        ghost var field := Keyed(members[index].key, Walk(h, members[index].value, ancestors).value);
        MemberStep(h, members, index, ancestors, done, field.value);
        text := AppendField(text, members[index].key, token.value, done, field);
        done := done + [field];
        index := index + 1;
      }
      assert members[index..] == [];
      MembersDone(done);
      return Ok(text), done;
    }

    method CanonicalMembers(h: Heap, members: seq<Member>) returns (r: Result<string>)
      requires Closed(h) && AllLive(h, members)
      modifies this
      ensures ancestors == old(ancestors)
      ensures r == match WalkMembers(h, members, old(ancestors))
                   case Err(e) => Err(e)
                   case Ok(fs) => Ok(Render(CRecord(fs)))
      decreases h.Keys - ancestors, 4
    {
      ghost var done;
      r, done := MemberTexts(h, members);
      if r.Ok? {
        RecordText(done);
        r := Ok(Framed('O', |members|, r.value));
      }
    }
  }

  method AppendField(text: string, key: seq<CodeUnit>, token: string, ghost done: seq<Field>, ghost field: Field)
    returns (longer: string)
    requires text == RenderFields(done) && field.key == key && token == Render(field.value)
    ensures longer == RenderFields(done + [field])
  {
    RenderFieldsAppend(done, field);
    longer := text + (StringToken(key) + token);
  }

  method CanonicalLeaf(v: Item) returns (r: Result<string>)
    requires !v.IRef?
    ensures r == Rendered(WalkLeaf(v))
  {
    match v
    case INull => r := Ok("N");
    case IBool(b) => r := Ok(if b then "T" else "F");
    case IStr(s) =>
      var verdict := AssertUnicodeScalarString(s);
      match verdict {
        case Accepted => r := Ok(StringToken(s));
        case HasNul => r := Err(NulCharacter);
        case Unpaired => r := Err(UnpairedSurrogate);
      }
    case INum(n) =>
      if !n.Normal() {
        return Err(OutsideDomain);
      }
      match CanonicalNumber(n) {
        case None => r := Err(NonFiniteNumber);
        case Some(t) => r := Ok(Framed('D', |t|, t));
      }
    case IUndefined => r := Err(OutsideDomain);
    case IForeign => r := Err(OutsideDomain);
  }

  // ------------------------------------------------- graphs and their trees

  /** `t` is the finite tree the graph unfolds to from `v`. A node may be reached along many paths. */
  ghost predicate Unfolds(h: Heap, v: Item, t: Value)
    decreases t
  {
    match v
    case INull => t.Null?
    case IBool(b) => t == Bool(b)
    case IStr(s) => t == Str(s)
    case INum(n) => t == Num(n)
    case IUndefined => t.Undefined?
    case IForeign => t.Foreign?
    case IRef(r) =>
      r in h &&
      match h[r]
      case ArrayNode(items) =>
        t.Arr? && |items| == |t.items| && forall i :: 0 <= i < |items| ==> Unfolds(h, items[i], t.items[i])
      case ObjectNode(plain, members) =>
        if plain then t.Obj? && MembersUnfold(h, members, t.props, t) else t.Instance?
  }

  ghost predicate MembersUnfold(h: Heap, members: seq<Member>, props: seq<Prop>, parent: Value)
    requires parent.Obj? && forall p :: p in props ==> p in parent.props
    decreases parent, 0
  {
    && |members| == |props|
    && forall i :: 0 <= i < |members| ==>
         assert props[i] in parent.props;
         members[i].key == props[i].key && Unfolds(h, members[i].value, props[i].value)
  }

  lemma {:induction false} UnfoldingIsUnique(h: Heap, v: Item, t: Value, u: Value)
    requires Unfolds(h, v, t) && Unfolds(h, v, u)
    ensures t == u
    decreases t
  {
    if v.IRef? {
      match h[v.r]
      case ArrayNode(items) =>
        forall i | 0 <= i < |items| ensures t.items[i] == u.items[i] {
          UnfoldingIsUnique(h, items[i], t.items[i], u.items[i]);
        }
        assert t.items == u.items;
      case ObjectNode(plain, members) =>
        if plain {
          forall i | 0 <= i < |members| ensures t.props[i] == u.props[i] {
            UnfoldingIsUnique(h, members[i].value, t.props[i].value, u.props[i].value);
          }
          assert t.props == u.props;
        }
    }
  }

  ghost function Size(t: Value): nat
    decreases t, 1
  {
    match t
    case Arr(items) => 1 + ItemsSize(items)
    case Obj(props) => 1 + PropsSize(props)
    case _ => 1
  }

  ghost function ItemsSize(items: seq<Value>): nat
    decreases items, 0
  {
    if items == [] then 0 else Size(items[0]) + ItemsSize(items[1..])
  }

  ghost function PropsSize(props: seq<Prop>): nat
    decreases props, 0
  {
    if props == [] then 0 else Size(props[0].value) + PropsSize(props[1..])
  }

  lemma {:induction false} ItemSmaller(items: seq<Value>, i: nat)
    requires i < |items|
    ensures Size(items[i]) <= ItemsSize(items)
  {
    if i > 0 { ItemSmaller(items[1..], i - 1); }
  }

  lemma {:induction false} PropSmaller(props: seq<Prop>, i: nat)
    requires i < |props|
    ensures Size(props[i].value) <= PropsSize(props)
  {
    if i > 0 { PropSmaller(props[1..], i - 1); }
  }

  /** Every ancestor unfolds to something bigger, so nothing on the way down can be one of them. */
  ghost predicate AncestorsAbove(h: Heap, ancestors: set<Ref>, size: nat) {
    forall a :: a in ancestors ==> exists t :: Unfolds(h, IRef(a), t) && Size(t) > size
  }

  lemma NotAnAncestor(h: Heap, r: Ref, t: Value, ancestors: set<Ref>)
    requires Unfolds(h, IRef(r), t) && AncestorsAbove(h, ancestors, Size(t))
    ensures r !in ancestors
  {
    if r in ancestors {
      var u :| Unfolds(h, IRef(r), u) && Size(u) > Size(t);
      UnfoldingIsUnique(h, IRef(r), t, u);
    }
  }

  lemma OneLevelDown(h: Heap, r: Ref, t: Value, ancestors: set<Ref>, size: nat)
    requires Unfolds(h, IRef(r), t) && AncestorsAbove(h, ancestors, Size(t)) && size < Size(t)
    ensures AncestorsAbove(h, ancestors + {r}, size)
  {
    forall a | a in ancestors + {r} ensures exists u :: Unfolds(h, IRef(a), u) && Size(u) > size {
      if a in ancestors {
        var u :| Unfolds(h, IRef(a), u) && Size(u) > Size(t);
      } else {
        assert Unfolds(h, IRef(a), t);
      }
    }
  }

  // ---------------------------------- sorting only looks at keys, so it commutes

  type Link = (Member, Prop) -> bool

  ghost predicate LinksKeys(rel: Link) {
    forall m, p :: rel(m, p) ==> m.key == p.key && (m.value.IUndefined? <==> p.value.Undefined?)
  }

  lemma {:induction false} PresentParallel(rel: Link, ms: seq<Member>, ps: seq<Prop>)
    requires LinksKeys(rel) && Parallel(rel, ms, ps)
    ensures Parallel(rel, Present(ms), Defined(ps))
  {
    if ms != [] {
      PresentParallel(rel, ms[1..], ps[1..]);
      assert rel(ms[0], ps[0]);
      if ms[0].value.IUndefined? {
        assert Present(ms) == Present(ms[1..]) && Defined(ps) == Defined(ps[1..]);
      } else {
        PrependParallel(rel, ms[0], ps[0], Present(ms[1..]), Defined(ps[1..]));
      }
    }
  }

  lemma {:induction false} CheckKeysParallel(rel: Link, ms: seq<Member>, ps: seq<Prop>)
    requires LinksKeys(rel) && Parallel(rel, ms, ps)
    ensures CheckKeys(ms) == CheckKeys(ps)
  {
    if ms != [] {
      assert rel(ms[0], ps[0]);
      CheckKeysParallel(rel, ms[1..], ps[1..]);
    }
  }

  ghost predicate Linked(h: Heap, m: Member, p: Prop) { m.key == p.key && Unfolds(h, m.value, p.value) }

  ghost function LinkIn(h: Heap): Link { (m: Member, p: Prop) => Linked(h, m, p) }

  lemma LinkInLinksKeys(h: Heap)
    ensures LinksKeys(LinkIn(h))
  {
    forall m: Member, p: Prop | LinkIn(h)(m, p)
      ensures m.key == p.key && (m.value.IUndefined? <==> p.value.Undefined?) {
      assert Linked(h, m, p);
    }
  }

  /** An object's members and the properties it unfolds to agree in everything the key handling looks at. */
  lemma ObjectParallel(h: Heap, members: seq<Member>, props: seq<Prop>)
    requires |members| == |props|
    requires forall i :: 0 <= i < |members| ==>
      members[i].key == props[i].key && Unfolds(h, members[i].value, props[i].value)
    ensures var ms, ps := SortKeys(Present(members)), SortKeys(Defined(props));
      && CheckKeys(Present(members)) == CheckKeys(Defined(props))
      && |ms| == |ps|
      && forall i :: 0 <= i < |ms| ==> ms[i].key == ps[i].key && Unfolds(h, ms[i].value, ps[i].value)
  {
    var rel := LinkIn(h);
    LinkInLinksKeys(h);
    forall i | 0 <= i < |members| ensures rel(members[i], props[i]) {
      assert Linked(h, members[i], props[i]);
    }
    KeysParallel(rel, members, props);
    var ms, ps := SortKeys(Present(members)), SortKeys(Defined(props));
    forall i | 0 <= i < |ms| ensures ms[i].key == ps[i].key && Unfolds(h, ms[i].value, ps[i].value) {
      assert rel(ms[i], ps[i]);
      assert Linked(h, ms[i], ps[i]);
    }
  }

  lemma KeysParallel(rel: Link, members: seq<Member>, props: seq<Prop>)
    requires LinksKeys(rel) && Parallel(rel, members, props)
    ensures CheckKeys(Present(members)) == CheckKeys(Defined(props))
    ensures Parallel(rel, SortKeys(Present(members)), SortKeys(Defined(props)))
  {
    PresentParallel(rel, members, props);
    CheckKeysParallel(rel, Present(members), Defined(props));
    assert OrdersAgree(rel, KeyLe<Item>, KeyLe<Value>);
    SortParallel(rel, KeyLe<Item>, KeyLe<Value>, Present(members), Defined(props));
  }

  // ----------------------------------------- the walk computes the normal form

  lemma {:induction false} WalkOfUnfolding(h: Heap, v: Item, t: Value, ancestors: set<Ref>)
    requires Closed(h) && Live(h, v)
    requires Unfolds(h, v, t) && AncestorsAbove(h, ancestors, Size(t))
    ensures Walk(h, v, ancestors) == Normal(t)
    decreases Size(t), 2, 0
  {
    if v.IRef? {
      match h[v.r]
      case ArrayNode(items) =>
        NotAnAncestor(h, v.r, t, ancestors);
        OneLevelDown(h, v.r, t, ancestors, Size(t) - 1);
        WalkOfItems(h, items, t.items, ancestors + {v.r}, Size(t) - 1);
      case ObjectNode(plain, members) =>
        if plain {
          WalkOfObject(h, v.r, t, ancestors);
        }
    }
  }

  lemma {:induction false} WalkOfObject(h: Heap, r: Ref, t: Value, ancestors: set<Ref>)
    requires Closed(h) && r in h && h[r].ObjectNode? && h[r].plain
    requires Unfolds(h, IRef(r), t) && AncestorsAbove(h, ancestors, Size(t))
    ensures Walk(h, IRef(r), ancestors) == Normal(t)
    decreases Size(t), 1, 0
  {
    NotAnAncestor(h, r, t, ancestors);
    OneLevelDown(h, r, t, ancestors, Size(t) - 1);
    MembersOf(h, r, t);
    ObjectParallel(h, h[r].members, t.props);
    var ms, ps := SortKeys(Present(h[r].members)), SortKeys(Defined(t.props));
    PropsBelow(t);
    WalkOfMembers(h, ms, t, ps, ancestors + {r}, Size(t) - 1);
    SameObject(h, r, t, ancestors);
  }

  lemma MembersOf(h: Heap, r: Ref, t: Value)
    requires r in h && h[r].ObjectNode? && h[r].plain && Unfolds(h, IRef(r), t)
    ensures t.Obj? && |h[r].members| == |t.props|
    ensures forall i :: 0 <= i < |t.props| ==>
      h[r].members[i].key == t.props[i].key && Unfolds(h, h[r].members[i].value, t.props[i].value)
  {
    assert MembersUnfold(h, h[r].members, t.props, t);
  }

  lemma PropBelow(t: Value, p: Prop)
    requires t.Obj? && p in t.props
    ensures Size(p.value) < Size(t)
  {
    var i :| 0 <= i < |t.props| && t.props[i] == p;
    PropSmaller(t.props, i);
  }

  lemma DefinedAreProps(props: seq<Prop>)
    ensures forall p :: p in SortKeys(Defined(props)) ==> p in props
  {
  }

  lemma PropsBelow(t: Value)
    requires t.Obj?
    ensures forall p :: p in SortKeys(Defined(t.props)) ==> p in t.props && Size(p.value) < Size(t)
  {
    DefinedAreProps(t.props);
    forall p | p in t.props ensures Size(p.value) < Size(t) {
      PropBelow(t, p);
    }
  }

  lemma SameObject(h: Heap, r: Ref, t: Value, ancestors: set<Ref>)
    requires Closed(h) && r in h && h[r].ObjectNode? && h[r].plain && t.Obj? && r !in ancestors
    requires CheckKeys(Present(h[r].members)) == CheckKeys(Defined(t.props))
    requires AllLive(h, SortKeys(Present(h[r].members)))
    requires WalkMembers(h, SortKeys(Present(h[r].members)), ancestors + {r}) == NormalFields(t,
      SortKeys(Defined(t.props)))
    ensures Walk(h, IRef(r), ancestors) == Normal(t)
  {
  }

  lemma {:induction false} WalkOfItems(h: Heap, items: seq<Item>, ts: seq<Value>, ancestors: set<Ref>, size: nat)
    requires Closed(h) && forall i :: 0 <= i < |items| ==> Live(h, items[i])
    requires |items| == |ts| && forall i :: 0 <= i < |items| ==> Unfolds(h, items[i], ts[i])
    requires AncestorsAbove(h, ancestors, size) && ItemsSize(ts) <= size
    ensures WalkItems(h, items, ancestors) == NormalItems(ts)
    decreases size, 3, |items|
  {
    if items != [] {
      forall a | a in ancestors ensures exists t :: Unfolds(h, IRef(a), t) && Size(t) > Size(ts[0]) {
        var t :| Unfolds(h, IRef(a), t) && Size(t) > size;
      }
      WalkOfUnfolding(h, items[0], ts[0], ancestors);
      WalkOfItems(h, items[1..], ts[1..], ancestors, size);
    }
  }

  lemma {:induction false} WalkOfMembers(h: Heap, ms: seq<Member>, parent: Value, ps: seq<Prop>, ancestors: set<Ref>,
      size: nat)
    requires Closed(h) && AllLive(h, ms)
    requires parent.Obj? && (forall p :: p in ps ==> p in parent.props)
    requires |ms| == |ps|
    requires forall i :: 0 <= i < |ms| ==> ms[i].key == ps[i].key && Unfolds(h, ms[i].value, ps[i].value)
    requires AncestorsAbove(h, ancestors, size) && forall p :: p in ps ==> Size(p.value) <= size
    ensures WalkMembers(h, ms, ancestors) == NormalFields(parent, ps)
    decreases size, 3, |ms|
  {
    if ms != [] {
      assert ps[0] in ps;
      forall a | a in ancestors ensures exists t :: Unfolds(h, IRef(a), t) && Size(t) > Size(ps[0].value) {
        var t :| Unfolds(h, IRef(a), t) && Size(t) > size;
      }
      WalkOfUnfolding(h, ms[0].value, ps[0].value, ancestors);
      WalkOfMembers(h, ms[1..], parent, ps[1..], ancestors, size);
    }
  }

  /** A tree for a walk that did not throw; where the walk met a cycle the tree has a foreign leaf. */
  ghost function Tree(h: Heap, v: Item, ancestors: set<Ref>): Value
    requires Closed(h) && Live(h, v)
    decreases h.Keys - ancestors, 2
  {
    match v
    case INull => Null
    case IBool(b) => Bool(b)
    case IStr(s) => Str(s)
    case INum(n) => Num(n)
    case IUndefined => Undefined
    case IForeign => Foreign
    case IRef(r) =>
      match h[r]
      case ArrayNode(items) =>
        if r in ancestors then Foreign
        else Arr(seq(|items|, i requires 0 <= i < |items| => Tree(h, items[i], ancestors + {r})))
      case ObjectNode(plain, members) =>
        if !plain then Instance
        else if r in ancestors then Foreign
        else Obj(seq(|members|, i requires 0 <= i < |members| => Keyed(members[i].key,
          Tree(h, members[i].value, ancestors + {r}))))
  }

  lemma {:induction false} AcceptedUnfolds(h: Heap, v: Item, ancestors: set<Ref>)
    requires Closed(h) && Live(h, v)
    requires Walk(h, v, ancestors).Ok?
    ensures Unfolds(h, v, Tree(h, v, ancestors))
    decreases h.Keys - ancestors, 2
  {
    if v.IRef? {
      if h[v.r].ArrayNode? {
        AcceptedArrayUnfolds(h, v.r, ancestors);
      } else {
        AcceptedObjectUnfolds(h, v.r, ancestors);
      }
    }
  }

  lemma {:induction false} AcceptedArrayUnfolds(h: Heap, r: Ref, ancestors: set<Ref>)
    requires Closed(h) && r in h && h[r].ArrayNode? && Walk(h, IRef(r), ancestors).Ok?
    ensures Unfolds(h, IRef(r), Tree(h, IRef(r), ancestors))
    decreases h.Keys - ancestors, 1
  {
    var items, below := h[r].items, ancestors + {r};
    ItemsAccepted(h, items, below);
    forall i | 0 <= i < |items| ensures Unfolds(h, items[i], Tree(h, items[i], below)) {
      AcceptedUnfolds(h, items[i], below);
    }
    ArrayUnfolds(h, r, items, Tree(h, IRef(r), ancestors).items);
  }

  lemma PresentIsListed(members: seq<Member>, i: nat)
    requires i < |members| && !members[i].value.IUndefined?
    ensures members[i] in SortKeys(Present(members))
  {
  }

  lemma {:induction false} AcceptedObjectUnfolds(h: Heap, r: Ref, ancestors: set<Ref>)
    requires Closed(h) && r in h && h[r].ObjectNode? && Walk(h, IRef(r), ancestors).Ok?
    ensures Unfolds(h, IRef(r), Tree(h, IRef(r), ancestors))
    decreases h.Keys - ancestors, 1
  {
    var members, below := h[r].members, ancestors + {r};
    MembersAccepted(h, SortKeys(Present(members)), below);
    forall i | 0 <= i < |members| ensures Unfolds(h, members[i].value, Tree(h, members[i].value, below)) {
      if !members[i].value.IUndefined? {
        PresentIsListed(members, i);
        AcceptedUnfolds(h, members[i].value, below);
      }
    }
    ObjectUnfolds(h, r, members, Tree(h, IRef(r), ancestors).props);
  }

  lemma ArrayUnfolds(h: Heap, r: Ref, items: seq<Item>, ts: seq<Value>)
    requires r in h && h[r] == ArrayNode(items)
    requires |items| == |ts| && forall i :: 0 <= i < |items| ==> Unfolds(h, items[i], ts[i])
    ensures Unfolds(h, IRef(r), Arr(ts))
  {
  }

  lemma ObjectUnfolds(h: Heap, r: Ref, members: seq<Member>, ps: seq<Prop>)
    requires r in h && h[r] == ObjectNode(true, members)
    requires |members| == |ps|
    requires forall i :: 0 <= i < |members| ==> members[i].key == ps[i].key && Unfolds(h, members[i].value, ps[i].value)
    ensures Unfolds(h, IRef(r), Obj(ps))
  {
    assert MembersUnfold(h, members, ps, Obj(ps));
  }

  lemma {:induction false} ItemsAccepted(h: Heap, items: seq<Item>, ancestors: set<Ref>)
    requires Closed(h) && forall i :: 0 <= i < |items| ==> Live(h, items[i])
    requires WalkItems(h, items, ancestors).Ok?
    ensures forall i :: 0 <= i < |items| ==> Walk(h, items[i], ancestors).Ok?
  {
    if items != [] {
      ItemsAccepted(h, items[1..], ancestors);
      assert items == [items[0]] + items[1..];
    }
  }

  lemma {:induction false} MembersAccepted(h: Heap, ms: seq<Member>, ancestors: set<Ref>)
    requires Closed(h) && AllLive(h, ms)
    requires WalkMembers(h, ms, ancestors).Ok?
    ensures forall m :: m in ms ==> Walk(h, m.value, ancestors).Ok?
  {
    if ms != [] {
      MembersAccepted(h, ms[1..], ancestors);
      assert ms == [ms[0]] + ms[1..];
    }
  }

  /** Main result: the ancestor set rejects cycles and nothing else. A graph is accepted exactly when it
      unfolds to a finite tree in the domain, however much of it is shared, and the text is the tree's. */
  lemma WalkAcceptsExactlyFiniteTrees(h: Heap, v: Item)
    requires Closed(h) && Live(h, v)
    ensures Walk(h, v, {}).Ok? <==> exists t :: Unfolds(h, v, t) && Normal(t).Ok?
    ensures forall t :: Unfolds(h, v, t) ==> Walk(h, v, {}) == Normal(t)
  {
    forall t | Unfolds(h, v, t) ensures Walk(h, v, {}) == Normal(t) {
      WalkOfUnfolding(h, v, t, {});
    }
    if Walk(h, v, {}).Ok? {
      AcceptedUnfolds(h, v, {});
      assert Unfolds(h, v, Tree(h, v, {})) && Normal(Tree(h, v, {})).Ok?;
    }
  }

  /** `canonicalJsonText`: the encoder as the rest of the server calls it. */
  method CanonicalJsonText(h: Heap, v: Item) returns (r: Result<string>)
    requires Closed(h) && Live(h, v)
    ensures forall t :: Unfolds(h, v, t) ==> r == Text(t)
    ensures r.Ok? ==> exists t :: Unfolds(h, v, t) && r == Text(t)
  {
    var walker := new Canonicalizer();
    r := walker.CanonicalJsonValue(h, v);
    WalkAcceptsExactlyFiniteTrees(h, v);
    if r.Ok? {
      r := Ok(PREFIX + r.value);
    }
  }
}
