/** What each reply means, and what every receipt rests on. */
module ReceiptGrounds {
  import opened Options
  import opened Receipts

  ghost predicate Holds<I>(receipts: seq<Receipt<I>>, i: int, action: Action, key: Key) {
    0 <= i < |receipts| && receipts[i].action == action && receipts[i].key == key
  }

  ghost predicate Unbound<I>(receipts: seq<Receipt<I>>, action: Action, key: Key) {
    forall i :: !Holds(receipts, i, action, key)
  }

  /** The request's approval, if it needs one, is valid and was not used. */
  ghost predicate Approved<S, I, E>(engine: Engine<S, I, E>, w: World<S, I>, r: Request<I, E>) {
    match engine.approval(r)
    case NotNeeded => true
    case Invalid => false
    case By(decision) => forall i :: 0 <= i < |w.receipts| ==> w.receipts[i].decision != Some(decision)
  }

  ghost predicate MayApply<S, I, E>(engine: Engine<S, I, E>, w: World<S, I>, r: Request<I, E>) {
    Unbound(w.receipts, r.action, r.key) && Approved(engine, w, r) && engine.execute(w.store, r).Committed?
  }

  lemma FoundIsHeld<I>(receipts: seq<Receipt<I>>, action: Action, key: Key, i: int)
    requires Unambiguous(receipts)
    ensures Holds(receipts, i, action, key) ==> Find(receipts, action, key) == Some(receipts[i])
    ensures Unbound(receipts, action, key) <==> Find(receipts, action, key).None?
  {
    var found := Find(receipts, action, key);
    if found.Some? {
      var j :| 0 <= j < |receipts| && receipts[j] == found.value;
      assert Holds(receipts, j, action, key);
    }
    forall j ensures Holds(receipts, j, action, key) ==> found.Some? {
      if Holds(receipts, j, action, key) { assert receipts[j] in receipts; }
    }
  }

  /** A receipt of the request with these ids, for its approval. */
  ghost predicate IsReceiptOf<S, I, E>(engine: Engine<S, I, E>, r: Request<I, E>, ids: seq<Id>, receipt: Receipt<I>) {
    && receipt.actor == r.actor && receipt.action == r.action && receipt.key == r.key && receipt.input == r.input
    && receipt.ids == ids
    && match engine.approval(r)
       case NotNeeded => receipt.decision.None?
       case Invalid => false
       case By(decision) => receipt.decision == Some(decision)
  }

  /** Main result: a request is applied exactly when its key is unbound, its approval is valid and unused, and the
      engine commits it. Then the store is the engine's and one receipt is filed, of exactly this request; in every
      other case nothing changes. */
  lemma AppliedExactly<S, I, E>(engine: Engine<S, I, E>, w: World<S, I>, r: Request<I, E>)
    requires Unambiguous(w.receipts)
    ensures var (n, reply) := Handle(engine, w, r);
      && (reply.Applied? <==> MayApply(engine, w, r))
      && (!reply.Applied? ==> n == w)
      && (reply.Applied? ==>
           && engine.execute(w.store, r) == Committed(n.store, reply.ids)
           && |n.receipts| == |w.receipts| + 1 && n.receipts[..|w.receipts|] == w.receipts
           && IsReceiptOf(engine, r, reply.ids, n.receipts[|w.receipts|]))
  {
    FoundIsHeld(w.receipts, r.action, r.key, 0);
  }

  /** On a bound key the reply is the receipt's: its ids for the same request, a refusal for another. */
  lemma BoundReplies<S, I, E>(engine: Engine<S, I, E>, w: World<S, I>, r: Request<I, E>, i: int)
    requires Unambiguous(w.receipts) && Holds(w.receipts, i, r.action, r.key)
    ensures var (n, reply) := Handle(engine, w, r);
      && n == w && (reply.OtherActor? <==> w.receipts[i].actor != r.actor)
      && (reply.OtherInput? <==> w.receipts[i].actor == r.actor && w.receipts[i].input != r.input)
      && (w.receipts[i].actor == r.actor && w.receipts[i].input == r.input ==> reply == Replayed(w.receipts[i].ids))
  {
    FoundIsHeld(w.receipts, r.action, r.key, i);
  }

  // ------------------------------------------------------------------- whole runs

  /** In world `w`, in which `count` receipts are filed, the request is approved and commits, with that receipt. */
  ghost predicate Grounds<S, I, E>(engine: Engine<S, I, E>, w: World<S, I>, r: Request<I, E>, receipt: Receipt<I>,
      count: nat)
  {
    && |w.receipts| == count && Approved(engine, w, r)
    && engine.execute(w.store, r).Committed? && IsReceiptOf(engine, r, engine.execute(w.store, r).ids, receipt)
  }

  ghost predicate GroundedAt<S, I, E>(engine: Engine<S, I, E>, store: S, rs: seq<Request<I, E>>, j: nat,
      receipt: Receipt<I>, m: int)
  {
    0 <= m < |rs| && Grounds(engine, Run(engine, World(store, []), rs[..m]), rs[m], receipt, j)
  }

  lemma HandleGrounds<S, I, E>(engine: Engine<S, I, E>, w: World<S, I>, r: Request<I, E>)
    requires Unambiguous(w.receipts)
    ensures var n := Handle(engine, w, r).0;
      n.receipts == w.receipts
      || (|n.receipts| == |w.receipts| + 1 && n.receipts[..|w.receipts|] == w.receipts
          && Grounds(engine, w, r, n.receipts[|w.receipts|], |w.receipts|))
  {
    AppliedExactly(engine, w, r);
  }

  lemma RunOfLast<S, I, E>(engine: Engine<S, I, E>, w: World<S, I>, before: seq<Request<I, E>>, last: Request<I, E>)
    ensures Run(engine, w, before + [last]) == Handle(engine, Run(engine, w, before), last).0
  {
    RunOfTwo(engine, w, before, [last]);
    assert [last][1..] == [];
  }

  /** Main result: the receipts of a run that began with none were left one by one, the `j`-th by a request that the
      engine committed when `j` receipts were filed, whose approval was valid and had not been used before. */
  lemma {:induction false} ReceiptsHaveGrounds<S, I, E>(engine: Engine<S, I, E>, store: S, rs: seq<Request<I, E>>,
      j: nat)
    returns (m: nat)
    requires j < |Run(engine, World(store, []), rs).receipts|
    ensures GroundedAt(engine, store, rs, j, Run(engine, World(store, []), rs).receipts[j], m)
    decreases |rs|
  {
    if rs == [] {
      assert false;
    } else {
      var before, last := rs[..|rs| - 1], rs[|rs| - 1];
      var w := Run(engine, World(store, []), before);
      assert rs == before + [last];
      RunOfLast(engine, World(store, []), before, last);
      RunsStayUnambiguous(engine, World(store, []), before);
      HandleGrounds(engine, w, last);
      if j < |w.receipts| {
        m := ReceiptsHaveGrounds(engine, store, before, j);
        assert before[..m] == rs[..m];
        assert Run(engine, World(store, []), rs).receipts[j] == w.receipts[j];
      } else {
        m := |before|;
      }
    }
  }
}
