/** Idempotency receipts, as every command engine keeps them: a command key is bound to one actor and one input,
    an approval decision to one committed command. The engine itself is a parameter. */
module Receipts {
  import opened Options

  type Id = nat
  type Actor = string
  type Action = string
  type Key = string
  type Decision = string

  /** `env` is what the server adds to a request: its clock, fresh ids, random bytes. A retry brings a new one. */
  datatype Request<I, E> = Request(actor: Actor, action: Action, key: Key, input: I, env: E)

  datatype Executed<S> = Committed(store: S, ids: seq<Id>) | Failed
  datatype Approval = NotNeeded | Invalid | By(decision: Decision)

  datatype Engine<!S, !I, !E> = Engine(execute: (S, Request<I, E>) -> Executed<S>, approval: Request<I, E> -> Approval)

  /** The request hash is kept as the actor and input it digests. */
  datatype Receipt<I> = Receipt(actor: Actor, action: Action, key: Key, input: I, ids: seq<Id>,
      decision: Option<Decision>)

  datatype World<S, I> = World(store: S, receipts: seq<Receipt<I>>)

  datatype Reply = Applied(ids: seq<Id>) | Replayed(ids: seq<Id>) | OtherActor | OtherInput | NoApproval | DecisionUsed
                 | CommandFailed

  function Find<I>(receipts: seq<Receipt<I>>, action: Action, key: Key): (r: Option<Receipt<I>>)
    ensures r.Some? ==> r.value in receipts && r.value.action == action && r.value.key == key
    ensures r.None? ==> forall x :: x in receipts ==> !(x.action == action && x.key == key)
  {
    if receipts == [] then None
    else if receipts[0].action == action && receipts[0].key == key then Some(receipts[0])
    else
      assert receipts == [receipts[0]] + receipts[1..];
      Find(receipts[1..], action, key)
  }

  predicate Used<I>(receipts: seq<Receipt<I>>, decision: Decision) {
    exists i :: 0 <= i < |receipts| && receipts[i].decision == Some(decision)
  }

  function DecisionOf(a: Approval): Option<Decision> {
    if a.By? then Some(a.decision) else None
  }

  function Handle<S, I(==), E>(engine: Engine<S, I, E>, w: World<S, I>, r: Request<I, E>): (World<S, I>, Reply) {
    match Find(w.receipts, r.action, r.key)
    case Some(prior) =>
      (w, if prior.actor != r.actor then OtherActor else if prior.input != r.input then OtherInput
        else Replayed(prior.ids))
    case None =>
      var approval := engine.approval(r);
      if approval.Invalid? then (w, NoApproval)
      else if approval.By? && Used(w.receipts, approval.decision) then (w, DecisionUsed)
      else match engine.execute(w.store, r)
           case Failed => (w, CommandFailed)
           case Committed(store, ids) =>
             (World(store, w.receipts + [Receipt(r.actor, r.action, r.key, r.input, ids, DecisionOf(approval))]),
               Applied(ids))
  }

  function Run<S, I(==), E>(engine: Engine<S, I, E>, w: World<S, I>, rs: seq<Request<I, E>>): World<S, I>
    decreases |rs|
  {
    if rs == [] then w else Run(engine, Handle(engine, w, rs[0]).0, rs[1..])
  }

  function Replies<S, I(==), E>(engine: Engine<S, I, E>, w: World<S, I>, rs: seq<Request<I, E>>): seq<Reply>
    decreases |rs|
  {
    if rs == [] then [] else [Handle(engine, w, rs[0]).1] + Replies(engine, Handle(engine, w, rs[0]).0, rs[1..])
  }

  // ---------------------------------------------------------------- invariants

  ghost predicate Unambiguous<I>(receipts: seq<Receipt<I>>) {
    && (forall i, j :: 0 <= i < j < |receipts| ==>
         !(receipts[i].action == receipts[j].action && receipts[i].key == receipts[j].key))
    && forall i, j :: 0 <= i < j < |receipts| && receipts[i].decision.Some? ==>
         receipts[i].decision != receipts[j].decision
  }

  lemma HandleKeepsUnambiguous<S, I, E>(engine: Engine<S, I, E>, w: World<S, I>, r: Request<I, E>)
    requires Unambiguous(w.receipts)
    ensures Unambiguous(Handle(engine, w, r).0.receipts)
  {
    var receipts := Handle(engine, w, r).0.receipts;
    if receipts != w.receipts {
      assert Find(w.receipts, r.action, r.key).None?;
      forall i | 0 <= i < |w.receipts| ensures !(receipts[i].action == r.action && receipts[i].key == r.key) {
        assert w.receipts[i] in w.receipts;
      }
    }
  }

  /** Main result: over any run no two receipts share a command key, and no two committed commands share an approval
      decision. */
  lemma {:induction false} RunsStayUnambiguous<S, I, E>(engine: Engine<S, I, E>, w: World<S, I>, rs: seq<Request<I, E>>)
    requires Unambiguous(w.receipts)
    ensures Unambiguous(Run(engine, w, rs).receipts)
    decreases |rs|
  {
    if rs != [] {
      HandleKeepsUnambiguous(engine, w, rs[0]);
      RunsStayUnambiguous(engine, Handle(engine, w, rs[0]).0, rs[1..]);
    }
  }

  lemma {:induction false} FindInLonger<I>(receipts: seq<Receipt<I>>, more: seq<Receipt<I>>, action: Action, key: Key)
    requires Find(receipts, action, key).Some?
    ensures Find(receipts + more, action, key) == Find(receipts, action, key)
  {
    if !(receipts[0].action == action && receipts[0].key == key) {
      assert (receipts + more)[1..] == receipts[1..] + more;
      FindInLonger(receipts[1..], more, action, key);
    }
  }

  lemma {:induction false} FindAppended<I>(receipts: seq<Receipt<I>>, last: Receipt<I>)
    requires Find(receipts, last.action, last.key).None?
    ensures Find(receipts + [last], last.action, last.key) == Some(last)
  {
    if receipts != [] {
      assert (receipts + [last])[1..] == receipts[1..] + [last];
      assert receipts[0] in receipts;
      FindAppended(receipts[1..], last);
    }
  }

  lemma HandleAppends<S, I, E>(engine: Engine<S, I, E>, w: World<S, I>, r: Request<I, E>)
    ensures w.receipts <= Handle(engine, w, r).0.receipts
  {
  }

  lemma {:induction false} RunsAppend<S, I, E>(engine: Engine<S, I, E>, w: World<S, I>, rs: seq<Request<I, E>>)
    ensures w.receipts <= Run(engine, w, rs).receipts
    decreases |rs|
  {
    if rs != [] {
      HandleAppends(engine, w, rs[0]);
      RunsAppend(engine, Handle(engine, w, rs[0]).0, rs[1..]);
    }
  }

  lemma {:induction false} RunOfTwo<S, I, E>(engine: Engine<S, I, E>, w: World<S, I>, a: seq<Request<I, E>>,
      b: seq<Request<I, E>>)
    ensures Run(engine, w, a + b) == Run(engine, Run(engine, w, a), b)
    ensures Replies(engine, w, a + b) == Replies(engine, w, a) + Replies(engine, Run(engine, w, a), b)
    decreases |a|
  {
    if a == [] {
      assert a + b == b;
    } else {
      assert (a + b)[1..] == a[1..] + b;
      RunOfTwo(engine, Handle(engine, w, a[0]).0, a[1..], b);
    }
  }

  // ------------------------------------------------------------------- retries

  /** The same command, sent again. */
  predicate SameCommand<I(==), E>(r: Request<I, E>, again: Request<I, E>) {
    again.actor == r.actor && again.action == r.action && again.key == r.key && again.input == r.input
  }

  predicate Answered(reply: Reply) {
    reply.Applied? || reply.Replayed?
  }

  lemma AnsweredLeavesReceipt<S, I, E>(engine: Engine<S, I, E>, w: World<S, I>, r: Request<I, E>)
    requires Answered(Handle(engine, w, r).1)
    ensures var found := Find(Handle(engine, w, r).0.receipts, r.action, r.key);
      found.Some? && found.value.actor == r.actor && found.value.input == r.input
        && found.value.ids == Handle(engine, w, r).1.ids
  {
    if Find(w.receipts, r.action, r.key).None? {
      var n := Handle(engine, w, r).0;
      FindAppended(w.receipts, n.receipts[|n.receipts| - 1]);
    }
  }

  /** Main result: once a command was answered, any later use of its key changes nothing. The same command returns the
      original record ids, at whatever time it is sent; another actor or another input is refused. */
  lemma KeyIsBoundForever<S, I, E>(engine: Engine<S, I, E>, w: World<S, I>, r: Request<I, E>,
      between: seq<Request<I, E>>, later: Request<I, E>)
    requires Answered(Handle(engine, w, r).1) && later.action == r.action && later.key == r.key
    ensures var now := Run(engine, Handle(engine, w, r).0, between);
      && Handle(engine, now, later).0 == now
      && Handle(engine, now, later).1 ==
           if later.actor != r.actor then OtherActor else if later.input != r.input then OtherInput
             else Replayed(Handle(engine, w, r).1.ids)
  {
    var first := Handle(engine, w, r).0;
    AnsweredLeavesReceipt(engine, w, r);
    RunsAppend(engine, first, between);
    var now := Run(engine, first, between);
    assert now.receipts == first.receipts + now.receipts[|first.receipts|..];
    FindInLonger(first.receipts, now.receipts[|first.receipts|..], r.action, r.key);
  }

  /** Main result: a retry stutters. Wherever a repeat of an answered command is inserted, the run ends in the same
      world, every other request gets the same reply, and the repeat gets the original ids. */
  lemma RetryStutters<S, I, E>(engine: Engine<S, I, E>, w: World<S, I>, before: seq<Request<I, E>>, r: Request<I, E>,
                               between: seq<Request<I, E>>, again: Request<I, E>, rest: seq<Request<I, E>>)
    requires Answered(Handle(engine, Run(engine, w, before), r).1) && SameCommand(r, again)
    ensures var prefix := before + [r] + between;
      && Run(engine, w, prefix + [again] + rest) == Run(engine, w, prefix + rest)
      && Replies(engine, w, prefix + rest) == Replies(engine, w, prefix) + Replies(engine, Run(engine, w, prefix), rest)
      && Replies(engine, w, prefix + [again] + rest)
           == Replies(engine, w, prefix) + [Replayed(Handle(engine, Run(engine, w, before), r).1.ids)]
            + Replies(engine, Run(engine, w, prefix), rest)
  {
    var prefix := before + [r] + between;
    var now := Run(engine, w, prefix);
    RunOfTwo(engine, w, before + [r], between);
    RunOfTwo(engine, w, before, [r]);
    assert Run(engine, Run(engine, w, before), [r]) == Handle(engine, Run(engine, w, before), r).0;
    KeyIsBoundForever(engine, Run(engine, w, before), r, between, again);
    RunOfTwo(engine, w, prefix + [again], rest);
    RunOfTwo(engine, w, prefix, [again]);
    RunOfTwo(engine, w, prefix, rest);
    assert [again][1..] == [];
    assert Replies(engine, now, [again]) == [Replayed(Handle(engine, Run(engine, w, before), r).1.ids)];
  }

  // -------------------------------------------------- repeats in a list of requests

  lemma {:induction false} OneReplyEach<S, I, E>(engine: Engine<S, I, E>, w: World<S, I>, rs: seq<Request<I, E>>)
    ensures |Replies(engine, w, rs)| == |rs|
    decreases |rs|
  {
    if rs != [] {
      OneReplyEach(engine, Handle(engine, w, rs[0]).0, rs[1..]);
    }
  }

  /** What the last request of a list meets, and what it is answered. */
  lemma LastReply<S, I, E>(engine: Engine<S, I, E>, w: World<S, I>, rs: seq<Request<I, E>>)
    requires rs != []
    ensures var before, last := rs[..|rs| - 1], rs[|rs| - 1];
      && Run(engine, w, rs) == Handle(engine, Run(engine, w, before), last).0
      && Replies(engine, w, rs) == Replies(engine, w, before) + [Handle(engine, Run(engine, w, before), last).1]
  {
    var before, last := rs[..|rs| - 1], rs[|rs| - 1];
    assert rs == before + [last];
    RunOfTwo(engine, w, before, [last]);
    assert [last][1..] == [];
  }

  /** Request `i` of the list repeats the earlier request `j`, and that one was answered. */
  ghost predicate RepeatsAt<S, I, E>(engine: Engine<S, I, E>, w: World<S, I>, rs: seq<Request<I, E>>, j: nat, i: nat) {
    && j < i < |rs| && SameCommand(rs[j], rs[i])
    && j < |Replies(engine, w, rs)| && Answered(Replies(engine, w, rs)[j])
  }

  ghost predicate IsRepeat<S, I, E>(engine: Engine<S, I, E>, w: World<S, I>, rs: seq<Request<I, E>>, i: nat) {
    exists j: nat :: RepeatsAt(engine, w, rs, j, i)
  }

  /** The list without its repeats of answered commands. */
  ghost function WithoutRepeats<S, I, E>(engine: Engine<S, I, E>, w: World<S, I>,
      rs: seq<Request<I, E>>): seq<Request<I, E>>
    decreases |rs|
  {
    if rs == [] then []
    else
      WithoutRepeats(engine, w, rs[..|rs| - 1]) + if IsRepeat(engine, w, rs, |rs| - 1) then [] else [rs[|rs| - 1]]
  }

  /** A repeat of request `j` is answered with the ids `j` was answered with, and leaves the world as it is. */
  lemma RepeatIsReplayed<S, I, E>(engine: Engine<S, I, E>, w: World<S, I>, rs: seq<Request<I, E>>, j: nat)
    requires rs != [] && RepeatsAt(engine, w, rs, j, |rs| - 1)
    ensures Run(engine, w, rs) == Run(engine, w, rs[..|rs| - 1])
    ensures |Replies(engine, w, rs)| == |rs|
    ensures Replies(engine, w, rs)[|rs| - 1] == Replayed(Replies(engine, w, rs)[j].ids)
  {
    OneReplyEach(engine, w, rs);
    LastReply(engine, w, rs);
    var before, last := rs[..|rs| - 1], rs[|rs| - 1];
    OneReplyEach(engine, w, before);
    var upTo, between := rs[..j], before[j + 1..];
    ReplyAt(engine, w, before, j);
    assert before[..j] == upTo;
    KeyIsBoundForever(engine, Run(engine, w, upTo), rs[j], between, last);
    RunThrough(engine, w, before, j);
  }

  lemma ReplyAt<S, I, E>(engine: Engine<S, I, E>, w: World<S, I>, rs: seq<Request<I, E>>, j: nat)
    requires j < |rs|
    ensures |Replies(engine, w, rs)| == |rs|
    ensures Replies(engine, w, rs)[j] == Handle(engine, Run(engine, w, rs[..j]), rs[j]).1
  {
    OneReplyEach(engine, w, rs);
    OneReplyEach(engine, w, rs[..j]);
    assert rs == rs[..j] + rs[j..];
    RunOfTwo(engine, w, rs[..j], rs[j..]);
  }

  lemma RunThrough<S, I, E>(engine: Engine<S, I, E>, w: World<S, I>, rs: seq<Request<I, E>>, j: nat)
    requires j < |rs|
    ensures Run(engine, w, rs) == Run(engine, Handle(engine, Run(engine, w, rs[..j]), rs[j]).0, rs[j + 1..])
  {
    assert rs == rs[..j] + rs[j..];
    RunOfTwo(engine, w, rs[..j], rs[j..]);
    assert rs[j..][1..] == rs[j + 1..];
  }

  /** Main result: commands sent again, any number of times and anywhere, leave the world of the list without the
      repeats. */
  lemma {:induction false} RepeatsChangeNothing<S, I, E>(engine: Engine<S, I, E>, w: World<S, I>,
      rs: seq<Request<I, E>>)
    ensures Run(engine, w, WithoutRepeats(engine, w, rs)) == Run(engine, w, rs)
    decreases |rs|
  {
    if rs != [] {
      var before, last := rs[..|rs| - 1], rs[|rs| - 1];
      RepeatsChangeNothing(engine, w, before);
      LastReply(engine, w, rs);
      var kept := WithoutRepeats(engine, w, before);
      if IsRepeat(engine, w, rs, |rs| - 1) {
        var j: nat :| RepeatsAt(engine, w, rs, j, |rs| - 1);
        RepeatIsReplayed(engine, w, rs, j);
        assert kept + [] == kept;
      } else {
        RunOfTwo(engine, w, kept, [last]);
        assert [last][1..] == [];
      }
    }
  }

  /** Receipt `x` was left by an earlier answered request of the list. */
  ghost predicate LeftBy<S, I, E>(engine: Engine<S, I, E>, w: World<S, I>, rs: seq<Request<I, E>>, x: Receipt<I>,
      j: nat)
  {
    && j < |rs| && j < |Replies(engine, w, rs)| && Replies(engine, w, rs)[j] == Applied(x.ids)
    && rs[j].actor == x.actor && rs[j].action == x.action && rs[j].key == x.key && rs[j].input == x.input
  }

  lemma {:induction false} EveryReceiptWasLeft<S, I, E>(engine: Engine<S, I, E>, store: S, rs: seq<Request<I, E>>,
      x: Receipt<I>) returns (j: nat)
    requires x in Run(engine, World(store, []), rs).receipts
    ensures LeftBy(engine, World(store, []), rs, x, j)
    decreases |rs|
  {
    var w: World<S, I> := World(store, []);
    assert rs != [];
    var before, last := rs[..|rs| - 1], rs[|rs| - 1];
    LastReply(engine, w, rs);
    OneReplyEach(engine, w, before);
    if x in Run(engine, w, before).receipts {
      j := EveryReceiptWasLeft(engine, store, before, x);
    } else {
      j := |rs| - 1;
    }
  }

  /** Main result: starting without receipts, a request is answered from a receipt exactly when an earlier request of
      the list was the same command and was answered; it then gets that request's record ids. */
  lemma ReplayedIffRepeat<S, I, E>(engine: Engine<S, I, E>, store: S, rs: seq<Request<I, E>>)
    requires rs != []
    ensures var w := World(store, []);
      && |Replies(engine, w, rs)| == |rs|
      && (Replies(engine, w, rs)[|rs| - 1].Replayed? <==> IsRepeat(engine, w, rs, |rs| - 1))
      && forall j: nat :: RepeatsAt(engine, w, rs, j, |rs| - 1) ==>
           Replies(engine, w, rs)[|rs| - 1] == Replayed(Replies(engine, w, rs)[j].ids)
  {
    var w: World<S, I> := World(store, []);
    var before, last := rs[..|rs| - 1], rs[|rs| - 1];
    OneReplyEach(engine, w, rs);
    OneReplyEach(engine, w, before);
    LastReply(engine, w, rs);
    forall j: nat | RepeatsAt(engine, w, rs, j, |rs| - 1)
      ensures Replies(engine, w, rs)[|rs| - 1] == Replayed(Replies(engine, w, rs)[j].ids) {
      RepeatIsReplayed(engine, w, rs, j);
    }
    if Replies(engine, w, rs)[|rs| - 1].Replayed? {
      var x := Find(Run(engine, w, before).receipts, last.action, last.key).value;
      var j := EveryReceiptWasLeft(engine, store, before, x);
      assert RepeatsAt(engine, w, rs, j, |rs| - 1);
    }
  }

  // ------------------------------------------------------------------ the engine

  class Desk<S, I(==), E> {
    const engine: Engine<S, I, E>
    var store: S
    var receipts: seq<Receipt<I>>

    constructor (engine: Engine<S, I, E>, store: S)
      ensures this.engine == engine && State() == World(store, [])
    {
      this.engine, this.store, this.receipts := engine, store, [];
    }

    function State(): World<S, I>
      reads this
    {
      World(store, receipts)
    }

    /** `assertApprovalUnused`: scan every receipt for the decision. */
    method DecisionUnused(decision: Decision) returns (unused: bool)
      ensures unused <==> !Used(receipts, decision)
    {
      var i := 0;
      while i < |receipts|
        invariant 0 <= i <= |receipts|
        invariant forall j :: 0 <= j < i ==> receipts[j].decision != Some(decision)
      {
        if receipts[i].decision == Some(decision) {
          return false;
        }
        i := i + 1;
      }
      unused := true;
    }

    /** One command, inside its storage transaction: replay, approval, execution, receipt. */
    method Execute(r: Request<I, E>) returns (reply: Reply)
      modifies this
      ensures (State(), reply) == Handle(engine, old(State()), r)
    {
      var prior := Find(receipts, r.action, r.key);
      if prior.Some? {
        var receipt := prior.value;
        reply := if receipt.actor != r.actor then OtherActor else if receipt.input != r.input then OtherInput
          else Replayed(receipt.ids);
        return;
      }
      var approval := engine.approval(r);
      if approval.Invalid? {
        return NoApproval;
      }
      if approval.By? {
        var unused := DecisionUnused(approval.decision);
        if !unused {
          return DecisionUsed;
        }
      }
      var executed := engine.execute(store, r);
      match executed
      case Failed => reply := CommandFailed;
      case Committed(next, ids) =>
        store := next;
        receipts := receipts + [Receipt(r.actor, r.action, r.key, r.input, ids, DecisionOf(approval))];
        reply := Applied(ids);
    }
  }
}
