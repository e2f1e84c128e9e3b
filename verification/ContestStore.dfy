/** Which frozen contests can still be drawn in the record store, whose quota bounds the weights as well. */
module ContestStore {
  import opened Contest
  import opened ContestDraws
  import opened ContestRuns
  import opened ContestScan
  import opened DrawSampling
  import opened Sorting

  // ------------------------------------------------------------ weights are bounded

  ghost predicate Capped(s: World) {
    forall id :: id in s.contests ==> s.contests[id].rules.cap <= MAX_CAP
  }

  /** Contests are only created, and keep their rules. */
  ghost predicate SameRules(s: World, n: World) {
    forall id :: id in n.contests ==> id in s.contests && n.contests[id].rules == s.contests[id].rules
  }

  lemma RevokeKeepsRules(s: World, now: int, c: Command)
    requires c.Revoke? && StepRevoke(s, now, c).Done?
    ensures SameRules(s, StepRevoke(s, now, c).world)
  {
  }

  lemma FreezeKeepsRules(s: World, now: int, c: Command)
    requires c.Freeze? && StepFreeze(s, s, now, c).Done?
    ensures SameRules(s, StepFreeze(s, s, now, c).world)
  {
  }

  lemma RevealKeepsRules(s: World, c: Command)
    requires c.Reveal? && StepReveal(s, s, c).Done?
    ensures SameRules(s, StepReveal(s, s, c).world)
  {
  }

  lemma StepKeepsRules(code: CodeOf, s: World, now: int, c: Command)
    requires !c.Create? && Step(code, s, now, c).Done?
    ensures SameRules(s, After(code, s, now, c))
  {
    match c
    case Revoke(_) => RevokeKeepsRules(s, now, c);
    case Freeze(_, _, _) => FreezeKeepsRules(s, now, c);
    case Reveal(_, _, _, _) => RevealKeepsRules(s, c);
    case _ =>
  }

  lemma StepKeepsCapped(code: CodeOf, s: World, now: int, c: Command)
    requires Capped(s)
    ensures Capped(After(code, s, now, c))
  {
    if !c.Create? && Step(code, s, now, c).Done? { StepKeepsRules(code, s, now, c); }
  }

  lemma {:induction false} RunsKeepCapped(code: CodeOf, s: World, calls: seq<Call>)
    requires Capped(s)
    ensures Capped(Run(code, s, calls))
    decreases |calls|
  {
    if calls != [] {
      StepKeepsCapped(code, s, calls[0].now, calls[0].command);
      RunsKeepCapped(code, After(code, s, calls[0].now, calls[0].command), calls[1..]);
    }
  }

  lemma {:induction false} TotalIsBounded(ws: seq<nat>, most: nat)
    requires forall w :: w in ws ==> 1 <= w <= most
    ensures |ws| <= Total(ws) <= most * |ws|
  {
    if ws != [] {
      var before, last := ws[..|ws| - 1], ws[|ws| - 1];
      assert last in ws && forall w :: w in before ==> w in ws;
      TotalIsBounded(before, most);
      assert most * |ws| == most * |before| + most;
    }
  }

  lemma FewerIds(a: set<Id>, b: set<Id>)
    requires a <= b
    ensures |a| <= |b|
  {
    assert b == a + (b - a);
  }

  lemma {:induction false} OneForEach(ids: set<Id>)
    ensures |Ascending(ids)| == |ids|
    decreases |ids|
  {
    if ids != {} { OneForEach(ids - {Least(ids)}); }
  }

  /** At most 21 for each entry. */
  lemma ListIsDrawable(s: World, id: Id, cap: nat)
    requires cap <= MAX_CAP && |s.entries| <= MAX_SCAN && Candidates(s, id, cap) != []
    ensures Drawable(Candidates(s, id, cap))
  {
    var cs := Candidates(s, id, cap);
    FewerIds(InDrawIds(s, id), s.entries.Keys);
    OneForEach(InDrawIds(s, id));
    TotalIsBounded(Weights(cs), 1 + MAX_CAP);
  }

  // -------------------------------------------------------------- records only grow

  ghost predicate NoneLost(s: World, n: World) {
    && s.contests.Keys <= n.contests.Keys && s.entries.Keys <= n.entries.Keys && s.receipts.Keys <= n.receipts.Keys
    && s.signals.Keys <= n.signals.Keys && |s.decisions| <= |n.decisions| && s.snapshots.Keys <= n.snapshots.Keys
    && s.proofs.Keys <= n.proofs.Keys
  }

  lemma NoneLostCounts(s: World, n: World)
    requires NoneLost(s, n)
    ensures Count(s) <= Count(n)
    ensures |s.proofs| < |n.proofs| ==> Count(s) + 1 <= Count(n)
  {
    FewerIds(s.contests.Keys, n.contests.Keys);
    FewerIds(s.entries.Keys, n.entries.Keys);
    FewerIds(s.receipts.Keys, n.receipts.Keys);
    FewerIds(s.signals.Keys, n.signals.Keys);
    FewerIds(s.snapshots.Keys, n.snapshots.Keys);
    FewerIds(s.proofs.Keys, n.proofs.Keys);
  }

  lemma RegisterLosesNone(code: CodeOf, s: World, now: int, c: Command)
    requires c.Register? && StepRegister(code, s, s, now, c).Done?
    ensures NoneLost(s, StepRegister(code, s, s, now, c).world)
  {
  }

  lemma RevokeLosesNone(s: World, now: int, c: Command)
    requires c.Revoke? && StepRevoke(s, now, c).Done?
    ensures NoneLost(s, StepRevoke(s, now, c).world)
  {
  }

  lemma FreezeLosesNone(s: World, now: int, c: Command)
    requires c.Freeze? && StepFreeze(s, s, now, c).Done?
    ensures NoneLost(s, StepFreeze(s, s, now, c).world)
  {
  }

  lemma DrawFiles(s: World, n: World, proofId: Id, proof: Proof)
    requires Draws(s, n, proofId, proof)
    ensures NoneLost(s, n) && Count(n) == Count(s) + 1
  {
    assert n.contests.Keys == s.contests.Keys && n.proofs.Keys == s.proofs.Keys + {proofId};
    assert |n.contests.Keys| == |s.contests.Keys| && |n.proofs.Keys| == |s.proofs.Keys| + 1;
  }

  /** A reveal files its proof and nothing else. */
  lemma RevealFiles(code: CodeOf, s: World, now: int, c: Command)
    requires c.Reveal? && Step(code, s, now, c).Done?
    ensures NoneLost(s, After(code, s, now, c)) && Count(After(code, s, now, c)) == Count(s) + 1
  {
    var proof := RevealMeans(code, s, now, c);
    DrawFiles(s, After(code, s, now, c), c.proofId, proof);
  }

  lemma StepLosesNone(code: CodeOf, s: World, now: int, c: Command)
    ensures NoneLost(s, After(code, s, now, c))
  {
    if Step(code, s, now, c).Done? {
      match c
      case Register(_, _, _, _, _, _, _, _) => RegisterLosesNone(code, s, now, c);
      case Revoke(_) => RevokeLosesNone(s, now, c);
      case Freeze(_, _, _) => FreezeLosesNone(s, now, c);
      case Reveal(_, _, _, _) => RevealFiles(code, s, now, c);
      case _ =>
    }
  }

  // ------------------------------------------------------------- draws in the store

  function Size(w: Store): nat {
    Count(w.world) + w.others
  }

  /** Every command that took effect filed its receipt. */
  ghost predicate Receipted(attempts: seq<Attempt>) {
    forall a :: a in attempts && a.Attempt? ==> a.extra >= 1
  }

  ghost predicate CanBeDrawnInStore(code: CodeOf, w: Store, id: Id, snapshotId: Id) {
    exists attempts :: Faithful(code, w, attempts) && Receipted(attempts)
      && DrawnFrom(TryAll(code, w, attempts).world, id, snapshotId)
  }

  /** With complete listings an attempt is the command and, if it was accepted, its commit. */
  lemma TryIs(code: CodeOf, w: Store, a: Attempt)
    requires Fits(w) && a.Attempt? && Lists(w.world, a.listing)
    ensures Try(code, w, a) ==
      if Step(code, w.world, a.call.now, a.call.command).Done?
      then Commit(w, Store(After(code, w.world, a.call.now, a.call.command), w.others + a.extra), a.plan) else w
  {
    ListingIsComplete(w.world, a.listing);
  }

  lemma TryGrows(code: CodeOf, w: Store, a: Attempt)
    requires Fits(w) && (a.Attempt? ==> Lists(w.world, a.listing))
    ensures Size(w) <= Size(Try(code, w, a))
  {
    if a.Attempt? {
      TryIs(code, w, a);
      StepLosesNone(code, w.world, a.call.now, a.call.command);
      NoneLostCounts(w.world, After(code, w.world, a.call.now, a.call.command));
    }
  }

  lemma RevealedHere(code: CodeOf, s: World, now: int, c: Command, id: Id, snapshotId: Id)
    requires !DrawnFrom(s, id, snapshotId) && DrawnFrom(After(code, s, now, c), id, snapshotId)
    ensures Step(code, s, now, c).Done? && Count(After(code, s, now, c)) == Count(s) + 1
  {
    if c.Reveal? { RevealFiles(code, s, now, c); } else { OnlyRevealDraws(code, s, now, c, id, snapshotId); }
  }

  /** The draw filed a proof and a receipt. */
  lemma DrawTook(code: CodeOf, w: Store, a: Attempt, id: Id, snapshotId: Id)
    requires Fits(w) && (a.Attempt? ==> Lists(w.world, a.listing) && a.extra >= 1)
    requires !DrawnFrom(w.world, id, snapshotId) && DrawnFrom(Try(code, w, a).world, id, snapshotId)
    ensures Size(w) + 2 <= MAX_SCAN
  {
    TryIs(code, w, a);
    RevealedHere(code, w.world, a.call.now, a.call.command, id, snapshotId);
  }

  lemma {:induction false} DrawnHadRoom(code: CodeOf, w: Store, attempts: seq<Attempt>, id: Id, snapshotId: Id)
    requires Fits(w) && Faithful(code, w, attempts) && Receipted(attempts) && !DrawnFrom(w.world, id, snapshotId)
    requires DrawnFrom(TryAll(code, w, attempts).world, id, snapshotId)
    ensures Size(w) + 2 <= MAX_SCAN
    decreases |attempts|
  {
    var a := attempts[0];
    assert a in attempts;
    var n := Try(code, w, a);
    if DrawnFrom(n.world, id, snapshotId) {
      DrawTook(code, w, a, id, snapshotId);
    } else {
      TryMeans(code, w, a);
      TryGrows(code, w, a);
      assert forall b :: b in attempts[1..] ==> b in attempts;
      DrawnHadRoom(code, n, attempts[1..], id, snapshotId);
    }
  }

  lemma DrawnNeedsReview(code: CodeOf, w: Store, attempts: seq<Attempt>, id: Id, snapshotId: Id)
    requires Fits(w) && Inv(code, w.world) && Faithful(code, w, attempts) && FrozenAt(w.world, id, snapshotId)
    requires DrawnFrom(TryAll(code, w, attempts).world, id, snapshotId)
    ensures AllReviewed(w.world, id)
  {
    var calls := StoreRunsAreRuns(code, w, attempts);
    DrawnWasReviewed(code, w.world, calls, id, snapshotId);
  }

  /** A listing of everything. */
  function Complete(s: World): Listing {
    Listing(s.entries.Keys, s.receipts.Keys, s.signals.Keys, s.decisions)
  }

  lemma OneAttempt(code: CodeOf, w: Store, a: Attempt)
    requires a.Attempt? && Lists(w.world, a.listing)
    ensures Faithful(code, w, [a]) && TryAll(code, w, [a]) == Try(code, w, a)
  {
    assert [a][1..] == [];
  }

  lemma DrawIsCommitted(code: CodeOf, w: Store, call: Call, id: Id, snapshotId: Id) returns (a: Attempt)
    requires Fits(w) && Size(w) + 2 <= MAX_SCAN && call.command.Reveal? && !DrawnFrom(w.world, id, snapshotId)
    requires DrawnFrom(After(code, w.world, call.now, call.command), id, snapshotId)
    ensures a.Attempt? && a.extra == 1 && Lists(w.world, a.listing)
    ensures DrawnFrom(Try(code, w, a).world, id, snapshotId)
  {
    a := Attempt(Fleet, call, Complete(w.world), 1);
    TryIs(code, w, a);
    RevealedHere(code, w.world, call.now, call.command, id, snapshotId);
  }

  lemma FrozenListIsDrawable(code: CodeOf, w: Store, id: Id, snapshotId: Id)
    requires Fits(w) && Inv(code, w.world) && Capped(w.world) && FrozenAt(w.world, id, snapshotId)
    ensures snapshotId in w.world.snapshots && Drawable(w.world.snapshots[snapshotId].candidates)
  {
    FrozenState(code, w.world, id);
    ListIsDrawable(w.world, id, w.world.contests[id].rules.cap);
  }

  lemma ReviewedCanBeDrawn(code: CodeOf, w: Store, id: Id, snapshotId: Id)
    requires Fits(w) && Inv(code, w.world) && Capped(w.world) && FrozenAt(w.world, id, snapshotId)
    requires AllReviewed(w.world, id) && Size(w) + 2 <= MAX_SCAN
    ensures CanBeDrawnInStore(code, w, id, snapshotId)
  {
    FrozenListIsDrawable(code, w, id, snapshotId);
    var call := DrawingCall(code, w.world, id, snapshotId);
    var a := DrawIsCommitted(code, w, call, id, snapshotId);
    OneAttempt(code, w, a);
    assert Receipted([a]);
  }

  /** Main result: in every store the contests come to, the weights of a frozen list add up to a safe integer. So a
      frozen contest can still be drawn if and only if no fraud signal on an entrant is unreviewed; and the store can
      make the draw if and only if, besides, the largest plan has room for the proof and a receipt. */
  lemma StoreDrawableIff(code: CodeOf, attempts: seq<Attempt>, id: Id, snapshotId: Id)
    requires Faithful(code, EMPTY_STORE, attempts)
    requires FrozenAt(TryAll(code, EMPTY_STORE, attempts).world, id, snapshotId)
    ensures var w := TryAll(code, EMPTY_STORE, attempts);
      && (CanBeDrawn(code, w.world, id, snapshotId) <==> AllReviewed(w.world, id))
      && (CanBeDrawnInStore(code, w, id, snapshotId) <==> AllReviewed(w.world, id) && Size(w) + 2 <= MAX_SCAN)
  {
    var w := TryAll(code, EMPTY_STORE, attempts);
    var calls := StoreRunsAreRuns(code, EMPTY_STORE, attempts);
    RunsKeepInv(code, EMPTY, calls);
    RunsKeepCapped(code, EMPTY, calls);
    FrozenListIsDrawable(code, w, id, snapshotId);
    DrawableIff(code, w.world, id, snapshotId);
    if CanBeDrawnInStore(code, w, id, snapshotId) {
      var more :| Faithful(code, w, more) && Receipted(more)
        && DrawnFrom(TryAll(code, w, more).world, id, snapshotId);
      DrawnNeedsReview(code, w, more, id, snapshotId);
      DrawnHadRoom(code, w, more, id, snapshotId);
    }
    if AllReviewed(w.world, id) && Size(w) + 2 <= MAX_SCAN { ReviewedCanBeDrawn(code, w, id, snapshotId); }
  }
}
