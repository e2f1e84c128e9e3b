/** The contest commands over the record store as it is: listings that stop at a limit, and a quota on the
    workspace's records. */
module ContestScan {
  import opened Contest
  import opened ContestRuns

  /** A listing returns no more records than this, without saying so. */
  const MAX_SCAN := 5_000_000

  datatype Plan = NoPlan | Starter | Scale | Fleet

  function RecordLimit(plan: Plan): nat {
    match plan
    case NoPlan => 0
    case Starter => 50_000
    case Scale => 500_000
    case Fleet => 5_000_000
  }

  // -------------------------------------------------------------------- listings

  /** What the listings of one command returned. */
  datatype Listing = Listing(entries: set<Id>, receipts: set<Id>, signals: set<Id>, decisions: seq<Decision>)

  /** A listing shows stored records only, and all of them unless there are more than the limit. Which ones are left
      out then depends on when each was last updated; any choice is allowed here. */
  ghost predicate Lists(s: World, l: Listing) {
    && ListsIds(s.entries.Keys, l.entries) && ListsIds(s.receipts.Keys, l.receipts)
    && ListsIds(s.signals.Keys, l.signals)
    && if |s.decisions| <= MAX_SCAN then l.decisions == s.decisions
       else |l.decisions| == MAX_SCAN && forall d :: d in l.decisions ==> d in s.decisions
  }

  ghost predicate ListsIds(stored: set<Id>, listed: set<Id>) {
    listed <= stored && |listed| == if |stored| <= MAX_SCAN then |stored| else MAX_SCAN
  }

  /** The store as a command sees it that reads records one by one through their ids and the rest through listings. */
  function Seen(s: World, l: Listing): World {
    s.(entries := map id | id in s.entries && id in l.entries :: s.entries[id],
       receipts := map id | id in s.receipts && id in l.receipts :: s.receipts[id],
       signals := map id | id in s.signals && id in l.signals :: s.signals[id],
       decisions := l.decisions)
  }

  lemma SameSize(stored: set<Id>, listed: set<Id>)
    requires listed <= stored && |listed| == |stored|
    ensures listed == stored
  {
    if x :| x in stored && x !in listed {
      SmallerSet(listed, stored - {x});
    }
  }

  lemma {:induction false} SmallerSet(a: set<Id>, b: set<Id>)
    requires a <= b
    ensures |a| <= |b|
    decreases |a|
  {
    if a != {} {
      var x :| x in a;
      SmallerSet(a - {x}, b - {x});
    }
  }

  /** The records a contest command stores, of every type it lists. */
  function Count(s: World): nat {
    |s.contests| + |s.entries| + |s.receipts| + |s.signals| + |s.decisions| + |s.snapshots| + |s.proofs|
  }

  /** As long as all records together fit the limit, every listing is complete. */
  lemma ListingIsComplete(s: World, l: Listing)
    requires Lists(s, l) && Count(s) <= MAX_SCAN
    ensures Seen(s, l) == s
  {
    SameSize(s.entries.Keys, l.entries);
    SameSize(s.receipts.Keys, l.receipts);
    SameSize(s.signals.Keys, l.signals);
    assert Seen(s, l).entries == s.entries && Seen(s, l).receipts == s.receipts && Seen(s, l).signals == s.signals;
  }

  ghost predicate FindsKey(v: World, contestId: Id, key: Key) {
    exists e :: e in Entrants(v, contestId) && v.entries[e].key == key && !v.entries[e].state.Revoked?
  }

  /** A listing that left an entrant out would let its key enter a second time: the check finds the key exactly if
      the one entry that holds it was listed. */
  lemma KeyIsFoundIffListed(code: CodeOf, s: World, l: Listing, id: Id)
    requires Inv(code, s) && id in s.entries && !s.entries[id].state.Revoked?
    ensures FindsKey(Seen(s, l), s.entries[id].contestId, s.entries[id].key) <==> id in l.entries
  {
    var v, e := Seen(s, l), s.entries[id];
    if id in l.entries { assert id in Entrants(v, e.contestId); }
    if FindsKey(v, e.contestId, e.key) {
      var other :| other in Entrants(v, e.contestId) && v.entries[other].key == e.key;
      assert EntryOk(code, s, id) && EntryOk(code, s, other);
      assert other != id ==> Apart(s.entries[other], e);
    }
  }

  // ------------------------------------------------------------------- the store

  /** `others` counts the workspace's remaining records: revocations, command receipts and all of the other modules. */
  datatype Store = Store(world: World, others: nat)

  /** One transaction: a contest command on some plan, with the listings it got and the records it makes beside the
      world's; or any work of another module. */
  datatype Attempt = Attempt(plan: Plan, call: Call, listing: Listing, extra: nat) | Elsewhere(plan: Plan, more: nat)

  /** `createRecord` refuses once the workspace holds as many records as its plan allows; a refusal rolls the whole
      transaction back. */
  ghost function Commit(w: Store, next: Store, plan: Plan): Store {
    if Count(next.world) + next.others <= RecordLimit(plan) then next else w
  }

  ghost function Try(code: CodeOf, w: Store, a: Attempt): Store {
    match a
    case Elsewhere(plan, more) => Commit(w, w.(others := w.others + more), plan)
    case Attempt(plan, call, listing, extra) =>
      match StepSeeing(code, w.world, Seen(w.world, listing), call.now, call.command)
      case Refused(_) => w
      case Done(next) => Commit(w, Store(next, w.others + extra), plan)
  }

  ghost function TryAll(code: CodeOf, w: Store, attempts: seq<Attempt>): Store
    decreases |attempts|
  {
    if attempts == [] then w else TryAll(code, Try(code, w, attempts[0]), attempts[1..])
  }

  /** Every listing was one the store could have returned. */
  ghost predicate Faithful(code: CodeOf, w: Store, attempts: seq<Attempt>)
    decreases |attempts|
  {
    attempts == []
    || ((attempts[0].Attempt? ==> Lists(w.world, attempts[0].listing))
         && Faithful(code, Try(code, w, attempts[0]), attempts[1..]))
  }

  const EMPTY_STORE := Store(EMPTY, 0)

  ghost predicate Fits(w: Store) {
    Count(w.world) + w.others <= MAX_SCAN
  }

  /** What one transaction leaves: nothing new for the contests, or what the command does with complete listings. */
  lemma TryMeans(code: CodeOf, w: Store, a: Attempt)
    requires Fits(w) && (a.Attempt? ==> Lists(w.world, a.listing))
    ensures Fits(Try(code, w, a))
    ensures Try(code, w, a).world == w.world
      || (a.Attempt? && Try(code, w, a).world == After(code, w.world, a.call.now, a.call.command))
  {
    if a.Attempt? { ListingIsComplete(w.world, a.listing); }
  }

  /** Main result: with the quotas of the plans, no listing is ever cut short. Whatever the store is asked, on
      whatever plans, its contests are those of a run in which every command sees everything; so all that holds of
      every run holds of the store. */
  lemma {:induction false} StoreRunsAreRuns(code: CodeOf, w: Store, attempts: seq<Attempt>) returns (calls: seq<Call>)
    requires Fits(w) && Faithful(code, w, attempts)
    ensures TryAll(code, w, attempts).world == Run(code, w.world, calls) && Fits(TryAll(code, w, attempts))
    decreases |attempts|
  {
    if attempts == [] {
      calls := [];
    } else {
      var a := attempts[0];
      TryMeans(code, w, a);
      var n := Try(code, w, a);
      var rest := StoreRunsAreRuns(code, n, attempts[1..]);
      if n.world == w.world {
        calls := rest;
      } else {
        calls := [a.call] + rest;
        assert calls[1..] == rest;
      }
    }
  }

  /** So in the store, too, keys are unique over all entries ever made, and a frozen list equals the list drawn up
      afresh, through whatever listings. */
  lemma StoreKeepsKeysAndLists(code: CodeOf, attempts: seq<Attempt>, l: Listing, id: Id)
    requires Faithful(code, EMPTY_STORE, attempts) && Lists(TryAll(code, EMPTY_STORE, attempts).world, l)
    ensures var s := TryAll(code, EMPTY_STORE, attempts).world;
      && (forall a, b ::
           a in s.entries && b in s.entries && a != b && s.entries[a].contestId == s.entries[b].contestId ==>
            s.entries[a].key != s.entries[b].key)
      && (id in s.contests && s.contests[id].state.DrawFrozen? ==>
            && var k := s.contests[id];
            && ContestOk(s, id)
            && Candidates(Seen(s, l), id, k.rules.cap) == s.snapshots[k.snapshotId.value].candidates)
  {
    var s := TryAll(code, EMPTY_STORE, attempts).world;
    var calls := StoreRunsAreRuns(code, EMPTY_STORE, attempts);
    RunsKeepInv(code, EMPTY, calls);
    ListingIsComplete(s, l);
    forall a, b | a in s.entries && b in s.entries && a != b && s.entries[a].contestId == s.entries[b].contestId
      ensures s.entries[a].key != s.entries[b].key {
      KeysAndCodesUnique(code, calls, a, b);
    }
    if id in s.contests && s.contests[id].state.DrawFrozen? { FrozenState(code, s, id); }
  }
}
