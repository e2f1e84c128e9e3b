/** Runs from the empty store into the two ways an envelope gets stuck: a role without a field, and a workspace with
    too many sessions. */
module EsignWitness {
  import opened Options
  import opened Sorting
  import opened Esign
  import opened EsignRuns
  import opened EsignProgress
  import opened EsignCompletion
  import opened EsignLimits

  const DEADLINE := 1_000_000

  const ROLES := [Role("buyer", 1), Role("seller", 2)]
  const SIGNERS := [Signer(1, "b", "buyer", 1), Signer(2, "s", "seller", 2)]
  const CONTRACT := Document("contract", "1", "hash", 1)

  /** One required field for the buyer and, if `both`, one for the seller. */
  function Fields(both: bool): seq<Field> {
    var first := Field(1, "buyer", Signature, 1, 0, 0, 100, 100, true);
    if both then [first, Field(2, "seller", Signature, 1, 0, 200, 100, 100, true)] else [first]
  }

  function Drafted(both: bool): Envelope {
    Envelope(Draft, 0, 0, "hash", SIGNERS, Fields(both), DEADLINE, {}, 1, None, None)
  }

  function Prepare(both: bool): seq<Call> {
    [Call(0, CreateTemplate(0)),
     Call(0, CreateVersion(0, 0, 0, ROLES, Fields(both), "terms")),
     Call(0, RegisterDocument(0, CONTRACT)),
     Call(0, DraftEnvelope(0, 0, 0, "hash", SIGNERS, DEADLINE)),
     Call(0, Dispatch(0, 1, BoundaryOf(0, Drafted(both)), 0))]
  }

  lemma SortedPair(le: (int, int) -> bool)
    requires TotalPreorder(le) && le(1, 2) && !le(2, 1)
    ensures Sort([1, 2], le) == [1, 2]
  {
    SortSorts([1, 2], le);
    SortedPermutationIsUnique([1, 2], Sort([1, 2], le), le);
  }

  lemma RolesAreContiguous()
    ensures ContiguousFromOne(ROLES)
  {
    assert Orders(ROLES) == [1, 2];
    SortedPair((x: int, y: int) => x <= y);
  }

  lemma TemplateIsValid(both: bool)
    ensures ValidSnapshot(ROLES, Fields(both))
  {
    RolesAreContiguous();
    assert ROLES[0] in ROLES && ROLES[1] in ROLES;
  }

  lemma RouteIsValid()
    ensures DistinctSigners(SIGNERS) && RouteMatches(SIGNERS, ROLES)
  {
    assert RoleNames(ROLES) == ["buyer", "seller"] == SignerRoles(SIGNERS);
    assert ROLES[0] in ROLES && ROLES[1] in ROLES;
  }

  /** The store once the template version and the document are there. */
  function Registered(both: bool): Store {
    Store(map[0 := Head(1, 2)], map[0 := Template(0, 1, ROLES, Fields(both), "terms")], map[0 := CONTRACT], map[],
      map[], [], map[], map[], 3)
  }

  function Dispatched(both: bool): Store {
    Registered(both).(
      envelopes := map[0 := Drafted(both).(state := Ready, planId := Some(0), version := 2)],
      events := map[0 := DispatchPlan(0, BoundaryOf(0, Drafted(both)))],
      others := 5)
  }

  lemma Registering(both: bool)
    ensures Run(EMPTY, Prepare(both)[..3]) == Registered(both)
  {
    TemplateIsValid(both);
    var calls := Prepare(both);
    var first := EMPTY.(heads := map[0 := Head(0, 1)], others := 1);
    var second := first.(heads := map[0 := Head(1, 2)], templates := Registered(both).templates, others := 2);
    assert Next(EMPTY, calls[0]) == first;
    assert Next(first, calls[1]) == second;
    assert Next(second, calls[2]) == Registered(both);
    assert calls[..3] == [calls[0]] + ([calls[1]] + ([calls[2]] + []));
    RunFirst(second, calls[2], []);
    RunFirst(first, calls[1], [calls[2]] + []);
    RunFirst(EMPTY, calls[0], [calls[1]] + ([calls[2]] + []));
  }

  function Waiting(both: bool): Store {
    Registered(both).(envelopes := map[0 := Drafted(both)], others := 4)
  }

  lemma Drafting(both: bool)
    ensures Next(Registered(both), Prepare(both)[3]) == Waiting(both)
  {
    RouteIsValid();
    var s, c := Registered(both), Prepare(both)[3].command;
    assert Step(s, 0, c) == StepDraft(s, 0, c);
  }

  lemma Planning(both: bool)
    ensures Next(Waiting(both), Prepare(both)[4]) == Dispatched(both)
  {
    var s, c := Waiting(both), Prepare(both)[4].command;
    assert Step(s, 0, c) == StepDispatch(s, 0, c);
  }

  lemma Dispatching(both: bool)
    ensures Run(Registered(both), Prepare(both)[3..]) == Dispatched(both)
  {
    var calls := Prepare(both);
    var fourth := Waiting(both);
    Drafting(both);
    Planning(both);
    assert calls[3..] == [calls[3]] + ([calls[4]] + []);
    RunFirst(fourth, calls[4], []);
    RunFirst(Registered(both), calls[3], [calls[4]] + []);
  }

  lemma Prepared(both: bool)
    ensures Run(EMPTY, Prepare(both)) == Dispatched(both)
    ensures Inv(Dispatched(both)) && Held(Dispatched(both))
  {
    Registering(both);
    Dispatching(both);
    assert Prepare(both) == Prepare(both)[..3] + Prepare(both)[3..];
    RunThen(EMPTY, Prepare(both)[..3], Prepare(both)[3..]);
    RunsKeepInv(EMPTY, Prepare(both));
    RunsKeepHeld(EMPTY, Prepare(both));
  }

  lemma PreparedEnvelope(both: bool)
    ensures var s := Dispatched(both);
      && 0 in s.envelopes && s.envelopes[0].Active() && s.envelopes[0].expiresAt == DEADLINE
      && NothingLive(s, 0, 0) && |s.sessions| == 0
      && (EveryRoleHasAField(s.envelopes[0]) <==> both)
  {
    var e := Dispatched(both).envelopes[0];
    assert Fields(both)[0] in e.fields && HasField(e, "buyer");
    assert SIGNERS[1] in e.signers;
    if both { assert Fields(both)[1] in e.fields && HasField(e, "seller"); }
  }

  lemma NeverCompleted(s: Store, calls: seq<Call>, id: Id)
    requires Inv(s) && Held(s) && id in s.envelopes && !EveryRoleHasAField(s.envelopes[id])
    ensures !EndsCompleted(s, calls, id)
  {
    if EndsCompleted(s, calls, id) {
      CompletedHadFields(s, calls, id);
    }
  }

  /** Main result: five accepted calls lead from the empty store to an active, unexpired envelope which no further
      calls complete: nobody gave the seller a field. */
  lemma RoleWithoutFieldIsReachable(calls: seq<Call>)
    ensures var s := Run(EMPTY, Prepare(false));
      && 0 in s.envelopes && s.envelopes[0].Active() && 0 < s.envelopes[0].expiresAt && |s.sessions| == 0
      && !EndsCompleted(s, calls, 0)
  {
    Prepared(false);
    PreparedEnvelope(false);
    NeverCompleted(Dispatched(false), calls, 0);
  }

  /** One session more, and none that lives beyond `now`. */
  ghost predicate Waited(s: Store, n: Store, id: Id, now: int) {
    && id in s.envelopes && id in n.envelopes && n.envelopes[id].Active() && SameTerms(s.envelopes[id], n.envelopes[id])
    && |n.sessions| == |s.sessions| + 1 && NothingLive(n, id, now + 1)
  }

  lemma IssuedThenWaited(s: Store, n: Store, id: Id, now: int, k: Id)
    requires id in s.envelopes && Issued(s, n, id, now, now + 1, "", k) && OnlyOpen(n, id, k)
    ensures Waited(s, n, id, now)
  {
    assert |n.sessions.Keys| == |s.sessions.Keys| + 1;
  }

  lemma IssueAndWait(s: Store, id: Id, now: int) returns (call: Call)
    requires Inv(s) && id in s.envelopes && s.envelopes[id].Active() && NothingLive(s, id, now)
    requires now < s.envelopes[id].expiresAt && !Full(|s.sessions|)
    ensures Waited(s, Next(s, call), id, now)
  {
    var k := Unused(s.sessions.Keys);
    call := IssueNext(s, id, now, now + 1, "", k);
    IssuedThenWaited(s, Next(s, call), id, now, k);
  }

  /** One session after the other is issued and left to expire. */
  lemma {:induction false} IssueMany(s: Store, id: Id, now: int, n: nat) returns (calls: seq<Call>)
    requires Inv(s) && id in s.envelopes && s.envelopes[id].Active() && NothingLive(s, id, now)
    requires now + n <= s.envelopes[id].expiresAt && |s.sessions| + n <= SCAN_LIMIT + 1
    ensures id in Run(s, calls).envelopes && Run(s, calls).envelopes[id].Active()
    ensures SameTerms(s.envelopes[id], Run(s, calls).envelopes[id])
    ensures |Run(s, calls).sessions| == |s.sessions| + n && NothingLive(Run(s, calls), id, now + n)
    decreases n
  {
    if n == 0 {
      calls := [];
    } else {
      var call := IssueAndWait(s, id, now);
      NextKeepsInv(s, call);
      var rest := IssueMany(Next(s, call), id, now + 1, n - 1);
      RunFirst(s, call, rest);
      calls := [call] + rest;
    }
  }

  /** Main result: an envelope with a field for everybody, issued one session more than a listing may return, each of
      them left to expire, is stuck long before its deadline. */
  lemma SaturationIsReachable() returns (calls: seq<Call>, now: int)
    ensures var s := Run(EMPTY, calls);
      Stuck(s, 0, now) && now < s.envelopes[0].expiresAt && EveryRoleHasAField(s.envelopes[0])
  {
    Prepared(true);
    PreparedEnvelope(true);
    var more := IssueMany(Dispatched(true), 0, 0, SCAN_LIMIT + 1);
    calls, now := Prepare(true) + more, SCAN_LIMIT + 1;
    RunThen(EMPTY, Prepare(true), more);
    SameRoles(Dispatched(true).envelopes[0], Run(Dispatched(true), more).envelopes[0]);
  }
}
