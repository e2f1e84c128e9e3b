/** FairLaunch contests: registration, consent, review, freezing of the candidate list and the draw. */
module Contest {
  import opened Options
  import opened DrawSampling
  import opened Sorting

  type Id = nat
  type Key = string
  type Code = string
  /** What a referral code is cut from: contest and participant key. Collisions are possible and checked for. */
  type CodeOf = (Id, Key) -> Code

  const ADMINISTRATION := "contest-administration"
  const MAX_CAP := 20

  datatype ContestState = Draft | Published | DrawFrozen | Drawn
  /** The digest of a contest's rules, kept as the text it digests. */
  datatype Rules = Rules(text: string, closesAt: int, policy: string, cap: nat)
  datatype Contest = Contest(state: ContestState, rules: Rules, entropyCommitment: string, version: nat,
      snapshotId: Option<Id>, proofId: Option<Id>)
  datatype EntryState = Eligible | Excluded | Revoked
  datatype Entry = Entry(contestId: Id, key: Key, code: Code, state: EntryState, referrer: Option<Id>, receiptId: Id,
      weight: int, revokedAt: Option<int>, version: nat)
  datatype Receipt = Granted | Withdrawn
  datatype Decision = Decision(id: Id, entryId: Id, reviewed: set<Id>, at: int)
  datatype Candidate = Candidate(entryId: Id, weight: nat, decisionId: Option<Id>, receiptId: Id)
  /** The candidates' digest, kept as the list it digests. */
  datatype Snapshot = Snapshot(contestId: Id, candidates: seq<Candidate>, entropyCommitment: string, frozen: bool)
  datatype Proof = Proof(contestId: Id, snapshotId: Id, winner: Id, selectedIndex: nat, counter: nat)

  datatype World = World(contests: map<Id, Contest>, entries: map<Id, Entry>, receipts: map<Id, Receipt>,
      signals: map<Id, Id>, decisions: seq<Decision>, snapshots: map<Id, Snapshot>, proofs: map<Id, Proof>)

  const EMPTY := World(map[], map[], map[], map[], [], map[], map[])

  datatype Command =
    | Create(id: Id, rules: Rules, entropyCommitment: string)
    | Publish(contestId: Id, rulesHash: Rules, expectedVersion: nat)
    | Register(contestId: Id, policy: string, purposes: set<string>, capturedAt: int, key: Key, referral: Option<Code>,
               receiptId: Id, entryId: Id)
    | Revoke(entryId: Id)
    | RaiseSignal(entryId: Id, signalId: Id)
    | Decide(entryId: Id, expectedVersion: nat, reviewed: set<Id>, eligible: bool, decisionId: Id)
    | Freeze(contestId: Id, expectedVersion: nat, snapshotId: Id)
    | Reveal(snapshotId: Id, entropy: string, samples: nat -> Sample, proofId: Id)

  datatype Refusal = NotFound | IdTaken | BadRules | Stale | NotOpen | BadConsent | AlreadyEntered | CodeCollision
                   | NoReferrer | AlreadyRevoked | DrawFixed | WrongSignal | NotClosed | Unreviewed | NoCandidates
                   | NotUndrawn | WrongEntropy | Drifted | NoDraw
  datatype Outcome = Done(world: World) | Refused(reason: Refusal)

  // ---------------------------------------------------------------- candidates

  /** Of several decisions on one entry the latest counts; equal times go by record id. */
  function Latest(decisions: seq<Decision>, entryId: Id): Option<Decision> {
    if decisions == [] then None
    else
      var d, rest := decisions[|decisions| - 1], Latest(decisions[..|decisions| - 1], entryId);
      if d.entryId != entryId then rest
      else if rest.None? || d.at > rest.value.at || (d.at == rest.value.at && d.id > rest.value.id) then Some(d)
      else rest
  }

  function Entrants(s: World, contestId: Id): set<Id> {
    set id | id in s.entries && s.entries[id].contestId == contestId
  }

  predicate Resolved(s: World, signalId: Id, entryId: Id) {
    exists d :: d in s.decisions && d.entryId == entryId && signalId in d.reviewed
  }

  predicate AllReviewed(s: World, contestId: Id) {
    forall g :: g in s.signals && s.signals[g] in Entrants(s, contestId) ==> Resolved(s, g, s.signals[g])
  }

  predicate InDraw(s: World, id: Id, contestId: Id) {
    && id in s.entries && s.entries[id].contestId == contestId && s.entries[id].state.Eligible?
    && s.entries[id].revokedAt.None?
    && s.entries[id].receiptId in s.receipts && s.receipts[s.entries[id].receiptId].Granted?
  }

  function Clamp(weight: int, cap: nat): (w: nat)
    ensures 1 <= w <= 1 + cap
  {
    if weight < 1 then 1 else if weight > 1 + cap then 1 + cap else weight
  }

  function CandidateOf(s: World, id: Id, cap: nat): Candidate {
    if id !in s.entries then Candidate(id, 1, None, 0)
    else
      var e := s.entries[id];
      var d := Latest(s.decisions, id);
      Candidate(id, Clamp(e.weight, cap), if d.Some? then Some(d.value.id) else None, e.receiptId)
  }

  function InDrawIds(s: World, contestId: Id): set<Id> {
    set id | id in s.entries && InDraw(s, id, contestId)
  }

  /** `drawCandidates`, when it does not stop. */
  function Candidates(s: World, contestId: Id, cap: nat): (r: seq<Candidate>)
    ensures |r| == |Ascending(InDrawIds(s, contestId))|
  {
    var ids := Ascending(InDrawIds(s, contestId));
    seq(|ids|, i requires 0 <= i < |ids| => CandidateOf(s, ids[i], cap))
  }

  function Weights(cs: seq<Candidate>): seq<nat> {
    seq(|cs|, i requires 0 <= i < |cs| => cs[i].weight)
  }

  // ------------------------------------------------------------------ commands

  ghost predicate IsReferrer(s: World, contestId: Id, code: Code, id: Id) {
    id in s.entries && s.entries[id].contestId == contestId && s.entries[id].code == code
      && s.entries[id].state.Eligible?
  }

  ghost function FindReferrer(s: World, contestId: Id, referral: Option<Code>): (r: Option<Id>)
    ensures r.Some? ==> referral.Some? && IsReferrer(s, contestId, referral.value, r.value)
    ensures r.None? && referral.Some? ==> forall id :: !IsReferrer(s, contestId, referral.value, id)
  {
    if referral.Some? && exists id :: IsReferrer(s, contestId, referral.value, id) then
      var id :| IsReferrer(s, contestId, referral.value, id);
      Some(id)
    else None
  }

  function Reward(entries: map<Id, Entry>, referrer: Option<Id>, cap: nat): map<Id, Entry> {
    if referrer.None? || referrer.value !in entries || cap == 0 then entries
    else
      var e := entries[referrer.value];
      entries[referrer.value :=
        e.(weight := if e.weight + 1 > 1 + cap then 1 + cap else e.weight + 1, version := e.version + 1)]
  }

  function TakeBack(entries: map<Id, Entry>, referrer: Option<Id>): map<Id, Entry> {
    if referrer.None? || referrer.value !in entries then entries
    else
      var e := entries[referrer.value];
      entries[referrer.value := e.(weight := if e.weight - 1 < 1 then 1 else e.weight - 1, version := e.version + 1)]
  }

  ghost function StepCreate(s: World, now: int, c: Command): Outcome
    requires c.Create?
  {
    if c.rules.cap > MAX_CAP || c.rules.closesAt <= now then Refused(BadRules)
    else if c.id in s.contests then Refused(IdTaken)
    else Done(s.(contests := s.contests[c.id := Contest(Draft, c.rules, c.entropyCommitment, 1, None, None)]))
  }

  ghost function StepPublish(s: World, now: int, c: Command): Outcome
    requires c.Publish?
  {
    if c.contestId !in s.contests then Refused(NotFound)
    else
      var k := s.contests[c.contestId];
      if c.expectedVersion != k.version then Refused(Stale)
      else if !k.state.Draft? || k.rules != c.rulesHash || k.rules.closesAt <= now then Refused(NotOpen)
      else Done(s.(contests := s.contests[c.contestId := k.(state := Published, version := k.version + 1)]))
  }

  // `v` is what the command's listings show of the store `s`.

  ghost function StepRegister(code: CodeOf, s: World, v: World, now: int, c: Command): Outcome
    requires c.Register?
  {
    if c.contestId !in s.contests then Refused(NotFound)
    else
      var k := s.contests[c.contestId];
      var mine := code(c.contestId, c.key);
      var referrer := FindReferrer(v, c.contestId, c.referral);
      if !k.state.Published? || k.snapshotId.Some? || k.rules.closesAt <= now then Refused(NotOpen)
      else if c.policy != k.rules.policy || ADMINISTRATION !in c.purposes || c.capturedAt > now then Refused(BadConsent)
      else if exists id | id in Entrants(v, c.contestId) :: v.entries[id].key == c.key && !v.entries[id].state.Revoked?
      then Refused(AlreadyEntered)
      else if exists id :: id in Entrants(v, c.contestId) && v.entries[id].code == mine then Refused(CodeCollision)
      else if c.referral.Some? && referrer.None? then Refused(NoReferrer)
      else if c.receiptId in s.receipts || c.entryId in s.entries then Refused(IdTaken)
      else
        var entry := Entry(c.contestId, c.key, mine, Eligible, referrer, c.receiptId, 1, None, 1);
        Done(s.(receipts := s.receipts[c.receiptId := Granted],
                entries := Reward(s.entries[c.entryId := entry], referrer, k.rules.cap)))
  }

  ghost function StepRevoke(s: World, now: int, c: Command): Outcome
    requires c.Revoke?
  {
    if c.entryId !in s.entries || s.entries[c.entryId].contestId !in s.contests then Refused(NotFound)
    else
      var e := s.entries[c.entryId];
      var k := s.contests[e.contestId];
      var undrawn := k.proofId.None?;
      if e.state.Revoked? then Refused(AlreadyRevoked)
      else if undrawn && k.snapshotId.Some? && k.snapshotId.value !in s.snapshots then Refused(NotFound)
      else
        var entries := s.entries[c.entryId :=
          e.(state := Revoked, revokedAt := Some(now), weight := 0, version := e.version + 1)];
        var invalidates := undrawn && k.snapshotId.Some?;
        Done(s.(entries := if undrawn then TakeBack(entries, e.referrer) else entries,
                receipts := s.receipts[e.receiptId := Withdrawn],
                snapshots :=
                  if invalidates then
                    s.snapshots[k.snapshotId.value := s.snapshots[k.snapshotId.value].(frozen := false)]
                  else s.snapshots,
                contests :=
                  if invalidates then
                    s.contests[e.contestId := k.(state := Published, snapshotId := None, version := k.version + 1)]
                  else s.contests))
  }

  ghost function StepSignal(s: World, c: Command): Outcome
    requires c.RaiseSignal?
  {
    if c.entryId !in s.entries then Refused(NotFound)
    else if c.signalId in s.signals then Refused(IdTaken)
    else Done(s.(signals := s.signals[c.signalId := c.entryId]))
  }

  ghost function StepDecide(s: World, now: int, c: Command): Outcome
    requires c.Decide?
  {
    if c.entryId !in s.entries || s.entries[c.entryId].contestId !in s.contests then Refused(NotFound)
    else
      var e := s.entries[c.entryId];
      if s.contests[e.contestId].snapshotId.Some? then Refused(DrawFixed)
      else if c.expectedVersion != e.version then Refused(Stale)
      else if exists g :: g in c.reviewed && (g !in s.signals || s.signals[g] != c.entryId) then Refused(WrongSignal)
      else if exists d :: d in s.decisions && d.id == c.decisionId then Refused(IdTaken)
      else
        var weight := if !c.eligible then 0 else if e.weight < 1 then 1 else e.weight;
        Done(s.(decisions := s.decisions + [Decision(c.decisionId, c.entryId, c.reviewed, now)],
                entries := s.entries[c.entryId :=
                  e.(state := if c.eligible then Eligible else Excluded, weight := weight, version := e.version + 1)]))
  }

  ghost function StepFreeze(s: World, v: World, now: int, c: Command): Outcome
    requires c.Freeze?
  {
    if c.contestId !in s.contests then Refused(NotFound)
    else
      var k := s.contests[c.contestId];
      var candidates := Candidates(v, c.contestId, k.rules.cap);
      if c.expectedVersion != k.version then Refused(Stale)
      else if !k.state.Published? || k.snapshotId.Some? || k.rules.closesAt > now then Refused(NotClosed)
      else if !AllReviewed(v, c.contestId) then Refused(Unreviewed)
      else if candidates == [] then Refused(NoCandidates)
      else if c.snapshotId in s.snapshots then Refused(IdTaken)
      else
        var snapshot := Snapshot(c.contestId, candidates, k.entropyCommitment, true);
        Done(s.(snapshots := s.snapshots[c.snapshotId := snapshot],
                contests := s.contests[c.contestId :=
                  k.(state := DrawFrozen, snapshotId := Some(c.snapshotId), version := k.version + 1)]))
  }

  ghost function StepReveal(s: World, v: World, c: Command): Outcome
    requires c.Reveal?
  {
    if c.snapshotId !in s.snapshots || s.snapshots[c.snapshotId].contestId !in s.contests then Refused(NotFound)
    else
      var snapshot := s.snapshots[c.snapshotId];
      var k := s.contests[snapshot.contestId];
      var candidates := Candidates(v, snapshot.contestId, k.rules.cap);
      var draw := DrawOf(c.samples, Weights(candidates));
      if !k.state.DrawFrozen? || k.snapshotId != Some(c.snapshotId) || k.proofId.Some? then Refused(NotUndrawn)
      else if c.entropy != snapshot.entropyCommitment then Refused(WrongEntropy)
      else if !AllReviewed(v, snapshot.contestId) then Refused(Unreviewed)
      else if candidates == [] then Refused(NoCandidates)
      else if candidates != snapshot.candidates then Refused(Drifted)
      else if !draw.Selected? then Refused(NoDraw)
      else if c.proofId in s.proofs then Refused(IdTaken)
      else
        var proof := Proof(snapshot.contestId, c.snapshotId, candidates[draw.position].entryId, draw.selectedIndex,
          draw.counter);
        Done(s.(proofs := s.proofs[c.proofId := proof],
                contests := s.contests[snapshot.contestId := k.(state := Drawn, proofId := Some(c.proofId),
                  version := k.version + 1)]))
  }

  ghost function StepSeeing(code: CodeOf, s: World, v: World, now: int, c: Command): Outcome {
    match c
    case Create(_, _, _) => StepCreate(s, now, c)
    case Publish(_, _, _) => StepPublish(s, now, c)
    case Register(_, _, _, _, _, _, _, _) => StepRegister(code, s, v, now, c)
    case Revoke(_) => StepRevoke(s, now, c)
    case RaiseSignal(_, _) => StepSignal(s, c)
    case Decide(_, _, _, _, _) => StepDecide(s, now, c)
    case Freeze(_, _, _) => StepFreeze(s, v, now, c)
    case Reveal(_, _, _, _) => StepReveal(s, v, c)
  }

  ghost function Step(code: CodeOf, s: World, now: int, c: Command): Outcome {
    StepSeeing(code, s, s, now, c)
  }

  ghost function After(code: CodeOf, s: World, now: int, c: Command): World {
    match Step(code, s, now, c) case Done(next) => next case Refused(_) => s
  }

  /** A command and the server clock it ran at. */
  datatype Call = Call(now: int, command: Command)

  ghost function Run(code: CodeOf, s: World, calls: seq<Call>): World
    decreases |calls|
  {
    if calls == [] then s else Run(code, After(code, s, calls[0].now, calls[0].command), calls[1..])
  }
}
