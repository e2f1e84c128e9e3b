/** `locked`: a mutex per key made of promise chains, as a state machine over every interleaving.
    A call registers its tail synchronously, waits for the tail before it, runs, and in its `finally`
    block opens its gate and drops the map entry if the entry is still its own. Each of the three parts
    runs without yielding, so each is one event. */
module PromiseLock {
  import opened Options

  type Key = string
  type CallId = nat

  /** `Released`: the gate is open, whether the work returned or threw. */
  datatype Phase = Waiting | Running | Released

  /** `previous` is the call whose tail this one waits for; none if the map held no entry. */
  datatype Call = Call(key: Key, previous: Option<CallId>, phase: Phase)

  datatype State = State(calls: seq<Call>, locks: map<Key, CallId>)

  datatype Event = Arrive(key: Key) | Start(id: CallId) | Finish(id: CallId)

  const INITIAL := State([], map[])

  /** A tail resolves once the tail before it has resolved and its own gate is open. */
  predicate TailResolved(calls: seq<Call>, id: CallId)
    requires id < |calls|
  {
    && calls[id].phase.Released?
    && match calls[id].previous
       case None => true
       case Some(p) => p < id && TailResolved(calls, p)
  }

  predicate Enabled(s: State, e: Event) {
    match e
    case Arrive(_) => true
    case Start(id) =>
      && id < |s.calls| && s.calls[id].phase.Waiting?
      && (match s.calls[id].previous case None => true case Some(p) => p < |s.calls| && TailResolved(s.calls, p))
    case Finish(id) => id < |s.calls| && s.calls[id].phase.Running?
  }

  function Apply(s: State, e: Event): State
    requires Enabled(s, e)
  {
    match e
    case Arrive(key) =>
      var previous := if key in s.locks then Some(s.locks[key]) else None;
      State(s.calls + [Call(key, previous, Waiting)], s.locks[key := |s.calls|])
    case Start(id) => State(s.calls[id := s.calls[id].(phase := Running)], s.locks)
    case Finish(id) =>
      var key := s.calls[id].key;
      State(s.calls[id := s.calls[id].(phase := Released)],
            if key in s.locks && s.locks[key] == id then map k | k in s.locks && k != key :: s.locks[k] else s.locks)
  }

  // ---------------------------------------------------------------- invariant

  ghost predicate Chained(s: State) {
    forall j :: 0 <= j < |s.calls| ==>
      match s.calls[j].previous
      case Some(p) =>
        p < j && s.calls[p].key == s.calls[j].key && forall k :: p < k < j ==> s.calls[k].key != s.calls[j].key
      case None => forall k :: 0 <= k < j && s.calls[k].key == s.calls[j].key ==> s.calls[k].phase.Released?
  }

  ghost predicate InOrder(s: State) {
    forall i, j :: 0 <= i < j < |s.calls| && s.calls[i].key == s.calls[j].key && !s.calls[j].phase.Waiting? ==>
      s.calls[i].phase.Released?
  }

  /** The map holds exactly the keys with unfinished calls, each with its last call. */
  ghost predicate EntryIsLast(s: State) {
    && (forall k :: k in s.locks ==>
          && s.locks[k] < |s.calls| && s.calls[s.locks[k]].key == k && !s.calls[s.locks[k]].phase.Released?
          && forall j :: s.locks[k] < j < |s.calls| ==> s.calls[j].key != k)
    && forall i :: 0 <= i < |s.calls| && s.calls[i].key !in s.locks ==> s.calls[i].phase.Released?
  }

  ghost predicate Inv(s: State) {
    Chained(s) && InOrder(s) && EntryIsLast(s)
  }

  lemma {:induction false} ResolvedMeansAllReleased(s: State, id: CallId)
    requires Chained(s) && id < |s.calls| && TailResolved(s.calls, id)
    ensures forall k :: 0 <= k <= id && s.calls[k].key == s.calls[id].key ==> s.calls[k].phase.Released?
  {
    match s.calls[id].previous
    case None =>
    case Some(p) => ResolvedMeansAllReleased(s, p);
  }

  lemma {:induction false} AllReleasedMeansResolved(s: State, id: CallId)
    requires Chained(s) && id < |s.calls|
    requires forall k :: 0 <= k <= id && s.calls[k].key == s.calls[id].key ==> s.calls[k].phase.Released?
    ensures TailResolved(s.calls, id)
  {
    match s.calls[id].previous
    case None =>
    case Some(p) => AllReleasedMeansResolved(s, p);
  }

  /** A waiting call may go exactly when every earlier call on its key has been released. */
  lemma StartEnabledIffHead(s: State, id: CallId)
    requires Inv(s) && id < |s.calls| && s.calls[id].phase.Waiting?
    ensures Enabled(s, Start(id)) <==> forall k :: 0 <= k < id && s.calls[k].key == s.calls[id].key ==>
      s.calls[k].phase.Released?
  {
    match s.calls[id].previous
    case None =>
    case Some(p) =>
      if Enabled(s, Start(id)) { ResolvedMeansAllReleased(s, p); }
      if forall k :: 0 <= k < id && s.calls[k].key == s.calls[id].key ==> s.calls[k].phase.Released? {
        AllReleasedMeansResolved(s, p);
      }
  }

  lemma ArriveKeepsInv(s: State, key: Key)
    requires Inv(s)
    ensures Inv(Apply(s, Arrive(key)))
  {
  }

  lemma StartKeepsInv(s: State, id: CallId)
    requires Inv(s) && Enabled(s, Start(id))
    ensures Inv(Apply(s, Start(id)))
  {
    StartEnabledIffHead(s, id);
    StartKeepsOrder(s, Apply(s, Start(id)), id);
  }

  lemma StartKeepsOrder(s: State, n: State, id: CallId)
    requires Inv(s) && id < |s.calls| && s.calls[id].phase.Waiting?
    requires forall k :: 0 <= k < id && s.calls[k].key == s.calls[id].key ==> s.calls[k].phase.Released?
    requires n == State(s.calls[id := s.calls[id].(phase := Running)], s.locks)
    ensures Inv(n)
  {
    assert |n.calls| == |s.calls| && forall k :: 0 <= k < |n.calls| ==>
      n.calls[k].key == s.calls[k].key && n.calls[k].previous == s.calls[k].previous;
    assert forall k :: 0 <= k < |n.calls| ==> (n.calls[k].phase.Released? <==> s.calls[k].phase.Released?);
  }

  lemma FinishKeepsInv(s: State, id: CallId)
    requires Inv(s) && Enabled(s, Finish(id))
    ensures Inv(Apply(s, Finish(id)))
  {
  }

  lemma EventKeepsInv(s: State, e: Event)
    requires Inv(s) && Enabled(s, e)
    ensures Inv(Apply(s, e))
  {
    match e
    case Arrive(key) => ArriveKeepsInv(s, key);
    case Start(id) => StartKeepsInv(s, id);
    case Finish(id) => FinishKeepsInv(s, id);
  }

  // ------------------------------------------------------------- whole traces

  ghost predicate Trace(states: seq<State>, events: seq<Event>) {
    && |states| == |events| + 1 && states[0] == INITIAL
    && forall n :: 0 <= n < |events| ==> Steps(states[n], events[n], states[n + 1])
  }

  ghost predicate Steps(s: State, e: Event, next: State) {
    Enabled(s, e) && next == Apply(s, e)
  }

  lemma {:induction false} TraceKeepsInv(states: seq<State>, events: seq<Event>, n: nat)
    requires Trace(states, events) && n < |states|
    ensures Inv(states[n])
  {
    if n > 0 {
      TraceKeepsInv(states, events, n - 1);
      assert Steps(states[n - 1], events[n - 1], states[n]);
      EventKeepsInv(states[n - 1], events[n - 1]);
    }
  }

  function Rank(p: Phase): nat {
    match p case Waiting => 0 case Running => 1 case Released => 2
  }

  /** Calls keep their key and only move forward through their phases. */
  lemma {:induction false} PhasesAdvance(states: seq<State>, events: seq<Event>, m: nat, n: nat, id: CallId)
    requires Trace(states, events) && m <= n < |states| && id < |states[m].calls|
    ensures id < |states[n].calls| && states[n].calls[id].key == states[m].calls[id].key
    ensures Rank(states[m].calls[id].phase) <= Rank(states[n].calls[id].phase)
    decreases n
  {
    if m < n {
      PhasesAdvance(states, events, m, n - 1, id);
      assert Steps(states[n - 1], events[n - 1], states[n]);
    }
  }

  /** Main result: under every interleaving, at most one call per key runs at a time. */
  lemma MutualExclusion(states: seq<State>, events: seq<Event>, n: nat, i: CallId, j: CallId)
    requires Trace(states, events) && n < |states|
    requires i < |states[n].calls| && j < |states[n].calls| && states[n].calls[i].key == states[n].calls[j].key
    requires states[n].calls[i].phase.Running? && states[n].calls[j].phase.Running?
    ensures i == j
  {
    TraceKeepsInv(states, events, n);
  }

  /** Main result: calls on one key start in the order they were made, each at most once, and a later one
      starts only after the earlier one has been released. */
  lemma FirstComeFirstServed(states: seq<State>, events: seq<Event>, m: nat, n: nat, i: CallId, j: CallId)
    requires Trace(states, events) && m < n < |events|
    requires events[m] == Start(i) && events[n] == Start(j)
    requires i < |states[n].calls| && j < |states[n].calls| && states[n].calls[i].key == states[n].calls[j].key
    ensures i < j && states[n].calls[i].phase.Released?
  {
    assert Steps(states[m], events[m], states[m + 1]) && Steps(states[n], events[n], states[n + 1]);
    PhasesAdvance(states, events, m + 1, n, i);
    TraceKeepsInv(states, events, n);
    StartEnabledIffHead(states[n], j);
  }

  /** Main result: the lock never sticks. If calls wait on a key and none runs, the longest-waiting one is enabled. */
  lemma NeverSticks(states: seq<State>, events: seq<Event>, n: nat, key: Key) returns (head: CallId)
    requires Trace(states, events) && n < |states|
    requires exists i ::
      0 <= i < |states[n].calls| && states[n].calls[i].key == key && states[n].calls[i].phase.Waiting?
    requires forall i :: 0 <= i < |states[n].calls| && states[n].calls[i].key == key ==>
      !states[n].calls[i].phase.Running?
    ensures Enabled(states[n], Start(head)) && states[n].calls[head].key == key
    ensures forall i :: 0 <= i < head && states[n].calls[i].key == key ==> !states[n].calls[i].phase.Waiting?
  {
    TraceKeepsInv(states, events, n);
    var s := states[n];
    head :| 0 <= head < |s.calls| && s.calls[head].key == key && s.calls[head].phase.Waiting?;
    head := FirstWaiting(s, key, head);
    StartEnabledIffHead(s, head);
  }

  lemma {:induction false} FirstWaiting(s: State, key: Key, i: CallId) returns (head: CallId)
    requires i < |s.calls| && s.calls[i].key == key && s.calls[i].phase.Waiting?
    ensures head <= i && s.calls[head].key == key && s.calls[head].phase.Waiting?
    ensures forall k :: 0 <= k < head && s.calls[k].key == key ==> !s.calls[k].phase.Waiting?
  {
    head := i;
    if exists k :: 0 <= k < i && s.calls[k].key == key && s.calls[k].phase.Waiting? {
      var k :| 0 <= k < i && s.calls[k].key == key && s.calls[k].phase.Waiting?;
      head := FirstWaiting(s, key, k);
    }
  }

  /** Main result: an entry is present exactly while its key has an unreleased call, and then it is the last
      call's; so an entry is deleted only when nothing is queued behind it. */
  lemma EntryExactlyWhileInUse(states: seq<State>, events: seq<Event>, n: nat, key: Key)
    requires Trace(states, events) && n < |states|
    ensures var s := states[n];
      key in s.locks <==> exists i :: 0 <= i < |s.calls| && s.calls[i].key == key && !s.calls[i].phase.Released?
    ensures var s := states[n];
      key in s.locks ==> forall i :: 0 <= i < |s.calls| && s.calls[i].key == key ==> i <= s.locks[key]
  {
    TraceKeepsInv(states, events, n);
  }

  /** Call `i` is as before, or the event moved it on: a start from waiting to running, a finish to released. */
  ghost predicate MovedOn(s: State, e: Event, n: State, i: CallId)
    requires i < |s.calls|
  {
    && i < |n.calls| && n.calls[i].key == s.calls[i].key
    && if e == Start(i) then s.calls[i].phase.Waiting? && n.calls[i].phase.Running?
       else if e == Finish(i) then s.calls[i].phase.Running? && n.calls[i].phase.Released?
       else n.calls[i].phase == s.calls[i].phase
  }

  /** An arrival adds one waiting call; the other events move one call on. */
  lemma EventMoves(s: State, e: Event)
    requires Enabled(s, e)
    ensures var n := Apply(s, e);
      && (forall i :: 0 <= i < |s.calls| ==> MovedOn(s, e, n, i))
      && if e.Arrive? then |n.calls| == |s.calls| + 1 && n.calls[|s.calls|].key == e.key
           && n.calls[|s.calls|].phase.Waiting?
         else |n.calls| == |s.calls|
  {
  }

  /** The call started before event `n`, and if it is released it had also finished since. */
  ghost predicate Started(events: seq<Event>, n: nat, id: CallId) {
    exists a :: 0 <= a < n && a < |events| && events[a] == Start(id)
  }

  ghost predicate RanToTheEnd(events: seq<Event>, n: nat, id: CallId) {
    exists b :: 0 <= b < n && b < |events| && events[b] == Finish(id) && Started(events, b, id)
  }

  /** Main result: whoever runs was started, and whoever is released was started and then finished; a gate is opened
      in no other way. */
  lemma {:induction false} ReleasedHaveRun(states: seq<State>, events: seq<Event>, n: nat, id: CallId)
    requires Trace(states, events) && n < |states| && id < |states[n].calls|
    ensures states[n].calls[id].phase.Running? ==> Started(events, n, id)
    ensures states[n].calls[id].phase.Released? ==> RanToTheEnd(events, n, id)
    decreases n
  {
    if n > 0 {
      var s, e := states[n - 1], events[n - 1];
      assert Steps(s, e, states[n]);
      EventMoves(s, e);
      if id < |s.calls| {
        assert MovedOn(s, e, states[n], id);
        ReleasedHaveRun(states, events, n - 1, id);
      }
    }
  }

  // ----------------------------------------------------- the module-level map

  class LockTable {
    var locks: map<Key, CallId>
    var calls: seq<Call>

    constructor ()
      ensures Valid() && View() == INITIAL
    {
      locks, calls := map[], [];
    }

    function View(): State
      reads this
    {
      State(calls, locks)
    }

    /** The map says which calls are still queued, and they are served in order. */
    ghost predicate Valid()
      reads this
    {
      Inv(View())
    }

    /** Up to `await previous`. */
    method Enter(key: Key) returns (id: CallId)
      requires Valid()
      modifies this
      ensures View() == Apply(old(View()), Arrive(key)) && id == |old(calls)|
      ensures Valid() && id < |calls| && calls[id].phase.Waiting? && key in locks && locks[key] == id
    {
      ArriveKeepsInv(View(), key);
      var previous := if key in locks then Some(locks[key]) else None;
      id := |calls|;
      calls := calls + [Call(key, previous, Waiting)];
      locks := locks[key := id];
    }

    /** `previous` has resolved and the work begins. */
    method Begin(id: CallId)
      requires Valid() && Enabled(View(), Start(id))
      modifies this
      ensures View() == Apply(old(View()), Start(id))
      ensures Valid() && id < |calls|
      ensures forall k :: 0 <= k < |calls| && calls[k].key == calls[id].key && calls[k].phase.Running? ==> k == id
    {
      StartKeepsInv(View(), id);
      calls := calls[id := calls[id].(phase := Running)];
    }

    /** The `finally` block: the entry survives exactly when a later call on the key is queued. */
    method Leave(id: CallId)
      requires Valid() && Enabled(View(), Finish(id))
      modifies this
      ensures View() == Apply(old(View()), Finish(id))
      ensures Valid() && id < |calls|
      ensures calls[id].key in locks <==> exists k :: id < k < |calls| && calls[k].key == calls[id].key
    {
      FinishKeepsInv(View(), id);
      var key := calls[id].key;
      calls := calls[id := calls[id].(phase := Released)];
      if key in locks && locks[key] == id {
        locks := map k | k in locks && k != key :: locks[k];
      }
    }
  }
}
