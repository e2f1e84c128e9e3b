/** The e-signature engine behind its idempotency receipts: what `executeEsignAction` does to a whole request
    history. */
module EsignRetries {
  import opened Esign
  import EsignRuns
  import R = Receipts

  /** What the server adds to each attempt: its clock, a fresh record id and a fresh session token. */
  datatype Env = Env(now: int, id: Id, token: Token)

  type Request = R.Request<Command, Env>

  /** The command an attempt runs: the caller's input, with the server's id and token filled in. */
  function Bind(c: Command, env: Env): Command {
    match c
    case CreateTemplate(_) => CreateTemplate(env.id)
    case CreateVersion(_, head, version, roles, fields, disclosure) =>
      CreateVersion(env.id, head, version, roles, fields, disclosure)
    case RegisterDocument(_, document) => RegisterDocument(env.id, document)
    case DraftEnvelope(_, template, document, hash, signers, expiresAt) =>
      DraftEnvelope(env.id, template, document, hash, signers, expiresAt)
    case Dispatch(envelope, version, preview, _) => Dispatch(envelope, version, preview, env.id)
    case IssueSession(envelope, version, signer, expiresAt, _, _) =>
      IssueSession(envelope, version, signer, expiresAt, env.token, env.id)
    case Complete(_, _, _, _, _, _) => c
    case Decline(envelope, version, signer, token, session, reason, _) =>
      Decline(envelope, version, signer, token, session, reason, env.id)
    case VoidEnvelope(envelope, version, reason, _) => VoidEnvelope(envelope, version, reason, env.id)
    case Remind(envelope, version, signer, notBefore, preview, _) =>
      Remind(envelope, version, signer, notBefore, preview, env.id)
    case Export(envelope, version, format, _) => Export(envelope, version, format, env.id)
    case Log(_) => c
  }

  ghost function Execute(s: Store, r: Request): R.Executed<Store> {
    match Step(s, r.env.now, Bind(r.input, r.env))
    case Refused(_) => R.Failed
    case Done(next) => R.Committed(next.(others := next.others + 1), [r.env.id])
  }

  ghost function EngineOf(approve: Request -> R.Approval): R.Engine<Store, Command, Env> {
    R.Engine((s, r) => Execute(s, r), approve)
  }

  ghost function History(approve: Request -> R.Approval, rs: seq<Request>): R.World<Store, Command> {
    R.Run(EngineOf(approve), R.World(EMPTY, []), rs)
  }

  /** Main result: whatever is sent, and however often, the store is that of a run with exactly one command per
      receipt. So all that holds of every run of commands holds under retries, and no retry runs a command a second
      time. */
  lemma {:induction false} OneCallPerReceipt(approve: Request -> R.Approval, rs: seq<Request>)
    returns (calls: seq<Call>)
    ensures History(approve, rs).store == Run(EMPTY, calls) && |calls| == |History(approve, rs).receipts|
  {
    if rs == [] {
      calls := [];
    } else {
      var before, last := rs[..|rs| - 1], rs[|rs| - 1];
      calls := OneCallPerReceipt(approve, before);
      assert rs == before + [last];
      LastRequest(approve, before, last);
      OneRequest(approve, History(approve, before), last);
      if |History(approve, rs).receipts| > |History(approve, before).receipts| {
        var call := Call(last.env.now, Bind(last.input, last.env));
        LastCall(EMPTY, calls, call);
        calls := calls + [call];
      }
    }
  }

  lemma OneRequest(approve: Request -> R.Approval, w: R.World<Store, Command>, r: Request)
    ensures var n := R.Handle(EngineOf(approve), w, r).0;
      if |n.receipts| > |w.receipts| then |n.receipts| == |w.receipts| + 1
        && n.store == Next(w.store, Call(r.env.now, Bind(r.input, r.env)))
      else n == w
  {
  }

  lemma RetriesKeepInv(approve: Request -> R.Approval, rs: seq<Request>)
    ensures EsignRuns.Inv(History(approve, rs).store)
  {
    var calls := OneCallPerReceipt(approve, rs);
    EsignRuns.RunsKeepInv(EMPTY, calls);
  }

  lemma LastRequest(approve: Request -> R.Approval, before: seq<Request>, last: Request)
    ensures History(approve, before + [last]) == R.Handle(EngineOf(approve), History(approve, before), last).0
  {
    R.RunOfTwo(EngineOf(approve), R.World(EMPTY, []), before, [last]);
    assert [last][1..] == [];
  }

  lemma LastCall(s: Store, calls: seq<Call>, last: Call)
    ensures Run(s, calls + [last]) == Next(Run(s, calls), last)
  {
    EsignRuns.RunThen(s, calls, [last]);
    assert [last][1..] == [];
  }

  /** A session token is handed out once: a retry of the same request, with a new clock, id and token, stores
      nothing. */
  lemma RetryStoresNothing(approve: Request -> R.Approval, before: seq<Request>, r: Request, between: seq<Request>,
      again: Request)
    requires R.Answered(R.Handle(EngineOf(approve), History(approve, before), r).1) && R.SameCommand(r, again)
    ensures History(approve, before + [r] + between + [again]) == History(approve, before + [r] + between)
  {
    R.RetryStutters(EngineOf(approve), R.World(EMPTY, []), before, r, between, again, []);
    assert before + [r] + between + [again] + [] == before + [r] + between + [again];
    assert before + [r] + between + [] == before + [r] + between;
  }
}
