// The mutation pipeline: replay guard, durable intent, one compare-and-swap, durable
// outcome. The pipeline owns the order; a verb supplies the one commit.
module Management {
  import opened Seqs
  import opened AuditLog
  import opened PolicyRepository

  const INTENT := "intent"
  const SUCCESS := "success"
  const FAILURE := "failure"
  const OPERATION := "policy-management"
  const REVISION_UNKNOWN := -1
  const TAIL_DEPTH: nat := 4

  datatype Verb =
    | Create(candidate: PolicyRecord)
    | Update(rec: PolicyRecord, expected: int)
    | Lifecycle(id: string, expected: int, target: Status)

  function PolicyOf(v: Verb): string {
    match v
    case Create(c) => c.policyID
    case Update(r, _) => r.policyID
    case Lifecycle(id, _, _) => id
  }

  function ExpectedOf(v: Verb): int {
    if v.Create? then 0 else v.expected
  }

  function ActionOf(v: Verb): string {
    match v
    case Create(_) => "policy.create"
    case Update(_, _) => "policy.update"
    case Lifecycle(_, _, t) =>
      if t == Active then "policy.activate" else if t == Archived then "policy.archive" else "policy.deactivate"
  }

  // The audit action tells apart every kind of mutation.
  lemma ActionsTellVerbs(v: Verb, w: Verb)
    requires v.Lifecycle? ==> !v.target.Other?
    requires w.Lifecycle? ==> !w.target.Other?
    ensures ActionOf(v) == ActionOf(w) <==>
      (v.Create? && w.Create?) || (v.Update? && w.Update?) || (v.Lifecycle? && w.Lifecycle? && v.target == w.target)
    ensures v.Create? ==> ActionOf(v) == "policy.create"
    ensures v.Lifecycle? ==> (v.target == Active <==> ActionOf(v) == "policy.activate")
                             && (v.target == Archived <==> ActionOf(v) == "policy.archive")
  {
    var names := ["policy.create", "policy.update", "policy.activate", "policy.archive", "policy.deactivate"];
    assert names[0][7] == 'c' && names[1][7] == 'u' && names[2][7] == 'a' && names[3][7] == 'a' && names[4][7] == 'd';
    assert names[2][8] == 'c' && names[3][8] == 'r';
  }

  function Commit(s: Store, v: Verb, io: IO): (Store, Result<PolicyRecord, Error>) {
    match v
    case Create(c) => Save(s, c, 0, io)
    case Update(r, e) => Save(s, r, e, io)
    case Lifecycle(id, e, t) => Transition(s, id, e, t, io)
  }

  // A commit is one call of the repository's histories.
  function CallOf(v: Verb, io: IO): Call {
    match v
    case Create(c) => SaveCall(c, 0, io)
    case Update(r, e) => SaveCall(r, e, io)
    case Lifecycle(id, e, t) => TransitionCall(id, e, t, io)
  }

  lemma CommitIsOneCall(s: Store, v: Verb, io: IO)
    requires Sound(s)
    ensures Commit(s, v, io) == Apply(s, CallOf(v, io)) && Sound(Commit(s, v, io).0)
  {
    OneStep(s, CallOf(v, io), PolicyOf(v));
  }

  // What the stores do during one request.
  datatype Env = Env(guardReadOk: bool, intentOk: bool, io: IO, conflictReadOk: bool, observeReadOk: bool, outcomeOk: bool)

  // supplied is the trimmed Idempotency-Key, "" when absent; generated is the generated id.
  datatype Request = Request(actor: string, supplied: string, generated: string, verb: Verb, env: Env)

  datatype Response =
    | Accepted(status: nat, record: PolicyRecord)
    | Refused(status: nat, code: string)
    // the outcome row could not be written; applied is what the message claims
    | Degraded(applied: bool)

  datatype State = State(store: Store, log: seq<AuditEvent>)

  predicate IsTerminal(e: AuditEvent) {
    e.result == SUCCESS || e.result == FAILURE
  }

  predicate HasTerminalOutcome(rows: seq<AuditEvent>) {
    exists e :: e in rows && IsTerminal(e)
  }

  function Row(r: Request, result: string, revision: int): AuditEvent {
    AuditEvent(0, r.actor, OPERATION, ActionOf(r.verb), PolicyOf(r.verb), result, revision, Correlation(r))
  }

  function Correlation(r: Request): string {
    if r.supplied != "" then r.supplied else r.generated
  }

  function Appended(log: seq<AuditEvent>, e: AuditEvent): seq<AuditEvent> {
    log + [e.(id := |log| + 1)]
  }

  // The guard reads the newest rows of the supplied key's chain; a failed read is
  // taken for an empty chain.
  predicate Replayed(log: seq<AuditEvent>, r: Request) {
    r.supplied != "" && r.env.guardReadOk && HasTerminalOutcome(LastN(Chain(log, r.supplied), TAIL_DEPTH))
  }

  // How a commit settles: as a success row with its record, or a failure row.
  datatype Settled =
    | Settles(status: nat, record: PolicyRecord)
    | Fails(status: nat, code: string, actual: int)

  function ErrorStatus(v: Verb, e: Error): (nat, string) {
    match e
    case NotFound => (404, "not_found")
    case RevisionConflict => (409, "revision_conflict")
    case IllegalTransition => (if v.Lifecycle? then 409 else 422, "illegal_transition")
    case InvalidID => (422, "invalid_request")
    case StoreFailure => (500, "internal_error")
  }

  function Observed(s: Store, id: string, readOk: bool): int {
    match Read(s, id, readOk)
    case Ok(Some(rec)) => rec.revision
    case _ => REVISION_UNKNOWN
  }

  // Only a create that ran into an existing policy can still be a success: the same
  // content was stored before, and nothing is written now.
  function Settle(s: Store, v: Verb, result: Result<PolicyRecord, Error>, env: Env): Settled {
    match result
    case Ok(rec) => Settles(if v.Create? then 201 else 200, rec)
    case Err(e) =>
      var plain := Fails(ErrorStatus(v, e).0, ErrorStatus(v, e).1, Observed(s, PolicyOf(v), env.observeReadOk));
      if !(e == RevisionConflict && v.Create?) then plain
      else
        match Read(s, v.candidate.policyID, env.conflictReadOk)
        case Err(_) => plain.(status := 500, code := "internal_error")
        case Ok(None) => plain
        case Ok(Some(existing)) => if SameContent(existing, v.candidate) then Settles(200, existing) else plain
  }

  function Serve(s: State, r: Request): (State, Response) {
    if Replayed(s.log, r) then (s, Refused(409, "replay_conflict"))
    else if !r.env.intentOk then (s, Refused(503, "audit_unavailable"))
    else
      var noted := Appended(s.log, Row(r, INTENT, ExpectedOf(r.verb)));
      var c := Commit(s.store, r.verb, r.env.io);
      var settled := Settle(c.0, r.verb, c.1, r.env);
      if !r.env.outcomeOk then (State(c.0, noted), Degraded(settled.Settles?))
      else
        match settled
        case Settles(status, rec) => (State(c.0, Appended(noted, Row(r, SUCCESS, rec.revision))), Accepted(status, rec))
        case Fails(status, code, actual) => (State(c.0, Appended(noted, Row(r, FAILURE, actual))), Refused(status, code))
  }

  class Server {
    const repo: FileRepository
    const audit: MemAuditStore

    function Current(): State
      reads repo, audit
    {
      State(repo.files, audit.items)
    }

    ghost predicate Valid()
      reads repo, audit
    {
      audit.Valid() && Sound(repo.files)
    }

    constructor (f: FileRepository, a: MemAuditStore)
      requires a.Valid() && Sound(f.files)
      ensures Valid() && repo == f && audit == a
    {
      repo, audit := f, a;
    }

    method CommitVerb(v: Verb, io: IO) returns (result: Result<PolicyRecord, Error>)
      requires Valid()
      modifies repo
      ensures Sound(repo.files) && (repo.files, result) == Commit(old(repo.files), v, io)
    {
      CommitIsOneCall(repo.files, v, io);
      match v
      case Create(c) => result := repo.CompareAndSave(c, 0, io);
      case Update(rec, e) => result := repo.CompareAndSave(rec, e, io);
      case Lifecycle(id, e, t) => result := repo.CompareAndTransition(id, e, t, io);
    }

    method FinishSuccess(r: Request, rec: PolicyRecord, status: nat) returns (resp: Response)
      requires audit.Valid()
      modifies audit
      ensures audit.Valid()
      ensures audit.items == if r.env.outcomeOk then Appended(old(audit.items), Row(r, SUCCESS, rec.revision))
                             else old(audit.items)
      ensures resp == if r.env.outcomeOk then Accepted(status, rec) else Degraded(true)
    {
      var ok := audit.Append(Row(r, SUCCESS, rec.revision), r.env.outcomeOk);
      return if ok then Accepted(status, rec) else Degraded(true);
    }

    method FinishFailure(r: Request, e: Error) returns (resp: Response)
      requires audit.Valid()
      modifies audit
      ensures audit.Valid()
      ensures var s := Settle(repo.files, r.verb, Err(e), r.env);
        && audit.items == (if !r.env.outcomeOk then old(audit.items)
             else if s.Settles? then Appended(old(audit.items), Row(r, SUCCESS, s.record.revision))
             else Appended(old(audit.items), Row(r, FAILURE, s.actual)))
        && resp == (if !r.env.outcomeOk then Degraded(s.Settles?)
             else if s.Settles? then Accepted(s.status, s.record) else Refused(s.status, s.code))
    {
      var apiErr := ErrorStatus(r.verb, e);
      if e == RevisionConflict && r.verb.Create? {
        var got := repo.Get(r.verb.candidate.policyID, r.env.conflictReadOk);
        if got.Ok? && got.value.Some? && SameContent(got.value.value, r.verb.candidate) {
          resp := FinishSuccess(r, got.value.value, 200);
          return;
        }
        if got.Err? {
          apiErr := (500, "internal_error");
        }
      }
      var seen := repo.Get(PolicyOf(r.verb), r.env.observeReadOk);
      var actual := if seen.Ok? && seen.value.Some? then seen.value.value.revision else REVISION_UNKNOWN;
      var ok := audit.Append(Row(r, FAILURE, actual), r.env.outcomeOk);
      return if ok then Refused(apiErr.0, apiErr.1) else Degraded(false);
    }

    method ServeMutation(r: Request) returns (resp: Response)
      requires Valid()
      modifies repo, audit
      ensures Valid()
      ensures (Current(), resp) == Serve(old(Current()), r)
    {
      if r.supplied != "" && r.env.guardReadOk {
        var tail := audit.ListByCorrelation(r.supplied, TAIL_DEPTH);
        ReverseMembers(LastN(Chain(audit.items, r.supplied), TAIL_DEPTH));
        if HasTerminalOutcome(tail) {
          return Refused(409, "replay_conflict");
        }
      }
      var noted := audit.Append(Row(r, INTENT, ExpectedOf(r.verb)), r.env.intentOk);
      if !noted {
        return Refused(503, "audit_unavailable");
      }
      var result := CommitVerb(r.verb, r.env.io);
      if result.Err? {
        resp := FinishFailure(r, result.error);
      } else {
        resp := FinishSuccess(r, result.value, if r.verb.Create? then 201 else 200);
      }
    }
  }

  lemma ReverseMembers(rows: seq<AuditEvent>)
    ensures HasTerminalOutcome(Reverse(rows)) <==> HasTerminalOutcome(rows)
  {
    forall e ensures e in Reverse(rows) <==> e in rows {
      if e in rows {
        var i :| 0 <= i < |rows| && rows[i] == e;
        assert Reverse(rows)[|rows| - 1 - i] == e;
      }
    }
  }
}
