// Sequential runs of the mutation pipeline: the trail's shape, its agreement with the
// store, and what a replayed key can do.
module ManagementRuns {
  import opened Seqs
  import opened AuditLog
  import opened PolicyRepository
  import opened Management

  // ----- one request -----

  // The store moves only inside a request whose intent row is already in the log, and
  // only under the revision that row names; at most the intent and one outcome row of
  // the same chain are written. Without a durable intent nothing happens at all.
  lemma ChangeFollowsIntent(s: State, r: Request)
    requires Sound(s.store)
    ensures var (t, resp) := Serve(s, r);
      && Sound(t.store) && s.log <= t.log && |t.log| <= |s.log| + 2
      && (|t.log| == |s.log| ==> t == s && resp.Refused? && (resp.status == 409 || resp.status == 503))
      && (|t.log| > |s.log| ==>
            && t.log[|s.log|] == Row(r, INTENT, ExpectedOf(r.verb)).(id := |s.log| + 1)
            && (|t.log| == |s.log| + 2 <==> !resp.Degraded?))
      && (|t.log| == |s.log| + 2 ==>
            && var out := t.log[|s.log| + 1];
            && IsTerminal(out) && out.correlationID == Correlation(r) && out.target == PolicyOf(r.verb)
            && (out.result == SUCCESS <==> resp.Accepted?))
      && (t.store != s.store ==>
            && |t.log| > |s.log|
            && RevisionOf(s.store, PolicyOf(r.verb)) == ExpectedOf(r.verb)
            && forall id :: Changed(s.store, t.store, id) ==> id == PolicyOf(r.verb))
  {
    CommitIsOneCall(s.store, r.verb, r.env.io);
    OneStep(s.store, CallOf(r.verb, r.env.io), PolicyOf(r.verb));
    var c := Apply(s.store, CallOf(r.verb, r.env.io));
    forall id | id != PolicyOf(r.verb) ensures !Changed(s.store, c.0, id) {
      OneStep(s.store, CallOf(r.verb, r.env.io), id);
    }
    SameUnlessChanged(s.store, c.0, PolicyOf(r.verb));
  }

  lemma SameUnlessChanged(s: Store, t: Store, id: string)
    requires forall o :: o != id ==> !Changed(s, t, o)
    ensures !Changed(s, t, id) ==> s == t
  {
    if !Changed(s, t, id) {
      forall o ensures (o in s <==> o in t) && (o in s ==> s[o] == t[o]) {
        assert !Changed(s, t, o);
      }
      assert s.Keys == t.Keys;
    }
  }

  // A request that moved the store settles as a success whose record is what is stored.
  lemma MovedMeansSettled(s: Store, r: Request)
    requires Sound(s)
    ensures var c := Commit(s, r.verb, r.env.io);
            var settled := Settle(c.0, r.verb, c.1, r.env);
      && (settled.Settles? ==> PolicyOf(r.verb) in c.0 && settled.record == c.0[PolicyOf(r.verb)])
      && (settled.Fails? ==> c.0 == s)
  {
    CommitIsOneCall(s, r.verb, r.env.io);
    if Commit(s, r.verb, r.env.io).1.Ok? {
      SuccessIsAChangeOrANoOp(s, CallOf(r.verb, r.env.io));
    }
  }

  // Two kinds of success store nothing: a create replayed with the same content, and a
  // transition to the state the policy is in.
  predicate WritesNothing(s: Store, r: Request) {
    match r.verb
    case Create(c) => c.policyID in s
    case Update(_, _) => false
    case Lifecycle(id, _, target) => id in s && s[id].status == target
  }

  // What the repository decides on the store as it is before the commit.
  function Decided(s: Store, r: Request): Result<PolicyRecord, Error> {
    match r.verb
    case Create(c) => SaveDecision(s, c, 0, r.env.io)
    case Update(rec, e) => SaveDecision(s, rec, e, r.env.io)
    case Lifecycle(id, e, t) => TransitionDecision(s, id, e, t, r.env.io)
  }

  // Whether a commit will move the store, told before it is tried.
  predicate WillMove(s: Store, r: Request) {
    Decided(s, r).Ok? && !WritesNothing(s, r) && r.env.io.writeOk
  }

  lemma MovesIff(s: Store, r: Request)
    requires Sound(s)
    ensures Commit(s, r.verb, r.env.io).0 != s <==> WillMove(s, r)
  {
    var id := PolicyOf(r.verb);
    if WillMove(s, r) {
      assert Commit(s, r.verb, r.env.io).0[id] == Decided(s, r).value;
      assert id in s ==> Decided(s, r).value.revision == s[id].revision + 1;
    }
  }

  // What a degraded answer claims. "NOT applied" is always true; "WAS applied" is true
  // exactly when the request was neither a replayed create nor a self-transition, for
  // which it is said although the store did not move.
  lemma DegradedClaim(s: State, r: Request)
    requires Sound(s.store) && Serve(s, r).1.Degraded?
    ensures var (t, resp) := Serve(s, r);
      && (!resp.applied ==> t.store == s.store)
      && (resp.applied ==> (t.store != s.store <==> !WritesNothing(s.store, r)))
  {
    MovedMeansSettled(s.store, r);
    CommitIsOneCall(s.store, r.verb, r.env.io);
    OneStep(s.store, CallOf(r.verb, r.env.io), PolicyOf(r.verb));
    if Commit(s.store, r.verb, r.env.io).1.Ok? {
      SuccessIsAChangeOrANoOp(s.store, CallOf(r.verb, r.env.io));
    }
  }

  // The false claim, on a fresh system: activating an active policy while the outcome
  // row is refused answers "WAS applied", and the store is what it was.
  lemma AppliedClaimCanBeFalse() returns (s: State, r: Request)
    ensures Sound(s.store) && Trail(s.log)
    ensures Serve(s, r).1 == Degraded(true) && Serve(s, r).0.store == s.store
  {
    s := State(map["p" := PolicyRecord("p", 2, Active, [], 1, 1, 1)], []);
    r := Request("operator", "", "id", Lifecycle("p", 2, Active), Env(true, true, IO(true, true, 1), true, true, false));
  }

  // ----- what an answer means -----

  // An accepted request left its policy as it asked: the requested rules, or the target
  // status. The record in the answer is the stored one, and 201 says it is new.
  lemma AcceptedMeans(s: State, r: Request)
    requires Sound(s.store) && Serve(s, r).1.Accepted?
    ensures var (t, resp) := Serve(s, r); var id := PolicyOf(r.verb);
      && id in t.store && resp.record == t.store[id]
      && resp.status == (if r.verb.Create? && id !in s.store then 201 else 200)
      && match r.verb
         case Create(c) => t.store[id].rules == c.rules && (id in s.store ==> t.store == s.store)
         case Update(c, e) => t.store[id].rules == c.rules && t.store[id].revision == e + 1 && RevisionOf(s.store, id) == e
         case Lifecycle(_, e, target) => id in s.store && t.store[id].status == target && t.store[id].rules == s.store[id].rules
                                         && s.store[id].revision == e
  {
    MovedMeansSettled(s.store, r);
    hide Sound;
  }

  // A create onto a policy that exists is accepted, as a replay, if and only if both reads
  // work and the stored rules are the requested ones, in the same order.
  lemma CreateReplayIff(s: State, r: Request)
    requires Sound(s.store) && r.verb.Create? && PolicyOf(r.verb) in s.store
    requires !Replayed(s.log, r) && r.env.intentOk && r.env.outcomeOk
    ensures Serve(s, r).1.Accepted? <==>
      SafeName(PolicyOf(r.verb)) && r.env.io.readOk && r.env.conflictReadOk
      && s.store[PolicyOf(r.verb)].rules == r.verb.candidate.rules
    ensures Serve(s, r).0.store == s.store
  {
  }

  // Why a request that reached the store was refused, read off its status and code.
  predicate Explains(s: Store, r: Request, status: nat, code: string) {
    var id, io := PolicyOf(r.verb), r.env.io;
    match code
    case "not_found" => status == 404 && !r.verb.Create? && id !in s && (r.verb.Update? ==> r.verb.expected > 0)
    case "revision_conflict" => status == 409 && id in s && s[id].revision != ExpectedOf(r.verb)
                                && (r.verb.Create? ==> r.env.conflictReadOk && s[id].rules != r.verb.candidate.rules)
    case "illegal_transition" =>
      if r.verb.Lifecycle? then status == 409 && (r.verb.target.Other? || (id in s && !Admitted(s[id].status, r.verb.target)))
      else status == 422 && r.verb.Update? && id in s && s[id].status != Draft
    case "invalid_request" => status == 422 && (!SafeName(id) || ExpectedOf(r.verb) < 0)
    case "internal_error" => status == 500 && SafeName(id) && (!io.readOk || !io.writeOk || !r.env.conflictReadOk)
    case _ => false
  }

  lemma RefusedMeans(s: State, r: Request)
    requires Sound(s.store) && Serve(s, r).1.Refused? && |Serve(s, r).0.log| == |s.log| + 2
    ensures Explains(s.store, r, Serve(s, r).1.status, Serve(s, r).1.code)
    ensures Serve(s, r).0.store == s.store
  {
    var c := Commit(s.store, r.verb, r.env.io);
    var settled := Settle(c.0, r.verb, c.1, r.env);
    assert settled.Fails?;
    MovedMeansSettled(s.store, r);
  }

  // What the outcome row carries: the stored revision, or -1 when a failure could not
  // observe it.
  lemma OutcomeRowTells(s: State, r: Request)
    requires Sound(s.store) && |Serve(s, r).0.log| == |s.log| + 2
    ensures var t := Serve(s, r).0; var out, id := t.log[|s.log| + 1], PolicyOf(r.verb);
      && out.actor == r.actor && out.operation == t.log[|s.log|].operation == OPERATION
      && out.action == t.log[|s.log|].action == ActionOf(r.verb)
      && out.revision == if out.result == SUCCESS || (SafeName(id) && r.env.observeReadOk && id in t.store)
                         then RevisionOf(t.store, id) else REVISION_UNKNOWN
  {
    MovedMeansSettled(s.store, r);
  }

  // ----- agreement of log and store -----

  // The revision of the newest success row of a policy.
  function NewestSuccess(log: seq<AuditEvent>, id: string): Option<int> {
    if log == [] then None
    else
      var e := log[|log| - 1];
      if e.target == id && e.result == SUCCESS then Some(e.revision) else NewestSuccess(log[..|log| - 1], id)
  }

  function Stored(s: Store, id: string): Option<int> {
    if id in s then Some(s[id].revision) else None
  }

  ghost predicate Agrees(s: State) {
    forall id :: NewestSuccess(s.log, id) == Stored(s.store, id)
  }

  lemma NewestOfAppended(log: seq<AuditEvent>, e: AuditEvent, id: string)
    ensures NewestSuccess(Appended(log, e), id)
         == if e.target == id && e.result == SUCCESS then Some(e.revision) else NewestSuccess(log, id)
  {
    assert Appended(log, e)[..|log|] == log;
  }

  // The one request that breaks it, recognised before it is served: the guard lets it
  // through, its intent is recorded, its commit will move the store, and its outcome row
  // will be refused.
  predicate WillBreakAgreement(s: State, r: Request) {
    !Replayed(s.log, r) && r.env.intentOk && WillMove(s.store, r) && !r.env.outcomeOk
  }

  // From agreement, a request leads to agreement if and only if it is not that one.
  lemma AgreementKeptIff(s: State, r: Request)
    requires Sound(s.store) && Agrees(s)
    ensures Agrees(Serve(s, r).0) <==> !WillBreakAgreement(s, r)
  {
    MovesIff(s.store, r);
    if Serve(s, r).0 != s {
      MovedMeansSettled(s.store, r);
      ChangeFollowsIntent(s, r);
      var noted := Appended(s.log, Row(r, INTENT, ExpectedOf(r.verb)));
      var c := Commit(s.store, r.verb, r.env.io);
      var settled := Settle(c.0, r.verb, c.1, r.env);
      var id := PolicyOf(r.verb);
      forall o ensures NewestSuccess(noted, o) == Stored(s.store, o) {
        NewestOfAppended(s.log, Row(r, INTENT, ExpectedOf(r.verb)), o);
      }
      hide Settle, Commit, Sound;
      if r.env.outcomeOk {
        OutcomeAgrees(s, r);
      } else if c.0 != s.store {
        LostOutcomeDisagrees(s, r);
      }
    }
  }

  lemma OutcomeAgrees(s: State, r: Request)
    requires Sound(s.store) && !Replayed(s.log, r) && r.env.intentOk && r.env.outcomeOk
    requires forall o :: NewestSuccess(Appended(s.log, Row(r, INTENT, ExpectedOf(r.verb))), o) == Stored(s.store, o)
    ensures Agrees(Serve(s, r).0)
  {
    MovedMeansSettled(s.store, r);
    ChangeFollowsIntent(s, r);
    var noted := Appended(s.log, Row(r, INTENT, ExpectedOf(r.verb)));
    var c := Commit(s.store, r.verb, r.env.io);
    var settled := Settle(c.0, r.verb, c.1, r.env);
    hide Settle, Commit, Sound, NewestSuccess;
    forall o ensures NewestSuccess(Serve(s, r).0.log, o) == Stored(c.0, o) {
      assert !Changed(s.store, c.0, o) ==> Stored(s.store, o) == Stored(c.0, o);
      match settled
      case Settles(_, rec) => NewestOfAppended(noted, Row(r, SUCCESS, rec.revision), o);
      case Fails(_, _, actual) => NewestOfAppended(noted, Row(r, FAILURE, actual), o);
    }
  }

  lemma LostOutcomeDisagrees(s: State, r: Request)
    requires Sound(s.store) && !Replayed(s.log, r) && r.env.intentOk && !r.env.outcomeOk
    requires Commit(s.store, r.verb, r.env.io).0 != s.store
    requires forall o :: NewestSuccess(Appended(s.log, Row(r, INTENT, ExpectedOf(r.verb))), o) == Stored(s.store, o)
    ensures !Agrees(Serve(s, r).0)
  {
    var id := PolicyOf(r.verb);
    ChangeFollowsIntent(s, r);
    CommitIsOneCall(s.store, r.verb, r.env.io);
    OneStep(s.store, CallOf(r.verb, r.env.io), id);
    SameUnlessChanged(s.store, Commit(s.store, r.verb, r.env.io).0, id);
    hide Settle, Commit, Apply, NewestSuccess;
    assert NewestSuccess(Serve(s, r).0.log, id) != Stored(Serve(s, r).0.store, id);
  }

  // ----- the shape of the trail -----

  // A terminal row directly follows its own intent row.
  predicate Paired(log: seq<AuditEvent>) {
    forall t :: 0 <= t < |log| && IsTerminal(log[t]) ==>
      t > 0 && log[t - 1].result == INTENT && log[t - 1].correlationID == log[t].correlationID
      && log[t - 1].target == log[t].target
  }

  // The rows the pipeline writes: intents, and terminal rows each directly behind its own.
  predicate Regular(log: seq<AuditEvent>) {
    Paired(log) && forall k :: 0 <= k < |log| ==> log[k].result == INTENT || IsTerminal(log[k])
  }

  // A terminal row is the last word of its chain.
  predicate LastWord(log: seq<AuditEvent>) {
    forall k, t :: 0 <= k < |log| && 0 <= t < |log| && IsTerminal(log[t]) && log[k].correlationID == log[t].correlationID ==>
      k <= t
  }

  ghost predicate Trail(log: seq<AuditEvent>) {
    Numbered(log) && Paired(log) && LastWord(log)
  }

  predicate HasOutcome(log: seq<AuditEvent>, correlationID: string) {
    exists e :: e in log && e.correlationID == correlationID && IsTerminal(e)
  }

  // The newest row of a chain is the newest row of the log with that id.
  lemma {:induction false} ChainEnd(log: seq<AuditEvent>, c: string) returns (k: int)
    ensures Chain(log, c) == [] ==> k == -1
    ensures Chain(log, c) != [] ==> 0 <= k < |log| && log[k] == Chain(log, c)[|Chain(log, c)| - 1] && log[k].correlationID == c
    ensures forall j :: k < j < |log| ==> log[j].correlationID != c
  {
    if log == [] {
      k := -1;
    } else if log[|log| - 1].correlationID == c {
      k := |log| - 1;
    } else {
      k := ChainEnd(log[..|log| - 1], c);
      forall j | k < j < |log| ensures log[j].correlationID != c {
        if j < |log| - 1 {
          assert log[j] == log[..|log| - 1][j];
        }
      }
    }
  }

  // The rows of a chain written behind its newest terminal row; all of them when it
  // has none.
  function RowsBehind(rows: seq<AuditEvent>): nat {
    if rows == [] || IsTerminal(rows[|rows| - 1]) then 0 else RowsBehind(rows[..|rows| - 1]) + 1
  }

  lemma {:induction false} TailOfRows(rows: seq<AuditEvent>, n: nat)
    ensures HasTerminalOutcome(LastN(rows, n)) <==> HasTerminalOutcome(rows) && RowsBehind(rows) < n
  {
    if rows != [] && n > 0 {
      var init, last := rows[..|rows| - 1], rows[|rows| - 1];
      TailOfRows(init, n - 1);
      assert rows == init + [last] && LastN(rows, n) == LastN(init, n - 1) + [last];
      OutcomeOfSnoc(init, last);
      OutcomeOfSnoc(LastN(init, n - 1), last);
    }
  }

  lemma OutcomeOfSnoc(rows: seq<AuditEvent>, e: AuditEvent)
    ensures HasTerminalOutcome(rows + [e]) <==> HasTerminalOutcome(rows) || IsTerminal(e)
  {
    var all := rows + [e];
    assert e in all;
    if HasTerminalOutcome(rows) {
      var o :| o in rows && IsTerminal(o);
      assert o in all;
    }
  }

  lemma OutcomeInChain(log: seq<AuditEvent>, c: string)
    ensures HasTerminalOutcome(Chain(log, c)) <==> HasOutcome(log, c)
  {
    FilterMembers(log, (e: AuditEvent) => e.correlationID == c);
    if HasOutcome(log, c) {
      var e :| e in log && e.correlationID == c && IsTerminal(e);
      assert e in Chain(log, c);
    }
  }

  // What the four newest rows of a chain tell, on any log: that it has an outcome,
  // unless four rows or more were written behind the newest one.
  lemma TailTellsIff(log: seq<AuditEvent>, c: string)
    ensures HasTerminalOutcome(LastN(Chain(log, c), TAIL_DEPTH))
        <==> HasOutcome(log, c) && RowsBehind(Chain(log, c)) < TAIL_DEPTH
  {
    OutcomeInChain(log, c);
    TailOfRows(Chain(log, c), TAIL_DEPTH);
  }

  // Where a terminal row is the last word of its chain, they tell all.
  lemma TailTellsAll(log: seq<AuditEvent>, c: string)
    requires LastWord(log)
    ensures HasTerminalOutcome(LastN(Chain(log, c), TAIL_DEPTH)) <==> HasOutcome(log, c)
  {
    TailTellsIff(log, c);
    if HasOutcome(log, c) {
      OutcomeInChain(log, c);
      var k := ChainEnd(log, c);
      var e :| e in log && e.correlationID == c && IsTerminal(e);
      var t :| 0 <= t < |log| && log[t] == e;
      assert k == t;
    }
  }

  // A request whose guard can read the trail and whose generated id is new.
  predicate Orderly(log: seq<AuditEvent>, r: Request) {
    && r.env.guardReadOk
    && (r.supplied == "" ==> forall e :: e in log ==> e.correlationID != r.generated)
  }

  lemma OpenChain(log: seq<AuditEvent>, r: Request)
    requires LastWord(log) && Orderly(log, r) && !Replayed(log, r)
    ensures !HasOutcome(log, Correlation(r))
  {
    if r.supplied != "" {
      TailTellsAll(log, r.supplied);
    }
  }

  lemma NotingKeepsTrail(log: seq<AuditEvent>, r: Request)
    requires Trail(log) && !HasOutcome(log, Correlation(r))
    ensures Trail(Appended(log, Row(r, INTENT, ExpectedOf(r.verb))))
    ensures !HasOutcome(Appended(log, Row(r, INTENT, ExpectedOf(r.verb))), Correlation(r))
  {
    var l := Appended(log, Row(r, INTENT, ExpectedOf(r.verb)));
    assert forall t :: 0 <= t < |log| ==> l[t] == log[t] && l[t] in log;
    assert !IsTerminal(l[|log|]);
  }

  lemma NotingKeepsPaired(log: seq<AuditEvent>, r: Request)
    requires Regular(log)
    ensures Regular(Appended(log, Row(r, INTENT, ExpectedOf(r.verb))))
  {
    var l := Appended(log, Row(r, INTENT, ExpectedOf(r.verb)));
    assert forall t :: 0 <= t < |log| ==> l[t] == log[t] && log[t] in log;
    assert !IsTerminal(l[|log|]);
  }

  lemma OutcomeKeepsPaired(log: seq<AuditEvent>, e: AuditEvent)
    requires Paired(log) && IsTerminal(e)
    requires log != [] && log[|log| - 1].result == INTENT
    requires log[|log| - 1].correlationID == e.correlationID && log[|log| - 1].target == e.target
    ensures Paired(Appended(log, e))
    ensures Regular(log) ==> Regular(Appended(log, e))
  {
    TerminalIgnoresId(e, |log| + 1);
    hide IsTerminal;
    var l := Appended(log, e);
    assert forall t :: 0 <= t < |log| ==> l[t] == log[t] && log[t] in log;
    assert l[|log|] == e.(id := |log| + 1);
    forall t | 0 <= t < |l| && IsTerminal(l[t])
      ensures t > 0 && l[t - 1].result == INTENT && l[t - 1].correlationID == l[t].correlationID && l[t - 1].target == l[t].target
    {
      if t < |log| {
        assert IsTerminal(log[t]);
      }
    }
  }

  lemma OutcomeKeepsTrail(log: seq<AuditEvent>, e: AuditEvent)
    requires Trail(log) && IsTerminal(e) && !HasOutcome(log, e.correlationID)
    requires log != [] && log[|log| - 1].result == INTENT
    requires log[|log| - 1].correlationID == e.correlationID && log[|log| - 1].target == e.target
    ensures Trail(Appended(log, e))
  {
    OutcomeIsLastWord(log, e);
    OutcomeKeepsPaired(log, e);
    hide LastWord, IsTerminal, Paired;
  }

  lemma TerminalIgnoresId(e: AuditEvent, id: int)
    ensures IsTerminal(e.(id := id)) == IsTerminal(e)
  {
  }

  lemma OutcomeIsLastWord(log: seq<AuditEvent>, e: AuditEvent)
    requires LastWord(log) && IsTerminal(e) && !HasOutcome(log, e.correlationID)
    ensures LastWord(Appended(log, e))
  {
    var l := Appended(log, e);
    forall k, t | 0 <= k < |l| && 0 <= t < |l| && IsTerminal(l[t]) && l[k].correlationID == l[t].correlationID ensures k <= t {
      if t < |log| {
        assert l[t] == log[t] && log[t] in log;
        assert l[k].correlationID != e.correlationID;
        assert k < |log| && l[k] == log[k];
      }
    }
  }

  // One request keeps the rows regular, whatever the guard could read.
  lemma ServeKeepsRegular(s: State, r: Request)
    requires Regular(s.log)
    ensures Regular(Serve(s, r).0.log)
  {
    if !Replayed(s.log, r) && r.env.intentOk {
      NotingKeepsPaired(s.log, r);
      var noted := Appended(s.log, Row(r, INTENT, ExpectedOf(r.verb)));
      var c := Commit(s.store, r.verb, r.env.io);
      var settled := Settle(c.0, r.verb, c.1, r.env);
      hide Settle, Commit;
      match settled
      case Settles(_, rec) => OutcomeKeepsPaired(noted, Row(r, SUCCESS, rec.revision));
      case Fails(_, _, actual) => OutcomeKeepsPaired(noted, Row(r, FAILURE, actual));
    }
  }

  lemma ServeKeepsTrail(s: State, r: Request)
    requires Sound(s.store) && Trail(s.log) && Orderly(s.log, r)
    ensures Trail(Serve(s, r).0.log)
  {
    if !Replayed(s.log, r) && r.env.intentOk {
      OpenChain(s.log, r);
      NotingKeepsTrail(s.log, r);
      var noted := Appended(s.log, Row(r, INTENT, ExpectedOf(r.verb)));
      var c := Commit(s.store, r.verb, r.env.io);
      var settled := Settle(c.0, r.verb, c.1, r.env);
      hide Trail, HasOutcome, Settle, Commit;
      match settled
      case Settles(_, rec) => OutcomeKeepsTrail(noted, Row(r, SUCCESS, rec.revision));
      case Fails(_, _, actual) => OutcomeKeepsTrail(noted, Row(r, FAILURE, actual));
    }
  }

  // ----- runs -----

  function Run(s: State, rs: seq<Request>): State
    decreases |rs|
  {
    if rs == [] then s else Run(Serve(s, rs[0]).0, rs[1..])
  }

  ghost predicate OrderlyRun(s: State, rs: seq<Request>)
    decreases |rs|
  {
    rs == [] || (Orderly(s.log, rs[0]) && OrderlyRun(Serve(s, rs[0]).0, rs[1..]))
  }

  lemma {:induction false} RunKeepsTrail(s: State, rs: seq<Request>)
    requires Sound(s.store) && Trail(s.log) && OrderlyRun(s, rs)
    ensures Sound(Run(s, rs).store) && Trail(Run(s, rs).log)
    decreases |rs|
  {
    if rs != [] {
      ServeKeepsTrail(s, rs[0]);
      ChangeFollowsIntent(s, rs[0]);
      hide Serve, Sound, Trail;
      RunKeepsTrail(Serve(s, rs[0]).0, rs[1..]);
    }
  }

  lemma {:induction false} RunKeepsRegular(s: State, rs: seq<Request>)
    requires Regular(s.log)
    ensures Regular(Run(s, rs).log)
    decreases |rs|
  {
    if rs != [] {
      ServeKeepsRegular(s, rs[0]);
      hide Serve, Regular;
      RunKeepsRegular(Serve(s, rs[0]).0, rs[1..]);
    }
  }

  // From empty stores, over any run whose outcome appends succeed, every policy's newest
  // success row carries its stored revision, and policies without one do not exist.
  // Intent appends, reads and repository writes may fail as they please.
  lemma {:induction false} LogAgreesWithStore(s: State, rs: seq<Request>)
    requires Sound(s.store) && Agrees(s)
    requires forall r :: r in rs ==> r.env.outcomeOk
    ensures Agrees(Run(s, rs))
    decreases |rs|
  {
    if rs != [] {
      assert rs[0] in rs;
      AgreementKeptIff(s, rs[0]);
      ChangeFollowsIntent(s, rs[0]);
      assert !Serve(s, rs[0]).1.Degraded?;
      hide Serve, Sound, Agrees;
      LogAgreesWithStore(Serve(s, rs[0]).0, rs[1..]);
    }
  }

  lemma EmptyAgrees()
    ensures Agrees(State(map[], [])) && Sound(map[]) && Trail([])
  {
  }

  // A key whose outcome the guard can see is spent: over any run in which the requests
  // under it can read its tail, its chain never grows again, and each of them is refused
  // without touching store or log. Requests under other keys may fail as they please.
  lemma {:induction false} SpentKeysStaySpent(s: State, rs: seq<Request>, key: string)
    requires Sound(s.store) && key != "" && HasOutcome(s.log, key) && RowsBehind(Chain(s.log, key)) < TAIL_DEPTH
    requires forall r :: r in rs && Correlation(r) == key ==> r.supplied == key && r.env.guardReadOk
    ensures Chain(Run(s, rs).log, key) == Chain(s.log, key) && HasOutcome(Run(s, rs).log, key)
    decreases |rs|
  {
    if rs != [] {
      var r := rs[0];
      assert r in rs;
      ChangeFollowsIntent(s, r);
      SpentKeyIsRefused(s, r, key);
      hide Serve, Sound, HasOutcome, Chain, RowsBehind;
      SpentKeysStaySpent(Serve(s, r).0, rs[1..], key);
    }
  }

  lemma SpentKeyIsRefused(s: State, r: Request, key: string)
    requires Sound(s.store) && key != "" && HasOutcome(s.log, key) && RowsBehind(Chain(s.log, key)) < TAIL_DEPTH
    requires Correlation(r) == key ==> r.supplied == key && r.env.guardReadOk
    ensures Correlation(r) == key ==> Serve(s, r) == (s, Refused(409, "replay_conflict"))
    ensures HasOutcome(Serve(s, r).0.log, key) && Chain(Serve(s, r).0.log, key) == Chain(s.log, key)
  {
    TailTellsIff(s.log, key);
    if Correlation(r) != key {
      OtherChainsUntouched(s, r, key);
    }
  }

  lemma OtherChainsUntouched(s: State, r: Request, key: string)
    requires Sound(s.store) && Correlation(r) != key
    ensures Chain(Serve(s, r).0.log, key) == Chain(s.log, key)
    ensures HasOutcome(s.log, key) ==> HasOutcome(Serve(s, r).0.log, key)
  {
    ChangeFollowsIntent(s, r);
    var t := Serve(s, r).0;
    hide Serve, Sound;
    var more := t.log[|s.log|..];
    assert t.log == s.log + more;
    assert forall x :: x in more ==> x.correlationID != key;
    FilterConcat(s.log, more, (x: AuditEvent) => x.correlationID == key);
    FilterNone(more, (x: AuditEvent) => x.correlationID == key);
    assert Chain(s.log, key) + [] == Chain(s.log, key);
    assert forall x :: x in s.log ==> x in t.log;
  }

  // The guard stops a request exactly when it can read the tail of the supplied key and
  // fewer than four rows of that key follow its newest outcome: an unreadable tail is
  // taken for an empty one, and an outcome further back is not seen.
  lemma GuardStopsIff(s: State, r: Request)
    requires r.supplied != ""
    ensures Serve(s, r) == (s, Refused(409, "replay_conflict"))
        <==> r.env.guardReadOk && HasOutcome(s.log, r.supplied) && RowsBehind(Chain(s.log, r.supplied)) < TAIL_DEPTH
  {
    TailTellsIff(s.log, r.supplied);
    if !Replayed(s.log, r) && r.env.intentOk {
      var c := Commit(s.store, r.verb, r.env.io);
      assert |Serve(s, r).0.log| > |s.log|;
    }
  }

  // ----- how an outcome is buried -----

  lemma ChainOfAppended(log: seq<AuditEvent>, e: AuditEvent, c: string)
    ensures Chain(Appended(log, e), c) == Chain(log, c) + if e.correlationID == c then [e.(id := |log| + 1)] else []
    ensures HasOutcome(Appended(log, e), c) <==> HasOutcome(log, c) || (e.correlationID == c && IsTerminal(e))
  {
    var l := Appended(log, e);
    assert l[..|log|] == log;
    OutcomeInChain(l, c);
    OutcomeInChain(log, c);
    hide HasOutcome, HasTerminalOutcome;
    if e.correlationID == c {
      TerminalIgnoresId(e, |log| + 1);
      OutcomeOfSnoc(Chain(log, c), e.(id := |log| + 1));
    } else {
      assert Chain(log, c) + [] == Chain(log, c);
    }
  }

  lemma RowsBehindOfAppended(log: seq<AuditEvent>, e: AuditEvent, c: string)
    ensures RowsBehind(Chain(Appended(log, e), c))
         == if e.correlationID != c then RowsBehind(Chain(log, c))
            else if IsTerminal(e) then 0 else RowsBehind(Chain(log, c)) + 1
  {
    ChainOfAppended(log, e, c);
    TerminalIgnoresId(e, |log| + 1);
    var rows := Chain(log, c) + [e.(id := |log| + 1)];
    hide Chain, IsTerminal;
    assert rows[..|Chain(log, c)|] == Chain(log, c);
    assert Chain(log, c) + [] == Chain(log, c);
  }

  // One request, seen from one key: nothing moves when its intent was not recorded or
  // carries another id; a recorded outcome is the newest row; an intent whose outcome
  // row is refused goes on top of whatever outcome the key has.
  lemma RowsBehindStep(s: State, r: Request, key: string)
    requires Sound(s.store)
    ensures var t := Serve(s, r).0; var mine := |t.log| > |s.log| && Correlation(r) == key;
      && RowsBehind(Chain(t.log, key))
         == (if !mine then RowsBehind(Chain(s.log, key))
             else if r.env.outcomeOk then 0 else RowsBehind(Chain(s.log, key)) + 1)
      && (HasOutcome(t.log, key) <==> HasOutcome(s.log, key) || (mine && r.env.outcomeOk))
  {
    if !Replayed(s.log, r) && r.env.intentOk {
      var e := Row(r, INTENT, ExpectedOf(r.verb));
      var noted := Appended(s.log, e);
      RowsBehindOfAppended(s.log, e, key);
      ChainOfAppended(s.log, e, key);
      assert !IsTerminal(e);
      var c := Commit(s.store, r.verb, r.env.io);
      var settled := Settle(c.0, r.verb, c.1, r.env);
      hide Settle, Commit, RowsBehind, Chain, HasOutcome;
      if r.env.outcomeOk {
        var o := match settled
          case Settles(_, rec) => Row(r, SUCCESS, rec.revision)
          case Fails(_, _, actual) => Row(r, FAILURE, actual);
        RowsBehindOfAppended(noted, o, key);
        ChainOfAppended(noted, o, key);
      }
    }
  }

  // A request under the key that passes because its guard read fails, and leaves a
  // dangling intent because its outcome row is refused.
  predicate Blind(r: Request, key: string) {
    r.supplied == key && !r.env.guardReadOk && r.env.intentOk && !r.env.outcomeOk
  }

  lemma {:induction false} BlindRequestsBury(s: State, rs: seq<Request>, key: string)
    requires Sound(s.store) && key != "" && forall r :: r in rs ==> Blind(r, key)
    ensures RowsBehind(Chain(Run(s, rs).log, key)) == RowsBehind(Chain(s.log, key)) + |rs|
    ensures HasOutcome(Run(s, rs).log, key) <==> HasOutcome(s.log, key)
    ensures s.log <= Run(s, rs).log
    decreases |rs|
  {
    if rs != [] {
      assert Blind(rs[0], key);
      ChangeFollowsIntent(s, rs[0]);
      RowsBehindStep(s, rs[0], key);
      assert |Serve(s, rs[0]).0.log| > |s.log|;
      hide Serve, Sound, RowsBehind, Chain, HasOutcome;
      BlindRequestsBury(Serve(s, rs[0]).0, rs[1..], key);
    }
  }

  // A request whose outcome row was just recorded: its key has an outcome and nothing
  // behind it.
  lemma OutcomeJustRecorded(s: State, r: Request)
    requires Sound(s.store) && !Replayed(s.log, r) && r.env.intentOk && r.env.outcomeOk
    ensures var log := Serve(s, r).0.log;
      && Sound(Serve(s, r).0.store)
      && s.log <= log && |log| == |s.log| + 2
      && log[|s.log|].result == INTENT && IsTerminal(log[|s.log| + 1])
      && log[|s.log|].correlationID == log[|s.log| + 1].correlationID == Correlation(r)
      && HasOutcome(log, Correlation(r)) && RowsBehind(Chain(log, Correlation(r))) == 0
  {
    ChangeFollowsIntent(s, r);
    assert |Serve(s, r).0.log| > |s.log|;
    RowsBehindStep(s, r, Correlation(r));
  }

  lemma RunOfCons(s: State, r: Request, rs: seq<Request>)
    ensures Run(s, [r] + rs) == Run(Serve(s, r).0, rs)
  {
    hide Serve;
    assert ([r] + rs)[1..] == rs;
  }

  // A key whose outcome was just recorded, and then n blind requests under it: the next
  // request under it is stopped exactly when its tail can be read and n is less than four.
  lemma BuriedOutcomeIff(s: State, first: Request, blind: seq<Request>, next: Request)
    requires Sound(s.store) && first.supplied == next.supplied != ""
    requires !Replayed(s.log, first) && first.env.intentOk && first.env.outcomeOk
    requires forall r :: r in blind ==> Blind(r, first.supplied)
    ensures var t := Run(s, [first] + blind);
      && HasOutcome(t.log, next.supplied)
      && (Serve(t, next) == (t, Refused(409, "replay_conflict")) <==> next.env.guardReadOk && |blind| < TAIL_DEPTH)
  {
    hide Serve, Sound, RowsBehind, Chain, HasOutcome, Run, Replayed;
    OutcomeJustRecorded(s, first);
    BlindRequestsBury(Serve(s, first).0, blind, first.supplied);
    RunOfCons(s, first, blind);
    GuardStopsIff(Run(s, [first] + blind), next);
  }
}
