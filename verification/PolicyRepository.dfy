// The policy store: one record per policy id, changed only by two compare-and-swap
// calls, each of which reads, checks, and publishes one whole record.
module PolicyRepository {
  import opened Seqs
  import Governance

  datatype Status = Draft | Active | Archived | Other(name: string)

  // Times are nanoseconds; 0 is the zero time.
  datatype PolicyRecord = PolicyRecord(
    policyID: string, revision: int, status: Status, rules: seq<Governance.Rule>,
    createdAt: int, updatedAt: int, activatedAt: int)

  datatype Error = InvalidID | NotFound | RevisionConflict | IllegalTransition | StoreFailure

  type Store = map<string, PolicyRecord>

  // What the file system does to one call.
  datatype IO = IO(readOk: bool, writeOk: bool, now: int)

  predicate SafeName(policyID: string) {
    policyID != "" && '/' !in policyID && '\\' !in policyID
  }

  predicate Admitted(source: Status, target: Status) {
    match source
    case Draft => target == Active || target == Archived
    case Active => target == Draft || target == Archived
    case _ => false
  }

  function Read(s: Store, policyID: string, readOk: bool): Result<Option<PolicyRecord>, Error> {
    if !SafeName(policyID) then Err(InvalidID)
    else if !readOk then Err(StoreFailure)
    else Ok(if policyID in s then Some(s[policyID]) else None)
  }

  // ----- what the two calls store -----

  function Created(rec: PolicyRecord, now: int): PolicyRecord {
    rec.(revision := 1, status := Draft, createdAt := if rec.createdAt == 0 then now else rec.createdAt,
         activatedAt := 0, updatedAt := now)
  }

  function Updated(stored: PolicyRecord, rec: PolicyRecord, now: int): PolicyRecord {
    rec.(revision := stored.revision + 1, status := stored.status, createdAt := stored.createdAt,
         activatedAt := stored.activatedAt, updatedAt := now)
  }

  function Moved(stored: PolicyRecord, target: Status, now: int): PolicyRecord {
    stored.(status := target, revision := stored.revision + 1,
          activatedAt := if target == Active then now else stored.activatedAt, updatedAt := now)
  }

  // The record a save decides to publish, or the error it stops at. The order of the
  // checks is part of the contract.
  function SaveDecision(s: Store, rec: PolicyRecord, expected: int, io: IO): Result<PolicyRecord, Error> {
    if rec.policyID == "" || expected < 0 then Err(InvalidID)
    else
      match Read(s, rec.policyID, io.readOk)
      case Err(e) => Err(e)
      case Ok(existing) =>
        if expected == 0 then
          if existing.Some? then Err(RevisionConflict) else Ok(Created(rec, io.now))
        else if existing.None? then Err(NotFound)
        else if existing.value.revision != expected then Err(RevisionConflict)
        else if existing.value.status != Draft then Err(IllegalTransition)
        else Ok(Updated(existing.value, rec, io.now))
  }

  function TransitionDecision(s: Store, policyID: string, expected: int, target: Status, io: IO): Result<PolicyRecord, Error> {
    if policyID == "" then Err(InvalidID)
    else if target.Other? then Err(IllegalTransition)
    else
      match Read(s, policyID, io.readOk)
      case Err(e) => Err(e)
      case Ok(existing) =>
        if existing.None? then Err(NotFound)
        else if existing.value.revision != expected then Err(RevisionConflict)
        else if existing.value.status == target then Ok(existing.value)
        else if !Admitted(existing.value.status, target) then Err(IllegalTransition)
        else Ok(Moved(existing.value, target, io.now))
  }

  // Publication: one atomic replacement, or nothing. A self-transition writes nothing
  // and so cannot fail to.
  function Publish(s: Store, policyID: string, d: Result<PolicyRecord, Error>, writeOk: bool)
    : (Store, Result<PolicyRecord, Error>)
  {
    if d.Err? || (policyID in s && d.value == s[policyID]) then (s, d)
    else if !SafeName(policyID) then (s, Err(InvalidID))
    else if !writeOk then (s, Err(StoreFailure))
    else (s[policyID := d.value], d)
  }

  function Save(s: Store, rec: PolicyRecord, expected: int, io: IO): (Store, Result<PolicyRecord, Error>) {
    Publish(s, rec.policyID, SaveDecision(s, rec, expected, io), io.writeOk)
  }

  function Transition(s: Store, policyID: string, expected: int, target: Status, io: IO): (Store, Result<PolicyRecord, Error>) {
    Publish(s, policyID, TransitionDecision(s, policyID, expected, target, io), io.writeOk)
  }

  class FileRepository {
    var files: Store

    constructor ()
      ensures files == map[]
    {
      files := map[];
    }

    method Get(policyID: string, readOk: bool) returns (r: Result<Option<PolicyRecord>, Error>)
      ensures r == Read(files, policyID, readOk)
    {
      if policyID == "" || '/' in policyID || '\\' in policyID {
        return Err(InvalidID);
      }
      if !readOk {
        return Err(StoreFailure);
      }
      if policyID !in files {
        return Ok(None);
      }
      return Ok(Some(files[policyID]));
    }

    method Write(rec: PolicyRecord, writeOk: bool) returns (e: Option<Error>)
      modifies this
      ensures e == if !SafeName(rec.policyID) then Some(InvalidID) else if !writeOk then Some(StoreFailure) else None
      ensures files == if e.None? then old(files)[rec.policyID := rec] else old(files)
    {
      if !SafeName(rec.policyID) {
        return Some(InvalidID);
      }
      if !writeOk {
        return Some(StoreFailure);
      }
      files := files[rec.policyID := rec];
      return None;
    }

    method CompareAndSave(rec: PolicyRecord, expected: int, io: IO) returns (r: Result<PolicyRecord, Error>)
      modifies this
      ensures (files, r) == Save(old(files), rec, expected, io)
    {
      if rec.policyID == "" || expected < 0 {
        return Err(InvalidID);
      }
      var got := Get(rec.policyID, io.readOk);
      if got.Err? {
        return Err(got.error);
      }
      var next := rec;
      if expected == 0 {
        if got.value.Some? {
          return Err(RevisionConflict);
        }
        next := next.(revision := 1);
        if next.createdAt == 0 {
          next := next.(createdAt := io.now);
        }
        next := next.(status := Draft, activatedAt := 0, updatedAt := io.now);
      } else {
        if got.value.None? {
          return Err(NotFound);
        }
        var existing := got.value.value;
        if existing.revision != expected {
          return Err(RevisionConflict);
        }
        if existing.status != Draft {
          return Err(IllegalTransition);
        }
        next := next.(revision := existing.revision + 1, status := existing.status, createdAt := existing.createdAt,
                      activatedAt := existing.activatedAt, updatedAt := io.now);
      }
      var e := Write(next, io.writeOk);
      return if e.Some? then Err(e.value) else Ok(next);
    }

    method CompareAndTransition(policyID: string, expected: int, target: Status, io: IO) returns (r: Result<PolicyRecord, Error>)
      requires policyID in files ==> files[policyID].policyID == policyID
      modifies this
      ensures (files, r) == Transition(old(files), policyID, expected, target, io)
    {
      if policyID == "" {
        return Err(InvalidID);
      }
      if target.Other? {
        return Err(IllegalTransition);
      }
      var got := Get(policyID, io.readOk);
      if got.Err? {
        return Err(got.error);
      }
      if got.value.None? {
        return Err(NotFound);
      }
      var rec := got.value.value;
      if rec.revision != expected {
        return Err(RevisionConflict);
      }
      if rec.status == target {
        return Ok(rec);
      }
      if !Admitted(rec.status, target) {
        return Err(IllegalTransition);
      }
      rec := rec.(status := target, revision := rec.revision + 1);
      if target == Active {
        rec := rec.(activatedAt := io.now);
      }
      rec := rec.(updatedAt := io.now);
      var e := Write(rec, io.writeOk);
      return if e.Some? then Err(e.value) else Ok(rec);
    }
  }

  // Two records carry the same caller-authored content; rule order counts.
  predicate SameContent(a: PolicyRecord, b: PolicyRecord) {
    a.policyID == b.policyID && a.rules == b.rules
  }

  // ----- histories -----

  datatype Call =
    | SaveCall(rec: PolicyRecord, expected: int, io: IO)
    | TransitionCall(id: string, expected: int, target: Status, io: IO)

  function Apply(s: Store, c: Call): (Store, Result<PolicyRecord, Error>) {
    match c
    case SaveCall(rec, expected, io) => Save(s, rec, expected, io)
    case TransitionCall(id, expected, target, io) => Transition(s, id, expected, target, io)
  }

  function Run(s: Store, calls: seq<Call>): Store
    decreases |calls|
  {
    if calls == [] then s else Run(Apply(s, calls[0]).0, calls[1..])
  }

  // Every stored record is filed under its own id, at revision 1 or above.
  predicate Sound(s: Store) {
    forall id :: id in s ==> s[id].policyID == id && s[id].revision >= 1 && !s[id].status.Other?
  }

  // 0 stands for "not there".
  function RevisionOf(s: Store, id: string): int {
    if id in s then s[id].revision else 0
  }

  predicate Changed(s: Store, t: Store, id: string) {
    (id in s) != (id in t) || (id in s && id in t && s[id] != t[id])
  }

  // One call, seen from one policy: nothing, or one legal step of its life, taken under
  // the revision the caller named.
  lemma OneStep(s: Store, c: Call, id: string)
    requires Sound(s)
    ensures var t := Apply(s, c).0;
      && Sound(t)
      && (id in s ==> id in t && t[id].createdAt == s[id].createdAt)
      && (Changed(s, t, id) ==>
            && id in t && Apply(s, c).1 == Ok(t[id])
            && RevisionOf(t, id) == RevisionOf(s, id) + 1
            && c.expected == RevisionOf(s, id)
            && id == (if c.SaveCall? then c.rec.policyID else c.id)
            && (id !in s ==> t[id].status == Draft)
            && (id in s && c.SaveCall? ==> s[id].status == Draft && t[id].status == Draft && t[id].rules == c.rec.rules)
            && (id in s && c.TransitionCall? ==> Admitted(s[id].status, t[id].status) && t[id].rules == s[id].rules))
  {
  }

  // The lifecycle, edge by edge. Archived is left by none.
  const EDGES: set<(Status, Status)> := {(Draft, Active), (Draft, Archived), (Active, Draft), (Active, Archived)}

  // With a working file system, a transition succeeds exactly under the stored revision
  // and along one of these edges, or to the state the policy is in.
  lemma TransitionSucceedsIff(s: Store, id: string, expected: int, target: Status, io: IO)
    requires Sound(s) && io.readOk && io.writeOk
    ensures Transition(s, id, expected, target, io).1.Ok? <==>
      SafeName(id) && id in s && s[id].revision == expected && (s[id].status == target || (s[id].status, target) in EDGES)
  {
  }

  // And a save succeeds exactly on a free name with revision 0, or on a draft under its
  // revision.
  lemma SaveSucceedsIff(s: Store, rec: PolicyRecord, expected: int, io: IO)
    requires Sound(s) && io.readOk && io.writeOk
    ensures var id := rec.policyID;
      Save(s, rec, expected, io).1.Ok? <==>
        SafeName(id) && expected == RevisionOf(s, id) && (id in s ==> s[id].status == Draft)
  {
  }

  // What a step writes: the caller's rules on a save and the stored ones on a transition,
  // the time of the call, the first creation time, and an activation time that only an
  // activation sets.
  lemma StepWrites(s: Store, c: Call, id: string)
    requires Sound(s) && Changed(s, Apply(s, c).0, id)
    ensures var t := Apply(s, c).0;
      && t[id].policyID == id && t[id].updatedAt == c.io.now
      && t[id].rules == (if c.SaveCall? then c.rec.rules else s[id].rules)
      && t[id].createdAt == (if id in s then s[id].createdAt else if c.rec.createdAt != 0 then c.rec.createdAt else c.io.now)
      && t[id].activatedAt == (if id !in s then 0
                               else if c.TransitionCall? && t[id].status == Active then c.io.now else s[id].activatedAt)
  {
    OneStep(s, c, id);
  }

  // A successful call either changed exactly its own policy or was a self-transition.
  lemma SuccessIsAChangeOrANoOp(s: Store, c: Call)
    requires Sound(s) && Apply(s, c).1.Ok?
    ensures var t := Apply(s, c).0;
            var id := if c.SaveCall? then c.rec.policyID else c.id;
      && id in t && t[id] == Apply(s, c).1.value
      && (Changed(s, t, id) <==> !(c.TransitionCall? && id in s && s[id].status == c.target))
      && forall o :: o != id ==> !Changed(s, t, o)
  {
  }

  // How many calls of a history change the policy while naming revision e.
  function ChangesUnder(s: Store, calls: seq<Call>, id: string, e: int): nat
    decreases |calls|
  {
    if calls == [] then 0
    else
      var t := Apply(s, calls[0]).0;
      (if Changed(s, t, id) && calls[0].expected == e then 1 else 0) + ChangesUnder(t, calls[1..], id, e)
  }

  // Over any history, from any sound store: each revision the policy left behind was
  // given up to exactly one call, and no other revision to any. So at most one caller
  // per expected revision succeeds, and revisions rise one at a time.
  lemma {:induction false} OneWinnerPerRevision(s: Store, calls: seq<Call>, id: string, e: int)
    requires Sound(s)
    ensures Sound(Run(s, calls)) && RevisionOf(s, id) <= RevisionOf(Run(s, calls), id)
    ensures ChangesUnder(s, calls, id, e) == if RevisionOf(s, id) <= e < RevisionOf(Run(s, calls), id) then 1 else 0
    decreases |calls|
  {
    if calls != [] {
      OneStep(s, calls[0], id);
      hide Sound, Apply;
      OneWinnerPerRevision(Apply(s, calls[0]).0, calls[1..], id, e);
    }
  }

  function Changes(s: Store, calls: seq<Call>, id: string): nat
    decreases |calls|
  {
    if calls == [] then 0
    else
      var t := Apply(s, calls[0]).0;
      (if Changed(s, t, id) then 1 else 0) + Changes(t, calls[1..], id)
  }

  // The revision counts the changes, creation included; creation time is kept for ever
  // and an archived record is never touched again.
  lemma {:induction false} LifeOfAPolicy(s: Store, calls: seq<Call>, id: string)
    requires Sound(s)
    ensures var t := Run(s, calls);
      && RevisionOf(t, id) == RevisionOf(s, id) + Changes(s, calls, id)
      && (id in s ==> id in t && t[id].createdAt == s[id].createdAt)
      && (id in s && s[id].status == Archived ==> t[id] == s[id])
    decreases |calls|
  {
    if calls != [] {
      OneStep(s, calls[0], id);
      hide Sound, Apply;
      LifeOfAPolicy(Apply(s, calls[0]).0, calls[1..], id);
    }
  }

  // From an empty store, whatever is there was created at revision 1 and counts up.
  lemma FromNothing(calls: seq<Call>, id: string)
    ensures RevisionOf(Run(map[], calls), id) == Changes(map[], calls, id)
    ensures id in Run(map[], calls) <==> Changes(map[], calls, id) > 0
  {
    LifeOfAPolicy(map[], calls, id);
    OneWinnerPerRevision(map[], calls, id, 0);
  }
}
