// Runs of the gate: checks, releases, recorded outcomes and cap changes in any order,
// and what they keep.
module GateRuns {
  import opened Seqs
  import opened Gate
  import Breaker
  import Quota
  import Semaphore
  import TokenBucket

  // An admission: the capability it was admitted for and whether its release is pending.
  datatype Grant = Grant(capID: string, held: bool)

  datatype System = System(g: Protection, admissions: seq<Grant>)

  datatype Event =
    | Check(request: Request)
    | Release(index: nat)
    | RecordOutcome(index: nat, failed: bool, now: int)
    | SetCap(capID: string, cap: int)

  function Live(admissions: seq<Grant>, capID: string): nat {
    if admissions == [] then 0
    else
      var last := admissions[|admissions| - 1];
      Live(admissions[..|admissions| - 1], capID) + if last.capID == capID && last.held then 1 else 0
  }

  predicate ValidSlots(g: Protection) {
    g.sems.Some? ==> Semaphore.ValidSems(g.sems.value)
  }

  // Release is idempotent: a second call, or one for an unknown admission, does nothing.
  function Step(cfg: Config, s: System, e: Event): System
    requires ValidSlots(s.g)
  {
    match e
    case Check(r) =>
      System(Checked(cfg, s.g, r),
             s.admissions + if Decision(cfg, s.g, r) == Admitted then [Grant(r.capID, true)] else [])
    case Release(i) =>
      if i < |s.admissions| && s.admissions[i].held then
        var a := s.admissions[i];
        System(Released(s.g, a.capID),
               s.admissions[i := a.(held := false)])
      else s
    case RecordOutcome(i, failed, now) =>
      if i < |s.admissions| then s.(g := Recorded(s.g, s.admissions[i].capID, failed, now)) else s
    case SetCap(c, n) =>
      if s.g.sems.Some? then s.(g := s.g.(sems := Some(Semaphore.SetCapTo(s.g.sems.value, c, n)))) else s
  }

  // Slots in use are exactly the live admissions, capability by capability, and never
  // more than the channel holds.
  ghost predicate Inv(s: System) {
    && ValidSlots(s.g)
    && (s.g.sems.Some? ==> forall c :: Semaphore.Used(s.g.sems.value, c) == Live(s.admissions, c))
  }

  lemma {:induction false} LiveUpdate(admissions: seq<Grant>, i: nat, capID: string)
    requires i < |admissions| && admissions[i].held
    ensures Live(admissions, capID)
         == Live(admissions[i := admissions[i].(held := false)], capID) + if admissions[i].capID == capID then 1 else 0
  {
    var n := |admissions| - 1;
    var after := admissions[i := admissions[i].(held := false)];
    if i == n {
      assert after[..n] == admissions[..n];
    } else {
      assert after[..n] == admissions[..n][i := admissions[i].(held := false)];
      LiveUpdate(admissions[..n], i, capID);
    }
  }

  lemma LiveSnoc(admissions: seq<Grant>, a: Grant, capID: string)
    ensures Live(admissions + [a], capID) == Live(admissions, capID) + if a.capID == capID && a.held then 1 else 0
  {
    assert (admissions + [a])[..|admissions|] == admissions;
  }

  // What a decision does to the slots in use: an admission takes one of its capability,
  // a rejection, of whatever kind, holds none.
  lemma OnlyAdmissionsHoldSlots(cfg: Config, g: Protection, r: Request)
    requires ValidSlots(g) && g.sems.Some?
    ensures var h := Checked(cfg, g, r);
      && ValidSlots(h) && h.sems.Some?
      && forall c :: Semaphore.Used(h.sems.value, c)
           == Semaphore.Used(g.sems.value, c) + (if c == r.capID && Decision(cfg, g, r) == Admitted then 1 else 0)
  {
    hide QuotaVerdict, TokenAvailable, EvaluationOf, Bump, TokenBucket.TakeFrom;
  }

  lemma StepKeepsInv(cfg: Config, s: System, e: Event)
    requires Inv(s)
    ensures Inv(Step(cfg, s, e))
  {
    match e
    case Check(r) =>
      CheckKeepsInv(cfg, s, r);
    case Release(i) =>
      ReleaseKeepsInv(cfg, s, i);
    case RecordOutcome(i, failed, now) =>
    case SetCap(c, n) =>
  }

  lemma CheckKeepsInv(cfg: Config, s: System, r: Request)
    requires Inv(s)
    ensures Inv(Step(cfg, s, Check(r)))
  {
    if s.g.sems.Some? {
      OnlyAdmissionsHoldSlots(cfg, s.g, r);
      hide Checked, Decision;
      forall c ensures Semaphore.Used(Step(cfg, s, Check(r)).g.sems.value, c) == Live(Step(cfg, s, Check(r)).admissions, c) {
        LiveSnoc(s.admissions, Grant(r.capID, true), c);
        assert s.admissions + [] == s.admissions;
      }
    }
  }

  lemma ReleaseKeepsInv(cfg: Config, s: System, i: nat)
    requires Inv(s)
    ensures Inv(Step(cfg, s, Release(i)))
  {
    if i < |s.admissions| && s.admissions[i].held && s.g.sems.Some? {
      forall c ensures Semaphore.Used(Step(cfg, s, Release(i)).g.sems.value, c) == Live(Step(cfg, s, Release(i)).admissions, c) {
        LiveUpdate(s.admissions, i, c);
        LiveUpdate(s.admissions, i, s.admissions[i].capID);
      }
    }
  }

  function Run(cfg: Config, s: System, es: seq<Event>): System
    requires Inv(s)
    decreases |es|
  {
    if es == [] then s
    else
      StepKeepsInv(cfg, s, es[0]);
      Run(cfg, Step(cfg, s, es[0]), es[1..])
  }

  lemma {:induction false} SlotsAreLiveAdmissions(cfg: Config, s: System, es: seq<Event>, capID: string)
    requires Inv(s)
    ensures var t := Run(cfg, s, es);
      && Inv(t)
      && (t.g.sems.Some? ==>
            && Semaphore.Used(t.g.sems.value, capID) == Live(t.admissions, capID)
            && Live(t.admissions, capID) <= Semaphore.ChannelOf(t.g.sems.value, capID).capacity)
    decreases |es|
  {
    if es == [] {
      if s.g.sems.Some? {
        assert Semaphore.Used(s.g.sems.value, capID) == Live(s.admissions, capID);
      }
    } else {
      StepKeepsInv(cfg, s, es[0]);
      SlotsAreLiveAdmissions(cfg, Step(cfg, s, es[0]), es[1..], capID);
    }
  }

  lemma StartIsInv(g: Protection)
    requires ValidSlots(g) && (g.sems.Some? ==> g.sems.value.sems == map[])
    ensures Inv(System(g, []))
  {
  }

  // ----- what a rejection costs -----

  // A rejection by the kill switches, the breaker, the concurrency cap or the quota
  // leaves every token bucket untouched.
  lemma OnlyLateChecksTouchBuckets(cfg: Config, g: Protection, r: Request)
    requires ValidSlots(g)
    ensures Checked(cfg, g, r).buckets != g.buckets ==>
      Decision(cfg, g, r) == Admitted || Decision(cfg, g, r) == RateLimited
    ensures Checked(cfg, g, r).quotas == g.quotas
  {
  }

  // Kill decisions come first: whatever the other components say, they decide alone and
  // change nothing but the counters.
  lemma KillDecides(cfg: Config, g: Protection, r: Request)
    requires ValidSlots(g) && cfg.hasKills && (r.killed || r.principalKilled)
    ensures Decision(cfg, g, r) == if r.killed then Killed else PrincipalKilled
    ensures Checked(cfg, g, r) == g.(counters := Checked(cfg, g, r).counters)
  {
  }

  // ----- the decision, guard by guard -----

  // The documented order of the guards; admission comes last.
  function Place(a: Action): nat {
    match a
    case Killed => 0
    case PrincipalKilled => 1
    case BreakerUnknown => 2
    case CircuitOpen => 3
    case ConcurrencyExceeded => 4
    case QuotaEvidenceUnavailable => 5
    case QuotaExceeded => 6
    case RateLimited => 7
    case Admitted => 8
  }

  // A ceiling that is set, that is, positive, and that the usage is above.
  predicate Breaches(d: Quota.Definition, u: Quota.Usage) {
    0 < d.rssBytes < u.rssBytes || 0.0 < d.cpuSecs < u.cpuSecs
  }

  predicate Governs(cfg: Config, g: Protection, r: Request, d: Quota.Definition) {
    cfg.hasEvidence && g.quotas.Some? && Quota.Governing(g.quotas.value, r.capID, r.principal) == Some(d)
  }

  // What each guard complains about.
  ghost predicate Complains(cfg: Config, g: Protection, r: Request, a: Action)
    requires ValidSlots(g)
  {
    match a
    case Killed => cfg.hasKills && r.killed
    case PrincipalKilled => cfg.hasKills && r.principalKilled
    case BreakerUnknown => g.breakers.Some? && EvaluationOf(cfg, g, r).state == Breaker.Unknown
    case CircuitOpen => g.breakers.Some? && EvaluationOf(cfg, g, r).state == Breaker.Open
    case ConcurrencyExceeded =>
      g.sems.Some? && Semaphore.Used(g.sems.value, r.capID) >= Semaphore.ChannelOf(g.sems.value, r.capID).capacity
    case QuotaEvidenceUnavailable => exists d :: Governs(cfg, g, r, d) && (r.usage.None? || !r.usage.value.complete)
    case QuotaExceeded =>
      exists d :: Governs(cfg, g, r, d) && r.usage.Some? && r.usage.value.complete && Breaches(d, r.usage.value)
    case RateLimited =>
      g.buckets.Some? && !TokenBucket.TakeFrom(cfg.bucket, g.buckets.value, TokenBucket.Key(r.capID, r.hash), r.takeAt).1
    case Admitted => true
  }

  // The decision is the first complaint in the documented order, and an admission when
  // there is none.
  lemma FirstComplaintDecides(cfg: Config, g: Protection, r: Request, a: Action)
    requires ValidSlots(g)
    ensures Decision(cfg, g, r) == a <==>
      Complains(cfg, g, r, a) && forall b :: Place(b) < Place(a) ==> !Complains(cfg, g, r, b)
  {
    hide Semaphore.ChannelOf, Semaphore.Used, TokenBucket.TakeFrom, Breaker.EvaluateCircuit, Quota.Governing, TokenBucket.Key;
    QuotaComplaints(cfg, g, r);
    var d := Decision(cfg, g, r);
    hide QuotaVerdict, Quota.Exceeded, Governs, Breaches;
    assert Complains(cfg, g, r, d);
    forall b | Place(b) < Place(d) ensures !Complains(cfg, g, r, b) {
    }
    assert Place(a) < Place(d) || Place(d) < Place(a) || a == d;
  }

  lemma QuotaComplaints(cfg: Config, g: Protection, r: Request)
    requires ValidSlots(g)
    ensures QuotaVerdict(cfg, g, r) == Some(QuotaExceeded) <==> Complains(cfg, g, r, QuotaExceeded)
    ensures QuotaVerdict(cfg, g, r) == Some(QuotaEvidenceUnavailable) <==> Complains(cfg, g, r, QuotaEvidenceUnavailable)
  {
    hide Quota.Governing;
    var d := DefinitionOf(cfg, g, r);
    if d.Some? {
      assert Governs(cfg, g, r, d.value);
    }
  }

  // So nobody is admitted past a quota: with a governing definition, the usage is known
  // in full and within every ceiling that is set.
  lemma AdmittedIsWithinQuota(cfg: Config, g: Protection, r: Request, d: Quota.Definition)
    requires ValidSlots(g) && Governs(cfg, g, r, d) && Decision(cfg, g, r) == Admitted
    ensures r.usage.Some? && r.usage.value.complete
    ensures d.rssBytes > 0 ==> r.usage.value.rssBytes <= d.rssBytes
    ensures d.cpuSecs > 0.0 ==> r.usage.value.cpuSecs <= d.cpuSecs
  {
    FirstComplaintDecides(cfg, g, r, Admitted);
    hide Decision, Governs;
    assert !Complains(cfg, g, r, QuotaExceeded) && !Complains(cfg, g, r, QuotaEvidenceUnavailable);
  }

  // ----- the counters -----

  // The decisions of a run, in order.
  function Decisions(cfg: Config, s: System, es: seq<Event>): seq<Action>
    requires Inv(s)
    decreases |es|
  {
    if es == [] then []
    else
      StepKeepsInv(cfg, s, es[0]);
      (if es[0].Check? then [Decision(cfg, s.g, es[0].request)] else []) + Decisions(cfg, Step(cfg, s, es[0]), es[1..])
  }

  function Occurrences(actions: seq<Action>, a: Action): nat {
    if actions == [] then 0 else (if actions[0] == a then 1 else 0) + Occurrences(actions[1..], a)
  }

  // Exactly one decision counter rises by one in a check, and none elsewhere.
  lemma CheckCountsOnce(cfg: Config, s: System, e: Event, a: Action)
    requires Inv(s)
    ensures Reading(Step(cfg, s, e).g.counters, a)
         == Reading(s.g.counters, a) + if e.Check? && Decision(cfg, s.g, e.request) == a then 1 else 0
  {
    hide Decision;
  }

  // The metrics are the history: each decision counter reads how often that decision
  // was taken, over any run.
  lemma {:induction false} MetricsAreExact(cfg: Config, s: System, es: seq<Event>, a: Action)
    requires Inv(s)
    ensures Reading(Run(cfg, s, es).g.counters, a) == Reading(s.g.counters, a) + Occurrences(Decisions(cfg, s, es), a)
    decreases |es|
  {
    if es != [] {
      StepKeepsInv(cfg, s, es[0]);
      CheckCountsOnce(cfg, s, es[0], a);
      MetricsAreExact(cfg, Step(cfg, s, es[0]), es[1..], a);
      hide Decision, Step, Inv;
      var rest := Decisions(cfg, Step(cfg, s, es[0]), es[1..]);
      if es[0].Check? {
        assert ([Decision(cfg, s.g, es[0].request)] + rest)[1..] == rest;
      } else {
        assert [] + rest == rest;
      }
    }
  }

  // The rejections of a run that left no audit record.
  function Unaudited(cfg: Config, s: System, es: seq<Event>): nat
    requires Inv(s)
    decreases |es|
  {
    if es == [] then 0
    else
      StepKeepsInv(cfg, s, es[0]);
      (if es[0].Check? && !es[0].request.auditOk && Decision(cfg, s.g, es[0].request) != Admitted then 1 else 0)
      + Unaudited(cfg, Step(cfg, s, es[0]), es[1..])
  }

  // Each of them is counted, and nothing else is.
  lemma {:induction false} AuditFailuresAreExact(cfg: Config, s: System, es: seq<Event>)
    requires Inv(s)
    ensures Run(cfg, s, es).g.counters.auditWriteFailed == s.g.counters.auditWriteFailed + Unaudited(cfg, s, es)
    decreases |es|
  {
    if es != [] {
      StepKeepsInv(cfg, s, es[0]);
      CheckCountsAudit(cfg, s, es[0]);
      AuditFailuresAreExact(cfg, Step(cfg, s, es[0]), es[1..]);
    }
  }

  lemma CheckCountsAudit(cfg: Config, s: System, e: Event)
    requires Inv(s)
    ensures Step(cfg, s, e).g.counters.auditWriteFailed == s.g.counters.auditWriteFailed
         + if e.Check? && !e.request.auditOk && Decision(cfg, s.g, e.request) != Admitted then 1 else 0
  {
    hide Decision;
  }

  // ----- the rate of admissions -----

  function KeyOf(r: Request): string {
    TokenBucket.Key(r.capID, r.hash)
  }

  // How many checks of a run on one capability and principal hash are admitted.
  function AdmittedFor(cfg: Config, s: System, es: seq<Event>, capID: string, hash: string): nat
    requires Inv(s)
    decreases |es|
  {
    if es == [] then 0
    else
      StepKeepsInv(cfg, s, es[0]);
      (if es[0].Check? && es[0].request.capID == capID && es[0].request.hash == hash
          && Decision(cfg, s.g, es[0].request) == Admitted then 1 else 0)
      + AdmittedFor(cfg, Step(cfg, s, es[0]), es[1..], capID, hash)
  }

  // The buckets of a gate that is configured with them.
  ghost predicate Metered(cfg: Config, s: System) {
    s.g.buckets.Some? && TokenBucket.ValidConfig(cfg.bucket) && TokenBucket.WithinCapacity(cfg.bucket, s.g.buckets.value)
  }

  lemma StepSpendsAllowance(cfg: Config, s: System, e: Event, key: string, lo: int, hi: int)
    requires Inv(s) && Metered(cfg, s)
    requires e.Check? && KeyOf(e.request) == key ==> lo <= e.request.takeAt <= hi
    ensures var t := Step(cfg, s, e);
      && Metered(cfg, t)
      && TokenBucket.AllowanceAt(cfg.bucket, t.g.buckets.value, key, lo, hi)
         + (if e.Check? && KeyOf(e.request) == key && Decision(cfg, s.g, e.request) == Admitted then 1.0 else 0.0)
         <= TokenBucket.AllowanceAt(cfg.bucket, s.g.buckets.value, key, lo, hi)
  {
    if e.Check? {
      var r := e.request;
      TokenBucket.CallSpendsAllowance(cfg.bucket, s.g.buckets.value, TokenBucket.Call(KeyOf(r), r.takeAt), key, lo, hi);
      hide QuotaVerdict, SlotFree, EvaluationOf, Bump, SlotsAfter, TokenBucket.TakeFrom, TokenBucket.AllowanceAt,
        TokenBucket.WithinCapacity, Semaphore.ValidSems;
    }
  }

  // Over any run of the gate, from any reachable bucket state and whatever else happens
  // in it, the checks of one capability and principal hash are admitted at most
  // capacity + refill * d times within a stretch whose readings span d seconds.
  lemma {:induction false} AdmissionsAreRateBounded(cfg: Config, s: System, es: seq<Event>,
        capID: string, hash: string, lo: int, hi: int)
    requires Inv(s) && Metered(cfg, s) && lo <= hi
    requires forall e :: e in es && e.Check? && KeyOf(e.request) == TokenBucket.Key(capID, hash) ==> lo <= e.request.takeAt <= hi
    ensures AdmittedFor(cfg, s, es, capID, hash) as real
         <= TokenBucket.AllowanceAt(cfg.bucket, s.g.buckets.value, TokenBucket.Key(capID, hash), lo, hi)
         <= cfg.bucket.capacity + cfg.bucket.refill * TokenBucket.Seconds(hi - lo)
    decreases |es|
  {
    TokenBucket.AllowanceIsBounded(cfg.bucket, s.g.buckets.value, TokenBucket.Key(capID, hash), lo, hi);
    if es != [] {
      assert es[0] in es;
      StepKeepsInv(cfg, s, es[0]);
      StepSpendsAllowance(cfg, s, es[0], TokenBucket.Key(capID, hash), lo, hi);
      hide Inv, Metered, Step, Decision, TokenBucket.AllowanceAt, TokenBucket.Seconds;
      AdmissionsAreRateBounded(cfg, Step(cfg, s, es[0]), es[1..], capID, hash, lo, hi);
    }
  }

  // ----- the breaker window -----

  // Every check on the capability, along the run, is turned away by the kill switches
  // or by the open circuit.
  ghost predicate AllTurnedAway(cfg: Config, s: System, es: seq<Event>, capID: string)
    requires Inv(s)
    decreases |es|
  {
    es == [] || (
      StepKeepsInv(cfg, s, es[0]);
      && (es[0].Check? && es[0].request.capID == capID ==>
            Decision(cfg, s.g, es[0].request) in {Killed, PrincipalKilled, CircuitOpen})
      && AllTurnedAway(cfg, Step(cfg, s, es[0]), es[1..], capID))
  }

  predicate OpenedAt(g: Protection, capID: string, t: int) {
    g.breakers.Some? && capID in g.breakers.value && g.breakers.value[capID].state == Breaker.Open
    && g.breakers.value[capID].openedAt == t
  }

  lemma StepKeepsOpen(cfg: Config, s: System, e: Event, capID: string, t: int)
    requires Inv(s) && OpenedAt(s.g, capID, t)
    requires e.Check? && e.request.capID == capID ==> e.request.now < t + cfg.breaker.cooldown
    ensures OpenedAt(Step(cfg, s, e).g, capID, t)
    ensures e.Check? && e.request.capID == capID ==> Decision(cfg, s.g, e.request) in {Killed, PrincipalKilled, CircuitOpen}
  {
    hide QuotaVerdict, SlotFree, TokenAvailable, Bump, SlotsAfter, TokenBucket.TakeFrom, Live;
  }

  // A circuit opened at t turns away every check on its capability whose clock reads
  // less than t + cooldown, whatever else happens in between, late outcomes included.
  lemma {:induction false} OpenCircuitBlocks(cfg: Config, s: System, es: seq<Event>, capID: string, t: int)
    requires Inv(s) && OpenedAt(s.g, capID, t)
    requires forall e :: e in es && e.Check? && e.request.capID == capID ==> e.request.now < t + cfg.breaker.cooldown
    ensures AllTurnedAway(cfg, s, es, capID)
    ensures OpenedAt(Run(cfg, s, es).g, capID, t)
    decreases |es|
  {
    if es != [] {
      StepKeepsInv(cfg, s, es[0]);
      assert es[0] in es;
      StepKeepsOpen(cfg, s, es[0], capID, t);
      hide OpenedAt, Decision, Step, Inv;
      OpenCircuitBlocks(cfg, Step(cfg, s, es[0]), es[1..], capID, t);
    }
  }
}
