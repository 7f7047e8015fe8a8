// The protection gate: kill, principal kill, breaker, concurrency, quota, rate, in that
// fixed order, with the concurrency slot rolled back when a later guard rejects.
module Gate {
  import opened Seqs
  import Breaker
  import Quota
  import Semaphore
  import TokenBucket

  datatype Action =
    | Admitted | Killed | PrincipalKilled | CircuitOpen | BreakerUnknown
    | ConcurrencyExceeded | QuotaExceeded | QuotaEvidenceUnavailable | RateLimited

  datatype Counters = Counters(
    admitted: nat, killed: nat, principalKilled: nat, circuitOpen: nat, breakerUnknown: nat,
    concurrencyExceeded: nat, quotaExceeded: nat, quotaEvidenceUnavailable: nat, rateLimited: nat,
    auditWriteFailed: nat)

  const ZERO := Counters(0, 0, 0, 0, 0, 0, 0, 0, 0, 0)

  function Bump(c: Counters, a: Action): Counters {
    match a
    case Admitted => c.(admitted := c.admitted + 1)
    case Killed => c.(killed := c.killed + 1)
    case PrincipalKilled => c.(principalKilled := c.principalKilled + 1)
    case CircuitOpen => c.(circuitOpen := c.circuitOpen + 1)
    case BreakerUnknown => c.(breakerUnknown := c.breakerUnknown + 1)
    case ConcurrencyExceeded => c.(concurrencyExceeded := c.concurrencyExceeded + 1)
    case QuotaExceeded => c.(quotaExceeded := c.quotaExceeded + 1)
    case QuotaEvidenceUnavailable => c.(quotaEvidenceUnavailable := c.quotaEvidenceUnavailable + 1)
    case RateLimited => c.(rateLimited := c.rateLimited + 1)
  }

  // The reading SnapshotMetrics gives of a decision counter.
  function Reading(c: Counters, a: Action): nat {
    match a
    case Admitted => c.admitted
    case Killed => c.killed
    case PrincipalKilled => c.principalKilled
    case CircuitOpen => c.circuitOpen
    case BreakerUnknown => c.breakerUnknown
    case ConcurrencyExceeded => c.concurrencyExceeded
    case QuotaExceeded => c.quotaExceeded
    case QuotaEvidenceUnavailable => c.quotaEvidenceUnavailable
    case RateLimited => c.rateLimited
  }

  // One Check call with what its collaborators answer: kill flags, failure evidence,
  // resource usage (None when the read fails), the clock readings of the gate and of
  // the token buckets, and whether the audit write of a rejection succeeds.
  datatype Request = Request(
    capID: string, principal: string, hash: string, now: int,
    killed: bool, principalKilled: bool, failures: Breaker.Evidence,
    usage: Option<Quota.Usage>, takeAt: int, auditOk: bool)

  // A component is None when the gate is configured without it.
  datatype Config = Config(
    hasKills: bool, breaker: Breaker.Config, hasReader: bool, hasEvidence: bool, bucket: TokenBucket.Config)

  datatype Protection = Protection(
    breakers: Option<map<string, Breaker.Circuit>>,
    sems: Option<Semaphore.Sems>,
    quotas: Option<map<string, Quota.Definition>>,
    buckets: Option<map<string, TokenBucket.Bucket>>,
    counters: Counters)

  ghost predicate ValidProtection(cfg: Config, g: Protection) {
    && (g.sems.Some? ==> Semaphore.ValidSems(g.sems.value))
    && TokenBucket.ValidConfig(cfg.bucket)
    && (g.buckets.Some? ==> TokenBucket.WithinCapacity(cfg.bucket, g.buckets.value))
  }

  // ----- the guards, one by one, on the state before the call -----

  function EvaluationOf(cfg: Config, g: Protection, r: Request): Breaker.Evaluation
    requires g.breakers.Some?
  {
    Breaker.EvaluateCircuit(cfg.breaker, cfg.hasReader, Breaker.At(g.breakers.value, r.capID), r.now, r.failures)
  }

  function DefinitionOf(cfg: Config, g: Protection, r: Request): Option<Quota.Definition> {
    if g.quotas.Some? && cfg.hasEvidence then Quota.Governing(g.quotas.value, r.capID, r.principal) else None
  }

  function QuotaVerdict(cfg: Config, g: Protection, r: Request): (v: Option<Action>)
    ensures v.Some? ==> v.value == QuotaExceeded || v.value == QuotaEvidenceUnavailable
  {
    match DefinitionOf(cfg, g, r)
    case None => None
    case Some(d) =>
      if r.usage.None? || !r.usage.value.complete then Some(QuotaEvidenceUnavailable)
      else if Quota.Exceeded(d, r.usage.value) then Some(QuotaExceeded)
      else None
  }

  predicate SlotFree(g: Protection, capID: string)
    requires g.sems.Some? ==> Semaphore.ValidSems(g.sems.value)
  {
    g.sems.Some? ==> Semaphore.Used(g.sems.value, capID) < Semaphore.ChannelOf(g.sems.value, capID).capacity
  }

  predicate TokenAvailable(cfg: Config, g: Protection, r: Request) {
    g.buckets.Some? ==> TokenBucket.TakeFrom(cfg.bucket, g.buckets.value, TokenBucket.Key(r.capID, r.hash), r.takeAt).1
  }

  // The decision, told from the state before the call alone: the first guard in the
  // documented order that fires.
  function Decision(cfg: Config, g: Protection, r: Request): Action
    requires g.sems.Some? ==> Semaphore.ValidSems(g.sems.value)
  {
    if cfg.hasKills && r.killed then Killed
    else if cfg.hasKills && r.principalKilled then PrincipalKilled
    else if g.breakers.Some? && EvaluationOf(cfg, g, r).state == Breaker.Unknown then BreakerUnknown
    else if g.breakers.Some? && EvaluationOf(cfg, g, r).state == Breaker.Open then CircuitOpen
    else if !SlotFree(g, r.capID) then ConcurrencyExceeded
    else if QuotaVerdict(cfg, g, r).Some? then QuotaVerdict(cfg, g, r).value
    else if !TokenAvailable(cfg, g, r) then RateLimited
    else Admitted
  }

  predicate KillAction(a: Action) {
    a == Killed || a == PrincipalKilled
  }

  predicate BreakerAction(a: Action) {
    a == CircuitOpen || a == BreakerUnknown
  }

  // What a decision does to the concurrency slots: only an admission keeps one, and a
  // call that got as far as the semaphore leaves the capability's channel made.
  function SlotsAfter(s: Semaphore.Sems, capID: string, a: Action): Semaphore.Sems
    requires Semaphore.ValidSems(s)
  {
    if KillAction(a) || BreakerAction(a) then s
    else
      var ch := Semaphore.ChannelOf(s, capID);
      s.(sems := s.sems[capID := ch.(used := ch.used + if a == Admitted then 1 else 0)])
  }

  // The state after a decision, component by component.
  function After(cfg: Config, g: Protection, r: Request, a: Action): Protection
    requires g.sems.Some? ==> Semaphore.ValidSems(g.sems.value)
  {
    var counted := Bump(g.counters, a);
    Protection(
      if g.breakers.None? || KillAction(a) then g.breakers
      else Some(g.breakers.value[r.capID := EvaluationOf(cfg, g, r).circuit]),
      if g.sems.None? then None else Some(SlotsAfter(g.sems.value, r.capID, a)),
      g.quotas,
      if g.buckets.Some? && (a == RateLimited || a == Admitted)
      then Some(TokenBucket.TakeFrom(cfg.bucket, g.buckets.value, TokenBucket.Key(r.capID, r.hash), r.takeAt).0)
      else g.buckets,
      if a != Admitted && !r.auditOk then counted.(auditWriteFailed := counted.auditWriteFailed + 1) else counted)
  }

  function Checked(cfg: Config, g: Protection, r: Request): Protection
    requires g.sems.Some? ==> Semaphore.ValidSems(g.sems.value)
  {
    After(cfg, g, r, Decision(cfg, g, r))
  }

  // Each late guard looks at its own component only.
  lemma GuardsAreIndependent(cfg: Config, g: Protection, h: Protection, r: Request)
    requires g.sems.Some? ==> Semaphore.ValidSems(g.sems.value)
    ensures g.sems == h.sems ==> SlotFree(g, r.capID) == SlotFree(h, r.capID)
    ensures g.quotas == h.quotas ==> QuotaVerdict(cfg, g, r) == QuotaVerdict(cfg, h, r)
    ensures g.buckets == h.buckets ==> TokenAvailable(cfg, g, r) == TokenAvailable(cfg, h, r)
  {
  }

  lemma EarlyRejectKeepsSlots(s: Semaphore.Sems, capID: string)
    requires Semaphore.ValidSems(s)
    ensures forall a :: KillAction(a) || BreakerAction(a) ==> SlotsAfter(s, capID, a) == s
  {
  }

  // Acquire, alone or followed by the rollback, against what a decision does to the slots.
  lemma SlotOutcomes(s: Semaphore.Sems, capID: string)
    requires Semaphore.ValidSems(s)
    ensures var q := Semaphore.AcquireSlot(s, capID);
      && (q.1 <==> Semaphore.Used(s, capID) < Semaphore.ChannelOf(s, capID).capacity)
      && (!q.1 ==> q.0 == SlotsAfter(s, capID, ConcurrencyExceeded))
      && (q.1 ==> q.0 == SlotsAfter(s, capID, Admitted))
      && (q.1 ==> forall a :: a in {QuotaExceeded, QuotaEvidenceUnavailable, RateLimited} ==>
            Semaphore.ReleaseSlot(q.0, capID) == SlotsAfter(s, capID, a))
  {
    var ch := Semaphore.ChannelOf(s, capID);
    var q := Semaphore.AcquireSlot(s, capID);
    if q.1 {
      assert Semaphore.ReleaseSlot(q.0, capID).sems == s.sems[capID := ch];
      assert ch.(used := ch.used + 0) == ch;
    }
  }

  class Gate {
    const hasKills: bool
    const breaker: Breaker.BreakerSet?
    const sem: Semaphore.SemaphoreSet?
    const quotas: Quota.QuotaStore?
    const hasEvidence: bool
    const buckets: TokenBucket.TokenBucketSet?
    var counters: Counters

    ghost function Settings(): Config {
      Config(hasKills,
             if breaker == null then Breaker.Config(0, 0, 0) else breaker.cfg,
             breaker != null && breaker.hasReader,
             hasEvidence,
             if buckets == null then TokenBucket.Config(1.0, 1.0) else buckets.cfg)
    }

    ghost function Model(): Protection
      reads this, breaker, sem, quotas, buckets
    {
      Protection(
        if breaker == null then None else Some(breaker.breakers),
        if sem == null then None else Some(sem.State()),
        if quotas == null then None else Some(quotas.defs),
        if buckets == null then None else Some(buckets.buckets),
        counters)
    }

    ghost predicate Valid()
      reads this, breaker, sem, quotas, buckets
    {
      ValidProtection(Settings(), Model())
    }

    constructor (kills: bool, b: Breaker.BreakerSet?, s: Semaphore.SemaphoreSet?, q: Quota.QuotaStore?, evidence: bool,
                 t: TokenBucket.TokenBucketSet?)
      requires (s != null ==> s.Valid()) && (t != null ==> t.Valid())
      ensures Valid() && counters == ZERO
      ensures hasKills == kills && breaker == b && sem == s && quotas == q && hasEvidence == evidence && buckets == t
    {
      hasKills, breaker, sem, quotas, hasEvidence, buckets := kills, b, s, q, evidence, t;
      counters := ZERO;
    }

    method AuditWrite(auditOk: bool)
      modifies this
      ensures counters == if auditOk then old(counters)
                          else old(counters).(auditWriteFailed := old(counters).auditWriteFailed + 1)
    {
      if !auditOk {
        counters := counters.(auditWriteFailed := counters.auditWriteFailed + 1);
      }
    }

    method Reject(a: Action, auditOk: bool) returns (r: Action)
      modifies this
      ensures r == a
      ensures counters == if auditOk then Bump(old(counters), a)
                          else Bump(old(counters), a).(auditWriteFailed := Bump(old(counters), a).auditWriteFailed + 1)
    {
      counters := Bump(counters, a);
      AuditWrite(auditOk);
      return a;
    }

    // Guard 3. None lets the call pass.
    method ConsultBreaker(r: Request) returns (a: Option<Action>)
      requires Valid()
      modifies breaker
      ensures Valid()
      ensures breaker == null ==> a == None && Model() == old(Model())
      ensures breaker != null ==>
        var e := EvaluationOf(Settings(), old(Model()), r);
        && Model() == old(Model()).(breakers := Some(old(breaker.breakers)[r.capID := e.circuit]))
        && a == if e.state == Breaker.Unknown then Some(BreakerUnknown)
                else if e.state == Breaker.Open then Some(CircuitOpen) else None
    {
      if breaker == null {
        return None;
      }
      var state, effective := breaker.Evaluate(r.capID, r.now, r.failures);
      if state == Breaker.Open || state == Breaker.Unknown {
        return Some(if state == Breaker.Unknown then BreakerUnknown else CircuitOpen);
      }
      return None;
    }

    // Guard 4b. None lets the call pass.
    method ConsultQuota(r: Request) returns (a: Option<Action>)
      ensures a == QuotaVerdict(Settings(), Model(), r)
      ensures a.Some? ==> a.value == QuotaExceeded || a.value == QuotaEvidenceUnavailable
    {
      if quotas == null || !hasEvidence {
        return None;
      }
      var d := quotas.GetDefinition(r.capID, r.principal);
      if d.None? {
        return None;
      }
      if r.usage.None? || !r.usage.value.complete {
        return Some(QuotaEvidenceUnavailable);
      }
      return if Quota.Exceeded(d.value, r.usage.value) then Some(QuotaExceeded) else None;
    }

    method Check(r: Request) returns (a: Action)
      requires Valid()
      modifies this, breaker, sem, buckets
      ensures Valid()
      ensures a == Decision(Settings(), old(Model()), r)
      ensures Model() == Checked(Settings(), old(Model()), r)
    {
      hide SlotsAfter, Bump, QuotaVerdict, SlotFree, TokenAvailable, Breaker.EvaluateCircuit, TokenBucket.TakeFrom;
      if sem != null {
        EarlyRejectKeepsSlots(sem.State(), r.capID);
      }
      if hasKills && r.killed {
        a := Reject(Killed, r.auditOk);
        return;
      }
      if hasKills && r.principalKilled {
        a := Reject(PrincipalKilled, r.auditOk);
        return;
      }
      var stopped := ConsultBreaker(r);
      if stopped.Some? {
        a := Reject(stopped.value, r.auditOk);
        return;
      }
      GuardsAreIndependent(Settings(), old(Model()), Model(), r);
      a := AdmitOrReject(r);
    }

    // Guards 4 to 6, from the state the breaker left.
    method AdmitOrReject(r: Request) returns (a: Action)
      requires Valid()
      modifies this, sem, buckets
      ensures Valid()
      ensures a == LateDecision(Settings(), old(Model()), r)
      ensures Model() == LateAfter(Settings(), old(Model()), r, a)
    {
      hide SlotsAfter, Bump, QuotaVerdict, Semaphore.AcquireSlot, Semaphore.ReleaseSlot, TokenBucket.TakeOne;
      if sem != null {
        SlotOutcomes(sem.State(), r.capID);
        var acquired := sem.Acquire(r.capID);
        if !acquired {
          a := Reject(ConcurrencyExceeded, r.auditOk);
          return;
        }
      }
      GuardsAreIndependent(Settings(), old(Model()), Model(), r);
      var over := ConsultQuota(r);
      if over.Some? {
        if sem != null {
          sem.Release(r.capID);
        }
        a := Reject(over.value, r.auditOk);
        return;
      }
      if buckets != null {
        var taken := buckets.Take(r.capID, r.hash, r.takeAt);
        if !taken {
          if sem != null {
            sem.Release(r.capID);
          }
          a := Reject(RateLimited, r.auditOk);
          return;
        }
      }
      counters := Bump(counters, Admitted);
      return Admitted;
    }
  }

  function LateDecision(cfg: Config, g: Protection, r: Request): Action
    requires g.sems.Some? ==> Semaphore.ValidSems(g.sems.value)
  {
    if !SlotFree(g, r.capID) then ConcurrencyExceeded
    else if QuotaVerdict(cfg, g, r).Some? then QuotaVerdict(cfg, g, r).value
    else if !TokenAvailable(cfg, g, r) then RateLimited
    else Admitted
  }

  function LateAfter(cfg: Config, g: Protection, r: Request, a: Action): Protection
    requires g.sems.Some? ==> Semaphore.ValidSems(g.sems.value)
  {
    After(cfg, g.(breakers := None), r, a).(breakers := g.breakers)
  }

  function Released(g: Protection, capID: string): Protection {
    if g.sems.Some? then g.(sems := Some(Semaphore.ReleaseSlot(g.sems.value, capID))) else g
  }

  function Recorded(g: Protection, capID: string, failed: bool, now: int): Protection {
    if g.breakers.None? then g
    else
      var m := g.breakers.value;
      g.(breakers := Some(m[capID := Breaker.RecordOn(Breaker.At(m, capID), failed, now)]))
  }

  // What Check hands to an admitted caller.
  class Admission {
    const capID: string
    const gate: Gate
    // the release closure is still there
    var held: bool

    constructor (c: string, g: Gate)
      ensures capID == c && gate == g && held
    {
      capID, gate, held := c, g, true;
    }

    // Idempotent: the closure clears itself.
    method Release()
      requires gate.Valid()
      modifies this, gate.sem
      ensures gate.Valid() && !held
      ensures gate.Model() == if old(held) then Released(old(gate.Model()), capID) else old(gate.Model())
    {
      if held {
        if gate.sem != null {
          gate.sem.Release(capID);
        }
        held := false;
      }
    }

    method RecordOutcome(failed: bool, now: int)
      requires gate.Valid()
      modifies gate.breaker
      ensures gate.Valid()
      ensures gate.Model() == Recorded(old(gate.Model()), capID, failed, now)
    {
      if gate.breaker != null {
        gate.breaker.RecordOutcome(capID, failed, now);
      }
    }
  }
}
