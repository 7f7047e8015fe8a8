// Circuit breakers per capability, driven by failure evidence and by the outcomes of
// admitted executions. Durations and clock readings are integer nanoseconds.
module Breaker {
  import opened Seqs

  datatype State = Closed | Open | HalfOpen | Unknown

  datatype Circuit = Circuit(state: State, failureCount: nat, openedAt: int, probeAllowed: bool)

  datatype Config = Config(failureThreshold: int, window: int, cooldown: int)

  // What the evidence reader answers; None is a read error.
  datatype FailureWindow = FailureWindow(count: int, truncated: bool)

  type Evidence = Option<FailureWindow>

  const SECOND := 1000000000

  function Normalized(cfg: Config): (r: Config)
    ensures r.failureThreshold > 0 && r.window > 0 && r.cooldown > 0
  {
    Config(if cfg.failureThreshold <= 0 then 5 else cfg.failureThreshold,
           if cfg.window <= 0 then 60 * SECOND else cfg.window,
           if cfg.cooldown <= 0 then 30 * SECOND else cfg.cooldown)
  }

  const FRESH := Circuit(Closed, 0, 0, false)

  function At(m: map<string, Circuit>, capID: string): Circuit {
    if capID in m then m[capID] else FRESH
  }

  // The evaluated state, the failure count it rests on, and the circuit afterwards.
  datatype Evaluation = Evaluation(state: State, effective: int, circuit: Circuit)

  function Effective(b: Circuit, w: FailureWindow): int {
    if !w.truncated && w.count == 0 then b.failureCount else w.count
  }

  function EvaluateCircuit(cfg: Config, hasReader: bool, b: Circuit, now: int, w: Evidence): Evaluation {
    match b.state
    case Open =>
      if now - b.openedAt >= cfg.cooldown
      then Evaluation(HalfOpen, b.failureCount, b.(state := HalfOpen, probeAllowed := true))
      else Evaluation(Open, b.failureCount, b)
    case HalfOpen => Evaluation(HalfOpen, b.failureCount, b)
    case _ =>
      if !hasReader then Evaluation(Closed, 0, b)
      else if w.None? then Evaluation(Unknown, 0, b)
      else
        var e := Effective(b, w.value);
        if w.value.truncated && e < cfg.failureThreshold then Evaluation(Unknown, e, b)
        else if e >= cfg.failureThreshold then Evaluation(Open, e, b.(state := Open, openedAt := now))
        else Evaluation(Closed, e, b)
  }

  function RecordOn(b: Circuit, failed: bool, now: int): Circuit {
    var c := b.(failureCount := b.failureCount + if failed then 1 else 0);
    if b.state != HalfOpen then c
    else if failed then c.(state := Open, openedAt := now, probeAllowed := false)
    else c.(state := Closed, probeAllowed := false)
  }

  class BreakerSet {
    const cfg: Config
    const hasReader: bool
    var breakers: map<string, Circuit>

    constructor (reader: bool, c: Config)
      ensures cfg == Normalized(c) && hasReader == reader && breakers == map[]
    {
      cfg, hasReader, breakers := Normalized(c), reader, map[];
    }

    method Get(capID: string) returns (b: Circuit)
      modifies this
      ensures b == At(old(breakers), capID) && breakers == old(breakers)[capID := b]
    {
      if capID !in breakers {
        breakers := breakers[capID := Circuit(Closed, 0, 0, false)];
      }
      b := breakers[capID];
    }

    method Evaluate(capID: string, now: int, w: Evidence) returns (state: State, effective: int)
      modifies this
      ensures var e := EvaluateCircuit(cfg, hasReader, At(old(breakers), capID), now, w);
        state == e.state && effective == e.effective && breakers == old(breakers)[capID := e.circuit]
    {
      var b := Get(capID);
      if b.state == Open {
        if now - b.openedAt >= cfg.cooldown {
          breakers := breakers[capID := b.(state := HalfOpen, probeAllowed := true)];
          return HalfOpen, b.failureCount;
        }
        return Open, b.failureCount;
      }
      if b.state == HalfOpen {
        return HalfOpen, b.failureCount;
      }
      if !hasReader {
        return Closed, 0;
      }
      if w.None? {
        return Unknown, 0;
      }
      effective := w.value.count;
      if !w.value.truncated && w.value.count == 0 {
        effective := b.failureCount;
      }
      if w.value.truncated && effective < cfg.failureThreshold {
        return Unknown, effective;
      }
      if effective >= cfg.failureThreshold {
        breakers := breakers[capID := b.(state := Open, openedAt := now)];
        return Open, effective;
      }
      return Closed, effective;
    }

    method RecordOutcome(capID: string, failed: bool, now: int)
      modifies this
      ensures breakers == old(breakers)[capID := RecordOn(At(old(breakers), capID), failed, now)]
    {
      var b := Get(capID);
      if failed {
        b := b.(failureCount := b.failureCount + 1);
      }
      if b.state == HalfOpen {
        if failed {
          b := b.(state := Open, openedAt := now);
        } else {
          b := b.(state := Closed);
        }
        b := b.(probeAllowed := false);
      }
      breakers := breakers[capID := b];
    }
  }

  // ----- the decision table of a closed circuit -----

  // From a closed circuit with a reader: unreadable evidence and truncated evidence
  // below the threshold are Unknown; the circuit opens exactly when the count it rests
  // on reaches the threshold. Nothing else changes it.
  lemma ClosedTable(cfg: Config, b: Circuit, now: int, w: Evidence)
    requires b.state == Closed && cfg.failureThreshold > 0
    ensures var e := EvaluateCircuit(cfg, true, b, now, w);
      && (e.state == Unknown <==> w.None? || (w.value.truncated && w.value.count < cfg.failureThreshold))
      && (e.state == Open <==> w.Some? && Effective(b, w.value) >= cfg.failureThreshold)
      && e.state != HalfOpen
      && e.circuit == if e.state == Open then b.(state := Open, openedAt := now) else b
  {
  }

  // ----- runs -----

  datatype Op = Evaluate(now: int, evidence: Evidence) | Record(failed: bool, at: int)

  function Step(cfg: Config, hasReader: bool, b: Circuit, op: Op): Circuit {
    match op
    case Evaluate(now, w) => EvaluateCircuit(cfg, hasReader, b, now, w).circuit
    case Record(failed, at) => RecordOn(b, failed, at)
  }

  function RunOps(cfg: Config, hasReader: bool, b: Circuit, ops: seq<Op>): Circuit
    decreases |ops|
  {
    if ops == [] then b else RunOps(cfg, hasReader, Step(cfg, hasReader, b, ops[0]), ops[1..])
  }

  // An open circuit stays open, with the same opening time, through any evaluations
  // that read the clock before openedAt + cooldown and any outcomes of executions
  // still in flight; each of those evaluations answers Open.
  lemma {:induction false} OpenUntilCooldown(cfg: Config, hasReader: bool, b: Circuit, ops: seq<Op>, now: int, w: Evidence)
    requires b.state == Open
    requires forall op :: op in ops && op.Evaluate? ==> op.now < b.openedAt + cfg.cooldown
    requires now < b.openedAt + cfg.cooldown
    ensures var c := RunOps(cfg, hasReader, b, ops);
      && c.state == Open && c.openedAt == b.openedAt
      && EvaluateCircuit(cfg, hasReader, c, now, w).state == Open
    decreases |ops|
  {
    if ops != [] {
      var c := Step(cfg, hasReader, b, ops[0]);
      assert ops[0] in ops;
      OpenUntilCooldown(cfg, hasReader, c, ops[1..], now, w);
    }
  }

  // A probe that fails opens the circuit anew: it stays open for a full cooldown from the
  // failure, whatever happens meanwhile.
  lemma FailedProbeStartsACooldown(cfg: Config, hasReader: bool, b: Circuit, at: int, ops: seq<Op>, now: int, w: Evidence)
    requires b.state == HalfOpen && now < at + cfg.cooldown
    requires forall op :: op in ops && op.Evaluate? ==> op.now < at + cfg.cooldown
    ensures var c := RunOps(cfg, hasReader, RecordOn(b, true, at), ops);
      c.state == Open && c.openedAt == at && EvaluateCircuit(cfg, hasReader, c, now, w).state == Open
  {
    OpenUntilCooldown(cfg, hasReader, RecordOn(b, true, at), ops, now, w);
  }

  // The single-probe flag is up exactly while the circuit is half-open.
  lemma {:induction false} ProbeFlagIsHalfOpen(cfg: Config, hasReader: bool, b: Circuit, ops: seq<Op>)
    requires b.probeAllowed <==> b.state == HalfOpen
    ensures var c := RunOps(cfg, hasReader, b, ops); c.probeAllowed <==> c.state == HalfOpen
    decreases |ops|
  {
    if ops != [] {
      ProbeFlagIsHalfOpen(cfg, hasReader, Step(cfg, hasReader, b, ops[0]), ops[1..]);
    }
  }

  // The evaluations of a run that let their caller through.
  function LetThrough(cfg: Config, hasReader: bool, b: Circuit, ops: seq<Op>): nat
    decreases |ops|
  {
    if ops == [] then 0
    else
      var answer := if ops[0].Evaluate? then EvaluateCircuit(cfg, hasReader, b, ops[0].now, ops[0].evidence).state else Open;
      (if answer == Closed || answer == HalfOpen then 1 else 0)
      + LetThrough(cfg, hasReader, Step(cfg, hasReader, b, ops[0]), ops[1..])
  }

  // The first evaluation at or after the cooldown moves the circuit to half-open; from
  // then on every evaluation answers half-open until an outcome is recorded: n of them
  // let n callers through, so there is one probe only where there is one evaluation.
  // The single-probe flag is set and never consulted.
  lemma {:induction false} HalfOpenAdmitsEveryone(cfg: Config, hasReader: bool, b: Circuit, ops: seq<Op>)
    requires b.state == HalfOpen || (b.state == Open && ops != [] && ops[0].Evaluate? && ops[0].now - b.openedAt >= cfg.cooldown)
    requires forall op :: op in ops ==> op.Evaluate?
    ensures RunOps(cfg, hasReader, b, ops).state == HalfOpen
    ensures LetThrough(cfg, hasReader, b, ops) == |ops|
    ensures LetThrough(cfg, hasReader, b, ops) <= 1 <==> |ops| <= 1
    decreases |ops|
  {
    if ops != [] {
      assert ops[0] in ops;
      HalfOpenAdmitsEveryone(cfg, hasReader, Step(cfg, hasReader, b, ops[0]), ops[1..]);
    }
  }

  function Failures(ops: seq<Op>): nat {
    if ops == [] then 0 else (if ops[0].Record? && ops[0].failed then 1 else 0) + Failures(ops[1..])
  }

  // The in-memory count is every failure ever recorded: nothing resets it, not even a
  // successful probe.
  lemma {:induction false} FailuresAreNeverForgotten(cfg: Config, hasReader: bool, b: Circuit, ops: seq<Op>)
    ensures RunOps(cfg, hasReader, b, ops).failureCount == b.failureCount + Failures(ops)
    decreases |ops|
  {
    if ops != [] {
      FailuresAreNeverForgotten(cfg, hasReader, Step(cfg, hasReader, b, ops[0]), ops[1..]);
    }
  }

  // After a successful probe, an evaluation on clean evidence leaves the circuit closed
  // if and only if fewer failures than the threshold were ever recorded on it; past
  // that, recovery lasts no longer than until the next evaluation.
  lemma RecoveryLastsIff(cfg: Config, ops: seq<Op>, probeAt: int, now: int)
    requires cfg.failureThreshold > 0
    requires RunOps(cfg, true, FRESH, ops).state == HalfOpen
    ensures var c := RecordOn(RunOps(cfg, true, FRESH, ops), false, probeAt);
      && c.state == Closed
      && ((EvaluateCircuit(cfg, true, c, now, Some(FailureWindow(0, false))).state == Closed)
          <==> (Failures(ops) < cfg.failureThreshold))
  {
    FailuresAreNeverForgotten(cfg, true, FRESH, ops);
  }

  // ----- a recovery that does not last, on every configuration -----

  const CLEAN: Evidence := Some(FailureWindow(0, false))

  function FailTimes(n: nat, at: int): (ops: seq<Op>)
    ensures |ops| == n
  {
    seq(n, i => Record(true, at))
  }

  lemma {:induction false} FailTimesOnClosed(cfg: Config, b: Circuit, n: nat, at: int)
    requires b.state == Closed
    ensures RunOps(cfg, true, b, FailTimes(n, at)) == b.(failureCount := b.failureCount + n)
    ensures Failures(FailTimes(n, at)) == n
    decreases n
  {
    if n > 0 {
      assert FailTimes(n, at)[1..] == FailTimes(n - 1, at);
      FailTimesOnClosed(cfg, b.(failureCount := b.failureCount + 1), n - 1, at);
    }
  }

  lemma {:induction false} RunOpsConcat(cfg: Config, hasReader: bool, b: Circuit, xs: seq<Op>, ys: seq<Op>)
    ensures RunOps(cfg, hasReader, b, xs + ys) == RunOps(cfg, hasReader, RunOps(cfg, hasReader, b, xs), ys)
    ensures Failures(xs + ys) == Failures(xs) + Failures(ys)
    decreases |xs|
  {
    hide Step;
    if xs == [] {
      assert xs + ys == ys;
    } else {
      assert (xs + ys)[1..] == xs[1..] + ys;
      RunOpsConcat(cfg, hasReader, Step(cfg, hasReader, b, xs[0]), xs[1..], ys);
    }
  }

  // As many failures as the threshold, an evaluation that opens the circuit, and one
  // after the cooldown: the probe succeeds, and the next evaluation on clean evidence
  // opens the circuit again.
  lemma RecoveryCanFail(cfg: Config, now: int, probeAt: int, later: int) returns (ops: seq<Op>)
    requires cfg.failureThreshold > 0
    ensures RunOps(cfg, true, FRESH, ops).state == HalfOpen && Failures(ops) == cfg.failureThreshold
    ensures var c := RecordOn(RunOps(cfg, true, FRESH, ops), false, probeAt);
      c.state == Closed && EvaluateCircuit(cfg, true, c, later, CLEAN).state == Open
  {
    var fails := FailTimes(cfg.failureThreshold, now);
    var opens, probes := Evaluate(now, CLEAN), Evaluate(now + cfg.cooldown, CLEAN);
    ops := fails + [opens] + [probes];
    FailTimesOnClosed(cfg, FRESH, cfg.failureThreshold, now);
    OneOp(cfg, RunOps(cfg, true, FRESH, fails), opens);
    OneOp(cfg, RunOps(cfg, true, FRESH, fails + [opens]), probes);
    RunOpsConcat(cfg, true, FRESH, fails, [opens]);
    RunOpsConcat(cfg, true, FRESH, fails + [opens], [probes]);
    FailuresAreNeverForgotten(cfg, true, FRESH, ops);
    hide RunOps, Failures;
    ClosedTable(cfg, RecordOn(RunOps(cfg, true, FRESH, ops), false, probeAt), later, CLEAN);
  }

  lemma OneOp(cfg: Config, b: Circuit, op: Op)
    ensures RunOps(cfg, true, b, [op]) == Step(cfg, true, b, op)
    ensures Failures([op]) == if op.Record? && op.failed then 1 else 0
  {
    hide Step;
    assert [op][1..] == [];
  }
}
