// One submitted run racing with any number of cancellers on one record: the runner's
// atomic actions interleaved with compare-and-set, registry lookup and signal of each
// Cancel call, and with the parent context ending.
module ExecutionProtocol {
  import opened Seqs

  datatype Status = Planning | Running | CancelRequested | Cancelled | Success | Failed

  predicate Terminal(st: Status) {
    st.Cancelled? || st.Success? || st.Failed?
  }

  // The only edges a record's status ever takes.
  predicate LegalMove(a: Status, b: Status) {
    || a == b
    || (a.Planning? && b.Running?)
    || (a.Running? && (b.CancelRequested? || Terminal(b)))
    || (a.CancelRequested? && b.Cancelled?)
  }

  datatype Pc =
    | Spawned                 // runAsync, before Register
    | BeforeFlip              // registered, before Planning -> Running
    | SyncRegister            // the synchronous path: created Running, not registered
    | AtStep(i: nat)          // before the context check in front of step i, or after the last step
    | Executing(i: nat)
    | Recording(i: nat)       // step i returned, its row not yet written
    | AfterStep(i: nat)       // before the context check behind step i
    | Finish(final: Status)   // before Running -> final
    | Settle                  // before CancelRequested -> Cancelled
    | Unregister
    | Done

  // `held` counts the cancellers that looked the cancel function up and have not
  // called it yet; `accepted` remembers that a Cancel moved the record.
  datatype State = State(
    status: Status, registered: bool, signalled: bool, held: nat, accepted: bool,
    pc: Pc, results: seq<bool>, recorded: nat)

  datatype Event = RunnerStep(ok: bool) | CancelCas | CancelLookup | CancelSignal | ParentDone

  function Submitted(): State {
    State(Planning, false, false, 0, false, Spawned, [], 0)
  }

  function StartedSync(): State {
    State(Running, false, false, 0, false, SyncRegister, [], 0)
  }

  // The runner's next atomic action on a plan of n steps; ok is what an executing
  // step reports.
  function RunnerNext(n: nat, s: State, ok: bool): State {
    match s.pc
    case Spawned => s.(registered := true, pc := BeforeFlip)
    case BeforeFlip =>
      if s.status.Planning? then s.(status := Running, pc := AtStep(0)) else s.(pc := Unregister)
    case SyncRegister => s.(registered := true, pc := AtStep(0))
    case AtStep(i) =>
      if i >= n then s.(pc := Finish(Success))
      else if s.signalled then s.(pc := Finish(Cancelled))
      else s.(pc := Executing(i))
    case Executing(i) => s.(results := s.results + [ok], pc := Recording(i))
    case Recording(i) => s.(recorded := s.recorded + 1, pc := AfterStep(i))
    case AfterStep(i) =>
      if s.signalled then s.(pc := Finish(Cancelled))
      else if s.results != [] && !s.results[|s.results| - 1] then s.(pc := Finish(Failed))
      else s.(pc := AtStep(i + 1))
    case Finish(final) =>
      if s.status.Running? then s.(status := final, pc := Unregister) else s.(pc := Settle)
    case Settle =>
      if s.status.CancelRequested? then s.(status := Cancelled, pc := Unregister) else s.(pc := Unregister)
    case Unregister => s.(registered := false, pc := Done)
    case Done => s
  }

  function Step(n: nat, s: State, e: Event): State {
    match e
    case RunnerStep(ok) => RunnerNext(n, s, ok)
    case CancelCas => if s.status.Running? then s.(status := CancelRequested, accepted := true) else s
    case CancelLookup => if s.registered then s.(held := s.held + 1) else s
    case CancelSignal => if s.held > 0 then s.(held := s.held - 1, signalled := true) else s
    case ParentDone => s.(signalled := true)
  }

  function Run(n: nat, s: State, es: seq<Event>): State {
    if es == [] then s else Step(n, Run(n, s, es[..|es| - 1]), es[|es| - 1])
  }

  // ----- the invariant of every interleaving -----

  predicate AllOk(rs: seq<bool>) {
    rs == [] || (rs[|rs| - 1] && AllOk(rs[..|rs| - 1]))
  }

  lemma {:induction false} AllOkEach(rs: seq<bool>)
    ensures AllOk(rs) <==> forall i :: 0 <= i < |rs| ==> rs[i]
  {
    if rs != [] {
      AllOkEach(rs[..|rs| - 1]);
    }
  }

  predicate Live(st: Status) {
    st.Running? || st.CancelRequested?
  }

  predicate PcInv(n: nat, s: State) {
    match s.pc
    case Spawned => s.status.Planning? && !s.registered && s.results == []
    case BeforeFlip => s.status.Planning? && s.results == []
    case SyncRegister => Live(s.status) && s.results == []
    case AtStep(i) => Live(s.status) && i == |s.results| <= n && AllOk(s.results)
    case Executing(i) => Live(s.status) && i == |s.results| < n && AllOk(s.results)
    case Recording(i) => Live(s.status) && i + 1 == |s.results| <= n
    case AfterStep(i) => Live(s.status) && i + 1 == |s.results| <= n
    case Finish(final) => Live(s.status) && Justified(n, s, final)
    case Settle => s.status.CancelRequested?
    case Unregister => Terminal(s.status)
    case Done => Terminal(s.status) && !s.registered
  }

  // A final status is deserved by the steps that ran.
  predicate Justified(n: nat, s: State, final: Status) {
    match final
    case Success => |s.results| == n && AllOk(s.results)
    case Failed => s.results != [] && !s.results[|s.results| - 1]
    case Cancelled => true
    case _ => false
  }

  // What the steps that ran, and a status once reached, say about the past.
  predicate HistoryInv(n: nat, s: State) {
    && |s.results| <= n
    && AllOk(if s.results == [] then [] else s.results[..|s.results| - 1])
    && s.recorded == |s.results| - (if s.pc.Recording? then 1 else 0)
    && (Terminal(s.status) ==> (s.pc.Unregister? || s.pc.Done?) && Justified(n, s, s.status))
    && (s.accepted <==> s.status.CancelRequested? || (s.accepted && s.status.Cancelled?))
    && (s.status.Cancelled? ==> s.accepted || s.signalled)
    && (s.pc == Finish(Cancelled) ==> s.signalled)
  }

  predicate Inv(n: nat, s: State) {
    PcInv(n, s) && HistoryInv(n, s)
  }

  predicate InLoop(pc: Pc) {
    pc.AtStep? || pc.Executing? || pc.Recording? || pc.AfterStep?
  }

  lemma LoopKeepsPc(n: nat, s: State, ok: bool)
    requires Inv(n, s) && InLoop(s.pc)
    ensures PcInv(n, RunnerNext(n, s, ok))
  {
    hide LegalMove;
    match s.pc
    case AtStep(i) =>
    case Executing(i) =>
    case Recording(i) =>
    case AfterStep(i) =>
      assert AllOk(s.results) <==> s.results[|s.results| - 1];
  }

  lemma EndsKeepPc(n: nat, s: State, ok: bool)
    requires Inv(n, s) && !InLoop(s.pc)
    ensures PcInv(n, RunnerNext(n, s, ok))
  {
    hide AllOk;
    assert s.results == [] ==> AllOk(s.results);
  }

  lemma RunnerKeepsInv(n: nat, s: State, ok: bool)
    requires Inv(n, s)
    ensures Inv(n, RunnerNext(n, s, ok))
    ensures s.results <= RunnerNext(n, s, ok).results
  {
    if InLoop(s.pc) {
      LoopKeepsPc(n, s, ok);
    } else {
      EndsKeepPc(n, s, ok);
    }
    hide PcInv;
    assert (s.results + [ok])[..|s.results|] == s.results;
  }

  lemma StepKeepsInv(n: nat, s: State, e: Event)
    requires Inv(n, s)
    ensures Inv(n, Step(n, s, e))
    ensures LegalMove(s.status, Step(n, s, e).status)
    ensures s.results <= Step(n, s, e).results
  {
    hide AllOk;
    if e.RunnerStep? {
      RunnerKeepsInv(n, s, e.ok);
    }
  }

  lemma {:induction false} RunKeepsInv(n: nat, s: State, es: seq<Event>)
    requires Inv(n, s)
    ensures Inv(n, Run(n, s, es))
    ensures Terminal(s.status) ==> Run(n, s, es).status == s.status
    ensures s.accepted ==> Run(n, s, es).accepted
    ensures s.results <= Run(n, s, es).results
  {
    if es != [] {
      hide Inv;
      var init := es[..|es| - 1];
      RunKeepsInv(n, s, init);
      StepKeepsInv(n, Run(n, s, init), es[|es| - 1]);
    }
  }

  lemma StartsKeepInv(n: nat)
    ensures Inv(n, Submitted()) && Inv(n, StartedSync())
  {
  }

  // What the invariant says about a record at any point of a run.
  predicate Honest(n: nat, s: State) {
    && (s.pc.Done? ==> Terminal(s.status))
    && (s.status.Success? ==> |s.results| == n && forall i :: 0 <= i < n ==> s.results[i])
    && (s.status.Failed? ==> s.results != [] && !s.results[|s.results| - 1])
    && (s.status.Cancelled? ==> s.accepted || s.signalled)
    && (s.accepted && Terminal(s.status) ==> s.status.Cancelled?)
    && |s.results| <= n
    && (forall i :: 0 <= i < |s.results| - 1 ==> s.results[i])
  }

  lemma InvIsHonest(n: nat, s: State)
    requires Inv(n, s)
    ensures Honest(n, s)
  {
    AllOkEach(s.results);
    if s.results != [] {
      AllOkEach(s.results[..|s.results| - 1]);
    }
  }

  // Every interleaving of a run with Cancels: at each point k the status moves along a
  // legal edge, a terminal status is final, and the record is honest about the steps
  // that ran, which are a prefix of the plan.
  lemma {:induction false} EveryInterleaving(n: nat, start: State, es: seq<Event>, k: nat)
    requires start == Submitted() || start == StartedSync()
    requires k < |es|
    ensures LegalMove(Run(n, start, es[..k]).status, Run(n, start, es[..k + 1]).status)
    ensures Terminal(Run(n, start, es[..k]).status) ==> Run(n, start, es).status == Run(n, start, es[..k]).status
    ensures Run(n, start, es[..k]).results <= Run(n, start, es).results
    ensures Honest(n, Run(n, start, es))
  {
    hide Step, Inv, Honest;
    StartsKeepInv(n);
    RunKeepsInv(n, start, es[..k]);
    assert es[..k + 1][..k] == es[..k];
    StepKeepsInv(n, Run(n, start, es[..k]), es[k]);
    RunConcat(n, start, es[..k], es[k..]);
    assert es[..k] + es[k..] == es;
    RunKeepsInv(n, Run(n, start, es[..k]), es[k..]);
    InvIsHonest(n, Run(n, start, es));
  }

  lemma {:induction false} RunConcat(n: nat, s: State, a: seq<Event>, b: seq<Event>)
    ensures Run(n, s, a + b) == Run(n, Run(n, s, a), b)
  {
    hide Step;
    if b == [] {
      assert a + b == a;
    } else {
      assert (a + b)[..|a + b| - 1] == a + b[..|b| - 1];
      RunConcat(n, s, a, b[..|b| - 1]);
    }
  }

  // The conflict branch of the Planning -> Running flip is never taken: no Cancel can
  // move a record that is still Planning.
  lemma FlipNeverConflicts(n: nat, es: seq<Event>)
    ensures var s := Run(n, Submitted(), es); s.pc.BeforeFlip? ==> s.status.Planning?
  {
    StartsKeepInv(n);
    RunKeepsInv(n, Submitted(), es);
  }

  // ----- the runner ends -----

  function Remaining(n: nat, s: State): nat {
    match s.pc
    case Spawned => 4 * n + 7
    case BeforeFlip => 4 * n + 6
    case SyncRegister => 4 * n + 5
    case AtStep(i) => if i < n then 4 * (n - i) + 4 else 4
    case Executing(i) => if i < n then 4 * (n - i) + 3 else 3
    case Recording(i) => if i < n then 4 * (n - i) + 2 else 3
    case AfterStep(i) => if i < n then 4 * (n - i) + 1 else 3
    case Finish(_) => 3
    case Settle => 2
    case Unregister => 1
    case Done => 0
  }

  function RunnerSteps(es: seq<Event>): nat {
    if es == [] then 0
    else RunnerSteps(es[..|es| - 1]) + if es[|es| - 1].RunnerStep? then 1 else 0
  }

  lemma LoopProgress(n: nat, s: State, ok: bool)
    requires PcInv(n, s) && InLoop(s.pc)
    ensures Remaining(n, RunnerNext(n, s, ok)) < Remaining(n, s)
  {
    hide AllOk;
    match s.pc
    case AtStep(i) =>
    case Executing(i) =>
    case Recording(i) =>
    case AfterStep(i) =>
  }

  lemma StepProgress(n: nat, s: State, e: Event)
    requires PcInv(n, s)
    ensures Remaining(n, Step(n, s, e)) <= Remaining(n, s)
    ensures e.RunnerStep? && Remaining(n, s) > 0 ==> Remaining(n, Step(n, s, e)) < Remaining(n, s)
  {
    hide AllOk, Justified;
    if e.RunnerStep? && InLoop(s.pc) {
      LoopProgress(n, s, e.ok);
    }
  }

  // Whatever the cancellers do, 4n + 7 actions of the runner settle the record.
  lemma {:induction false} RunnerFinishes(n: nat, s: State, es: seq<Event>)
    requires Inv(n, s)
    ensures Remaining(n, Run(n, s, es)) + RunnerSteps(es) <= Remaining(n, s)
            || Remaining(n, Run(n, s, es)) == 0
    ensures RunnerSteps(es) >= Remaining(n, s) ==> Run(n, s, es).pc.Done? && Terminal(Run(n, s, es).status)
  {
    RunKeepsInv(n, s, es);
    if es != [] {
      hide Step, Inv;
      var init := es[..|es| - 1];
      RunnerFinishes(n, s, init);
      RunKeepsInv(n, s, init);
      InvHasPc(n, Run(n, s, init));
      StepProgress(n, Run(n, s, init), es[|es| - 1]);
    }
    DoneIsTerminal(n, Run(n, s, es));
  }

  lemma InvHasPc(n: nat, s: State)
    requires Inv(n, s)
    ensures PcInv(n, s)
  {
  }

  lemma DoneIsTerminal(n: nat, s: State)
    requires Inv(n, s)
    ensures Remaining(n, s) == 0 ==> s.pc.Done? && Terminal(s.status)
  {
  }

  // ----- when a cancel counts -----

  // The whole Cancel call, undisturbed.
  function CancelCall(n: nat, s: State): State {
    Run(n, s, [CancelCas, CancelLookup, CancelSignal])
  }

  lemma CancelCallSteps(n: nat, s: State)
    ensures CancelCall(n, s) == Step(n, Step(n, Step(n, s, CancelCas), CancelLookup), CancelSignal)
  {
    var es := [CancelCas, CancelLookup, CancelSignal];
    assert es[..2][..1] == es[..1] && es[..1][..0] == [];
    assert Run(n, s, es[..1]) == Step(n, s, CancelCas);
    assert Run(n, s, es[..2]) == Step(n, Step(n, s, CancelCas), CancelLookup);
  }

  // A Cancel call leaves no trace exactly when the record is not Running and the run
  // either is not registered yet (or any more) or is already signalled.
  lemma CancelIsLostIff(n: nat, s: State)
    requires s.held == 0
    ensures CancelCall(n, s) == s <==> !s.status.Running? && (!s.registered || s.signalled)
  {
    CancelCallSteps(n, s);
  }

  // A run that nothing stops, its steps all successful so far: a signal goes unnoticed
  // when the plan has no step.
  predicate OnTrack(n: nat, s: State) {
    Inv(n, s) && Unstopped(n, s)
  }

  predicate Unstopped(n: nat, s: State) {
    && (s.signalled ==> n == 0) && AllOk(s.results) && !s.status.CancelRequested? && !s.status.Cancelled?
    && (s.pc.Finish? ==> s.pc.final.Success?) && (Terminal(s.status) ==> s.status.Success?)
  }

  lemma StaysUnstopped(n: nat, s: State)
    requires PcInv(n, s) && Unstopped(n, s)
    ensures Unstopped(n, RunnerNext(n, s, true))
  {
    AllOkSnoc(s.results);
    hide AllOk, Justified;
    match s.pc
    case AtStep(i) =>
    case AfterStep(i) =>
    case _ =>
  }

  lemma AllOkSnoc(rs: seq<bool>)
    requires AllOk(rs)
    ensures AllOk(rs + [true]) && (rs != [] ==> rs[|rs| - 1])
  {
    assert (rs + [true])[..|rs|] == rs;
  }

  lemma StaysOnTrack(n: nat, s: State)
    requires OnTrack(n, s)
    ensures OnTrack(n, Step(n, s, RunnerStep(true)))
  {
    InvHasPc(n, s);
    StepKeepsInv(n, s, RunnerStep(true));
    StaysUnstopped(n, s);
    hide Inv, Unstopped, RunnerNext;
  }

  // Nothing but the runner acting, and every step it executes succeeds.
  predicate Undisturbed(es: seq<Event>) {
    es == [] || (es[|es| - 1] == RunnerStep(true) && Undisturbed(es[..|es| - 1]))
  }

  lemma {:induction false} RunStaysOnTrack(n: nat, s: State, es: seq<Event>)
    requires OnTrack(n, s) && Undisturbed(es)
    ensures OnTrack(n, Run(n, s, es)) && RunnerSteps(es) == |es|
  {
    if es != [] {
      RunStaysOnTrack(n, s, es[..|es| - 1]);
      hide Step, OnTrack;
      StaysOnTrack(n, Run(n, s, es[..|es| - 1]));
    }
  }

  // Such a lost cancel, for a plan of any length: it arrives before the runner goroutine
  // has registered, changes nothing, and the run goes on to succeed.
  lemma EarlyCancelIsLost(n: nat, es: seq<Event>)
    requires |es| >= 4 * n + 7 && Undisturbed(es)
    ensures CancelCall(n, Submitted()) == Submitted()
    ensures Run(n, CancelCall(n, Submitted()), es).pc.Done? && Run(n, CancelCall(n, Submitted()), es).status == Success
  {
    CancelIsLostIff(n, Submitted());
    StartsKeepInv(n);
    RunStaysOnTrack(n, Submitted(), es);
    hide Run, Step;
    RunnerFinishes(n, Submitted(), es);
  }

  // The signal is in and the runner still has a context check in front of it.
  predicate WillSeeSignal(n: nat, s: State) {
    && s.signalled
    && match s.pc
       case Spawned => n > 0
       case BeforeFlip => n > 0
       case SyncRegister => n > 0
       case AtStep(i) => i < n
       case Executing(_) => true
       case Recording(_) => true
       case AfterStep(_) => true
       case Finish(final) => final == Cancelled
       case Settle => true
       case _ => s.status.Cancelled?
  }

  lemma SeesSignalStep(n: nat, s: State, e: Event)
    requires Inv(n, s) && WillSeeSignal(n, s)
    ensures WillSeeSignal(n, Step(n, s, e))
  {
  }

  lemma {:induction false} SignalledRunIsCancelled(n: nat, s: State, es: seq<Event>)
    requires Inv(n, s) && WillSeeSignal(n, s)
    ensures WillSeeSignal(n, Run(n, s, es))
    ensures Run(n, s, es).pc.Done? ==> Run(n, s, es).status == Cancelled
  {
    if es != [] {
      hide Step, Inv;
      var init := es[..|es| - 1];
      SignalledRunIsCancelled(n, s, init);
      RunKeepsInv(n, s, init);
      SeesSignalStep(n, Run(n, s, init), es[|es| - 1]);
    }
  }

  ghost predicate AlwaysCancelled(n: nat, s: State) {
    forall es :: Run(n, s, es).pc.Done? ==> Run(n, s, es).status == Cancelled
  }

  // A run signalled before it starts ends Cancelled in every interleaving exactly when
  // its plan has a step: with no step there is no context check.
  lemma {:induction false} SignalBeforeStartIff(n: nat)
    ensures var s := Submitted().(registered := true, signalled := true, pc := BeforeFlip);
            AlwaysCancelled(n, s) <==> n > 0
  {
    var s := Submitted().(registered := true, signalled := true, pc := BeforeFlip);
    if n > 0 {
      forall es ensures Run(n, s, es).pc.Done? ==> Run(n, s, es).status == Cancelled {
        SignalledRunIsCancelled(n, s, es);
      }
    } else {
      var r := RunnerStep(true);
      var es := [r, r, r, r];
      assert es[..3][..2] == es[..2] && es[..2][..1] == es[..1] && es[..1][..0] == [];
      assert Run(n, s, es[..1]).pc == AtStep(0);
      assert Run(n, s, es[..2]).pc == Finish(Success);
      assert Run(n, s, es[..3]).status == Success;
      assert Run(n, s, es).pc.Done? && Run(n, s, es).status == Success;
      assert !AlwaysCancelled(n, s);
    }
  }

  // ----- when a cancel is honoured -----

  // Only a registered run can be looked up.
  predicate Registry(s: State) {
    (s.pc.Spawned? ==> s.held == 0 && !s.registered) && (s.pc.BeforeFlip? ==> s.registered)
  }

  lemma {:induction false} RunKeepsRegistry(n: nat, s: State, es: seq<Event>)
    requires Registry(s)
    ensures Registry(Run(n, s, es))
  {
    if es != [] {
      RunKeepsRegistry(n, s, es[..|es| - 1]);
    }
  }

  function Alone(k: nat): (es: seq<Event>)
    ensures |es| == k
  {
    seq(k, i => RunnerStep(true))
  }

  lemma {:induction false} AloneIsUndisturbed(k: nat)
    ensures Undisturbed(Alone(k)) && RunnerSteps(Alone(k)) == k
  {
    if k > 0 {
      assert Alone(k)[..k - 1] == Alone(k - 1);
      AloneIsUndisturbed(k - 1);
    }
  }

  // From a record that is not and will not be cancelled on its own, the runner left alone
  // gets to the end.
  lemma LeftAloneEnds(n: nat, s: State) returns (es: seq<Event>)
    requires Inv(n, s) && (OnTrack(n, s) || s.status.Success? || s.status.Failed?)
    ensures Run(n, s, es).pc.Done? && Run(n, s, es).status != Cancelled
  {
    es := Alone(Remaining(n, s));
    AloneIsUndisturbed(Remaining(n, s));
    RunnerFinishes(n, s, es);
    RunKeepsInv(n, s, es);
    if OnTrack(n, s) {
      RunStaysOnTrack(n, s, es);
    }
  }

  // Whether a Cancel that arrives now is bound to end the record Cancelled.
  predicate Honoured(n: nat, s: State) {
    match s.status
    case Running => true
    case CancelRequested => true
    case Cancelled => true
    case Planning => n > 0 && (s.registered || s.signalled)
    case _ => false
  }

  // At every point of every interleaving: a Cancel call ends the record Cancelled,
  // whatever else happens, exactly when the run has started and has not ended otherwise,
  // or has not started, has a step, and is registered or was signalled already.
  lemma CancelIsHonouredIff(n: nat, start: State, past: seq<Event>)
    requires start == Submitted() || start == StartedSync()
    ensures var s := Run(n, start, past);
      AlwaysCancelled(n, CancelCall(n, s)) <==> Honoured(n, s)
  {
    var s := Run(n, start, past);
    StartsKeepInv(n);
    RunKeepsInv(n, start, past);
    RunKeepsRegistry(n, start, past);
    hide Run, CancelCall;
    if Honoured(n, s) {
      HonouredIsCancelled(n, s);
    } else {
      UnhonouredCanEndOtherwise(n, s);
    }
  }

  lemma CancelKeepsInv(n: nat, s: State)
    requires Inv(n, s)
    ensures Inv(n, CancelCall(n, s))
  {
    RunKeepsInv(n, s, [CancelCas, CancelLookup, CancelSignal]);
  }

  lemma HonouredIsCancelled(n: nat, s: State)
    requires Inv(n, s) && Registry(s) && Honoured(n, s)
    ensures AlwaysCancelled(n, CancelCall(n, s))
  {
    var t := CancelCall(n, s);
    CancelCallSteps(n, s);
    CancelKeepsInv(n, s);
    assert t.accepted || t.status.Cancelled? || WillSeeSignal(n, t);
    hide Step, CancelCall;
    forall es ensures Run(n, t, es).pc.Done? ==> Run(n, t, es).status == Cancelled {
      RunKeepsInv(n, t, es);
      InvIsHonest(n, Run(n, t, es));
      if WillSeeSignal(n, t) {
        SignalledRunIsCancelled(n, t, es);
      }
    }
  }

  lemma UnhonouredCanEndOtherwise(n: nat, s: State)
    requires Inv(n, s) && Registry(s) && !Honoured(n, s)
    ensures !AlwaysCancelled(n, CancelCall(n, s))
  {
    var t := CancelCall(n, s);
    CancelCallSteps(n, s);
    CancelKeepsInv(n, s);
    assert OnTrack(n, t) || t.status.Success? || t.status.Failed?;
    hide Step, CancelCall;
    var es := LeftAloneEnds(n, t);
    assert Run(n, t, es).status != Cancelled;
  }
}
