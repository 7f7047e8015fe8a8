// The runner in its own form: runAsync, runBody and finishRecordStatus as methods over
// a shared record. Between any two of its atomic actions Interfere() lets cancellers
// and the parent context do whatever the protocol allows them.
module ExecutionRunner {
  import opened Seqs
  import opened ExecutionProtocol

  datatype StepRow = StepRow(id: string, ok: bool)

  datatype Shared = Shared(status: Status, signalled: bool, registered: bool, rows: seq<StepRow>)

  // What the environment may have done meanwhile.
  predicate Env(a: Shared, b: Shared) {
    && b.registered == a.registered && b.rows == a.rows
    && (a.signalled ==> b.signalled)
    && (b.status == a.status || (a.status.Running? && b.status.CancelRequested?))
  }

  function SharedOf(s: State, rows: seq<StepRow>): Shared {
    Shared(s.status, s.signalled, s.registered, rows)
  }

  // Env covers every run of cancellers and parent context in the protocol.
  lemma {:induction false} EnvCoversCancellers(n: nat, s: State, es: seq<Event>, rows: seq<StepRow>)
    requires forall e :: e in es ==> !e.RunnerStep?
    ensures Env(SharedOf(s, rows), SharedOf(Run(n, s, es), rows))
    ensures Run(n, s, es).pc == s.pc && Run(n, s, es).results == s.results
  {
    if es != [] {
      EnvCoversCancellers(n, s, es[..|es| - 1], rows);
      assert es[|es| - 1] in es;
    }
  }

  // UpdateStep upserts by id: a repeated id replaces its row.
  function Upsert(rows: seq<StepRow>, r: StepRow): seq<StepRow> {
    if rows == [] then [r]
    else if rows[0].id == r.id then [r] + rows[1..]
    else [rows[0]] + Upsert(rows[1..], r)
  }

  function UpsertAll(rows: seq<StepRow>, ids: seq<string>, results: seq<bool>): seq<StepRow>
    requires |results| <= |ids|
  {
    if results == [] then rows
    else
      var k := |results| - 1;
      Upsert(UpsertAll(rows, ids, results[..k]), StepRow(ids[k], results[k]))
  }

  lemma {:induction false} UpsertNew(rows: seq<StepRow>, r: StepRow)
    requires forall x :: x in rows ==> x.id != r.id
    ensures Upsert(rows, r) == rows + [r]
  {
    if rows != [] {
      UpsertNew(rows[1..], r);
    }
  }

  // With distinct step ids the rows are the executed prefix of the plan, in order.
  lemma {:induction false} RowsArePrefix(ids: seq<string>, results: seq<bool>)
    requires |results| <= |ids|
    requires forall i, j :: 0 <= i < j < |ids| ==> ids[i] != ids[j]
    ensures var rows := UpsertAll([], ids, results);
            |rows| == |results| && forall i :: 0 <= i < |rows| ==> rows[i] == StepRow(ids[i], results[i])
  {
    if results != [] {
      var k := |results| - 1;
      RowsArePrefix(ids, results[..k]);
      UpsertNew(UpsertAll([], ids, results[..k]), StepRow(ids[k], results[k]));
    }
  }

  // What the runner of the protocol has done is told by its events; the others' events
  // change nothing it owns.
  predicate Others(es: seq<Event>) {
    forall e :: e in es ==> !e.RunnerStep?
  }

  // One list of events goes on where another ended.
  predicate Extends(a: seq<Event>, b: seq<Event>) {
    a <= b
  }

  lemma RunSnoc(n: nat, s: State, es: seq<Event>, e: Event)
    ensures Run(n, s, es + [e]) == Step(n, Run(n, s, es), e)
  {
    assert (es + [e])[..|es|] == es;
  }

  // Where the check behind step i leads.
  function AfterCheck(signalled: bool, results: seq<bool>, i: nat): Pc {
    if signalled then Finish(Cancelled)
    else if results != [] && !results[|results| - 1] then Finish(Failed)
    else AtStep(i + 1)
  }

  // The runner's actions before and behind its step loop.
  lemma EndsOfTheRunner(n: nat, s: State)
    ensures s.pc.Spawned? ==> RunnerNext(n, s, true) == s.(registered := true, pc := BeforeFlip)
    ensures s.pc.BeforeFlip? && s.status.Planning? ==> RunnerNext(n, s, true) == s.(status := Running, pc := AtStep(0))
    ensures s.pc.BeforeFlip? && !s.status.Planning? ==> RunnerNext(n, s, true) == s.(pc := Unregister)
    ensures s.pc.Unregister? ==> RunnerNext(n, s, true) == s.(registered := false, pc := Done)
  {
  }

  class Execution {
    var status: Status
    var signalled: bool
    var registered: bool
    var rows: seq<StepRow>
    // the run of the protocol this object goes through: its plan length, its start and
    // its events so far
    ghost const steps: nat
    ghost const start: State
    ghost var trace: seq<Event>

    function View(): Shared
      reads this
    {
      Shared(status, signalled, registered, rows)
    }

    ghost function Now(): State
      reads this`trace
    {
      Run(steps, start, trace)
    }

    // The object is where its protocol run is.
    ghost predicate Tracks()
      reads this
    {
      View() == SharedOf(Now(), rows)
    }

    constructor (ghost n: nat)
      ensures View() == Shared(Planning, false, false, [])
      ensures steps == n && start == Submitted() && trace == [] && Tracks()
    {
      status, signalled, registered, rows := Planning, false, false, [];
      steps, start, trace := n, Submitted(), [];
    }

    // Whatever cancellers and the parent context do in between: any events of theirs.
    method Interfere()
      requires Tracks()
      modifies this`status, this`signalled, this`trace
      ensures Tracks() && Extends(old(trace), trace) && Others(trace[|old(trace)|..])
      ensures forall t :: Extends(t, old(trace)) ==> Extends(t, trace)
      ensures Env(old(View()), View())
      ensures (old(signalled) ==> signalled) && (status == old(status) || (old(status).Running? && status.CancelRequested?))
      ensures Now().pc == old(Now()).pc && Now().results == old(Now()).results
    {
    }

    // The runner's next action in the protocol has been taken.
    ghost method Did(ok: bool)
      modifies this`trace
      ensures trace == old(trace) + [RunnerStep(ok)]
      ensures Now() == RunnerNext(steps, old(Now()), ok)
    {
      RunSnoc(steps, start, trace, RunnerStep(ok));
      trace := trace + [RunnerStep(ok)];
    }

    // The same inside the step loop, where an action of the runner changes nothing that
    // others can see: where it goes, and what it has seen its steps return.
    ghost method DidInLoop(ok: bool)
      requires Tracks() && InLoop(Now().pc)
      modifies this`trace
      ensures Tracks()
      ensures forall t :: Extends(t, old(trace)) ==> Extends(t, trace)
      ensures match old(Now()).pc
        case AtStep(i) =>
          Now().pc == if i >= steps then Finish(Success) else if signalled then Finish(Cancelled) else Executing(i)
        case Executing(i) => Now().pc == Recording(i)
        case Recording(i) => Now().pc == AfterStep(i)
        case AfterStep(i) => Now().pc == AfterCheck(signalled, Now().results, i)
        case _ => true
      ensures Now().results == old(Now()).results + if old(Now()).pc.Executing? then [ok] else []
    {
      hide Run;
      Did(ok);
    }

    // The check in front of step i, or behind the last one.
    ghost method DidCheck(i: nat)
      requires Tracks() && Now().pc == AtStep(i)
      modifies this`trace
      ensures Tracks() && Now().results == old(Now()).results
      ensures forall t :: Extends(t, old(trace)) ==> Extends(t, trace)
      ensures Now().pc == if i >= steps then Finish(Success) else if signalled then Finish(Cancelled) else Executing(i)
    {
      hide Run, RunnerNext, Extends;
      DidInLoop(true);
    }

    // The store's compare-and-set.
    method Transition(from: Status, to: Status) returns (ok: bool)
      modifies this`status
      ensures ok == (old(status) == from)
      ensures status == if ok then to else old(status)
    {
      if status != from {
        return false;
      }
      status := to;
      ok := true;
    }

    method UpdateStep(r: StepRow)
      modifies this`rows
      ensures rows == Upsert(old(rows), r) && (old(Tracks()) ==> Tracks())
    {
      hide Run, Now;
      var i := 0;
      while i < |rows|
        invariant 0 <= i <= |rows| && rows == old(rows)
        invariant Upsert(rows, r) == rows[..i] + Upsert(rows[i..], r)
      {
        if rows[i].id == r.id {
          assert rows[i..][1..] == rows[i + 1..];
          rows := rows[..i] + [r] + rows[i + 1..];
          return;
        }
        assert rows[i..][1..] == rows[i + 1..];
        i := i + 1;
      }
      rows := rows + [r];
    }

    // Running -> final, or, when a Cancel was first, CancelRequested -> Cancelled. asked
    // tells which: a Cancel had moved the record before it was finished.
    method FinishRecordStatus(final: Status) returns (ghost asked: bool)
      requires Terminal(final) && Tracks() && Now().pc == Finish(final)
      modifies this`status, this`signalled, this`trace
      ensures Tracks() && Now().pc == Unregister && Now().results == old(Now()).results
      ensures forall t :: Extends(t, old(trace)) ==> Extends(t, trace)
      ensures old(status).Running? ==> !asked && status == final
      ensures old(status).CancelRequested? ==> asked && status == Cancelled
      ensures old(signalled) ==> signalled
    {
      hide Run;
      var ok := Transition(Running, final);
      Did(true);
      asked := !ok;
      if ok {
        return;
      }
      Interfere();
      ok := Transition(CancelRequested, Cancelled);
      Did(true);
    }

    // Success or Failed, by the result of the run.
    method FinishRecord(success: bool) returns (ghost asked: bool)
      requires Tracks() && Now().pc == Finish(if success then Success else Failed) && Live(status)
      modifies this`status, this`signalled, this`trace
      ensures Tracks() && Now().pc == Unregister && Now().results == old(Now()).results
      ensures forall t :: Extends(t, old(trace)) ==> Extends(t, trace)
      ensures status == if asked then Cancelled else if success then Success else Failed
      ensures old(status).CancelRequested? ==> asked
    {
      hide Run, Extends, Others, Env, Tracks, Now;
      Interfere();
      asked := FinishRecordStatus(if success then Success else Failed);
    }

    method CancelRun() returns (ghost asked: bool)
      requires Tracks() && Now().pc == Finish(Cancelled) && Live(status)
      modifies this`status, this`signalled, this`trace
      ensures Tracks() && Now().pc == Unregister && Now().results == old(Now()).results
      ensures forall t :: Extends(t, old(trace)) ==> Extends(t, trace)
      ensures status == Cancelled && (old(signalled) ==> signalled) && (old(status).CancelRequested? ==> asked)
    {
      hide Run, Extends, Others, Env, Tracks, Now;
      asked := FinishRecordStatus(Cancelled);
    }

    // One step: it executes, and its row is stored, with others acting in between. Up to
    // the check behind it.
    method ExecuteStep(ids: seq<string>, outcomes: seq<bool>, i: nat)
      requires |ids| == |outcomes| == steps && i < |ids|
      requires Tracks() && Now().pc == Executing(i) && Now().results == outcomes[..i] && Live(status)
      modifies this`status, this`signalled, this`rows, this`trace
      ensures Tracks() && Now().results == outcomes[..i + 1]
      ensures Now().pc == if signalled then Finish(Cancelled) else if !outcomes[i] then Finish(Failed) else AtStep(i + 1)
      ensures forall t :: Extends(t, old(trace)) ==> Extends(t, trace)
      ensures rows == Upsert(old(rows), StepRow(ids[i], outcomes[i]))
      ensures Live(status) && (old(status).CancelRequested? ==> status.CancelRequested?) && (old(signalled) ==> signalled)
    {
      hide Run, RunnerNext, Step, Extends, Others, Upsert, Env, Tracks, Now, SharedOf;
      Interfere();
      DidInLoop(outcomes[i]);
      assert outcomes[..i + 1] == outcomes[..i] + [outcomes[i]];
      Interfere();
      UpdateStep(StepRow(ids[i], outcomes[i]));
      DidInLoop(true);
      Interfere();
      DidInLoop(true);
    }

    // Every run of this method is a run of the protocol's runner, from its first context
    // check to its last status change.
    method RunBody(ids: seq<string>, outcomes: seq<bool>)
      returns (results: seq<bool>, success: bool, cancelled: bool, ghost asked: bool)
      requires |ids| == |outcomes| == steps
      requires Live(status) && Tracks() && Now().pc == AtStep(0) && Now().results == []
      modifies this`status, this`signalled, this`rows, this`trace
      ensures Tracks() && Now().pc == Unregister && Now().results == results
      ensures forall t :: Extends(t, old(trace)) ==> Extends(t, trace)
      ensures results <= outcomes
      ensures rows == UpsertAll(old(rows), ids, results)
      ensures forall i :: 0 <= i < |results| - 1 ==> results[i]
      ensures cancelled || asked ==> status.Cancelled?
      ensures !cancelled ==> results == outcomes || (results != [] && !results[|results| - 1])
      ensures !cancelled && !asked ==> status == if AllOk(outcomes) then Success else Failed
      ensures success <==> !cancelled && AllOk(outcomes)
      ensures cancelled ==> signalled
      ensures old(status).CancelRequested? ==> asked
      ensures old(signalled) && ids != [] ==> cancelled && results == []
    {
      hide Run, RunnerNext, Step, SharedOf, Upsert, UpsertAll, AllOk, Extends, Others, Tracks, Now, Env;
      results, success, cancelled, asked := [], false, false, false;
      UpsertNone(rows, ids);
      var i := 0;
      while i < |ids|
        invariant 0 <= i <= |ids|
        invariant Live(status)
        invariant forall t :: Extends(t, old(trace)) ==> Extends(t, trace)
        invariant Tracks() && Now().pc == AtStep(i) && Now().results == outcomes[..i]
        invariant results == outcomes[..i] && forall k :: 0 <= k < i ==> outcomes[k]
        invariant rows == UpsertAll(old(rows), ids, results)
        invariant !success && !cancelled && !asked
        invariant old(status).CancelRequested? ==> status.CancelRequested?
        invariant old(signalled) ==> signalled && i == 0
      {
        Interfere();
        DidCheck(i);
        if signalled {
          asked := CancelRun();
          return results, false, true, asked;
        }
        ExecuteStep(ids, outcomes, i);
        results := results + [outcomes[i]];
        assert results[..i] == outcomes[..i] && results == outcomes[..i + 1];
        UpsertOne(old(rows), ids, results);
        if signalled {
          asked := CancelRun();
          return results, false, true, asked;
        }
        if !outcomes[i] {
          NotAllOk(outcomes, i);
          asked := FinishRecord(false);
          return results, false, false, asked;
        }
        i := i + 1;
      }
      AllOkEach(outcomes);
      success := true;
      DidCheck(i);
      asked := FinishRecord(true);
    }

    // Registered before the record can be seen Running; the flip succeeds exactly when the
    // record is still Planning.
    method Launch() returns (ok: bool)
      requires Tracks() && Now().pc == Spawned
      modifies this`status, this`signalled, this`registered, this`trace
      ensures Tracks() && registered && Now().results == old(Now()).results
      ensures forall t :: Extends(t, old(trace)) ==> Extends(t, trace)
      ensures ok == (old(status) == Planning)
      ensures Now().pc == if ok then AtStep(0) else Unregister
      ensures if ok then status.Running? else status == old(status) || (old(status).Running? && status.CancelRequested?)
      ensures old(signalled) ==> signalled
    {
      hide Run, RunnerNext, Others;
      EndsOfTheRunner(steps, Now());
      registered := true;
      Did(true);
      Interfere();
      EndsOfTheRunner(steps, Now());
      ok := Transition(Planning, Running);
      Did(true);
    }

    // The goroutine body: register first, flip, run, unregister. A record that has
    // left Planning is not touched; FlipNeverConflicts shows it never has.
    method RunAsync(ids: seq<string>, outcomes: seq<bool>) returns (results: seq<bool>, cancelled: bool, ghost asked: bool)
      requires |ids| == |outcomes| == steps
      requires Tracks() && Now().pc == Spawned && Now().results == []
      modifies this
      ensures Tracks() && Extends(old(trace), trace) && Now().pc == Done && Now().results == results
      ensures !registered
      ensures results <= outcomes && rows == UpsertAll(old(rows), ids, results)
      ensures old(status) != Planning ==>
        results == [] && Env(old(View()).(registered := false), View())
      ensures old(status) == Planning ==>
        && (cancelled || asked ==> status.Cancelled?)
        && (!cancelled && !asked ==> status == if AllOk(outcomes) then Success else Failed)
        && (cancelled ==> signalled)
        && (!cancelled ==> results == outcomes || (results != [] && !results[|results| - 1]))
        && (old(signalled) && ids != [] ==> cancelled && results == [])
    {
      hide Run, RunnerNext, Others, Upsert, UpsertAll, AllOk;
      UpsertNone(rows, ids);
      results, cancelled, asked := [], false, false;
      assert Extends(old(trace), old(trace));
      var ok := Launch();
      if !ok {
        EndsOfTheRunner(steps, Now());
        registered := false;
        Did(true);
        return;
      }
      Interfere();
      var success;
      results, success, cancelled, asked := RunBody(ids, outcomes);
      EndsOfTheRunner(steps, Now());
      registered := false;
      Did(true);
    }
  }

  lemma UpsertOne(rows: seq<StepRow>, ids: seq<string>, results: seq<bool>)
    requires 0 < |results| <= |ids|
    ensures var k := |results| - 1;
      UpsertAll(rows, ids, results) == Upsert(UpsertAll(rows, ids, results[..k]), StepRow(ids[k], results[k]))
  {
  }

  lemma UpsertNone(rows: seq<StepRow>, ids: seq<string>)
    ensures UpsertAll(rows, ids, []) == rows
  {
  }

  lemma NotAllOk(rs: seq<bool>, i: nat)
    requires i < |rs| && !rs[i]
    ensures !AllOk(rs)
  {
    AllOkEach(rs);
  }
}
