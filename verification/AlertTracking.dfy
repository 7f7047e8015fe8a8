// The alert tracker: a boolean signal folded into edge events, a ring of the newest
// 256 of them, and reconstruction from the durable store after a restart.
module AlertTracking {
  import opened Seqs
  import opened TransitionFile
  import opened TransitionRuns
  import opened TransitionStore

  const TRANSITION_HISTORY_CAPACITY: nat := 256
  const ZERO_TIME: int := 0

  datatype Condition = Condition(firing: bool, unknownRate: int, threshold: int, window: int)

  // Firing when a positive threshold is reached by the missing-evidence rejections.
  function ComputeAlertCondition(
    breakerUnknown: int, quotaUnavailable: int, threshold: int, window: int): (c: Condition)
    ensures c.firing <==> 0 < threshold <= breakerUnknown + quotaUnavailable
  {
    var unknown := breakerUnknown + quotaUnavailable;
    Condition(threshold > 0 && unknown >= threshold, unknown, threshold, window)
  }

  // More missing evidence never silences the alert, and a higher threshold never raises
  // it; a threshold that is not positive switches it off.
  lemma AlertIsMonotone(b: int, q: int, t: int, b': int, q': int, t': int, window: int)
    requires b <= b' && q <= q' && 0 < t' <= t
    ensures ComputeAlertCondition(b, q, t, window).firing ==> ComputeAlertCondition(b', q', t', window).firing
    ensures !ComputeAlertCondition(b, q, -t, window).firing && !ComputeAlertCondition(b, q, 0, window).firing
  {
  }

  datatype Tracker = Tracker(
    firing: bool, since: int, unknownRate: int, threshold: int, window: int,
    ring: seq<Transition>, historyDropped: nat,
    historyLoaded: bool, loadError: bool, historyCorrupt: bool,
    metaInconsistent: bool, fileDropped: int)

  const EmptyTracker: Tracker :=
    Tracker(false, ZERO_TIME, 0, 0, 0, [], 0, false, false, false, false, 0)

  // A tracker without a store, and one rebuilt from what Load found.
  function InMemory(): Tracker {
    EmptyTracker.(historyLoaded := true)
  }

  function Rebuilt(r: LoadResult): Tracker {
    if r.loadErr || r.corrupt then
      EmptyTracker.(loadError := r.loadErr, historyCorrupt := r.corrupt)
    else
      EmptyTracker.(
        historyLoaded := true,
        metaInconsistent := r.metaInconsistent,
        fileDropped := r.fileDropped,
        firing := r.transitions != [] && r.transitions[|r.transitions| - 1].to,
        ring := LastN(r.transitions, TRANSITION_HISTORY_CAPACITY))
  }

  function Push(t: Tracker, tr: Transition): Tracker {
    if |t.ring| >= TRANSITION_HISTORY_CAPACITY then
      t.(ring := t.ring[1..] + [tr], historyDropped := t.historyDropped + 1)
    else
      t.(ring := t.ring + [tr])
  }

  // The first observation after a failed load only sets the baseline.
  predicate TakesBaseline(t: Tracker, hasStore: bool) {
    hasStore && (t.loadError || t.historyCorrupt) && !t.historyLoaded
  }

  function Edge(t: Tracker, hasStore: bool, c: Condition, now: int): Option<Transition> {
    if TakesBaseline(t, hasStore) || c.firing == t.firing then None
    else Some(Transition(now, t.firing, c.firing, c.unknownRate, c.threshold))
  }

  function AfterObserve(t: Tracker, hasStore: bool, c: Condition, now: int): Tracker {
    var edge := Edge(t, hasStore, c, now);
    var t1 :=
      if edge.Some? then Push(t.(firing := c.firing, since := if c.firing then now else ZERO_TIME), edge.value)
      else if TakesBaseline(t, hasStore) then
        t.(firing := c.firing, since := if c.firing then now else ZERO_TIME, historyLoaded := true)
      else t;
    t1.(unknownRate := c.unknownRate, threshold := c.threshold, window := c.window)
  }

  // ----- the object -----

  class AlertTracker {
    var state: Tracker
    const store: FileBackedTransitionStore?

    constructor (store: FileBackedTransitionStore?)
      modifies if store == null then {} else {store}
      ensures this.store == store
      ensures state == if store == null then InMemory() else Rebuilt(Load(old(store.View())))
      ensures store != null ==>
        store.View() == if old(store.openErr) then old(store.View()) else Refresh(old(store.View()))
    {
      this.store := store;
      state := EmptyTracker;
      new;
      if store == null {
        state := state.(historyLoaded := true);
        return;
      }
      var r := store.Load();
      if r.loadErr || r.corrupt {
        state := state.(loadError := r.loadErr, historyCorrupt := r.corrupt, historyLoaded := false);
        return;
      }
      state := state.(metaInconsistent := r.metaInconsistent, fileDropped := r.fileDropped);
      if |r.transitions| > 0 {
        var start := 0;
        if |r.transitions| > TRANSITION_HISTORY_CAPACITY {
          start := |r.transitions| - TRANSITION_HISTORY_CAPACITY;
        }
        state := state.(firing := r.transitions[|r.transitions| - 1].to, ring := r.transitions[start..]);
      }
      state := state.(historyLoaded := true);
    }

    method Observe(c: Condition, now: int, io: AppendIO)
      modifies this, if store == null then {} else {store}
      ensures state == AfterObserve(old(state), store != null, c, now)
      ensures store != null ==>
        var edge := Edge(old(state), true, c, now);
        store.View() == if edge.Some? && old(state).historyLoaded then Append(old(store.View()), edge.value, io)
                        else old(store.View())
    {
      if store != null && (state.loadError || state.historyCorrupt) && !state.historyLoaded {
        state := state.(firing := c.firing, since := if c.firing then now else ZERO_TIME,
                        historyLoaded := true, unknownRate := c.unknownRate,
                        threshold := c.threshold, window := c.window);
        return;
      }
      if c.firing && !state.firing {
        state := state.(firing := true, since := now);
        RecordEdge(now, false, true, c, io);
      } else if !c.firing && state.firing {
        state := state.(firing := false, since := ZERO_TIME);
        RecordEdge(now, true, false, c, io);
      }
      state := state.(unknownRate := c.unknownRate, threshold := c.threshold, window := c.window);
    }

    method RecordEdge(now: int, from: bool, to: bool, c: Condition, io: AppendIO)
      modifies this, if store == null then {} else {store}
      ensures state == Push(old(state), Transition(now, from, to, c.unknownRate, c.threshold))
      ensures store != null ==>
        store.View() == if old(state).historyLoaded
                        then Append(old(store.View()), Transition(now, from, to, c.unknownRate, c.threshold), io)
                        else old(store.View())
    {
      var tr := Transition(now, from, to, c.unknownRate, c.threshold);
      if |state.ring| >= TRANSITION_HISTORY_CAPACITY {
        state := state.(ring := state.ring[1..], historyDropped := state.historyDropped + 1);
      }
      state := state.(ring := state.ring + [tr]);
      if store != null && state.historyLoaded {
        var _ := store.Append(state.ring[|state.ring| - 1], io);
      }
    }

    // A copy of the ring, newest first.
    method Transitions() returns (out: seq<Transition>)
      ensures out == Reverse(state.ring)
    {
      out := [];
      var i := |state.ring|;
      while i > 0
        invariant 0 <= i <= |state.ring| && |out| == |state.ring| - i
        invariant forall k :: 0 <= k < |out| ==> out[k] == state.ring[|state.ring| - 1 - k]
      {
        i := i - 1;
        out := out + [state.ring[i]];
      }
    }
  }

  // ----- runs over a healthy store -----

  datatype Tick = Tick(c: Condition, now: int, io: AppendIO)

  datatype System = System(t: Tracker, s: Store)

  function StepTick(x: System, k: Tick): System {
    var edge := Edge(x.t, true, k.c, k.now);
    System(AfterObserve(x.t, true, k.c, k.now),
           if edge.Some? && x.t.historyLoaded then Append(x.s, edge.value, k.io) else x.s)
  }

  function RunTicks(x: System, ks: seq<Tick>): System {
    if ks == [] then x else StepTick(RunTicks(x, ks[..|ks| - 1]), ks[|ks| - 1])
  }

  // Every write works; closing or evicting may still fail.
  predicate AllWritten(ks: seq<Tick>) {
    ks == [] || (!ks[|ks| - 1].io.writeFails && AllWritten(ks[..|ks| - 1]))
  }

  // The edges of an observed signal, told from the signal alone.
  function FiringAfter(f: bool, ks: seq<Tick>): bool {
    if ks == [] then f else ks[|ks| - 1].c.firing
  }

  function Edges(f: bool, ks: seq<Tick>): seq<Transition> {
    if ks == [] then []
    else
      var init, k := ks[..|ks| - 1], ks[|ks| - 1];
      Edges(f, init) + EdgeOf(FiringAfter(f, init), k)
  }

  predicate Chained(ts: seq<Transition>) {
    forall i :: 0 <= i < |ts| ==> ts[i].from != ts[i].to && (i > 0 ==> ts[i].from == ts[i - 1].to)
  }

  function LastTo(ts: seq<Transition>, otherwise: bool): bool {
    if ts == [] then otherwise else ts[|ts| - 1].to
  }

  lemma {:induction false} EdgesAreChained(f: bool, ks: seq<Tick>)
    ensures Chained(Edges(f, ks))
    ensures LastTo(Edges(f, ks), f) == FiringAfter(f, ks)
    ensures Edges(f, ks) != [] ==> Edges(f, ks)[0].from == f
  {
    if ks != [] {
      EdgesAreChained(f, ks[..|ks| - 1]);
    }
  }

  // The tracker and the store tell one history, everything they ever recorded.
  predicate InStep(x: System, h: seq<Transition>) {
    && Clean(x.s)
    && Same(Transitions(ContentsOf(x.s).records), h)
    && x.t.historyLoaded && !x.t.loadError && !x.t.historyCorrupt
    && x.t.firing == LastTo(h, false)
    && x.t.ring == LastN(h, TRANSITION_HISTORY_CAPACITY)
  }

  // Retained is the whole history, or at least its newest CAPACITY entries.
  predicate Same(retained: seq<Transition>, h: seq<Transition>) {
    IsSuffix(retained, h) && (retained == h || |retained| >= FILE_TRANSITION_CAPACITY)
  }

  lemma SameAfter(retained: seq<Transition>, h: seq<Transition>, tr: Transition, kept: seq<Transition>)
    requires Same(retained, h) && IsSuffix(kept, retained + [tr])
    requires kept == retained + [tr] || |kept| >= FILE_TRANSITION_CAPACITY
    ensures Same(kept, h + [tr])
  {
    assert IsSuffix(retained + [tr], h + [tr]);
    SuffixTransitive(kept, retained + [tr], h + [tr]);
  }

  lemma AppendToKeepsSame(c: Contents, h: seq<Transition>, tr: Transition, io: AppendIO)
    requires !io.writeFails && Same(Transitions(c.records), h)
    ensures Same(Transitions(AppendTo(c, tr, io).records), h + [tr])
  {
    hide Watermark;
    var all := c.records + [Record(Watermark(c) + 1, tr)];
    var kept := AppendTo(c, tr, io).records;
    assert IsSuffix(kept, all);
    assert Transitions(all) == Transitions(c.records) + [tr];
    assert Transitions(kept) == Transitions(all)[|all| - |kept|..];
    SameAfter(Transitions(c.records), h, tr, Transitions(kept));
  }

  lemma AppendKeepsSame(s: Store, h: seq<Transition>, tr: Transition, io: AppendIO)
    requires Clean(s) && !io.writeFails && Same(Transitions(ContentsOf(s).records), h)
    ensures Clean(Append(s, tr, io))
    ensures Same(Transitions(ContentsOf(Append(s, tr, io)).records), h + [tr])
  {
    hide Sound, ContentsOf, Append, Encode, Same, AppendTo;
    AppendRefines(ContentsOf(s), tr, io);
    CleanOf(AppendTo(ContentsOf(s), tr, io));
    AppendToKeepsSame(ContentsOf(s), h, tr, io);
  }

  lemma LastNAfter(h: seq<Transition>, tr: Transition, t: Tracker)
    requires t.ring == LastN(h, TRANSITION_HISTORY_CAPACITY)
    ensures Push(t, tr).ring == LastN(h + [tr], TRANSITION_HISTORY_CAPACITY)
  {
  }

  // Rebuilding from the store agrees with a tracker that is in step with it: same
  // firing flag, same ring.
  lemma RebuildAgrees(x: System, h: seq<Transition>)
    requires InStep(x, h)
    ensures var t := Rebuilt(Load(x.s));
            && t.firing == x.t.firing && t.ring == x.t.ring
            && t.historyLoaded && !t.loadError && !t.historyCorrupt
    ensures InStep(System(Rebuilt(Load(x.s)), x.s), h)
  {
    ReopenIsIdentity(ContentsOf(x.s), false);
    CleanScan(x.s);
    hide Clean, Sound, Encode;
    var ts := Transitions(ContentsOf(x.s).records);
    LastNOfSuffix(ts, h);
  }

  lemma CleanScan(s: Store)
    requires Clean(s)
    ensures !Scan(s.file).corrupt && !s.openErr
  {
    ScanOfEncode(ContentsOf(s).meta, ContentsOf(s).records);
  }

  lemma LastNOfSuffix(ts: seq<Transition>, h: seq<Transition>)
    requires Same(ts, h)
    ensures LastN(ts, TRANSITION_HISTORY_CAPACITY) == LastN(h, TRANSITION_HISTORY_CAPACITY)
    ensures LastTo(ts, false) == LastTo(h, false)
  {
  }

  // From a healthy store, with successful writes (closing or evicting may fail), the
  // persisted transitions are exactly the edges of the observed signal, and live
  // tracker, store and rebuilt tracker stay in step.
  lemma {:induction false} RunKeepsInStep(x: System, h: seq<Transition>, ks: seq<Tick>)
    requires InStep(x, h)
    requires AllWritten(ks)
    ensures InStep(RunTicks(x, ks), h + Edges(x.t.firing, ks))
    ensures RunTicks(x, ks).t.firing == FiringAfter(x.t.firing, ks)
  {
    hide InStep, StepTick, LastTo, EdgeOf;
    if ks == [] {
      assert h + Edges(x.t.firing, ks) == h;
    } else {
      var init, k := ks[..|ks| - 1], ks[|ks| - 1];
      RunKeepsInStep(x, h, init);
      var y, hy := RunTicks(x, init), h + Edges(x.t.firing, init);
      TickKeepsInStep(y, hy, k);
      var e := EdgeOf(y.t.firing, k);
      assert Edges(x.t.firing, ks) == Edges(x.t.firing, init) + e;
      assert h + Edges(x.t.firing, ks) == hy + e;
    }
  }

  function EdgeOf(before: bool, k: Tick): seq<Transition> {
    if k.c.firing == before then []
    else [Transition(k.now, before, k.c.firing, k.c.unknownRate, k.c.threshold)]
  }

  lemma TickKeepsInStep(x: System, h: seq<Transition>, k: Tick)
    requires InStep(x, h) && !k.io.writeFails
    ensures InStep(StepTick(x, k), h + EdgeOf(x.t.firing, k))
    ensures StepTick(x, k).t.firing == k.c.firing
  {
    hide Clean, ContentsOf, Append, Same;
    var edge := Edge(x.t, true, k.c, k.now);
    if edge.Some? {
      AppendKeepsSame(x.s, h, edge.value, k.io);
      LastNAfter(h, edge.value, x.t);
    } else {
      assert h + [] == h;
    }
  }

  // The whole story from an empty file: after any signal, what is retained is the
  // newest part of its edges, which alternate, and a restart reproduces flag and ring.
  lemma {:induction false} PersistedEdges(ks: seq<Tick>)
    requires AllWritten(ks)
    ensures var s0 := Open(File([], false), false);
            var x := RunTicks(System(Rebuilt(Load(s0)), s0), ks);
            var t := Rebuilt(Load(Open(x.s.file, false)));
            && Same(Transitions(ContentsOf(x.s).records), Edges(false, ks))
            && Chained(Edges(false, ks))
            && t.firing == x.t.firing == FiringAfter(false, ks)
            && t.ring == x.t.ring == LastN(Edges(false, ks), TRANSITION_HISTORY_CAPACITY)
  {
    var s0 := Open(File([], false), false);
    NewFileIsClean();
    CleanScan(s0);
    var x0 := System(Rebuilt(Load(s0)), s0);
    assert InStep(x0, []);
    hide Clean, ContentsOf, Append, Open, Scan;
    RunKeepsInStep(x0, [], ks);
    EdgesAreChained(false, ks);
    var x := RunTicks(x0, ks);
    assert [] + Edges(false, ks) == Edges(false, ks);
    RebuildAgrees(x, Edges(false, ks));
    ReopenClean(x.s);
  }

  lemma ReopenClean(s: Store)
    requires Clean(s)
    ensures Open(s.file, false) == s
  {
    ReopenIsIdentity(ContentsOf(s), false);
  }

  // The time that the newest edge gives the alert: its own when it raised the alert,
  // none when it cleared it.
  function SinceOf(ts: seq<Transition>, otherwise: int): int {
    if ts == [] then otherwise else if ts[|ts| - 1].to then ts[|ts| - 1].at else ZERO_TIME
  }

  predicate ClockIsSet(ks: seq<Tick>) {
    forall k :: k in ks ==> k.now != ZERO_TIME
  }

  // Over any run of a tracker past its baseline, whatever the store does, its firing time
  // is that of its newest edge, or what it was when there was none.
  lemma {:induction false} SinceIsTheNewestEdge(x: System, ks: seq<Tick>)
    requires x.t.historyLoaded && ClockIsSet(ks)
    ensures var y, es := RunTicks(x, ks), Edges(x.t.firing, ks);
      && y.t.historyLoaded && y.t.firing == FiringAfter(x.t.firing, ks)
      && y.t.since == SinceOf(es, x.t.since)
      && (es != [] ==> es[|es| - 1].to == y.t.firing && es[|es| - 1].at != ZERO_TIME)
      && (es == [] ==> y.t.firing == x.t.firing)
  {
    if ks != [] {
      var init, k := ks[..|ks| - 1], ks[|ks| - 1];
      assert k in ks && forall j :: j in init ==> j in ks;
      SinceIsTheNewestEdge(x, init);
      hide Append, ClockIsSet;
    }
  }

  // What a restart loses is the time the alert started firing. After any run it is the
  // same exactly when the alert is not firing, or was already lost: the tracker began
  // the run without it and has seen no edge since, as after a restart while firing.
  lemma RestartKeepsSinceIff(x: System, ks: seq<Tick>)
    requires x.t.historyLoaded && ClockIsSet(ks)
    requires x.t.since != ZERO_TIME ==> x.t.firing
    ensures var y := RunTicks(x, ks);
      Rebuilt(Load(Open(y.s.file, false))).since == y.t.since
      <==> !y.t.firing || (x.t.since == ZERO_TIME && Edges(x.t.firing, ks) == [])
  {
    SinceIsTheNewestEdge(x, ks);
    hide RunTicks, Edges, Open, Load;
  }

  // A tracker that is firing exactly when it knows since when, as every new one is
  // until it is rebuilt while firing, stays so over every run, baseline observation
  // included: a restart then keeps the time exactly when the alert is not firing.
  lemma {:induction false} RestartFromKnownIff(x: System, ks: seq<Tick>)
    requires ClockIsSet(ks)
    requires x.t.firing <==> x.t.since != ZERO_TIME
    ensures var y := RunTicks(x, ks);
      && (y.t.firing <==> y.t.since != ZERO_TIME)
      && (Rebuilt(Load(Open(y.s.file, false))).since == y.t.since <==> !y.t.firing)
  {
    hide Append, Open, Load;
    if ks != [] {
      var init, k := ks[..|ks| - 1], ks[|ks| - 1];
      assert k in ks && forall j :: j in init ==> j in ks;
      RestartFromKnownIff(x, init);
    }
  }

  // ----- runs from a failed or corrupt load -----

  // The signal's edges written to a store one by one, whatever comes of each write.
  function Persisted(f: bool, s: Store, ks: seq<Tick>): Store {
    if ks == [] then s
    else
      var init, k := ks[..|ks| - 1], ks[|ks| - 1];
      var edge := EdgeOf(FiringAfter(f, init), k);
      if edge == [] then Persisted(f, s, init) else Append(Persisted(f, s, init), edge[0], k.io)
  }

  // What a tracker in state t before `ks` must be after it: it folds exactly the edges
  // of the signal, from the flag it starts with, into ring, loss count and store, and
  // shows the newest condition.
  ghost predicate Folds(x: System, h: seq<Transition>, since: int, f: bool, ks: seq<Tick>, y: System) {
    && y.t.firing == FiringAfter(f, ks)
    && y.t.since == SinceOf(Edges(f, ks), since)
    && y.t.ring == LastN(h + Edges(f, ks), TRANSITION_HISTORY_CAPACITY)
    && |y.t.ring| + y.t.historyDropped == |h + Edges(f, ks)| + x.t.historyDropped - (|h| - |x.t.ring|)
    && y.s == Persisted(f, x.s, ks)
    && y.t.historyLoaded && y.t.loadError == x.t.loadError && y.t.historyCorrupt == x.t.historyCorrupt
    && y.t.metaInconsistent == x.t.metaInconsistent && y.t.fileDropped == x.t.fileDropped
  }

  // One observation of a tracker past its baseline.
  lemma OneObservation(y: System, k: Tick)
    requires y.t.historyLoaded
    ensures var z, e := StepTick(y, k), EdgeOf(y.t.firing, k);
      && z.t.firing == k.c.firing
      && z.t.since == SinceOf(e, y.t.since)
      && z.t.ring == (if e == [] then y.t.ring else Push(y.t, e[0]).ring)
      && |z.t.ring| + z.t.historyDropped == |y.t.ring| + y.t.historyDropped + |e|
      && z.s == (if e == [] then y.s else Append(y.s, e[0], k.io))
      && z.t.historyLoaded && z.t.loadError == y.t.loadError && z.t.historyCorrupt == y.t.historyCorrupt
      && z.t.metaInconsistent == y.t.metaInconsistent && z.t.fileDropped == y.t.fileDropped
  {
    hide Append;
  }

  lemma EdgesSnoc(f: bool, ks: seq<Tick>, k: Tick, s: Store, since: int)
    ensures var e := EdgeOf(FiringAfter(f, ks), k);
      && FiringAfter(f, ks + [k]) == k.c.firing
      && Edges(f, ks + [k]) == Edges(f, ks) + e
      && SinceOf(Edges(f, ks + [k]), since) == SinceOf(e, SinceOf(Edges(f, ks), since))
      && Persisted(f, s, ks + [k]) == if e == [] then Persisted(f, s, ks) else Append(Persisted(f, s, ks), e[0], k.io)
  {
    hide Append;
    assert (ks + [k])[..|ks|] == ks;
  }

  lemma FoldStep(x: System, h: seq<Transition>, since: int, f: bool, ks: seq<Tick>, y: System, k: Tick)
    requires Folds(x, h, since, f, ks, y)
    ensures Folds(x, h, since, f, ks + [k], StepTick(y, k))
  {
    OneObservation(y, k);
    EdgesSnoc(f, ks, k, x.s, since);
    var es, e := Edges(f, ks), EdgeOf(FiringAfter(f, ks), k);
    hide Append, StepTick, Edges, EdgeOf, FiringAfter, Persisted, SinceOf, Push, LastN;
    assert h + (es + e) == (h + es) + e;
    if e != [] {
      EdgeIsOne(FiringAfter(f, ks), k);
      assert e == [e[0]];
      LastNAfter(h + es, e[0], y.t);
    } else {
      assert (h + es) + e == h + es;
    }
  }

  lemma EdgeIsOne(f: bool, k: Tick)
    ensures |EdgeOf(f, k)| <= 1
  {
  }

  // A loaded tracker folds the edges of the signal onto what it has, over any run and
  // any store failures.
  lemma {:induction false} LoadedRun(x: System, h: seq<Transition>, ks: seq<Tick>)
    requires x.t.historyLoaded && x.t.ring == LastN(h, TRANSITION_HISTORY_CAPACITY)
    ensures Folds(x, h, x.t.since, x.t.firing, ks, RunTicks(x, ks))
  {
    if ks == [] {
      assert h + Edges(x.t.firing, ks) == h;
    } else {
      var init, k := ks[..|ks| - 1], ks[|ks| - 1];
      LoadedRun(x, h, init);
      FoldStep(x, h, x.t.since, x.t.firing, init, RunTicks(x, init), k);
      assert init + [k] == ks;
    }
  }

  // After a load that failed or found corruption, the first observation is the baseline:
  // the tracker takes over its flag and, if it fires, its time, records no edge and
  // writes nothing. From there on it folds exactly the edges of the signal, and what it
  // says about the load stays as it was.
  lemma {:induction false} BaselineRun(x: System, ks: seq<Tick>)
    requires TakesBaseline(x.t, true) && x.t.ring == [] && ks != []
    ensures var c, rest := ks[0].c, ks[1..];
      Folds(x, [], if c.firing then ks[0].now else ZERO_TIME, c.firing, rest, RunTicks(x, ks))
    ensures var y, last := RunTicks(x, ks).t, ks[|ks| - 1].c;
      y.firing == last.firing && y.unknownRate == last.unknownRate && y.threshold == last.threshold && y.window == last.window
    decreases |ks|
  {
    var init, k := ks[..|ks| - 1], ks[|ks| - 1];
    var c, rest := ks[0].c, ks[1..];
    assert StepTick(RunTicks(x, init), k) == RunTicks(x, ks);
    if init == [] {
      assert RunTicks(x, init) == x && rest == [];
    } else {
      BaselineRun(x, init);
      assert rest == init[1..] + [k];
      hide Folds, Append;
      FoldStep(x, [], if c.firing then ks[0].now else ZERO_TIME, c.firing, init[1..], RunTicks(x, init), k);
    }
    FiringAfterLast(c.firing, rest);
    ShowsTheCondition(RunTicks(x, init), k);
  }

  lemma FiringAfterLast(f: bool, ks: seq<Tick>)
    ensures ks != [] ==> FiringAfter(f, ks) == ks[|ks| - 1].c.firing
  {
  }

  lemma ShowsTheCondition(x: System, k: Tick)
    ensures var y := StepTick(x, k).t;
      y.firing == k.c.firing && y.unknownRate == k.c.unknownRate && y.threshold == k.c.threshold && y.window == k.c.window
  {
    hide Append;
  }

  // Such a tracker is what a corrupt or unopenable store gives.
  lemma UnreadableStoreTakesBaseline(s: Store)
    requires s.openErr || Scan(s.file).corrupt
    ensures var t := Rebuilt(Load(s));
      && TakesBaseline(t, true) && t.ring == [] && !t.firing && t.since == ZERO_TIME && !t.historyLoaded
      && t.loadError == s.openErr && t.historyCorrupt == !s.openErr
  {
  }

  // Without a store a tracker does what it does with one.
  lemma InMemoryIsTheSame(t: Tracker, c: Condition, now: int)
    requires t.historyLoaded
    ensures AfterObserve(t, false, c, now) == AfterObserve(t, true, c, now)
    ensures Edge(t, false, c, now) == Edge(t, true, c, now)
    ensures InMemory().historyLoaded && InMemory() == Rebuilt(LoadResult([], 0, false, false, false))
  {
  }

  // A write that fails puts the store behind the ring: the rebuilt flag is right
  // exactly when the observation recorded no edge.
  lemma FailedWriteRebuildIff(x: System, h: seq<Transition>, k: Tick)
    requires InStep(x, h) && k.io.writeFails
    ensures var y := StepTick(x, k);
            Rebuilt(Load(y.s)).firing == y.t.firing <==> k.c.firing == x.t.firing
  {
    RebuildAgrees(x, h);
  }
}
