// What sweeps keep and finish: settled deliveries are never altered, broken streams are
// left alone, and pending deliveries run out of attempts.
module AnchorRuns {
  import opened Seqs
  import opened AppendOnlyLog
  import opened AnchorDelivery

  // ----- histories -----

  lemma {:induction false} LatestIsEnd(log: Log, s: int)
    ensures s in Latest(log) <==> History(log, s) != []
    ensures s in Latest(log) ==> Latest(log)[s] == History(log, s)[|History(log, s)| - 1]
  {
    if log != [] {
      LatestIsEnd(log[..|log| - 1], s);
    }
  }

  lemma HistorySnoc(log: Log, l: Line, s: int)
    ensures History(log + [l], s) == History(log, s) + if l.group == Some(s) then [l.raw] else []
  {
    assert (log + [l])[..|log|] == log;
  }

  // A group leaves the log with all of its lines or with none.
  lemma {:induction false} HistoryOfWithout(log: Log, groups: set<int>, s: int)
    ensures History(Without(log, groups), s) == if s in groups then [] else History(log, s)
  {
    if log != [] {
      var init, last := log[..|log| - 1], log[|log| - 1];
      HistoryOfWithout(init, groups, s);
      if !InGroups(last, groups) {
        HistorySnoc(Without(init, groups), last, s);
      } else {
        assert Without(log, groups) == Without(init, groups);
      }
    }
  }

  ghost predicate SamePayload(h: seq<Entry>) {
    forall i, j :: 0 <= i < |h| && 0 <= j < |h| ==> h[i].payload == h[j].payload
  }

  // Every line of a sequence number makes the same statement.
  ghost predicate OneStatement(log: Log, s: int) {
    SamePayload(History(log, s))
  }

  // Comparing each line with the one before it in its group finds a conflict exactly
  // when two lines of the group, anywhere in it, make different statements.
  lemma {:induction false} ConflictIff(log: Log, s: int)
    ensures s in Conflicts(log) <==> !OneStatement(log, s)
  {
    if log != [] {
      var init, last := log[..|log| - 1], log[|log| - 1];
      ConflictIff(init, s);
      LatestIsEnd(init, s);
      var h := History(init, s);
      if last.group == Some(s) {
        assert History(log, s) == h + [last.raw];
        SamePayloadSnoc(h, last.raw);
      } else {
        assert History(log, s) == h;
      }
    }
  }

  lemma SamePayloadSnoc(h: seq<Entry>, e: Entry)
    ensures SamePayload(h + [e]) <==> SamePayload(h) && (h != [] ==> h[|h| - 1].payload == e.payload)
  {
    var r := h + [e];
    if SamePayload(r) {
      forall i, j | 0 <= i < |h| && 0 <= j < |h| ensures h[i].payload == h[j].payload {
        assert r[i].payload == r[j].payload;
      }
      if h != [] {
        assert r[|h| - 1].payload == r[|h|].payload;
      }
    }
    if SamePayload(h) && (h != [] ==> h[|h| - 1].payload == e.payload) {
      forall i | 0 <= i < |h| ensures h[i].payload == e.payload {
        assert h[i].payload == h[|h| - 1].payload;
      }
    }
  }

  // The state a sweep works on: readable, free of conflicts, lines filed under their own
  // numbers.
  ghost predicate Healthy(log: Log) {
    Sweepable(log) && Grouped(log)
  }

  lemma NoConflictsIff(log: Log)
    ensures Conflicts(log) == {} <==> forall s :: OneStatement(log, s)
  {
    if Conflicts(log) == {} {
      forall s ensures OneStatement(log, s) {
        ConflictIff(log, s);
      }
    }
    if forall s :: OneStatement(log, s) {
      forall s ensures s !in Conflicts(log) {
        ConflictIff(log, s);
      }
      EmptyWithoutMembers(Conflicts(log));
    }
  }

  lemma EmptyWithoutMembers(c: set<int>)
    requires forall s :: s !in c
    ensures c == {}
  {
    var none: set<int> := {};
    assert forall s :: s in c <==> s in none;
  }

  // ----- one append -----

  // An append adds its line to its own group, or does nothing; the compaction it may
  // start removes groups whole. No other group's lines are altered.
  lemma AppendTouchesOneGroup(log: Log, capacity: int, e: Entry, io: IO, s: int)
    requires Healthy(log)
    ensures var after, h := Appended(log, capacity, e, io), History(log, s);
      && (s != e.seqNo ==> History(after, s) == h || (capacity > 0 && History(after, s) == []))
      && (s == e.seqNo && AppendAllowed(log, e, io) ==> History(after, s) == h + [e] || (capacity > 0 && History(after, s) == []))
      && (!AppendAllowed(log, e, io) ==> after == log)
  {
    HistorySnoc(log, LogLine(e, Some(e.seqNo)), s);
    if AppendAllowed(log, e, io) {
      var longer := log + [LogLine(e, Some(e.seqNo))];
      SnocIsClassified(log, e);
      if capacity > 0 {
        HistoryOfWithout(longer, Members(Excess(longer, capacity)), s);
      }
    }
  }

  lemma SnocIsClassified(log: Log, e: Entry)
    requires AllClassified(log)
    ensures AllClassified(log + [LogLine(e, Some(e.seqNo))])
  {
  }

  lemma AppendedIsPart(log: Log, capacity: int, e: Entry, io: IO)
    requires AllClassified(log)
    ensures forall l :: l in Appended(log, capacity, e, io) ==> l in log || l == LogLine(e, Some(e.seqNo))
  {
    var longer := log + [LogLine(e, Some(e.seqNo))];
    SnocIsClassified(log, e);
    var after := Appended(log, capacity, e, io);
    assert after == log || after == longer || after == Compacted(longer, capacity);
    hide Appended, Compacted;
    forall l | l in after ensures l in log || l == LogLine(e, Some(e.seqNo)) {
      if after == Compacted(longer, capacity) {
        CompactedIsPart(longer, capacity, l);
      }
    }
  }

  lemma AppendKeepsHealthy(log: Log, capacity: int, e: Entry, io: IO)
    requires Healthy(log)
    ensures Healthy(Appended(log, capacity, e, io))
  {
    var after := Appended(log, capacity, e, io);
    AppendedIsPart(log, capacity, e, io);
    NoConflictsIff(log);
    NoConflictsIff(after);
    LatestIsEnd(log, e.seqNo);
    hide Appended, History, SamePayload, Conflicts;
    forall s ensures OneStatement(after, s) {
      assert OneStatement(log, s);
      AppendTouchesOneGroup(log, capacity, e, io, s);
      SamePayloadSnoc(History(log, s), e);
      EmptyIsSamePayload();
    }
  }

  lemma EmptyIsSamePayload()
    ensures SamePayload([])
  {
  }

  // ----- one entry of a sweep -----

  // What one visit can do to the log: append an advanced line for its own entry, or
  // nothing.
  lemma SweptEntryIsAnAppend(log: Log, cfg: Settings, e: Entry, d: Delivery) returns (next: Option<Entry>)
    ensures next.None? ==> SweptEntry(log, cfg, e, d) == log
    ensures next.Some? ==> SweptEntry(log, cfg, e, d) == Appended(log, cfg.capacity, next.value, d.io)
    ensures next.Some? ==> e.state == Pending && next.value.seqNo == e.seqNo && next.value.payload == e.payload
    ensures next.Some? ==> Owed(cfg, next.value) < Owed(cfg, e) && Delivering(next.value.state)
    ensures e.state == Pending && !Classify(d.response).ConflictReported? ==> next.Some?
  {
    if e.state != Pending {
      return None;
    }
    if e.attempts >= MaxAttempts(cfg.maxAttempts) {
      return Some(Exhausted(e));
    }
    var a := Classify(d.response);
    if a.ConflictReported? {
      return None;
    }
    return Some(Advance(e, a, MaxAttempts(cfg.maxAttempts), d.io.now));
  }

  predicate Delivering(st: State) {
    st == Pending || st == Anchored || st == Unanchored
  }

  // How many more visits an entry can take before it is settled.
  function Owed(cfg: Settings, e: Entry): nat {
    var m := MaxAttempts(cfg.maxAttempts);
    if e.state != Pending then 0 else if e.attempts >= m then 1 else m - e.attempts
  }

  function OwedAt(cfg: Settings, h: seq<Entry>): nat {
    if h == [] then 0 else Owed(cfg, h[|h| - 1])
  }

  ghost predicate Distinct(s: seq<int>) {
    forall i, j :: 0 <= i < j < |s| ==> s[i] != s[j]
  }

  lemma VisitKeepsOthers(log: Log, cfg: Settings, e: Entry, d: Delivery, s: int)
    requires Healthy(log) && (s != e.seqNo || e.state != Pending)
    ensures var after := SweptEntry(log, cfg, e, d);
      && Healthy(after)
      && (History(after, s) == History(log, s) || (cfg.capacity > 0 && History(after, s) == []))
  {
    var next := SweptEntryIsAnAppend(log, cfg, e, d);
    if next.Some? {
      AppendKeepsHealthy(log, cfg.capacity, next.value, d.io);
      AppendTouchesOneGroup(log, cfg.capacity, next.value, d.io, s);
    }
  }

  lemma VisitKeepsHealthy(log: Log, cfg: Settings, e: Entry, d: Delivery)
    requires Healthy(log)
    ensures Healthy(SweptEntry(log, cfg, e, d))
  {
    var next := SweptEntryIsAnAppend(log, cfg, e, d);
    if next.Some? {
      AppendKeepsHealthy(log, cfg.capacity, next.value, d.io);
    }
  }

  // ----- a whole sweep -----

  // An entry that was settled when the sweep loaded the log keeps exactly its lines, or
  // is evicted whole by a compaction; without a capacity it always keeps them.
  lemma {:induction false} SweepKeepsSettled(log: Log, cfg: Settings, loaded: map<int, Entry>, seqs: seq<int>,
        world: int -> Delivery, s: int)
    requires Healthy(log)
    requires forall q :: q in seqs ==> q in loaded && loaded[q].seqNo == q
    requires s in seqs ==> loaded[s].state != Pending
    ensures var after := SweptAll(log, cfg, loaded, seqs, world);
      && Healthy(after)
      && (History(after, s) == History(log, s) || (cfg.capacity > 0 && History(after, s) == []))
    decreases |seqs|
  {
    if seqs != [] {
      var q := seqs[0];
      assert q in seqs;
      var e, d := loaded[q], world(q);
      VisitKeepsOthers(log, cfg, e, d, s);
      hide SweptEntry, Healthy, History;
      SweepKeepsSettled(SweptEntry(log, cfg, e, d), cfg, loaded, seqs[1..], world, s);
    }
  }

  lemma LoadedIsFiled(log: Log)
    requires Healthy(log)
    ensures forall q :: q in Latest(log) ==> Latest(log)[q].seqNo == q
    ensures Distinct(Ascending(GroupsOf(log)))
    ensures forall q :: q in Ascending(GroupsOf(log)) <==> q in Latest(log)
  {
    LatestIsFiled(log);
    GroupsAreLatest(log);
    GroupsAreDistinct(log);
    AscendingSorts(GroupsOf(log));
    DistinctPermutation(GroupsOf(log), Ascending(GroupsOf(log)));
  }

  lemma {:induction false} LatestIsFiled(log: Log)
    requires Grouped(log)
    ensures forall q :: q in Latest(log) ==> Latest(log)[q].seqNo == q
  {
    if log != [] {
      assert log[|log| - 1] in log;
      LatestIsFiled(log[..|log| - 1]);
    }
  }

  lemma DistinctPermutation(a: seq<int>, b: seq<int>)
    requires multiset(a) == multiset(b) && Distinct(a)
    ensures Distinct(b)
  {
    forall x ensures multiset(a)[x] <= 1 {
      DistinctCountsOnce(a, x);
    }
    forall i, j | 0 <= i < j < |b| ensures b[i] != b[j] {
      assert b == b[..i] + [b[i]] + b[i + 1..j] + [b[j]] + b[j + 1..];
      assert multiset(b)[b[i]] <= 1;
    }
  }

  lemma {:induction false} DistinctCountsOnce(a: seq<int>, x: int)
    requires Distinct(a)
    ensures multiset(a)[x] <= 1
  {
    if a != [] {
      assert a == [a[0]] + a[1..];
      DistinctCountsOnce(a[1..], x);
      if x == a[0] {
        assert x !in a[1..];
        assert x !in multiset(a[1..]);
      }
    }
  }

  // Settled deliveries are never altered by a sweep, whatever the witness answers and
  // whatever fails.
  lemma SettledIsFinal(log: Log, cfg: Settings, loadOk: bool, world: int -> Delivery, s: int)
    requires Grouped(log) && OwedAt(cfg, History(log, s)) == 0
    ensures var after := Swept(log, cfg, loadOk, world);
      History(after, s) == History(log, s) || (cfg.capacity > 0 && History(after, s) == [])
  {
    if loadOk && Sweepable(log) {
      LoadedIsFiled(log);
      LatestIsEnd(log, s);
      var order := Ascending(GroupsOf(log));
      hide Ascending, GroupsOf, SweptAll, Latest, History, Conflicts;
      SweepKeepsSettled(log, cfg, Latest(log), order, world, s);
    }
  }

  // A stream with an unreadable line, or with two lines of one number that make
  // different statements, is left byte for byte.
  lemma BrokenStreamUntouched(log: Log, cfg: Settings, loadOk: bool, world: int -> Delivery)
    requires !AllClassified(log) || exists q :: !OneStatement(log, q)
    ensures Swept(log, cfg, loadOk, world) == log
  {
    NoConflictsIff(log);
  }

  // ----- progress -----

  // The witness reports no conflict and the append goes through.
  predicate Good(d: Delivery) {
    d.io.readOk && d.io.writeOk && !Classify(d.response).ConflictReported?
  }

  lemma GoodVisitPaysOne(log: Log, cfg: Settings, e: Entry, d: Delivery)
    requires Healthy(log) && Good(d) && e.state == Pending
    requires History(log, e.seqNo) == [] || History(log, e.seqNo)[|History(log, e.seqNo)| - 1] == e
    ensures OwedAt(cfg, History(SweptEntry(log, cfg, e, d), e.seqNo)) < Owed(cfg, e)
  {
    var next := SweptEntryIsAnAppend(log, cfg, e, d);
    LatestIsEnd(log, e.seqNo);
    AppendTouchesOneGroup(log, cfg.capacity, next.value, d.io, e.seqNo);
  }

  lemma {:induction false} GoodSweepPaysOne(log: Log, cfg: Settings, loaded: map<int, Entry>, seqs: seq<int>,
        world: int -> Delivery, s: int)
    requires Healthy(log) && Distinct(seqs) && s in seqs
    requires forall q :: q in seqs ==> q in loaded && loaded[q].seqNo == q && Good(world(q))
    requires loaded[s].state == Pending
    requires History(log, s) == [] || History(log, s)[|History(log, s)| - 1] == loaded[s]
    ensures OwedAt(cfg, History(SweptAll(log, cfg, loaded, seqs, world), s)) < Owed(cfg, loaded[s])
    decreases |seqs|
  {
    var q := seqs[0];
    assert q in seqs;
    var e, d := loaded[q], world(q);
    VisitKeepsHealthy(log, cfg, e, d);
    var after := SweptEntry(log, cfg, e, d);
    if q == s {
      GoodVisitPaysOne(log, cfg, e, d);
      assert s !in seqs[1..];
      SweepKeepsSettled(after, cfg, loaded, seqs[1..], world, s);
    } else {
      VisitKeepsOthers(log, cfg, e, d, s);
      hide SweptEntry, Healthy, History;
      GoodSweepPaysOne(after, cfg, loaded, seqs[1..], world, s);
    }
  }

  // A good sweep brings every pending delivery at least one visit nearer to settled.
  lemma SweepMakesProgress(log: Log, cfg: Settings, world: int -> Delivery, s: int)
    requires Healthy(log) && forall q :: q in Latest(log) ==> Good(world(q))
    ensures var after := Swept(log, cfg, true, world);
      && Healthy(after)
      && (OwedAt(cfg, History(log, s)) > 0 ==> OwedAt(cfg, History(after, s)) < OwedAt(cfg, History(log, s)))
      && (OwedAt(cfg, History(log, s)) == 0 ==> OwedAt(cfg, History(after, s)) == 0)
  {
    LoadedIsFiled(log);
    LatestIsEnd(log, s);
    SweepKeepsHealthy(log, cfg, Latest(log), Ascending(GroupsOf(log)), world);
    if OwedAt(cfg, History(log, s)) > 0 {
      GoodSweepPaysOne(log, cfg, Latest(log), Ascending(GroupsOf(log)), world, s);
    } else {
      SettledIsFinal(log, cfg, true, world, s);
    }
  }

  lemma {:induction false} SweepKeepsHealthy(log: Log, cfg: Settings, loaded: map<int, Entry>, seqs: seq<int>,
        world: int -> Delivery)
    requires Healthy(log) && forall q :: q in seqs ==> q in loaded
    ensures Healthy(SweptAll(log, cfg, loaded, seqs, world))
    decreases |seqs|
  {
    if seqs != [] {
      var q := seqs[0];
      assert q in seqs;
      VisitKeepsHealthy(log, cfg, loaded[q], world(q));
      hide SweptEntry, Healthy;
      SweepKeepsHealthy(SweptEntry(log, cfg, loaded[q], world(q)), cfg, loaded, seqs[1..], world);
    }
  }

  ghost function Sweeps(log: Log, cfg: Settings, worlds: seq<int -> Delivery>): Log
    decreases |worlds|
  {
    if worlds == [] then log else Sweeps(Swept(log, cfg, true, worlds[0]), cfg, worlds[1..])
  }

  lemma {:induction false} SweepsPayTheirNumber(log: Log, cfg: Settings, worlds: seq<int -> Delivery>, s: int)
    requires Healthy(log) && forall w, q :: w in worlds ==> Good(w(q))
    ensures Healthy(Sweeps(log, cfg, worlds))
    ensures OwedAt(cfg, History(Sweeps(log, cfg, worlds), s)) <= Less(OwedAt(cfg, History(log, s)), |worlds|)
    decreases |worlds|
  {
    if worlds != [] {
      var w := worlds[0];
      assert w in worlds;
      assert forall q :: Good(w(q));
      SweepMakesProgress(log, cfg, w, s);
      hide Swept, Healthy, History;
      SweepsPayTheirNumber(Swept(log, cfg, true, w), cfg, worlds[1..], s);
    }
  }

  function Less(a: nat, b: nat): nat {
    if a > b then a - b else 0
  }

  // ----- without a capacity -----

  // What may become of an entry: nothing, or, while it is pending, another delivery state
  // for the same statement.
  predicate Becomes(a: Entry, b: Entry) {
    b == a || (a.state == Pending && b.payload == a.payload && Delivering(b.state))
  }

  ghost predicate Survives(log: Log, after: Log, s: int) {
    s in Latest(log) ==> s in Latest(after) && Becomes(Latest(log)[s], Latest(after)[s])
  }

  lemma VisitAdvances(log: Log, cfg: Settings, e: Entry, d: Delivery, s: int)
    requires Healthy(log) && cfg.capacity <= 0 && s in Latest(log) && (s == e.seqNo ==> Latest(log)[s] == e)
    ensures var after := SweptEntry(log, cfg, e, d);
      && s in Latest(after) && (if s == e.seqNo then Becomes(e, Latest(after)[s]) else Latest(after)[s] == Latest(log)[s])
  {
    var after := SweptEntry(log, cfg, e, d);
    var next := SweptEntryIsAnAppend(log, cfg, e, d);
    LatestIsEnd(log, s);
    LatestIsEnd(after, s);
    if next.Some? {
      AppendTouchesOneGroup(log, cfg.capacity, next.value, d.io, s);
    }
  }

  lemma {:induction false} SweepAdvances(log: Log, cfg: Settings, loaded: map<int, Entry>, seqs: seq<int>,
        world: int -> Delivery, s: int)
    requires Healthy(log) && cfg.capacity <= 0 && Distinct(seqs) && s in Latest(log)
    requires forall q :: q in seqs ==> q in loaded && loaded[q].seqNo == q
    requires s in seqs ==> Latest(log)[s] == loaded[s]
    ensures Survives(log, SweptAll(log, cfg, loaded, seqs, world), s)
    ensures s !in seqs ==> Latest(SweptAll(log, cfg, loaded, seqs, world))[s] == Latest(log)[s]
    decreases |seqs|
  {
    if seqs != [] {
      var q := seqs[0];
      assert q in seqs;
      VisitKeepsHealthy(log, cfg, loaded[q], world(q));
      VisitAdvances(log, cfg, loaded[q], world(q), s);
      assert q !in seqs[1..];
      hide SweptEntry, Healthy, Latest;
      SweepAdvances(SweptEntry(log, cfg, loaded[q], world(q)), cfg, loaded, seqs[1..], world, s);
    }
  }

  lemma {:induction false} SweepsAdvance(log: Log, cfg: Settings, worlds: seq<int -> Delivery>, s: int)
    requires Healthy(log) && cfg.capacity <= 0 && forall w, q :: w in worlds ==> Good(w(q))
    ensures Survives(log, Sweeps(log, cfg, worlds), s)
    decreases |worlds|
  {
    if worlds != [] && s in Latest(log) {
      var w := worlds[0];
      assert w in worlds;
      assert forall q :: Good(w(q));
      LoadedIsFiled(log);
      SweepAdvances(log, cfg, Latest(log), Ascending(GroupsOf(log)), w, s);
      SweepMakesProgress(log, cfg, w, s);
      assert Survives(log, Swept(log, cfg, true, w), s);
      hide Swept, Healthy, Latest;
      SweepsAdvance(Swept(log, cfg, true, w), cfg, worlds[1..], s);
    }
  }

  // With no witness conflict and no append failure, max-attempts sweeps leave nothing
  // pending. Without a capacity nothing is evicted either: every delivery is still there,
  // unchanged if it was settled before, and anchored or abandoned if it was pending.
  lemma SweepsSettleEverything(log: Log, cfg: Settings, worlds: seq<int -> Delivery>)
    requires Healthy(log) && forall w, q :: w in worlds ==> Good(w(q))
    requires |worlds| >= MaxAttempts(cfg.maxAttempts)
    ensures NothingPending(Sweeps(log, cfg, worlds))
    ensures cfg.capacity <= 0 ==> forall s :: s in Latest(log) ==>
      SettledAs(Latest(log)[s], Sweeps(log, cfg, worlds), s)
  {
    hide Sweeps, Latest, Healthy, Good;
    EndsWithNothingPending(log, cfg, worlds);
    if cfg.capacity <= 0 {
      forall s | s in Latest(log) ensures SettledAs(Latest(log)[s], Sweeps(log, cfg, worlds), s) {
        EndsSettled(log, cfg, worlds, s);
      }
    }
  }

  lemma OwedIsBounded(cfg: Settings, h: seq<Entry>)
    ensures OwedAt(cfg, h) <= MaxAttempts(cfg.maxAttempts)
  {
  }

  lemma EndsWithNothingPending(log: Log, cfg: Settings, worlds: seq<int -> Delivery>)
    requires Healthy(log) && forall w, q :: w in worlds ==> Good(w(q))
    requires |worlds| >= MaxAttempts(cfg.maxAttempts)
    ensures NothingPending(Sweeps(log, cfg, worlds))
  {
    var after := Sweeps(log, cfg, worlds);
    forall s | s in Latest(after) ensures Latest(after)[s].state != Pending {
      SweepsPayTheirNumber(log, cfg, worlds, s);
      LatestIsEnd(after, s);
      OwedIsBounded(cfg, History(log, s));
    }
  }

  lemma EndsSettled(log: Log, cfg: Settings, worlds: seq<int -> Delivery>, s: int)
    requires Healthy(log) && forall w, q :: w in worlds ==> Good(w(q))
    requires |worlds| >= MaxAttempts(cfg.maxAttempts) && cfg.capacity <= 0 && s in Latest(log)
    ensures SettledAs(Latest(log)[s], Sweeps(log, cfg, worlds), s)
  {
    SweepsAdvance(log, cfg, worlds, s);
    EndsWithNothingPending(log, cfg, worlds);
    hide Sweeps, Latest, Healthy, Good;
    var after := Sweeps(log, cfg, worlds);
    assert s in Latest(after) && Latest(after)[s].state != Pending;
  }

  ghost predicate SettledAs(e: Entry, after: Log, s: int) {
    s in Latest(after) && if e.state == Pending then Latest(after)[s].state in {Anchored, Unanchored} else Latest(after)[s] == e
  }

  // A healthy stream is at rest, that is, no sweep would change it whatever the witness
  // says, exactly when nothing on it is pending: when Status answers converged.
  lemma AtRestIff(log: Log, cfg: Settings, world: int -> Delivery)
    requires Healthy(log) && forall q :: Good(world(q))
    ensures (forall w :: Swept(log, cfg, true, w) == log) <==> NothingPending(log)
  {
    LoadedIsFiled(log);
    if NothingPending(log) {
      forall w ensures Swept(log, cfg, true, w) == log {
        NothingToVisit(log, cfg, Latest(log), Ascending(GroupsOf(log)), w);
      }
    } else {
      var s :| s in Latest(log) && Latest(log)[s].state == Pending;
      LatestIsEnd(log, s);
      SweepMakesProgress(log, cfg, world, s);
      assert Swept(log, cfg, true, world) != log;
    }
  }

  lemma {:induction false} NothingToVisit(log: Log, cfg: Settings, loaded: map<int, Entry>, seqs: seq<int>,
        world: int -> Delivery)
    requires forall q :: q in seqs ==> q in loaded && loaded[q].state != Pending
    ensures SweptAll(log, cfg, loaded, seqs, world) == log
    decreases |seqs|
  {
    if seqs != [] {
      assert seqs[0] in seqs;
      NothingToVisit(log, cfg, loaded, seqs[1..], world);
    }
  }

  // ----- eviction -----

  // Which groups the compaction itself empties: the oldest beyond the capacity. Whether
  // it runs is for the guard to decide.
  lemma EvictedIff(log: Log, capacity: int, s: int)
    requires AllClassified(log) && capacity > 0 && s in Latest(log)
    ensures History(Compacted(log, capacity), s) == [] <==> s in Excess(log, capacity)
    ensures s !in Excess(log, capacity) ==> History(Compacted(log, capacity), s) == History(log, s)
  {
    HistoryOfWithout(log, Members(Excess(log, capacity)), s);
    LatestIsEnd(log, s);
  }

  // What is left of a log when a compaction is due: the guard and the stores decide
  // whether it happens.
  ghost function AfterCompaction(log: Log, capacity: int, io: IO): Log
    requires AllClassified(log)
  {
    if CompactionRuns(log, capacity, io) then Compacted(log, capacity) else log
  }

  // The documented promise: every delivery nobody has confirmed keeps all its lines.
  ghost predicate KeepsUnconfirmed(log: Log, after: Log) {
    forall s :: s in Latest(log) && Latest(log)[s].state != Anchored ==> SameHistory(after, log, s)
  }

  ghost predicate SameHistory(a: Log, b: Log, s: int) {
    History(a, s) == History(b, s)
  }

  ghost predicate AllConfirmed(log: Log, groups: seq<int>) {
    forall s :: s in groups ==> s in Latest(log) && Latest(log)[s].state == Anchored
  }

  // Up to the capacity nothing is cut: an append removes no line while the numbers without
  // a conflict are at most as many.
  lemma WithinCapacityKeepsAll(log: Log, capacity: int, e: Entry, io: IO)
    requires AppendAllowed(log, e, io)
    ensures var longer := log + [LogLine(e, Some(e.seqNo))];
      && AllClassified(longer)
      && (|WindowSeqs(longer)| <= capacity ==> Appended(log, capacity, e, io) == longer)
  {
    SnocIsClassified(log, e);
  }

  // A compaction keeps that promise if and only if it does not run or every one of the
  // oldest groups beyond the capacity, and not just the lowest number, is confirmed.
  lemma NeverEvictsUnconfirmedIff(log: Log, capacity: int, io: IO)
    requires AllClassified(log) && capacity > 0
    ensures KeepsUnconfirmed(log, AfterCompaction(log, capacity, io))
       <==> (CompactionRuns(log, capacity, io) ==> AllConfirmed(log, Excess(log, capacity)))
  {
    GroupsAreLatest(log);
    if CompactionRuns(log, capacity, io) {
      var after := Compacted(log, capacity);
      hide CompactionRuns, Compacted, Latest;
      forall s | s in Latest(log) ensures SameHistory(after, log, s) <==> s !in Excess(log, capacity) {
        EvictedIff(log, capacity, s);
        LatestIsEnd(log, s);
      }
      assert forall s :: s in Excess(log, capacity) ==> s in GroupsOf(log);
    }
  }

  // The same for an append, on facts known before it: with the new line in place, the
  // groups it would push out must all be confirmed.
  lemma AppendKeepsUnconfirmedIff(log: Log, capacity: int, e: Entry, io: IO)
    requires AppendAllowed(log, e, io)
    ensures var longer := log + [LogLine(e, Some(e.seqNo))];
      && AllClassified(longer)
      && (KeepsUnconfirmed(longer, Appended(log, capacity, e, io))
          <==> (capacity > 0 && CompactionRuns(longer, capacity, io) ==> AllConfirmed(longer, Excess(longer, capacity))))
  {
    var longer := log + [LogLine(e, Some(e.seqNo))];
    SnocIsClassified(log, e);
    if capacity > 0 {
      NeverEvictsUnconfirmedIff(longer, capacity, io);
    }
  }

  lemma {:induction false} AscendingOfSorted(s: seq<int>)
    requires Sorted(s)
    ensures Ascending(s) == s
  {
    if s != [] {
      AscendingOfSorted(s[1..]);
      assert s == [s[0]] + s[1..];
    }
  }

  // The guard before a compaction looks at the lowest sequence number only. That is
  // enough, as documented, while numbers are first written in ascending order and the
  // log is at most one group over capacity.
  lemma OneOverIsSafe(log: Log, capacity: int, io: IO, s: int)
    requires Healthy(log) && capacity > 0 && Sorted(GroupsOf(log)) && |GroupsOf(log)| <= capacity + 1
    requires CompactionRuns(log, capacity, io) && s in Latest(log) && Latest(log)[s].state != Anchored
    ensures History(Compacted(log, capacity), s) == History(log, s)
  {
    OneOverIsConfirmed(log, capacity, io);
    NeverEvictsUnconfirmedIff(log, capacity, io);
    hide CompactionRuns, Compacted, Latest, History, AllConfirmed, Excess, GroupsOf, Sorted;
    assert SameHistory(AfterCompaction(log, capacity, io), log, s);
  }

  lemma OneOverIsConfirmed(log: Log, capacity: int, io: IO)
    requires Healthy(log) && capacity > 0 && Sorted(GroupsOf(log)) && |GroupsOf(log)| <= capacity + 1
    requires CompactionRuns(log, capacity, io)
    ensures AllConfirmed(log, Excess(log, capacity))
  {
    LowestSeqIsFirst(log);
    forall g | g in Excess(log, capacity) ensures g in Latest(log) && Latest(log)[g].state == Anchored {
      OneOverDropsTheFirst(log, capacity, g);
    }
  }

  lemma LowestSeqIsFirst(log: Log)
    requires Healthy(log) && Sorted(GroupsOf(log))
    ensures WindowSeqs(log) == GroupsOf(log)
  {
    WindowOfLatest(log);
    AscendingOfSorted(GroupsOf(log));
  }

  lemma OneOverDropsTheFirst(log: Log, capacity: int, s: int)
    requires AllClassified(log) && capacity > 0 && |GroupsOf(log)| <= capacity + 1 && s in Excess(log, capacity)
    ensures s in GroupsOf(log) && s == GroupsOf(log)[0]
  {
  }

  const EMPTY_LOG: Log := []

  // Two groups over, it is not: with a capacity of one and three deliveries still
  // pending, confirming the first evicts the second, which nobody has confirmed.
  lemma GuardMissesTheSecond(one: Entry, two: Entry, three: Entry, done: Entry, io: IO)
    requires one.seqNo == 1 && two.seqNo == 2 && three.seqNo == 3
    requires one.state == two.state == three.state == Pending && done == one.(state := Anchored)
    requires io.readOk && io.writeOk && io.loadOk
    requires io.compaction.readOk && io.compaction.rewriteOk && !io.compaction.observed
    ensures var before := Appended(Appended(Appended(EMPTY_LOG, 1, one, io), 1, two, io), 1, three, io);
            var after := Appended(before, 1, done, io);
      History(before, 2) == [two] && History(after, 2) == []
  {
    hide Stuck, Appended, History;
    var c, order := ThreePending(one, two, three, io);
    ConfirmingReleasesIt(c, order, one, done, io);
  }

  lemma ThreePending(one: Entry, two: Entry, three: Entry, io: IO) returns (c: Log, order: seq<int>)
    requires one.seqNo == 1 && two.seqNo == 2 && three.seqNo == 3
    requires one.state == two.state == three.state == Pending && io.readOk && io.writeOk
    ensures c == Appended(Appended(Appended(EMPTY_LOG, 1, one, io), 1, two, io), 1, three, io)
    ensures Stuck(c, order, one) && |order| == 3 && order[0] == 1 && order[1] == 2
    ensures History(c, 2) == [two]
  {
    NothingLogged();
    order := [];
    assert Stuck(EMPTY_LOG, order, one);
    hide Stuck, GroupsOf, Latest, Appended, History, Compacted, AllClassified, Healthy, Sorted;
    var a := PendingHoldsTheGuard(EMPTY_LOG, order, one, one, io);
    var b := PendingHoldsTheGuard(a, order + [1], one, two, io);
    c := PendingHoldsTheGuard(b, order + [1] + [2], one, three, io);
    order := order + [1] + [2] + [3];
  }

  // A healthy log whose groups, in ascending order, start with a pending one.
  ghost predicate Stuck(log: Log, order: seq<int>, first: Entry) {
    && Healthy(log) && AllClassified(log) && GroupsOf(log) == order && Sorted(order)
    && (order != [] ==> order[0] in Latest(log) && Latest(log)[order[0]] == first)
  }

  // While the lowest number is pending, an append of a new, higher number only appends,
  // however far over capacity the log is.
  lemma PendingHoldsTheGuard(log: Log, order: seq<int>, first: Entry, e: Entry, io: IO) returns (after: Log)
    requires Stuck(log, order, first) && first.state == Pending && io.readOk && io.writeOk
    requires if order == [] then e == first else order[|order| - 1] < e.seqNo
    ensures after == Appended(log, 1, e, io) && Stuck(after, order + [e.seqNo], first)
    ensures History(after, 2) == History(log, 2) + if e.seqNo == 2 then [e] else []
  {
    GroupsAreLatest(log);
    assert e.seqNo !in order;
    after := SnocFacts(log, e);
    Allowed(log, e, io);
    hide GroupsOf, Latest, Appended;
    GuardHolds(log, e, io);
  }

  lemma ConfirmingReleasesIt(log: Log, order: seq<int>, first: Entry, done: Entry, io: IO)
    requires Stuck(log, order, first) && |order| == 3 && order[0] == 1 && order[1] == 2 && first.seqNo == 1
    requires io.readOk && io.writeOk && io.loadOk && io.compaction.readOk && io.compaction.rewriteOk && !io.compaction.observed
    requires done == first.(state := Anchored)
    ensures History(Appended(log, 1, done, io), 2) == []
  {
    GroupsAreLatest(log);
    assert order[0] in order && order[1] in order;
    var after := SnocFacts(log, done);
    Allowed(log, done, io);
    assert GroupsOf(after) == order;
    ExcessOfThree(after, order);
    EvictedIff(after, 1, 2);
    hide GroupsOf, Latest, Appended, Compacted, History, Excess;
    GuardYields(log, done, io);
  }

  lemma ExcessOfThree(log: Log, order: seq<int>)
    requires AllClassified(log) && GroupsOf(log) == order && |order| == 3 && order[1] == 2
    ensures 2 in Excess(log, 1)
  {
    assert Excess(log, 1)[1] == 2;
  }

  lemma Allowed(log: Log, e: Entry, io: IO)
    requires Healthy(log) && io.readOk && io.writeOk
    requires e.seqNo in Latest(log) ==> Latest(log)[e.seqNo].payload == e.payload
    ensures AppendAllowed(log, e, io) && AllClassified(log)
  {
  }

  lemma NothingLogged()
    ensures GroupsOf(EMPTY_LOG) == [] && Sorted(GroupsOf(EMPTY_LOG)) && Latest(EMPTY_LOG) == map[]
    ensures Healthy(EMPTY_LOG) && AllClassified(EMPTY_LOG) && forall s :: History(EMPTY_LOG, s) == []
  {
  }

  // One more readable line: the groups, the latest lines, the conflicts.
  lemma SnocFacts(log: Log, e: Entry) returns (longer: Log)
    requires Healthy(log) && (e.seqNo in Latest(log) ==> Latest(log)[e.seqNo].payload == e.payload)
    ensures longer == log + [LogLine(e, Some(e.seqNo))] && Healthy(longer) && AllClassified(longer)
    ensures GroupsOf(longer) == GroupsOf(log) + if e.seqNo in GroupsOf(log) then [] else [e.seqNo]
    ensures Latest(longer) == Latest(log)[e.seqNo := e] && Conflicts(longer) == {}
    ensures History(longer, 2) == History(log, 2) + if e.seqNo == 2 then [e] else []
  {
    longer := log + [LogLine(e, Some(e.seqNo))];
    assert longer[..|log|] == log;
    SnocIsClassified(log, e);
  }

  // While the lowest number is pending, an append only appends.
  lemma GuardHolds(log: Log, e: Entry, io: IO)
    requires Healthy(log) && AppendAllowed(log, e, io)
    requires var l := log + [LogLine(e, Some(e.seqNo))];
      Healthy(l) && GroupsOf(l) != [] && Sorted(GroupsOf(l)) && GroupsOf(l)[0] in Latest(l)
      && Latest(l)[GroupsOf(l)[0]].state == Pending
    ensures Appended(log, 1, e, io) == log + [LogLine(e, Some(e.seqNo))]
  {
    LowestSeqIsFirst(log + [LogLine(e, Some(e.seqNo))]);
  }

  lemma GuardYields(log: Log, e: Entry, io: IO)
    requires Healthy(log) && AppendAllowed(log, e, io)
    requires io.loadOk && io.compaction.readOk && io.compaction.rewriteOk && !io.compaction.observed
    requires var l := log + [LogLine(e, Some(e.seqNo))];
      Healthy(l) && |GroupsOf(l)| > 1 && Sorted(GroupsOf(l)) && GroupsOf(l)[0] in Latest(l)
      && Latest(l)[GroupsOf(l)[0]].state == Anchored
    ensures Appended(log, 1, e, io) == Compacted(log + [LogLine(e, Some(e.seqNo))], 1)
  {
    LowestSeqIsFirst(log + [LogLine(e, Some(e.seqNo))]);
  }
}
