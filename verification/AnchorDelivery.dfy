// Anchor delivery: an append-only log of delivery states per stream, one delivery
// attempt at a time, and the recovery sweep over every obligation still pending.
module AnchorDelivery {
  import opened Seqs
  import opened Text
  import opened AppendOnlyLog

  datatype State = Pending | Anchored | Unanchored | OtherState(name: string)

  // payload is everything the signature covers; the rest is the mutable delivery state.
  datatype Entry = Entry(
    seqNo: int, payload: string, state: State, attempts: nat, ackID: string, lastError: string, anchoredAt: int)

  type Line = LogLine<Entry>

  type Log = seq<Line>

  // A readable line is filed under its own sequence number.
  ghost predicate Grouped(log: Log) {
    forall l :: l in log && l.group.Some? ==> l.group.value == l.raw.seqNo
  }

  const DEFAULT_MAX_ATTEMPTS: nat := 8

  function MaxAttempts(configured: int): (n: nat)
    ensures n > 0
  {
    if configured <= 0 then DEFAULT_MAX_ATTEMPTS else configured
  }

  // ----- what a log says -----

  // The lines of one sequence number, oldest first.
  function History(log: Log, s: int): seq<Entry> {
    if log == [] then []
    else
      var last := log[|log| - 1];
      History(log[..|log| - 1], s) + if last.group == Some(s) then [last.raw] else []
  }

  // The last line of every group.
  function Latest(log: Log): map<int, Entry> {
    if log == [] then map[]
    else
      var last := log[|log| - 1];
      if last.group.Some? then Latest(log[..|log| - 1])[last.group.value := last.raw] else Latest(log[..|log| - 1])
  }

  // The groups some line of which contradicts the line before it in the group.
  function Conflicts(log: Log): set<int> {
    if log == [] then {}
    else
      var init, last := log[..|log| - 1], log[|log| - 1];
      Conflicts(init)
      + if last.group.Some? && last.group.value in Latest(init) && Latest(init)[last.group.value].payload != last.raw.payload
        then {last.group.value} else {}
  }

  function InsertAscending(s: seq<int>, x: int): seq<int> {
    if s == [] || x <= s[0] then [x] + s else [s[0]] + InsertAscending(s[1..], x)
  }

  function Ascending(s: seq<int>): seq<int> {
    if s == [] then [] else InsertAscending(Ascending(s[1..]), s[0])
  }

  // ----- responses -----

  datatype Response = Response(transportError: bool, status: int, ackID: string, reason: string)

  datatype Answer = Confirmed(ackID: string) | Declined | Retryable | ConflictReported

  function Classify(r: Response): Answer {
    if r.transportError then Retryable
    else if r.status == 409 then
      if r.reason == "duplicate" then Confirmed(r.ackID)
      else if r.reason == "conflict" then ConflictReported
      else Declined
    else if 200 <= r.status < 300 then
      if TrimSpace(r.ackID) == "" then Retryable else Confirmed(r.ackID)
    else if r.status >= 500 then Retryable
    else Declined
  }

  // The witness has the anchor: it says so with an acknowledgement, or calls the delivery
  // a duplicate of one it took before.
  predicate Acknowledges(r: Response) {
    !r.transportError && ((r.status == 409 && r.reason == "duplicate")
                          || (200 <= r.status < 300 && !Blank(r.ackID)))
  }

  // Nothing is known yet: the exchange broke, the witness failed, or it accepted without
  // an acknowledgement.
  predicate LeavesOpen(r: Response) {
    r.transportError || r.status >= 500
    || (200 <= r.status < 300 && Blank(r.ackID))
  }

  // Every response has one meaning; a refusal is what is left.
  lemma AnswerMeans(r: Response)
    ensures Classify(r) == Confirmed(r.ackID) <==> Acknowledges(r)
    ensures Classify(r).Confirmed? ==> Classify(r).ackID == r.ackID
    ensures Classify(r) == Retryable <==> LeavesOpen(r)
    ensures Classify(r) == ConflictReported <==> !r.transportError && r.status == 409 && r.reason == "conflict"
    ensures !(Acknowledges(r) && LeavesOpen(r))
  {
    BlankIff(r.ackID);
  }

  // What file system, observer and clock do around one append.
  datatype IO = IO(readOk: bool, writeOk: bool, loadOk: bool, compaction: Env, now: int)

  datatype Delivery = Delivery(response: Response, io: IO)

  // ----- the append and its compaction -----

  function WindowSeqs(log: Log): seq<int>
    requires AllClassified(log)
  {
    Filter(Ascending(GroupsOf(log)), (g: int) => g !in Conflicts(log))
  }

  // The guard looks at the smallest sequence number only.
  ghost predicate GuardPasses(log: Log)
    requires AllClassified(log)
  {
    WindowSeqs(log) != [] ==> WindowSeqs(log)[0] in Latest(log) && Latest(log)[WindowSeqs(log)[0]].state == Anchored
  }

  ghost predicate CompactionRuns(log: Log, capacity: int, io: IO)
    requires AllClassified(log)
  {
    && io.loadOk && |WindowSeqs(log)| > capacity && GuardPasses(log)
    && io.compaction.readOk && io.compaction.rewriteOk && (io.compaction.observed ==> io.compaction.observerOk)
  }

  ghost predicate AppendAllowed(log: Log, e: Entry, io: IO) {
    && io.readOk && AllClassified(log) && io.writeOk
    && (e.seqNo in Latest(log) ==> Latest(log)[e.seqNo].payload == e.payload)
  }

  // The log after an append: unchanged when it is not allowed; else one line longer and
  // then, over capacity, cut by the prefix compaction.
  ghost function Appended(log: Log, capacity: int, e: Entry, io: IO): Log {
    if !AppendAllowed(log, e, io) then log
    else
      var longer := log + [LogLine(e, Some(e.seqNo))];
      if capacity > 0 && CompactionRuns(longer, capacity, io) then Compacted(longer, capacity) else longer
  }

  // ----- one delivery attempt -----

  function Exhausted(e: Entry): Entry {
    e.(state := Unanchored, lastError := "attempts exhausted")
  }

  // The state advance an answer leads to; the payload never changes.
  function Advance(e: Entry, a: Answer, maxAttempts: nat, now: int): Entry
    requires !a.ConflictReported?
  {
    var next := e.(attempts := e.attempts + 1);
    match a
    case Confirmed(ack) => next.(state := Anchored, ackID := ack, anchoredAt := now)
    case Declined => next.(state := Unanchored, lastError := "refused")
    case Retryable =>
      if next.attempts >= maxAttempts then Exhausted(next) else next.(state := Pending, lastError := "retry")
  }

  datatype Settings = Settings(capacity: int, maxAttempts: int)

  // What one attempt makes of an entry: another attempt counted, the statement kept, and
  // anchored exactly when the witness has it, abandoned when it refuses or the attempts
  // are used up, else still pending.
  lemma AttemptMeans(e: Entry, r: Response, maxAttempts: nat, now: int)
    requires !Classify(r).ConflictReported?
    ensures var next := Advance(e, Classify(r), maxAttempts, now);
      && next.seqNo == e.seqNo && next.payload == e.payload && next.attempts == e.attempts + 1
      && (next.state == Anchored <==> Acknowledges(r))
      && (next.state == Pending <==> LeavesOpen(r) && e.attempts + 1 < maxAttempts)
      && (next.state == Anchored || next.state == Pending || next.state == Unanchored)
      && (Acknowledges(r) ==> next.ackID == r.ackID && next.anchoredAt == now)
      && (!Acknowledges(r) ==> next.ackID == e.ackID && next.anchoredAt == e.anchoredAt)
      && next.lastError == (if Acknowledges(r) then e.lastError else if !LeavesOpen(r) then "refused"
                            else if next.state == Pending then "retry" else "attempts exhausted")
    ensures Exhausted(e) == Entry(e.seqNo, e.payload, Unanchored, e.attempts, e.ackID, "attempts exhausted", e.anchoredAt)
  {
    AnswerMeans(r);
  }

  ghost function Dispatched(log: Log, cfg: Settings, e: Entry, d: Delivery): Log {
    var a := Classify(d.response);
    if a.ConflictReported? then log
    else Appended(log, cfg.capacity, Advance(e, a, MaxAttempts(cfg.maxAttempts), d.io.now), d.io)
  }

  // ----- the sweep -----

  ghost function SweptEntry(log: Log, cfg: Settings, e: Entry, d: Delivery): Log {
    if e.state != Pending then log
    else if e.attempts >= MaxAttempts(cfg.maxAttempts) then Appended(log, cfg.capacity, Exhausted(e), d.io)
    else Dispatched(log, cfg, e, d)
  }

  // The entries to visit are those of the log the sweep loaded.
  ghost function SweptAll(log: Log, cfg: Settings, loaded: map<int, Entry>, seqs: seq<int>, world: int -> Delivery): Log
    requires forall s :: s in seqs ==> s in loaded
    decreases |seqs|
  {
    if seqs == [] then log
    else
      var s := seqs[0];
      assert s in seqs && s in loaded;
      SweptAll(SweptEntry(log, cfg, loaded[s], world(s)), cfg, loaded, seqs[1..], world)
  }

  ghost predicate Sweepable(log: Log) {
    AllClassified(log) && Conflicts(log) == {}
  }

  ghost function Swept(log: Log, cfg: Settings, loadOk: bool, world: int -> Delivery): Log {
    if !loadOk || !Sweepable(log) then log
    else
      GroupsAreLatest(log);
      SweptAll(log, cfg, Latest(log), Ascending(GroupsOf(log)), world)
  }

  datatype StreamStatus = StreamStatus(
    readable: bool, conflicts: set<int>, anchored: nat, unanchored: nat, retryable: nat, exhausted: nat, converged: bool)

  function EntriesAt(latest: map<int, Entry>, seqs: seq<int>): seq<Entry>
    requires forall s :: s in seqs ==> s in latest
  {
    if seqs == [] then []
    else
      var s := seqs[|seqs| - 1];
      assert s in seqs && s in latest;
      EntriesAt(latest, seqs[..|seqs| - 1]) + [latest[s]]
  }

  lemma EntriesAtStep(latest: map<int, Entry>, seqs: seq<int>, i: nat)
    requires i < |seqs| && forall s :: s in seqs ==> s in latest
    ensures seqs[i] in latest
    ensures (forall s :: s in seqs[..i] ==> s in latest) && (forall s :: s in seqs[..i + 1] ==> s in latest)
    ensures EntriesAt(latest, seqs[..i + 1]) == EntriesAt(latest, seqs[..i]) + [latest[seqs[i]]]
  {
    var s := seqs[i];
    assert s in seqs && s in latest;
    assert seqs[..i + 1][..i] == seqs[..i];
  }

  lemma CountSnoc(es: seq<Entry>, e: Entry, p: Entry -> bool)
    ensures Count(es + [e], p) == Count(es, p) + if p(e) then 1 else 0
  {
    assert (es + [e])[..|es|] == es;
  }

  lemma NothingCounted(latest: map<int, Entry>, seqs: seq<int>)
    ensures EntriesAt(latest, seqs[..0]) == []
    ensures forall p: Entry -> bool :: Filter([], p) == []
  {
  }

  // The entries the read face counts: the last line of every group without conflict.
  ghost function EntriesOf(log: Log): seq<Entry>
    requires AllClassified(log)
  {
    WindowOfLatest(log);
    EntriesAt(Latest(log) - Conflicts(log), WindowSeqs(log))
  }

  ghost predicate NothingPending(log: Log) {
    forall s :: s in Latest(log) ==> Latest(log)[s].state != Pending
  }

  lemma {:induction false} EntriesAtMembers(latest: map<int, Entry>, seqs: seq<int>)
    requires forall s :: s in seqs ==> s in latest
    ensures forall e :: e in EntriesAt(latest, seqs) <==> exists s :: s in seqs && latest[s] == e
  {
    if seqs != [] {
      var init, s := seqs[..|seqs| - 1], seqs[|seqs| - 1];
      assert seqs == init + [s] && s in seqs;
      EntriesAtMembers(latest, init);
    }
  }

  lemma NoneCounted(es: seq<Entry>, p: Entry -> bool)
    ensures Count(es, p) == 0 <==> forall e :: e in es ==> !p(e)
  {
    FilterMembers(es, p);
    if Count(es, p) != 0 {
      assert Filter(es, p)[0] in Filter(es, p);
    }
  }

  // Counting the pending entries one by one, below and at the attempt limit, finds none
  // exactly when no group's last line is pending.
  lemma PendingIsCounted(log: Log, m: nat)
    requires Sweepable(log)
    ensures Count(EntriesOf(log), (e: Entry) => e.state == Pending && e.attempts < m)
          + Count(EntriesOf(log), (e: Entry) => e.state == Pending && e.attempts >= m) == 0
        <==> NothingPending(log)
  {
    WindowOfLatest(log);
    EntriesAtMembers(Latest(log) - Conflicts(log), WindowSeqs(log));
    hide Latest, Conflicts, WindowSeqs, EntriesAt, Count;
    NoneCounted(EntriesOf(log), (e: Entry) => e.state == Pending && e.attempts < m);
    NoneCounted(EntriesOf(log), (e: Entry) => e.state == Pending && e.attempts >= m);
    if !NothingPending(log) {
      var s :| s in Latest(log) && Latest(log)[s].state == Pending;
      assert Latest(log)[s] in EntriesOf(log);
    }
  }

  class AnchorStream {
    const cfg: Settings
    var log: Log

    constructor (c: Settings)
      ensures cfg == c && log == []
    {
      cfg, log := c, [];
    }

    // None when a line cannot be read.
    method Load() returns (r: Option<(map<int, Entry>, set<int>, seq<int>)>)
      ensures AllClassified(log) <==> r.Some?
      ensures r.Some? ==> r.value == (Latest(log) - Conflicts(log), Conflicts(log), WindowSeqs(log))
    {
      var latest: map<int, Entry>, conflicted: set<int>, order: seq<int>, ok := map[], {}, [], true;
      for i := 0 to |log|
        invariant latest == Latest(log[..i]) && conflicted == Conflicts(log[..i])
        invariant ok <==> AllClassified(log[..i])
        invariant ok ==> order == GroupsOf(log[..i])
      {
        assert log[..i + 1][..i] == log[..i] && log[..i + 1] == log[..i] + [log[i]];
        if log[i].group.None? {
          ok := false;
          assert log[i] in log[..i + 1];
        } else {
          var e, g := log[i].raw, log[i].group.value;
          if g in latest && latest[g].payload != e.payload {
            conflicted := conflicted + {g};
          }
          latest := latest[g := e];
          if g !in order {
            order := order + [g];
          }
        }
      }
      assert log[..|log|] == log;
      if !ok {
        return None;
      }
      var seqs := SelectSeqs(Ascending(order), conflicted);
      return Some((latest - conflicted, conflicted, seqs));
    }

    method SelectSeqs(s: seq<int>, out: set<int>) returns (r: seq<int>)
      ensures r == Filter(s, (g: int) => g !in out)
    {
      r := [];
      for i := 0 to |s|
        invariant r == Filter(s[..i], (g: int) => g !in out)
      {
        assert s[..i + 1][..i] == s[..i];
        if s[i] !in out {
          r := r + [s[i]];
        }
      }
      assert s[..|s|] == s;
    }

    method AppendEntry(e: Entry, io: IO)
      modifies this
      ensures log == Appended(old(log), cfg.capacity, e, io)
    {
      if !io.readOk {
        return;
      }
      var prev: Option<Entry>, unclassified := None, 0;
      for i := 0 to |log|
        invariant unclassified == 0 <==> AllClassified(log[..i])
        invariant 0 <= unclassified
        invariant prev == if e.seqNo in Latest(log[..i]) then Some(Latest(log[..i])[e.seqNo]) else None
      {
        assert log[..i + 1][..i] == log[..i] && log[..i + 1] == log[..i] + [log[i]];
        if log[i].group.None? {
          unclassified := unclassified + 1;
          assert log[i] in log[..i + 1];
        } else if log[i].group.value == e.seqNo {
          prev := Some(log[i].raw);
        }
      }
      assert log[..|log|] == log;
      if unclassified > 0 || (prev.Some? && prev.value.payload != e.payload) || !io.writeOk {
        return;
      }
      log := log + [LogLine(e, Some(e.seqNo))];
      if cfg.capacity > 0 {
        CompactPrefix(io);
      }
    }

    method CompactPrefix(io: IO)
      requires AllClassified(log) && cfg.capacity > 0
      modifies this
      ensures log == if CompactionRuns(old(log), cfg.capacity, io) then Compacted(old(log), cfg.capacity) else old(log)
    {
      if !io.loadOk {
        return;
      }
      var st := Load();
      var (latest, conflicts, seqs) := st.value;
      if |seqs| <= cfg.capacity {
        return;
      }
      WindowOfLatest(log);
      var first := seqs[0];
      assert first in WindowSeqs(log);
      assert first in latest;
      if latest[first].state != Anchored {
        return;
      }
      if !io.compaction.readOk {
        return;
      }
      var drop, kept := PlanPrefixDrop(log, cfg.capacity);
      if |kept| == |log| {
        SameLengthSameLines(log, drop);
        return;
      }
      if io.compaction.observed && !io.compaction.observerOk {
        return;
      }
      if !io.compaction.rewriteOk {
        return;
      }
      log := kept;
    }

    method Dispatch(e: Entry, d: Delivery)
      modifies this
      ensures log == Dispatched(old(log), cfg, e, d)
    {
      var a := Classify(d.response);
      if a.ConflictReported? {
        return;
      }
      var next := e.(attempts := e.attempts + 1);
      match a {
        case Confirmed(ack) =>
          next := next.(state := Anchored, ackID := ack, anchoredAt := d.io.now);
        case Declined =>
          next := next.(state := Unanchored, lastError := "refused");
        case Retryable =>
          next := next.(state := Pending, lastError := "retry");
          if next.attempts >= MaxAttempts(cfg.maxAttempts) {
            next := next.(state := Unanchored, lastError := "attempts exhausted");
          }
      }
      AppendEntry(next, d.io);
    }

    method Sweep(loadOk: bool, world: int -> Delivery)
      modifies this
      ensures log == Swept(old(log), cfg, loadOk, world)
    {
      if !loadOk {
        return;
      }
      var st := Load();
      if st.None? || st.value.1 != {} {
        return;
      }
      var (latest, conflicts, seqs) := st.value;
      WindowOfLatest(log);
      assert latest == Latest(log);
      ghost var start := log;
      hide SweptEntry, Latest, Conflicts, WindowSeqs;
      for i := 0 to |seqs|
        invariant forall s :: s in seqs ==> s in latest
        invariant forall s :: s in seqs[i..] ==> s in latest
        invariant SweptAll(log, cfg, latest, seqs[i..], world) == SweptAll(start, cfg, latest, seqs, world)
      {
        assert seqs[i] in seqs && seqs[i..][1..] == seqs[i + 1..];
        SweepEntry(latest[seqs[i]], world(seqs[i]));
      }
    }

    // The read face: counts by state, derived on every call.
    method Status() returns (r: StreamStatus)
      ensures r.readable <==> AllClassified(log)
      ensures r.readable ==>
        var es := EntriesOf(log);
        && r.conflicts == Conflicts(log)
        && r.anchored == Count(es, (e: Entry) => e.state == Anchored)
        && r.unanchored == Count(es, (e: Entry) => e.state == Unanchored)
        && r.retryable == Count(es, (e: Entry) => e.state == Pending && e.attempts < MaxAttempts(cfg.maxAttempts))
        && r.exhausted == Count(es, (e: Entry) => e.state == Pending && e.attempts >= MaxAttempts(cfg.maxAttempts))
      ensures r.converged <==> Sweepable(log) && NothingPending(log)
    {
      var st := Load();
      if st.None? {
        return StreamStatus(false, {}, 0, 0, 0, 0, false);
      }
      var (latest, conflicts, seqs) := st.value;
      WindowOfLatest(log);
      var m := MaxAttempts(cfg.maxAttempts);
      hide Latest, Conflicts, WindowSeqs, Filter, EntriesAt;
      NothingCounted(latest, seqs);
      var anchored, unanchored, retryable, exhausted := 0, 0, 0, 0;
      for i := 0 to |seqs|
        invariant forall s :: s in seqs ==> s in latest
        invariant forall s :: s in seqs[..i] ==> s in latest
        invariant anchored == Count(EntriesAt(latest, seqs[..i]), (e: Entry) => e.state == Anchored)
        invariant unanchored == Count(EntriesAt(latest, seqs[..i]), (e: Entry) => e.state == Unanchored)
        invariant retryable == Count(EntriesAt(latest, seqs[..i]), (e: Entry) => e.state == Pending && e.attempts < m)
        invariant exhausted == Count(EntriesAt(latest, seqs[..i]), (e: Entry) => e.state == Pending && e.attempts >= m)
      {
        var s := seqs[i];
        assert s in seqs;
        var e := latest[s];
        ghost var es := EntriesAt(latest, seqs[..i]);
        EntriesAtStep(latest, seqs, i);
        CountSnoc(es, e, (e: Entry) => e.state == Anchored);
        CountSnoc(es, e, (e: Entry) => e.state == Unanchored);
        CountSnoc(es, e, (e: Entry) => e.state == Pending && e.attempts < m);
        CountSnoc(es, e, (e: Entry) => e.state == Pending && e.attempts >= m);
        match e.state {
          case Anchored => anchored := anchored + 1;
          case Unanchored => unanchored := unanchored + 1;
          case Pending =>
            if e.attempts >= m {
              exhausted := exhausted + 1;
            } else {
              retryable := retryable + 1;
            }
          case OtherState(_) =>
        }
      }
      assert seqs[..|seqs|] == seqs;
      if conflicts == {} {
        PendingIsCounted(log, m);
      }
      return StreamStatus(true, conflicts, anchored, unanchored, retryable, exhausted,
                          conflicts == {} && retryable + exhausted == 0);
    }

    // Settled entries are left alone; a pending one is delivered once more, or
    // terminalised when its attempts are used up.
    method SweepEntry(e: Entry, d: Delivery)
      modifies this
      ensures log == SweptEntry(old(log), cfg, e, d)
    {
      if e.state != Pending {
        return;
      }
      if e.attempts >= MaxAttempts(cfg.maxAttempts) {
        AppendEntry(e.(state := Unanchored, lastError := "attempts exhausted"), d.io);
        return;
      }
      Dispatch(e, d);
    }
  }

  predicate Sorted(s: seq<int>) {
    forall i, j :: 0 <= i < j < |s| ==> s[i] <= s[j]
  }

  lemma {:induction false} AscendingSorts(s: seq<int>)
    ensures multiset(Ascending(s)) == multiset(s) && Sorted(Ascending(s))
  {
    if s != [] {
      AscendingSorts(s[1..]);
      InsertKeepsOrder(Ascending(s[1..]), s[0]);
      assert s == [s[0]] + s[1..];
    }
  }

  lemma AscendingMembers(s: seq<int>)
    ensures forall g :: g in Ascending(s) <==> g in s
  {
    AscendingSorts(s);
    hide Ascending;
    forall g ensures g in Ascending(s) <==> g in s {
      assert g in Ascending(s) <==> g in multiset(Ascending(s));
      assert g in s <==> g in multiset(s);
    }
  }

  lemma {:induction false} InsertAdds(s: seq<int>, x: int)
    ensures multiset(InsertAscending(s, x)) == multiset(s) + multiset{x}
  {
    if s != [] && x > s[0] {
      InsertAdds(s[1..], x);
      assert s == [s[0]] + s[1..];
    }
  }

  lemma InsertedIsNewOrOld(s: seq<int>, x: int, y: int)
    requires y in InsertAscending(s, x)
    ensures y == x || y in s
  {
    InsertAdds(s, x);
    assert y in multiset(InsertAscending(s, x));
    assert y == x || y in multiset(s);
  }

  lemma {:induction false} InsertKeepsOrder(s: seq<int>, x: int)
    requires Sorted(s)
    ensures multiset(InsertAscending(s, x)) == multiset(s) + multiset{x} && Sorted(InsertAscending(s, x))
  {
    InsertAdds(s, x);
    if s == [] {
    } else if x <= s[0] {
      SortedTail(s);
      SortedCons(x, s);
    } else {
      SortedTail(s);
      hide Sorted;
      InsertKeepsOrder(s[1..], x);
      forall y | y in InsertAscending(s[1..], x) ensures s[0] <= y {
        InsertedIsNewOrOld(s[1..], x, y);
      }
      SortedCons(s[0], InsertAscending(s[1..], x));
    }
  }

  lemma SortedTail(s: seq<int>)
    requires Sorted(s) && s != []
    ensures Sorted(s[1..]) && forall y :: y in s ==> s[0] <= y
  {
  }

  lemma SortedCons(x: int, s: seq<int>)
    requires Sorted(s) && forall y :: y in s ==> x <= y
    ensures Sorted([x] + s)
  {
    assert forall j :: 0 <= j < |s| ==> s[j] in s;
  }

  lemma WindowOfLatest(log: Log)
    requires AllClassified(log)
    ensures forall s :: s in WindowSeqs(log) <==> s in Latest(log) && s !in Conflicts(log)
    ensures Conflicts(log) == {} ==> WindowSeqs(log) == Ascending(GroupsOf(log))
  {
    GroupsAreLatest(log);
    FilterMembers(Ascending(GroupsOf(log)), (g: int) => g !in Conflicts(log));
    if Conflicts(log) == {} {
      FilterAll(Ascending(GroupsOf(log)), (g: int) => g !in Conflicts(log));
    }
  }

  // The groups of a readable log are the keys of its latest lines, and those lines are
  // the ends of their histories.
  lemma {:induction false} GroupsAreLatest(log: Log)
    requires AllClassified(log)
    ensures forall s :: s in GroupsOf(log) <==> s in Latest(log)
    ensures forall s :: s in Ascending(GroupsOf(log)) <==> s in Latest(log)
  {
    AscendingMembers(GroupsOf(log));
    if log != [] {
      GroupsAreLatest(log[..|log| - 1]);
    }
  }
}
