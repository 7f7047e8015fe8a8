// The reconciliation scan: one finding per intent row of the newest window, judged from
// the trail alone, and the bounded ring of past scans.
module Reconciler {
  import opened Seqs
  import opened AuditLog
  import opened PolicyRepository
  import opened Management
  import opened ManagementRuns

  const SCAN_CAP: nat := 1000
  const DEFAULT_HISTORY_CAP := 16

  datatype Finding = Closed | Unresolved | NoMatch | Unexaminable

  datatype Entry = Entry(correlationID: string, policyID: string, intentRevision: int, observedRevision: int, status: Finding)

  datatype ScanStatus = Verified | Truncated | UnknownScan

  datatype Report = Report(status: ScanStatus, scanned: nat, truncated: bool, unexaminable: nat, entries: seq<Entry>)

  // Whether the two evidence reads made for one row succeed.
  datatype RowIO = RowIO(tailOk: bool, getOk: bool)

  predicate IsIntent(e: AuditEvent) {
    e.result == INTENT
  }

  function Classify(s: State, e: AuditEvent, io: RowIO): Entry {
    var blank := Entry(e.correlationID, e.target, e.revision, 0, Unexaminable);
    if !io.tailOk then blank
    else if HasTerminalOutcome(LastN(Chain(s.log, e.correlationID), TAIL_DEPTH)) then blank.(status := Closed)
    else
      match Read(s.store, e.target, io.getOk)
      case Ok(Some(rec)) => blank.(status := Unresolved, observedRevision := rec.revision)
      case _ => blank.(status := NoMatch)
  }

  // The newest rows the scan looks at, newest first.
  function Window(log: seq<AuditEvent>): (w: seq<AuditEvent>)
    ensures |w| == if |log| <= SCAN_CAP then |log| else SCAN_CAP
  {
    Reverse(LastN(log, SCAN_CAP))
  }

  function Entries(s: State, rows: seq<AuditEvent>, io: int -> RowIO): seq<Entry> {
    Map(Filter(rows, IsIntent), (e: AuditEvent) => Classify(s, e, io(e.id)))
  }

  function Unread(rows: seq<AuditEvent>, io: int -> RowIO): nat {
    Count(rows, (e: AuditEvent) => IsIntent(e) && !io(e.id).tailOk)
  }

  function ReportOf(s: State, io: int -> RowIO): Report {
    Report(if |s.log| > SCAN_CAP then Truncated else Verified, |Window(s.log)|, |s.log| > SCAN_CAP,
           Unread(Window(s.log), io), Entries(s, Window(s.log), io))
  }

  // ----- the ring of past scans -----

  datatype Ring = Ring(reports: seq<Report>, cap: int, truncated: bool)

  function Push(r: Ring, rep: Report): Ring {
    if r.cap <= 0 then r
    else
      var all := r.reports + [rep];
      if |all| > r.cap then r.(reports := all[1..], truncated := true) else r.(reports := all)
  }

  function Resize(r: Ring, n: int): Ring {
    var cap := if n < 0 then 0 else n;
    if cap == 0 then r.(cap := 0, reports := [])
    else if |r.reports| > cap then Ring(r.reports[|r.reports| - cap..], cap, true)
    else r.(cap := cap)
  }

  class Reconciler {
    const audit: MemAuditStore
    const repo: FileRepository
    var scanHistory: seq<Report>
    var scanHistoryCap: int
    var scanHistoryTruncated: bool

    function Current(): State
      reads audit, repo
    {
      State(repo.files, audit.items)
    }

    function History(): Ring
      reads this
    {
      Ring(scanHistory, scanHistoryCap, scanHistoryTruncated)
    }

    constructor (a: MemAuditStore, f: FileRepository)
      ensures audit == a && repo == f && History() == Ring([], DEFAULT_HISTORY_CAP, false)
    {
      audit, repo := a, f;
      scanHistory, scanHistoryCap, scanHistoryTruncated := [], DEFAULT_HISTORY_CAP, false;
    }

    method ClassifyIntent(e: AuditEvent, io: RowIO) returns (entry: Entry, unexaminable: bool)
      ensures entry == Classify(Current(), e, io) && unexaminable == !io.tailOk
    {
      entry := Entry(e.correlationID, e.target, e.revision, 0, Unexaminable);
      if !io.tailOk {
        return entry, true;
      }
      var tail := audit.ListByCorrelation(e.correlationID, TAIL_DEPTH);
      ReverseMembers(LastN(Chain(audit.items, e.correlationID), TAIL_DEPTH));
      if HasTerminalOutcome(tail) {
        return entry.(status := Closed), false;
      }
      var got := repo.Get(e.target, io.getOk);
      if got.Err? || got.value.None? {
        return entry.(status := NoMatch), false;
      }
      return entry.(observedRevision := got.value.value.revision, status := Unresolved), false;
    }

    // Reads one row past the cap, so that truncation is detected and not assumed.
    method NewestRows() returns (events: seq<AuditEvent>, over: bool)
      ensures events == Window(audit.items) && (over <==> |audit.items| > SCAN_CAP)
    {
      events := audit.List(SCAN_CAP + 1);
      WindowOfList(audit.items);
      over := |events| > SCAN_CAP;
      if over {
        events := events[..SCAN_CAP];
      }
    }

    method Examine(events: seq<AuditEvent>, io: int -> RowIO) returns (entries: seq<Entry>, unexaminable: nat)
      ensures entries == Entries(Current(), events, io) && unexaminable == Unread(events, io)
    {
      hide Entries, Unread, Classify;
      entries, unexaminable := [], 0;
      NothingToExamine(Current(), io);
      var k := 0;
      while k < |events|
        invariant 0 <= k <= |events|
        invariant entries == Entries(Current(), events[..k], io)
        invariant unexaminable == Unread(events[..k], io)
      {
        EntriesStep(Current(), events[..k], events[k], io);
        assert events[..k + 1] == events[..k] + [events[k]];
        if events[k].result == INTENT {
          var entry, unread := ClassifyIntent(events[k], io(events[k].id));
          if unread {
            unexaminable := unexaminable + 1;
          }
          entries := entries + [entry];
        }
        k := k + 1;
      }
      assert events[..k] == events;
    }

    // Reads only: the trail and the store stay as they are, and a completed scan is
    // remembered in the ring.
    method Scan(listOk: bool, io: int -> RowIO) returns (report: Report)
      modifies this
      ensures report == if listOk then ReportOf(Current(), io) else Report(UnknownScan, 0, false, 0, [])
      ensures History() == if listOk then Push(old(History()), report) else old(History())
    {
      if !listOk {
        return Report(UnknownScan, 0, false, 0, []);
      }
      hide Entries, Unread, Push, Window;
      var events, over := NewestRows();
      var entries, unexaminable := Examine(events, io);
      report := Report(if over then Truncated else Verified, |events|, over, unexaminable, entries);
      PushScanHistory(report);
    }

    method PushScanHistory(rep: Report)
      modifies this
      ensures History() == Push(old(History()), rep)
    {
      if scanHistoryCap <= 0 {
        return;
      }
      scanHistory := scanHistory + [rep];
      if |scanHistory| > scanHistoryCap {
        scanHistory := scanHistory[1..];
        scanHistoryTruncated := true;
      }
    }

    method SetScanHistoryCap(n: int)
      modifies this
      ensures History() == Resize(old(History()), n)
    {
      scanHistoryCap := if n < 0 then 0 else n;
      if scanHistoryCap == 0 {
        scanHistory := [];
        return;
      }
      if |scanHistory| > scanHistoryCap {
        scanHistory := scanHistory[|scanHistory| - scanHistoryCap..];
        scanHistoryTruncated := true;
      }
    }
  }

  // Reading one row past the cap and cutting it off is the newest-rows window.
  lemma WindowOfList(log: seq<AuditEvent>)
    ensures var l := Reverse(LastN(log, SCAN_CAP + 1));
      (if |l| > SCAN_CAP then l[..SCAN_CAP] else l) == Window(log) && (|l| > SCAN_CAP <==> |log| > SCAN_CAP)
  {
  }

  lemma NothingToExamine(s: State, io: int -> RowIO)
    ensures Entries(s, [], io) == [] && Unread([], io) == 0
  {
  }

  lemma EntriesStep(s: State, rows: seq<AuditEvent>, e: AuditEvent, io: int -> RowIO)
    ensures Entries(s, rows + [e], io) == Entries(s, rows, io) + if IsIntent(e) then [Classify(s, e, io(e.id))] else []
    ensures Unread(rows + [e], io) == Unread(rows, io) + if IsIntent(e) && !io(e.id).tailOk then 1 else 0
  {
    assert (rows + [e])[..|rows|] == rows;
  }

  // ----- what a finding means -----

  // The outcome row of the intent at index i: it follows directly.
  predicate OwnOutcome(log: seq<AuditEvent>, i: int) {
    0 <= i < |log| - 1 && IsTerminal(log[i + 1]) && log[i + 1].correlationID == log[i].correlationID
  }

  // Closed means, on any log, that the trail could be read, the id has an outcome, and
  // fewer than four rows of the id follow the newest one.
  lemma ClosedIff(s: State, e: AuditEvent, io: RowIO)
    ensures Classify(s, e, io).status == Closed <==>
      io.tailOk && HasOutcome(s.log, e.correlationID) && RowsBehind(Chain(s.log, e.correlationID)) < TAIL_DEPTH
  {
    TailTellsIff(s.log, e.correlationID);
  }

  // Every other finding, told from the evidence: an unreadable trail is unexaminable, and
  // an open intent is unresolved with the stored revision beside it, or has no match when
  // its policy is gone or cannot be read.
  lemma FindingMeans(s: State, e: AuditEvent, io: RowIO)
    ensures var f := Classify(s, e, io);
      && f.correlationID == e.correlationID && f.policyID == e.target && f.intentRevision == e.revision
      && (f.status == Unexaminable <==> !io.tailOk)
      && (f.status == Unresolved ==> io.getOk && SafeName(e.target) && e.target in s.store)
      && (f.status == NoMatch ==> !io.getOk || !SafeName(e.target) || e.target !in s.store)
      && f.observedRevision == if f.status == Unresolved then RevisionOf(s.store, e.target) else 0
  {
  }

  // The finding for a request whose outcome row was lost, under an id of its own.
  lemma LostOutcomeFinding(s: State, r: Request, io: RowIO)
    requires Sound(s.store) && io.tailOk && io.getOk && SafeName(PolicyOf(r.verb))
    requires Correlation(r) != "" && forall e :: e in s.log ==> e.correlationID != Correlation(r)
    requires r.env.intentOk && !r.env.outcomeOk
    ensures var t := Serve(s, r).0;
      && |t.log| == |s.log| + 1
      && var f := Classify(t, t.log[|s.log|], io);
      && f.intentRevision == ExpectedOf(r.verb)
      && f.observedRevision == RevisionOf(s.store, PolicyOf(r.verb)) + (if WillMove(s.store, r) then 1 else 0)
      && f.status == if WillMove(s.store, r) || PolicyOf(r.verb) in s.store then Unresolved else NoMatch
  {
    var t := Serve(s, r).0;
    assert !HasOutcome(s.log, Correlation(r));
    NothingToReplayUnder(s.log, r);
    ChangeFollowsIntent(s, r);
    RowsBehindStep(s, r, Correlation(r));
    MovesIff(s.store, r);
    CommitIsOneCall(s.store, r.verb, r.env.io);
    OneStep(s.store, CallOf(r.verb, r.env.io), PolicyOf(r.verb));
    SameUnlessChanged(s.store, t.store, PolicyOf(r.verb));
    hide Serve, WillMove, Classify, HasOutcome, Sound, RowsBehind, Chain, Apply;
    ClosedIff(t, t.log[|s.log|], io);
    FindingMeans(t, t.log[|s.log|], io);
  }

  lemma NothingToReplayUnder(log: seq<AuditEvent>, r: Request)
    requires !HasOutcome(log, Correlation(r))
    ensures !Replayed(log, r)
  {
    if r.supplied != "" {
      NothingToReplay(log, r);
    }
  }

  // Why nothing is concluded from a moved revision: a commit whose outcome row was lost
  // and a stale request that moved nothing leave the same finding.
  lemma FindingDoesNotTell(s: State, r: Request, s': State, r': Request, io: RowIO)
    requires Sound(s.store) && Sound(s'.store) && io.tailOk && io.getOk && SafeName(PolicyOf(r.verb))
    requires Correlation(r) == Correlation(r') != ""
    requires PolicyOf(r.verb) == PolicyOf(r'.verb) && ExpectedOf(r.verb) == ExpectedOf(r'.verb)
    requires forall e :: e in s.log || e in s'.log ==> e.correlationID != Correlation(r)
    requires r.env.intentOk && !r.env.outcomeOk && r'.env.intentOk && !r'.env.outcomeOk
    requires WillMove(s.store, r) && RevisionOf(s'.store, PolicyOf(r.verb)) == ExpectedOf(r.verb) + 1
    requires ExpectedOf(r.verb) >= 0
    ensures Serve(s, r).0.store != s.store && Serve(s', r').0.store == s'.store
    ensures |Serve(s, r).0.log| == |s.log| + 1 && |Serve(s', r').0.log| == |s'.log| + 1
    ensures Classify(Serve(s, r).0, Serve(s, r).0.log[|s.log|], io)
         == Classify(Serve(s', r').0, Serve(s', r').0.log[|s'.log|], io)
  {
    LostOutcomeFinding(s, r, io);
    LostOutcomeFinding(s', r', io);
    MovesIff(s.store, r);
    NothingToReplayUnder(s.log, r);
    StaleMovesNothing(s'.store, r');
    MovesIff(s'.store, r');
    assert Serve(s', r').0.store == s'.store || Commit(s'.store, r'.verb, r'.env.io).0 == s'.store;
    ChangeFollowsIntent(s, r);
    ChangeFollowsIntent(s', r');
    MoverNamesTheRevision(s.store, r);
    hide Serve, WillMove, Sound;
    FindingMeans(Serve(s, r).0, Serve(s, r).0.log[|s.log|], io);
    FindingMeans(Serve(s', r').0, Serve(s', r').0.log[|s'.log|], io);
  }

  lemma StaleMovesNothing(s: Store, r: Request)
    requires RevisionOf(s, PolicyOf(r.verb)) != ExpectedOf(r.verb)
    ensures !WillMove(s, r)
  {
  }

  lemma MoverNamesTheRevision(s: Store, r: Request)
    requires WillMove(s, r)
    ensures RevisionOf(s, PolicyOf(r.verb)) == ExpectedOf(r.verb)
  {
  }

  // In rows the pipeline wrote, an id has an outcome exactly when some intent that
  // carries it has its own.
  lemma OutcomeHasItsIntent(log: seq<AuditEvent>, c: string)
    requires Regular(log)
    ensures HasOutcome(log, c) <==>
      exists j :: 0 <= j < |log| && log[j].correlationID == c && IsIntent(log[j]) && OwnOutcome(log, j)
  {
    if HasOutcome(log, c) {
      var e :| e in log && e.correlationID == c && IsTerminal(e);
      var t :| 0 <= t < |log| && log[t] == e;
      assert OwnOutcome(log, t - 1) && IsIntent(log[t - 1]) && log[t - 1].correlationID == c;
    }
    if j :| 0 <= j < |log| && log[j].correlationID == c && IsIntent(log[j]) && OwnOutcome(log, j) {
      assert log[j + 1] in log;
    }
  }

  // Where no key was used again behind its outcome, an intent reads closed if and only
  // if it or a later intent of its id has its own outcome row.
  lemma ClosedOnATrailIff(s: State, i: nat, io: RowIO)
    requires Trail(s.log) && i < |s.log| && IsIntent(s.log[i]) && io.tailOk
    ensures Classify(s, s.log[i], io).status == Closed <==>
      exists j :: i <= j < |s.log| && s.log[j].correlationID == s.log[i].correlationID
                  && IsIntent(s.log[j]) && OwnOutcome(s.log, j)
  {
    var c := s.log[i].correlationID;
    TailTellsAll(s.log, c);
    if HasOutcome(s.log, c) {
      var e :| e in s.log && e.correlationID == c && IsTerminal(e);
      var t :| 0 <= t < |s.log| && s.log[t] == e;
      assert i <= t;
      assert OwnOutcome(s.log, t - 1) && s.log[t - 1].correlationID == c;
    }
    if j :| i <= j < |s.log| && s.log[j].correlationID == c && IsIntent(s.log[j]) && OwnOutcome(s.log, j) {
      assert s.log[j + 1] in s.log;
    }
  }

  predicate OnlyIntentOfItsId(log: seq<AuditEvent>, i: nat)
    requires i < |log|
  {
    forall j :: 0 <= j < |log| && j != i && IsIntent(log[j]) ==> log[j].correlationID != log[i].correlationID
  }

  // For an id no other intent carries, as the server's own are, closed means that this
  // very intent has its outcome row, whatever happened under other keys.
  lemma OwnIdClosedIff(s: State, i: nat, io: RowIO)
    requires Regular(s.log) && i < |s.log| && IsIntent(s.log[i]) && OnlyIntentOfItsId(s.log, i)
    ensures Classify(s, s.log[i], io).status == Closed <==> io.tailOk && OwnOutcome(s.log, i)
  {
    var c := s.log[i].correlationID;
    ClosedIff(s, s.log[i], io);
    OutcomeHasItsIntent(s.log, c);
    if OwnOutcome(s.log, i) {
      var k := ChainEnd(s.log, c);
      assert s.log[i] in s.log && i + 1 <= k;
      assert IsTerminal(s.log[k]);
    }
  }

  // So it is for every intent with an id of its own, after every run of requests.
  lemma OwnIdClosedAfterAnyRun(s: State, rs: seq<Request>, i: nat, io: RowIO)
    requires Regular(s.log)
    requires var log := ManagementRuns.Run(s, rs).log; i < |log| && IsIntent(log[i]) && OnlyIntentOfItsId(log, i)
    ensures var t := ManagementRuns.Run(s, rs);
      Classify(t, t.log[i], io).status == Closed <==> io.tailOk && OwnOutcome(t.log, i)
  {
    RunKeepsRegular(s, rs);
    OwnIdClosedIff(ManagementRuns.Run(s, rs), i, io);
  }

  // A closed intent can be made to read open: its outcome is recorded, and then n blind
  // requests pass under its key. It reads closed exactly while n is less than four.
  lemma BuriedIntentIff(s: State, first: Request, blind: seq<Request>, io: RowIO)
    requires Sound(s.store) && first.supplied != "" && io.tailOk
    requires !Replayed(s.log, first) && first.env.intentOk && first.env.outcomeOk
    requires forall r :: r in blind ==> Blind(r, first.supplied)
    ensures var t := ManagementRuns.Run(s, [first] + blind);
      && |t.log| > |s.log| + 1 && IsIntent(t.log[|s.log|]) && OwnOutcome(t.log, |s.log|)
      && (Classify(t, t.log[|s.log|], io).status == Closed <==> |blind| < TAIL_DEPTH)
  {
    hide Serve, Sound, Chain, HasOutcome, RowsBehind, ManagementRuns.Run, Replayed, Classify;
    OutcomeJustRecorded(s, first);
    var s1 := Serve(s, first).0;
    BlindRequestsBury(s1, blind, first.supplied);
    RunOfCons(s, first, blind);
    var t := ManagementRuns.Run(s, [first] + blind);
    assert t.log[|s.log|] == s1.log[|s.log|] && t.log[|s.log| + 1] == s1.log[|s.log| + 1];
    ClosedIff(t, t.log[|s.log|], io);
  }

  // A reused key hides an orphan: the first request's outcome row is lost after its
  // commit, the retry under the same key records one, and both intents read closed.
  lemma ReusedKeyClosesAnOrphan(s: State, first: Request, retry: Request, io: RowIO)
    requires Sound(s.store) && first.supplied == retry.supplied != ""
    requires forall e :: e in s.log ==> e.correlationID != first.supplied
    requires first.env.intentOk && !first.env.outcomeOk
    requires retry.env.intentOk && retry.env.outcomeOk && io.tailOk
    ensures var t := ManagementRuns.Run(s, [first, retry]);
      && |t.log| == |s.log| + 3
      && !OwnOutcome(t.log, |s.log|)
      && Classify(t, t.log[|s.log|], io).status == Closed
  {
    hide Serve, Sound, Classify, HasTerminalOutcome, Chain, HasOutcome, RowsBehind, ManagementRuns.Run, Replayed;
    var s1 := Serve(s, first).0;
    LostOutcomeLeavesAnOrphan(s, first);
    NothingToReplay(s1.log, retry);
    OutcomeJustRecorded(s1, retry);
    RunOfTwo(s, first, retry);
    var t := Serve(s1, retry).0;
    var orphan := t.log[|s.log|];
    assert orphan == s1.log[|s.log|];
    ClosedIff(t, orphan, io);
    assert !IsTerminal(t.log[|s.log| + 1]);
  }

  lemma NothingToReplay(log: seq<AuditEvent>, r: Request)
    requires !HasOutcome(log, r.supplied)
    ensures !Replayed(log, r)
  {
    TailTellsIff(log, r.supplied);
  }

  lemma RunOfTwo(s: State, a: Request, b: Request)
    ensures ManagementRuns.Run(s, [a, b]) == Serve(Serve(s, a).0, b).0
  {
    hide Serve;
    assert [a, b][1..] == [b] && [b][1..] == [];
    var s1 := Serve(s, a).0;
    assert ManagementRuns.Run(Serve(s1, b).0, []) == Serve(s1, b).0;
    assert ManagementRuns.Run(s1, [b]) == Serve(s1, b).0;
  }

  lemma LostOutcomeLeavesAnOrphan(s: State, first: Request)
    requires Sound(s.store) && first.supplied != ""
    requires forall e :: e in s.log ==> e.correlationID != first.supplied
    requires first.env.intentOk && !first.env.outcomeOk
    ensures var t := Serve(s, first).0;
      && Sound(t.store) && !HasOutcome(t.log, first.supplied)
      && t.log == Appended(s.log, Row(first, INTENT, ExpectedOf(first.verb)))
  {
    NothingToReplay(s.log, first);
    ChangeFollowsIntent(s, first);
    RowsBehindStep(s, first, first.supplied);
  }

  // ----- what a report vouches for -----

  lemma {:induction false} CountMap(es: seq<AuditEvent>, s: State, io: int -> RowIO)
    ensures Count(Entries(s, es, io), (f: Entry) => f.status == Unexaminable) == Unread(es, io)
    ensures |Entries(s, es, io)| == Count(es, IsIntent)
    decreases |es|
  {
    if es == [] {
      NothingToExamine(s, io);
      assert Entries(s, [], io) == [];
    } else {
      var init, e := es[..|es| - 1], es[|es| - 1];
      assert es == init + [e];
      CountMap(init, s, io);
      EntriesStep(s, init, e, io);
      FindingMeans(s, e, io(e.id));
      CountSnoc(Entries(s, init, io), Classify(s, e, io(e.id)));
      CountIntents(init, e);
      hide Entries, Unread, Classify, Count;
      assert Entries(s, init, io) + [] == Entries(s, init, io);
    }
  }

  lemma CountSnoc(fs: seq<Entry>, f: Entry)
    ensures Count(fs + [f], (f: Entry) => f.status == Unexaminable)
         == Count(fs, (f: Entry) => f.status == Unexaminable) + if f.status == Unexaminable then 1 else 0
  {
    assert (fs + [f])[..|fs|] == fs;
  }

  lemma CountIntents(es: seq<AuditEvent>, e: AuditEvent)
    ensures Count(es + [e], IsIntent) == Count(es, IsIntent) + if IsIntent(e) then 1 else 0
  {
    assert (es + [e])[..|es|] == es;
  }

  // A report says what it did not look at: it is truncated exactly when rows are left out,
  // verified exactly when none is, and then every intent of the trail has its finding. Its
  // count of unexaminable intents is the number of findings that say so.
  lemma ReportMeans(s: State, io: int -> RowIO)
    ensures var r := ReportOf(s, io);
      && r.scanned == |Window(s.log)| <= |s.log|
      && (r.truncated <==> r.scanned < |s.log|)
      && r.status == (if r.truncated then Truncated else Verified)
      && r.unexaminable == Count(r.entries, (f: Entry) => f.status == Unexaminable)
      && |r.entries| == Count(Window(s.log), IsIntent)
      && (r.status == Verified ==> forall e :: e in s.log && IsIntent(e) ==> Classify(s, e, io(e.id)) in r.entries)
  {
    CountMap(Window(s.log), s, io);
    var r := ReportOf(s, io);
    hide Count, Classify, Unread;
    if |s.log| <= SCAN_CAP {
      forall e | e in s.log && IsIntent(e) ensures Classify(s, e, io(e.id)) in r.entries {
        var i :| 0 <= i < |s.log| && s.log[i] == e;
        assert Window(s.log)[|s.log| - 1 - i] == e;
        FilterMembers(Window(s.log), IsIntent);
        assert e in Filter(Window(s.log), IsIntent);
        var k :| 0 <= k < |Filter(Window(s.log), IsIntent)| && Filter(Window(s.log), IsIntent)[k] == e;
        assert r.entries[k] == Classify(s, e, io(e.id));
      }
    }
  }

  // ----- what the ring remembers -----

  // A scan and a new cap both leave the newest scans the cap has room for.
  lemma RingKeepsTheNewest(r: Ring, rep: Report, n: int)
    requires 0 <= r.cap && |r.reports| <= r.cap
    ensures Push(r, rep).cap == r.cap && Push(r, rep).reports == LastN(r.reports + [rep], r.cap)
    ensures var cap := if n < 0 then 0 else n;
      Resize(r, n).cap == cap && Resize(r, n).reports == LastN(r.reports, cap)
  {
  }

  datatype RingOp = Pushed(report: Report) | Resized(cap: int)

  function ApplyRing(r: Ring, op: RingOp): Ring {
    match op
    case Pushed(rep) => Push(r, rep)
    case Resized(n) => Resize(r, n)
  }

  function RunRing(r: Ring, ops: seq<RingOp>): Ring {
    if ops == [] then r else ApplyRing(RunRing(r, ops[..|ops| - 1]), ops[|ops| - 1])
  }

  function Scanned(op: RingOp): seq<Report> {
    if op.Pushed? then [op.report] else []
  }

  function Scans(ops: seq<RingOp>): seq<Report> {
    if ops == [] then [] else Scans(ops[..|ops| - 1]) + Scanned(ops[|ops| - 1])
  }

  // The ring holds the newest of all scans, within its cap.
  predicate Holds(r: Ring, all: seq<Report>) {
    r.cap >= 0 && |r.reports| <= r.cap && |r.reports| <= |all| && r.reports == all[|all| - |r.reports|..]
  }

  // The flag is up exactly when some scan is no longer in the ring.
  predicate Honest(r: Ring, all: seq<Report>) {
    Holds(r, all) && (r.truncated <==> |r.reports| < |all|)
  }

  // The two operations that lose scans without a word: a scan while the cap is zero,
  // and clearing a ring that holds something.
  predicate LosesSilently(r: Ring, op: RingOp) {
    match op
    case Pushed(_) => r.cap == 0
    case Resized(n) => n <= 0 && r.reports != []
  }

  // The two that lose scans and raise the flag.
  predicate LosesOpenly(r: Ring, op: RingOp) {
    match op
    case Pushed(_) => r.cap > 0 && |r.reports| == r.cap
    case Resized(n) => 0 < n < |r.reports|
  }

  lemma StepHolds(r: Ring, all: seq<Report>, op: RingOp)
    requires Holds(r, all)
    ensures var next, more := ApplyRing(r, op), all + Scanned(op);
      && Holds(next, more)
      && (next.truncated <==> r.truncated || LosesOpenly(r, op))
      && |more| - |next.reports| >= |all| - |r.reports|
      && (|more| - |next.reports| > |all| - |r.reports| <==> LosesSilently(r, op) || LosesOpenly(r, op))
  {
    var next, more := ApplyRing(r, op), all + Scanned(op);
    assert next.reports == more[|more| - |next.reports|..];
  }

  // One operation on an honest ring: it stays honest unless it is the first to lose
  // something and loses it silently.
  lemma StaysHonestIff(r: Ring, all: seq<Report>, op: RingOp)
    requires Honest(r, all)
    ensures Honest(ApplyRing(r, op), all + Scanned(op)) <==> !(LosesSilently(r, op) && !r.truncated)
  {
    StepHolds(r, all, op);
  }

  // Whether some operation of a run loses scans, of the one kind and of the other.
  predicate EverSilent(r: Ring, ops: seq<RingOp>) {
    ops != [] && (EverSilent(r, ops[..|ops| - 1]) || LosesSilently(RunRing(r, ops[..|ops| - 1]), ops[|ops| - 1]))
  }

  predicate EverOpen(r: Ring, ops: seq<RingOp>) {
    ops != [] && (EverOpen(r, ops[..|ops| - 1]) || LosesOpenly(RunRing(r, ops[..|ops| - 1]), ops[|ops| - 1]))
  }

  lemma {:induction false} RunHolds(cap: nat, ops: seq<RingOp>)
    ensures var r, all := RunRing(Ring([], cap, false), ops), Scans(ops);
      && Holds(r, all)
      && (r.truncated <==> EverOpen(Ring([], cap, false), ops))
      && (|r.reports| < |all| <==> EverOpen(Ring([], cap, false), ops) || EverSilent(Ring([], cap, false), ops))
  {
    if ops != [] {
      var init, op := ops[..|ops| - 1], ops[|ops| - 1];
      RunHolds(cap, init);
      StepHolds(RunRing(Ring([], cap, false), init), Scans(init), op);
    }
  }

  // Over any run, from any cap: the ring is always the newest scans within its cap, and
  // its flag tells the truth if and only if nothing was ever lost silently or something
  // was also lost openly. Scans at a cap of zero and clearing are the only way to a lie.
  lemma RingIsHonestIff(cap: nat, ops: seq<RingOp>)
    ensures var start := Ring([], cap, false);
      && Holds(RunRing(start, ops), Scans(ops))
      && (Honest(RunRing(start, ops), Scans(ops)) <==> (EverSilent(start, ops) ==> EverOpen(start, ops)))
  {
    RunHolds(cap, ops);
  }

  lemma {:induction false} NeverSilent(start: Ring, ops: seq<RingOp>)
    requires start.cap > 0 && forall op :: op in ops && op.Resized? ==> op.cap > 0
    ensures RunRing(start, ops).cap > 0 && !EverSilent(start, ops)
  {
    if ops != [] {
      var init, op := ops[..|ops| - 1], ops[|ops| - 1];
      assert op in ops;
      NeverSilent(start, init);
      hide Push;
      PushKeepsCap(RunRing(start, init), op);
    }
  }

  lemma PushKeepsCap(r: Ring, op: RingOp)
    ensures op.Pushed? ==> Push(r, op.report).cap == r.cap
  {
  }

  // Positive caps keep it honest.
  lemma PositiveCapsAreHonest(cap: nat, ops: seq<RingOp>)
    requires cap > 0 && forall op :: op in ops && op.Resized? ==> op.cap > 0
    ensures var start := Ring([], cap, false);
      RunRing(start, ops).cap > 0 && !EverSilent(start, ops) && Honest(RunRing(start, ops), Scans(ops))
  {
    hide RunRing, EverSilent, EverOpen, Scans, Honest;
    NeverSilent(Ring([], cap, false), ops);
    RingIsHonestIff(cap, ops);
  }

  // A cap of zero drops what the ring holds, and every later scan, without the flag.
  lemma ZeroCapForgetsSilently(r: Ring, rep: Report)
    requires !r.truncated && r.reports != []
    ensures var z := Push(Resize(r, 0), rep); z.reports == [] && !z.truncated
  {
  }
}
