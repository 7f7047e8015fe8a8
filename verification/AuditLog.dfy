// The append-only audit trail and its newest-first queries.
module AuditLog {
  import opened Seqs

  datatype AuditEvent = AuditEvent(
    id: int, actor: string, operation: string, action: string, target: string, result: string,
    revision: int, correlationID: string)

  // An empty field is a wildcard; after is an exclusive upper bound on ids, 0 for none.
  datatype AuditQuery = AuditQuery(
    target: string, result: string, action: string, correlationID: string, limit: int, after: int)

  datatype AuditPage = AuditPage(events: seq<AuditEvent>, limit: nat, truncated: bool)

  const DEFAULT_LIMIT: nat := 100
  const MAX_LIMIT: nat := 1000

  function EffectiveLimit(requested: int): (n: nat)
    ensures 1 <= n <= MAX_LIMIT
  {
    if requested <= 0 then DEFAULT_LIMIT else if requested > MAX_LIMIT then MAX_LIMIT else requested
  }

  predicate Matches(q: AuditQuery, e: AuditEvent) {
    && (q.target == "" || e.target == q.target)
    && (q.result == "" || e.result == q.result)
    && (q.action == "" || e.action == q.action)
    && (q.correlationID == "" || e.correlationID == q.correlationID)
  }

  predicate Selects(q: AuditQuery, e: AuditEvent) {
    (q.after == 0 || e.id < q.after) && Matches(q, e)
  }

  datatype Field = Target | Result | Action | CorrelationID

  function Asked(q: AuditQuery, f: Field): string {
    match f
    case Target => q.target
    case Result => q.result
    case Action => q.action
    case CorrelationID => q.correlationID
  }

  function Carried(e: AuditEvent, f: Field): string {
    match f
    case Target => e.target
    case Result => e.result
    case Action => e.action
    case CorrelationID => e.correlationID
  }

  // A row matches exactly when every field the query asks for has the asked value.
  lemma MatchesByField(q: AuditQuery, e: AuditEvent)
    ensures Matches(q, e) <==> forall f :: Asked(q, f) != "" ==> Carried(e, f) == Asked(q, f)
  {
    if forall f :: Asked(q, f) != "" ==> Carried(e, f) == Asked(q, f) {
      assert Asked(q, Target) == q.target && Asked(q, Result) == q.result;
      assert Asked(q, Action) == q.action && Asked(q, CorrelationID) == q.correlationID;
    }
  }

  // Ids are positions, counted from 1.
  predicate Numbered(log: seq<AuditEvent>) {
    forall i :: 0 <= i < |log| ==> log[i].id == i + 1
  }

  // Everything a query selects, newest first, without any limit.
  function Hits(log: seq<AuditEvent>, q: AuditQuery): (h: seq<AuditEvent>)
    ensures |h| <= |log|
  {
    if log == [] then []
    else (if Selects(q, log[|log| - 1]) then [log[|log| - 1]] else []) + Hits(log[..|log| - 1], q)
  }

  // Which rows a query selects, without any limit: exactly those below its cursor, if it
  // has one, whose fields it asks for, and none twice or out of order.
  lemma {:induction false} HitsAreTheMatches(log: seq<AuditEvent>, q: AuditQuery)
    requires Numbered(log)
    ensures forall e :: e in Hits(log, q) <==> e in log && Matches(q, e) && (q.after != 0 ==> e.id < q.after)
    ensures forall i, j :: 0 <= i < j < |Hits(log, q)| ==> Hits(log, q)[i].id > Hits(log, q)[j].id
  {
    hide Matches;
    if log != [] {
      var init, last := log[..|log| - 1], log[|log| - 1];
      HitsAreTheMatches(init, q);
      assert log == init + [last];
      assert forall e :: e in init ==> e.id < last.id;
    }
  }

  function FirstN(h: seq<AuditEvent>, n: nat): seq<AuditEvent> {
    if |h| > n then h[..n] else h
  }

  function PageOf(log: seq<AuditEvent>, q: AuditQuery): AuditPage {
    var h, n := Hits(log, q), EffectiveLimit(q.limit);
    AuditPage(FirstN(h, n), n, |h| > n)
  }

  // The rows of one correlation id, oldest first.
  function Chain(log: seq<AuditEvent>, correlationID: string): seq<AuditEvent> {
    Filter(log, (e: AuditEvent) => e.correlationID == correlationID)
  }

  class MemAuditStore {
    var items: seq<AuditEvent>
    var next: int

    ghost predicate Valid()
      reads this
    {
      next == |items| && Numbered(items)
    }

    constructor ()
      ensures Valid() && items == []
    {
      items, next := [], 0;
    }

    // durable is false when the backing store refuses the row.
    method Append(e: AuditEvent, durable: bool) returns (ok: bool)
      requires Valid()
      modifies this
      ensures Valid() && ok == durable
      ensures items == if ok then old(items) + [e.(id := |old(items)| + 1)] else old(items)
    {
      if !durable {
        return false;
      }
      next := next + 1;
      items := items + [e.(id := next)];
      return true;
    }

    method Query(q: AuditQuery) returns (page: AuditPage)
      ensures page == PageOf(items, q)
    {
      hide Hits, Matches;
      var limit := EffectiveLimit(q.limit);
      var out := [];
      var i := |items| - 1;
      assert items[..|items|] == items;
      while i >= 0
        invariant -1 <= i < |items|
        invariant |out| <= limit
        invariant Hits(items, q) == out + Hits(items[..i + 1], q)
      {
        var e := items[i];
        ghost var rest := Hits(items[..i], q);
        HitsStep(items, i, q);
        if q.after != 0 && e.id >= q.after {
        } else if !Matches(q, e) {
        } else {
          assert out + ([e] + rest) == out + [e] + rest;
          if |out| == limit {
            return AuditPage(out, limit, true);
          }
          out := out + [e];
        }
        i := i - 1;
      }
      HitsOfNothing(items[..0], q);
      assert out + [] == out;
      return AuditPage(out, limit, false);
    }

    // Newest first. The row that reaches the limit ends the walk, so a limit of 0
    // still returns one row.
    method ListByCorrelation(correlationID: string, limit: nat) returns (out: seq<AuditEvent>)
      ensures out == Reverse(LastN(Chain(items, correlationID), if limit == 0 then 1 else limit))
    {
      var n := if limit == 0 then 1 else limit;
      out := [];
      var i := |items| - 1;
      ghost var c := Chain(items, correlationID);
      assert items[..|items|] == items;
      while i >= 0
        invariant -1 <= i < |items|
        invariant |out| < n
        invariant c == Chain(items[..i + 1], correlationID) + Reverse(out)
      {
        var e := items[i];
        assert items[..i + 1][..i] == items[..i];
        if e.correlationID == correlationID {
          ghost var rest := Chain(items[..i], correlationID);
          assert Reverse(out + [e]) == [e] + Reverse(out);
          assert c == rest + Reverse(out + [e]);
          out := out + [e];
          if |out| >= limit {
            assert LastN(c, n) == Reverse(out);
            assert Reverse(Reverse(out)) == out;
            return;
          }
        }
        i := i - 1;
      }
      assert c == [] + Reverse(out) == Reverse(out);
      assert Reverse(Reverse(out)) == out;
    }

    method List(limit: nat) returns (out: seq<AuditEvent>)
      ensures out == Reverse(LastN(items, if limit == 0 then 1 else limit))
    {
      out := [];
      var i := |items| - 1;
      while i >= 0
        invariant -1 <= i < |items|
        invariant |out| == |items| - 1 - i && (|out| < limit || out == [])
        invariant forall k :: 0 <= k < |out| ==> out[k] == items[|items| - 1 - k]
      {
        out := out + [items[i]];
        if |out| >= limit {
          NewestOf(items, out);
          return;
        }
        i := i - 1;
      }
      NewestOf(items, out);
    }
  }

  lemma NewestOf(log: seq<AuditEvent>, out: seq<AuditEvent>)
    requires |out| <= |log| && forall k :: 0 <= k < |out| ==> out[k] == log[|log| - 1 - k]
    ensures out == Reverse(LastN(log, |out|))
  {
  }

  lemma HitsStep(log: seq<AuditEvent>, i: nat, q: AuditQuery)
    requires i < |log|
    ensures Hits(log[..i + 1], q) == if Selects(q, log[i]) then [log[i]] + Hits(log[..i], q) else Hits(log[..i], q)
  {
    assert log[..i + 1][..i] == log[..i];
  }

  lemma HitsOfNothing(log: seq<AuditEvent>, q: AuditQuery)
    requires log == []
    ensures Hits(log, q) == []
  {
  }

  // ----- paging -----

  lemma {:induction false} HitsAreSelected(log: seq<AuditEvent>, q: AuditQuery)
    requires Numbered(log)
    ensures forall k :: 0 <= k < |Hits(log, q)| ==> var e := Hits(log, q)[k]; Selects(q, e) && 1 <= e.id <= |log|
    ensures forall j, k :: 0 <= j < k < |Hits(log, q)| ==> Hits(log, q)[j].id > Hits(log, q)[k].id
  {
    if log != [] {
      HitsAreSelected(log[..|log| - 1], q);
    }
  }

  // A cursor below every row of an appendix makes the appendix invisible.
  lemma {:induction false} HitsIgnoreNewer(log: seq<AuditEvent>, more: seq<AuditEvent>, q: AuditQuery)
    requires Numbered(log + more) && q.after != 0 && q.after <= |log| + 1
    ensures Hits(log + more, q) == Hits(log, q)
  {
    if more == [] {
      assert log + more == log;
    } else {
      var all := log + more;
      assert all[..|all| - 1] == log + more[..|more| - 1];
      assert all[|all| - 1].id == |all|;
      HitsIgnoreNewer(log, more[..|more| - 1], q);
    }
  }

  // A cursor every row is below changes nothing.
  lemma {:induction false} CursorAbove(log: seq<AuditEvent>, q: AuditQuery, after: int)
    requires Numbered(log) && after > |log| && (q.after == 0 || after <= q.after)
    ensures Hits(log, q.(after := after)) == Hits(log, q)
  {
    if log != [] {
      assert log[|log| - 1].id == |log|;
      CursorAbove(log[..|log| - 1], q, after);
    }
  }

  lemma LastIsNewest(log: seq<AuditEvent>)
    requires Numbered(log) && log != []
    ensures log[|log| - 1].id == |log| && Numbered(log[..|log| - 1])
  {
  }

  lemma HitId(log: seq<AuditEvent>, q: AuditQuery, k: nat)
    requires Numbered(log) && 1 <= k <= |Hits(log, q)|
    ensures 1 <= Hits(log, q)[k - 1].id <= |log|
  {
    HitsAreSelected(log, q);
  }

  // A cursor at or below the newest row sees only the rows before it.
  lemma CursorSkipsNewest(log: seq<AuditEvent>, q: AuditQuery, x: int)
    requires Numbered(log) && log != [] && 1 <= x <= |log|
    ensures Hits(log, q.(after := x)) == Hits(log[..|log| - 1], q.(after := x))
  {
    LastIsNewest(log);
  }

  // Continuing after the k-th hit gives exactly the hits that follow it.
  lemma {:induction false} ContinueAfter(log: seq<AuditEvent>, q: AuditQuery, k: nat)
    requires Numbered(log) && 1 <= k <= |Hits(log, q)|
    ensures Hits(log, q.(after := Hits(log, q)[k - 1].id)) == Hits(log, q)[k..]
  {
    var init, e, h := log[..|log| - 1], log[|log| - 1], Hits(log, q);
    HitId(log, q, k);
    LastIsNewest(log);
    CursorSkipsNewest(log, q, h[k - 1].id);
    if !Selects(q, e) {
      assert h == Hits(init, q);
      hide Hits, Selects, Numbered;
      ContinueAfter(init, q, k);
    } else {
      assert h == [e] + Hits(init, q);
      if k == 1 {
        assert e.id > |init| && (q.after == 0 || e.id <= q.after);
        hide Hits, Selects, Numbered;
        CursorAbove(init, q, e.id);
      } else {
        hide Hits, Selects, Numbered;
        assert h[k - 1] == Hits(init, q)[k - 2] && h[k..] == Hits(init, q)[k - 1..];
        ContinueAfter(init, q, k - 1);
      }
    }
  }

  // The k-th query of a walk reads the log as it is then; each log extends the one before.
  ghost predicate Growing(logs: seq<seq<AuditEvent>>) {
    && (forall i :: 0 <= i < |logs| ==> Numbered(logs[i]))
    && (forall i :: 0 < i < |logs| ==> logs[i - 1] <= logs[i])
  }

  // Query, set After to the last id, repeat while truncated and logs last.
  function Walk(logs: seq<seq<AuditEvent>>, q: AuditQuery): seq<AuditEvent>
    decreases |logs|
  {
    if logs == [] then []
    else
      var page := PageOf(logs[0], q);
      page.events
      + if page.truncated then Walk(logs[1..], q.(after := page.events[|page.events| - 1].id)) else []
  }

  // The next query of the walk, on the next log, sees what the page left over.
  lemma NextPageSeesTheRest(logs: seq<seq<AuditEvent>>, q: AuditQuery)
    requires Growing(logs) && |logs| > 1 && PageOf(logs[0], q).truncated
    ensures var p := PageOf(logs[0], q);
      && p.events != []
      && Hits(logs[1], q.(after := p.events[|p.events| - 1].id)) == Hits(logs[0], q)[p.limit..]
  {
    var h, n := Hits(logs[0], q), EffectiveLimit(q.limit);
    assert h[..n][n - 1] == h[n - 1];
    HitsAreSelected(logs[0], q);
    ContinueAfter(logs[0], q, n);
    assert logs[0] <= logs[1];
    var more := logs[1][|logs[0]|..];
    assert logs[1] == logs[0] + more;
    HitsIgnoreNewer(logs[0], more, q.(after := h[n - 1].id));
  }

  lemma FirstOfSplit(h: seq<AuditEvent>, n: nat, m: nat)
    requires |h| > n
    ensures h[..n] + FirstN(h[n..], m) == FirstN(h, n + m)
  {
  }

  lemma Tail(logs: seq<seq<AuditEvent>>, n: nat)
    requires Growing(logs) && logs != []
    ensures Growing(logs[1..])
    ensures |logs| * n == n + |logs[1..]| * n && |logs[1..]| * n >= 0
    ensures logs[1..] == [] ==> |logs[1..]| * n == 0
  {
    var rest := logs[1..];
    forall i | 0 < i < |rest| ensures rest[i - 1] <= rest[i] {
      assert logs[i] <= logs[i + 1];
    }
  }

  // However the log grows between the queries, |logs| of them deliver the first
  // |logs| * limit matches of the log the walk began on, newest first: each once, none
  // skipped, and the whole of them when the walk ends because a page was not truncated.
  lemma {:induction false} WalkDelivers(logs: seq<seq<AuditEvent>>, q: AuditQuery)
    requires Growing(logs) && logs != []
    ensures Walk(logs, q) == FirstN(Hits(logs[0], q), |logs| * EffectiveLimit(q.limit))
    decreases |logs|
  {
    hide Growing, Hits, Selects;
    var h, n := Hits(logs[0], q), EffectiveLimit(q.limit);
    var rest := logs[1..];
    var page := PageOf(logs[0], q);
    Tail(logs, n);
    if |h| > n {
      var q' := q.(after := page.events[|page.events| - 1].id);
      if rest == [] {
        assert Walk(rest, q') == [];
        assert h[..n] + [] == h[..n] && Walk(logs, q) == h[..n];
      } else {
        NextPageSeesTheRest(logs, q);
        WalkDelivers(rest, q');
        FirstOfSplit(h, n, |rest| * n);
      }
    } else {
      assert h + [] == h && Walk(logs, q) == h;
    }
  }

  // A page says truncated exactly when a further match exists: one more query with the
  // last id as cursor would find something.
  lemma TruncatedMeansMore(log: seq<AuditEvent>, q: AuditQuery)
    requires Numbered(log)
    ensures var p := PageOf(log, q);
      && (p.truncated ==> p.events != [] && PageOf(log, q.(after := p.events[|p.events| - 1].id)).events != [])
      && (!p.truncated && p.events != [] ==> Hits(log, q.(after := p.events[|p.events| - 1].id)) == [])
  {
    var h, n := Hits(log, q), EffectiveLimit(q.limit);
    if |h| > n {
      ContinueAfter(log, q, n);
      assert h[..n][n - 1] == h[n - 1];
    } else if h != [] {
      ContinueAfter(log, q, |h|);
    }
  }
}
