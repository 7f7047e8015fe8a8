// The observability read model: a bounded ring of samples beside counters that are
// bumped at ingest and never derived from the ring.
module ObservationRing {
  import opened Seqs

  datatype Observation = Observation(
    obsID: string, source: string, kind: string, traceID: string, executionID: string, requestID: string,
    pluginID: string, operation: string, status: string, code: string, verdict: string)

  // An empty field is a wildcard.
  datatype Query = Query(traceID: string, executionID: string, pluginID: string, source: string, kind: string)

  const DEFAULT_CAPACITY := 10000
  const SOURCE_EXECUTION := "execution"

  predicate Matches(q: Query, o: Observation) {
    && (q.traceID == "" || o.traceID == q.traceID)
    && (q.executionID == "" || o.executionID == q.executionID)
    && (q.pluginID == "" || o.pluginID == q.pluginID)
    && (q.source == "" || o.source == q.source)
    && (q.kind == "" || o.kind == q.kind)
  }

  datatype Field = TraceID | ExecutionID | PluginID | Source | Kind

  function Asked(q: Query, f: Field): string {
    match f
    case TraceID => q.traceID
    case ExecutionID => q.executionID
    case PluginID => q.pluginID
    case Source => q.source
    case Kind => q.kind
  }

  function Carried(o: Observation, f: Field): string {
    match f
    case TraceID => o.traceID
    case ExecutionID => o.executionID
    case PluginID => o.pluginID
    case Source => o.source
    case Kind => o.kind
  }

  // An observation matches exactly when every field the query asks for has the asked value.
  lemma MatchesByField(q: Query, o: Observation)
    ensures Matches(q, o) <==> forall f :: Asked(q, f) != "" ==> Carried(o, f) == Asked(q, f)
  {
    if forall f :: Asked(q, f) != "" ==> Carried(o, f) == Asked(q, f) {
      assert Asked(q, TraceID) == q.traceID && Asked(q, ExecutionID) == q.executionID;
      assert Asked(q, PluginID) == q.pluginID && Asked(q, Source) == q.source && Asked(q, Kind) == q.kind;
    }
  }

  function CounterKey(name: string, labels: seq<(string, string)>): string {
    if labels == [] then name
    else CounterKey(name, labels[..|labels| - 1]) + "|" + labels[|labels| - 1].0 + "=" + labels[|labels| - 1].1
  }

  function SourceKey(o: Observation): string {
    CounterKey("observations_total", [("source", o.source)])
  }

  function VerdictKey(o: Observation): string {
    CounterKey("verdict_total", [("source", o.source), ("verdict", o.verdict)])
  }

  function StatusKey(o: Observation): string {
    CounterKey("execution_status_total", [("status", o.status)])
  }

  // How much one observation adds to a counter.
  function Adds(o: Observation, key: string): nat {
    (if key == SourceKey(o) then 1 else 0)
    + (if o.verdict != "" && key == VerdictKey(o) then 1 else 0)
    + (if o.source == SOURCE_EXECUTION && o.status != "" && key == StatusKey(o) then 1 else 0)
  }

  // What a counter must read after a whole history.
  function Total(history: seq<Observation>, key: string): nat {
    if history == [] then 0 else Total(history[..|history| - 1], key) + Adds(history[|history| - 1], key)
  }

  function Value(counters: map<string, nat>, key: string): nat {
    if key in counters then counters[key] else 0
  }

  function Bumped(counters: map<string, nat>, key: string): map<string, nat> {
    counters[key := Value(counters, key) + 1]
  }

  // The ring's i-th oldest entry is the window's i-th.
  ghost predicate RingHolds(obs: seq<Observation>, head: nat, window: seq<Observation>) {
    && |obs| == |window| && (head == 0 || head < |obs|)
    && forall i :: 0 <= i < |obs| ==> obs[Slot(head, i, |obs|)] == window[i]
  }

  ghost predicate Exact(counters: map<string, nat>, history: seq<Observation>) {
    forall k :: Value(counters, k) == Total(history, k)
  }

  class Collector {
    var obs: seq<Observation>
    var head: nat
    const capacity: nat
    var dropped: nat
    var total: nat
    var counters: map<string, nat>
    // everything ever ingested, oldest first
    ghost var history: seq<Observation>

    // The i-th retained observation, oldest first, is the i-th of the newest
    // `capacity` ever ingested.
    ghost predicate Valid()
      reads this
    {
      && 0 < capacity && total == |history| && |obs| == |LastN(history, capacity)| && dropped == total - |obs|
      && (|obs| < capacity ==> head == 0)
      && RingHolds(obs, head, LastN(history, capacity))
      && Exact(counters, history)
    }

    constructor (n: int)
      ensures Valid() && history == [] && capacity == if n <= 0 then DEFAULT_CAPACITY else n
    {
      capacity := if n <= 0 then DEFAULT_CAPACITY else n;
      obs, head, dropped, total, counters, history := [], 0, 0, 0, map[], [];
    }

    method BumpCounters(o: Observation, ghost before: seq<Observation>)
      requires Exact(counters, before)
      modifies `counters
      ensures Exact(counters, before + [o])
    {
      TotalSnoc(before, o);
      var c := Bumped(counters, SourceKey(o));
      KeysAreDistinct(o);
      if o.verdict != "" {
        c := Bumped(c, VerdictKey(o));
      }
      if o.source == SOURCE_EXECUTION && o.status != "" {
        c := Bumped(c, StatusKey(o));
      }
      counters := c;
    }

    method Record(o: Observation)
      requires Valid()
      modifies this
      ensures Valid() && history == old(history) + [o]
    {
      hide RingHolds, Exact, LastN;
      ghost var before := LastN(history, capacity);
      LastNSnoc(history, o, capacity);
      RingLength(obs, head, before);
      total := total + 1;
      if |obs| < capacity {
        AppendExtends(obs, o, before);
        obs := obs + [o];
      } else {
        ghost var ring, h := obs, head;
        obs := obs[head := o];
        head := (head + 1) % capacity;
        dropped := dropped + 1;
        OverwriteRotates(ring, h, o, before);
      }
      BumpCounters(o, history);
      history := history + [o];
    }

    // The i-th retained observation in ingest order.
    function At(i: nat): (o: Observation)
      requires Valid() && i < |obs|
      reads this
      ensures i < |LastN(history, capacity)| && o == LastN(history, capacity)[i]
    {
      SlotIsModulo(head, i, |obs|);
      obs[(head + i) % |obs|]
    }

    method Observations() returns (out: seq<Observation>)
      requires Valid()
      ensures out == LastN(history, capacity)
    {
      hide Slot, Total, LastN;
      out := [];
      ghost var w := LastN(history, capacity);
      for i := 0 to |obs|
        invariant out == w[..i]
      {
        out := out + [At(i)];
      }
    }

    method RunQuery(q: Query) returns (out: seq<Observation>)
      requires Valid()
      ensures out == Filter(LastN(history, capacity), (o: Observation) => Matches(q, o))
    {
      hide Slot, Total, LastN;
      out := [];
      ghost var w := LastN(history, capacity);
      for i := 0 to |obs|
        invariant out == Filter(w[..i], (o: Observation) => Matches(q, o))
      {
        var o := At(i);
        assert w[..i + 1][..i] == w[..i];
        if q.traceID != "" && o.traceID != q.traceID {
          continue;
        }
        if q.executionID != "" && o.executionID != q.executionID {
          continue;
        }
        if q.pluginID != "" && o.pluginID != q.pluginID {
          continue;
        }
        if q.source != "" && o.source != q.source {
          continue;
        }
        if q.kind != "" && o.kind != q.kind {
          continue;
        }
        out := out + [o];
      }
      assert w[..|obs|] == w;
    }

    method Counter(key: string) returns (n: nat)
      requires Valid()
      ensures n == Total(history, key)
    {
      n := if key in counters then counters[key] else 0;
    }

    // The counters with the exact lifetime totals beside them, present even at zero.
    method Counters() returns (out: map<string, nat>)
      requires Valid()
      ensures out["opscore_observations_total" := 0]["opscore_observations_dropped" := 0]
           == counters["opscore_observations_total" := 0]["opscore_observations_dropped" := 0]
      ensures "opscore_observations_total" in out && out["opscore_observations_total"] == |history|
      ensures "opscore_observations_dropped" in out
      ensures out["opscore_observations_dropped"] == |history| - |LastN(history, capacity)|
    {
      out := counters["opscore_observations_total" := total];
      out := out["opscore_observations_dropped" := dropped];
    }

    method Count() returns (n: nat)
      requires Valid()
      ensures n == if |history| <= capacity then |history| else capacity
    {
      n := |obs|;
    }

    // An absence in the window is an absence in the history exactly when nothing was
    // dropped.
    method Complete() returns (b: bool)
      requires Valid()
      ensures b <==> LastN(history, capacity) == history
    {
      b := dropped == 0;
    }
  }

  lemma LastNSnoc(history: seq<Observation>, o: Observation, n: nat)
    requires n > 0
    ensures var w := LastN(history, n);
      && |w| <= n && |w| <= |history| && (|history| <= n ==> w == history)
      && LastN(history + [o], n) == if |w| < n then w + [o] else w[1..] + [o]
  {
  }

  lemma TotalSnoc(history: seq<Observation>, o: Observation)
    ensures forall k :: Total(history + [o], k) == Total(history, k) + Adds(o, k)
  {
    assert (history + [o])[..|history|] == history;
  }

  lemma RingLength(ring: seq<Observation>, head: nat, window: seq<Observation>)
    requires RingHolds(ring, head, window)
    ensures |ring| == |window| && (head == 0 || head < |ring|)
  {
  }

  lemma AppendExtends(ring: seq<Observation>, o: Observation, window: seq<Observation>)
    requires RingHolds(ring, 0, window)
    ensures RingHolds(ring + [o], 0, window + [o])
  {
    assert forall i :: 0 <= i < |ring| ==> Slot(0, i, |ring|) == i;
  }

  // The slot of the i-th oldest entry in a ring of n with the oldest at head.
  function Slot(head: nat, i: nat, n: nat): (s: nat)
    requires i < n && (head == 0 || head < n)
    ensures s < n
  {
    if head + i < n then head + i else head + i - n
  }

  lemma SlotIsModulo(head: nat, i: nat, n: nat)
    requires i < n && (head == 0 || head < n)
    ensures (head + i) % n == Slot(head, i, n)
  {
    ModuloOnce(head + i, n);
  }

  lemma ModuloOnce(a: nat, n: nat)
    requires 0 < n && a < 2 * n
    ensures a % n == if a < n then a else a - n
  {
    if a >= n {
      assert a == 1 * n + (a - n);
    }
  }

  // Overwriting the oldest slot and moving the head on drops the oldest entry and puts
  // the new one last.
  lemma OverwriteRotates(ring: seq<Observation>, head: nat, o: Observation, window: seq<Observation>)
    requires ring != [] && RingHolds(ring, head, window)
    ensures RingHolds(ring[head := o], (head + 1) % |ring|, window[1..] + [o])
  {
    var n := |ring|;
    ModuloOnce(head + 1, n);
    var next := (head + 1) % n;
    forall i | 0 <= i < n ensures ring[head := o][Slot(next, i, n)] == (window[1..] + [o])[i] {
      if i == n - 1 {
        assert Slot(next, i, n) == head;
      } else {
        assert Slot(next, i, n) == Slot(head, i + 1, n);
      }
    }
  }

  lemma KeysAreDistinct(o: Observation)
    ensures SourceKey(o) != VerdictKey(o) && SourceKey(o) != StatusKey(o) && VerdictKey(o) != StatusKey(o)
  {
    FirstOfKey("observations_total", [("source", o.source)]);
    FirstOfKey("verdict_total", [("source", o.source), ("verdict", o.verdict)]);
    FirstOfKey("execution_status_total", [("status", o.status)]);
  }

  lemma {:induction false} FirstOfKey(name: string, labels: seq<(string, string)>)
    requires name != ""
    ensures CounterKey(name, labels) != "" && CounterKey(name, labels)[0] == name[0]
  {
    if labels != [] {
      FirstOfKey(name, labels[..|labels| - 1]);
    }
  }

  // Eviction costs samples, never counts: the counter of a source is the number of its
  // observations in the whole history, however little of it is retained.
  lemma {:induction false} SourceCounterIsExact(history: seq<Observation>, source: string)
    ensures Total(history, CounterKey("observations_total", [("source", source)]))
         == Count(history, (o: Observation) => o.source == source)
  {
    if history != [] {
      var o := history[|history| - 1];
      SourceCounterIsExact(history[..|history| - 1], source);
      var key := CounterKey("observations_total", [("source", source)]);
      KeysAreDistinct(o);
      FirstOfKey("observations_total", [("source", source)]);
      FirstOfKey("verdict_total", [("source", o.source), ("verdict", o.verdict)]);
      FirstOfKey("execution_status_total", [("status", o.status)]);
      SourceKeyIsInjective(source, o.source);
    }
  }

  // The same for the status of executions.
  lemma {:induction false} StatusCounterIsExact(history: seq<Observation>, status: string)
    requires status != ""
    ensures Total(history, CounterKey("execution_status_total", [("status", status)]))
         == Count(history, (o: Observation) => o.source == SOURCE_EXECUTION && o.status == status)
  {
    if history != [] {
      var o := history[|history| - 1];
      StatusCounterIsExact(history[..|history| - 1], status);
      KeysByName(o, status, "", "");
      StatusKeyText(status);
      StatusKeyText(o.status);
      SuffixesDiffer("execution_status_total|status=", status, o.status);
    }
  }

  // And for verdicts, as long as no source contains the label separator.
  lemma {:induction false} VerdictCounterIsExact(history: seq<Observation>, source: string, verdict: string)
    requires verdict != "" && '|' !in source && forall o :: o in history ==> '|' !in o.source
    ensures Total(history, CounterKey("verdict_total", [("source", source), ("verdict", verdict)]))
         == Count(history, (o: Observation) => o.source == source && o.verdict == verdict)
  {
    if history != [] {
      var o := history[|history| - 1];
      assert o in history;
      VerdictCounterIsExact(history[..|history| - 1], source, verdict);
      KeysByName(o, "", source, verdict);
      VerdictKeyText(source, verdict);
      VerdictKeyText(o.source, o.verdict);
      SplitAtBar(source, verdict, o.source, o.verdict);
    }
  }

  // Without that condition two verdicts would share a counter. No such source arrives
  // from the adapters: they set one of four constants without a bar.
  lemma BarsCollide()
    ensures CounterKey("verdict_total", [("source", "a|verdict=b"), ("verdict", "c")])
         == CounterKey("verdict_total", [("source", "a"), ("verdict", "b|verdict=c")])
  {
    VerdictKeyText("a|verdict=b", "c");
    VerdictKeyText("a", "b|verdict=c");
    assert "a|verdict=b" + "|verdict=" + "c" == "a" + "|verdict=" + "b|verdict=c";
  }

  // Keys of the three counters never meet: their names start differently.
  lemma KeysByName(o: Observation, status: string, source: string, verdict: string)
    ensures var sk, vk := CounterKey("execution_status_total", [("status", status)]),
                          CounterKey("verdict_total", [("source", source), ("verdict", verdict)]);
      && sk != SourceKey(o) && sk != VerdictKey(o) && vk != SourceKey(o) && vk != StatusKey(o)
  {
    FirstOfKey("observations_total", [("source", o.source)]);
    FirstOfKey("verdict_total", [("source", o.source), ("verdict", o.verdict)]);
    FirstOfKey("verdict_total", [("source", source), ("verdict", verdict)]);
    FirstOfKey("execution_status_total", [("status", o.status)]);
    FirstOfKey("execution_status_total", [("status", status)]);
  }

  lemma SuffixesDiffer(p: string, a: string, b: string)
    ensures p + a == p + b <==> a == b
  {
    if p + a == p + b {
      assert a == (p + a)[|p|..] && b == (p + b)[|p|..];
    }
  }

  lemma StatusKeyText(a: string)
    ensures CounterKey("execution_status_total", [("status", a)]) == "execution_status_total|status=" + a
  {
    var labels := [("status", a)];
    assert labels[..0] == [];
    assert CounterKey("execution_status_total", []) == "execution_status_total";
  }

  lemma VerdictKeyText(a: string, v: string)
    ensures CounterKey("verdict_total", [("source", a), ("verdict", v)]) == "verdict_total|source=" + (a + "|verdict=" + v)
  {
    var labels := [("source", a), ("verdict", v)];
    var one := [("source", a)];
    assert labels[..1] == one && one[..0] == [];
    assert CounterKey("verdict_total", []) == "verdict_total";
    assert CounterKey("verdict_total", one) == "verdict_total" + "|" + "source" + "=" + a;
  }

  // Sources without a bar end at the first one.
  lemma SplitAtBar(a: string, v: string, b: string, w: string)
    requires '|' !in a && '|' !in b
    ensures "verdict_total|source=" + (a + "|verdict=" + v) == "verdict_total|source=" + (b + "|verdict=" + w)
       <==> a == b && v == w
  {
    SuffixesDiffer("verdict_total|source=", a + "|verdict=" + v, b + "|verdict=" + w);
    var s, t := a + "|verdict=" + v, b + "|verdict=" + w;
    if s == t {
      FirstBar(a, v);
      FirstBar(b, w);
      assert |a| == |b|;
      assert a == s[..|a|] && b == t[..|b|] && v == s[|a| + 9..] && w == t[|b| + 9..];
    }
  }

  lemma FirstBar(a: string, v: string)
    requires '|' !in a
    ensures var s := a + "|verdict=" + v; |s| > |a| && s[|a|] == '|' && forall i :: 0 <= i < |a| ==> s[i] != '|'
  {
    var s := a + "|verdict=" + v;
    forall i | 0 <= i < |a| ensures s[i] != '|' {
      assert s[i] == a[i];
    }
  }

  lemma SourceKeyIsInjective(a: string, b: string)
    ensures CounterKey("observations_total", [("source", a)]) == CounterKey("observations_total", [("source", b)]) <==> a == b
  {
    SourceKeyText(a);
    SourceKeyText(b);
    var p := "observations_total|source=";
    if p + a == p + b {
      assert a == (p + a)[|p|..] && b == (p + b)[|p|..];
    }
  }

  lemma SourceKeyText(a: string)
    ensures CounterKey("observations_total", [("source", a)]) == "observations_total|source=" + a
  {
    var labels := [("source", a)];
    assert labels[..0] == [];
    assert CounterKey("observations_total", []) == "observations_total";
  }
}
