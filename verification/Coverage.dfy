// Cross-snapshot sequence coverage: which sequence numbers of a window are covered by
// the snapshots' declared ranges, which are gaps, which are out of scope, and the
// verdict drawn from that.
module Coverage {
  import opened Seqs
  import opened Intervals

  datatype Manifest = Manifest(publicationId: int64, minSeq: int64, maxSeq: int64, records: int, truncated: bool)

  datatype Reason = Unparseable | MissingRange | InvalidRange | EmptyRange

  datatype Completeness = Complete | GapsPresent | Unknown

  datatype UnusableEntry = UnusableEntry(publicationId: Option<int64>, reason: Reason)

  datatype Report = Report(
    since: int64, until: int64, considered: nat, unusable: seq<UnusableEntry>,
    covered: seq<Interval>, gaps: seq<Interval>, outOfScope: seq<Interval>,
    publicationGaps: seq<Interval>,
    bounded: bool, sourceTruncated: bool, provenanceUncertain: bool, completeness: Completeness)

  // ----- classification -----

  // Why a manifest cannot contribute an interval; None when it can.
  function Unusable(m: Option<Manifest>): Option<Reason> {
    match m
    case None => Some(Unparseable)
    case Some(m) =>
      if m.minSeq == 0 && m.maxSeq == 0 then Some(MissingRange)
      else if m.minSeq > m.maxSeq then Some(InvalidRange)
      else if m.records == 0 then Some(EmptyRange)
      else None
  }

  predicate IsUsable(m: Option<Manifest>) {
    Unusable(m).None?
  }

  // Whether an uncertain manifest's real extent cannot be excluded from the window.
  predicate Relevant(m: Option<Manifest>, since: int64, until: int64) {
    match Unusable(m)
    case None => false
    case Some(EmptyRange) => false
    case Some(InvalidRange) => !(m.value.minSeq < since || m.value.maxSeq > until)
    case Some(_) => true
  }

  function UsableIntervals(gs: seq<Option<Manifest>>): (ivs: seq<Interval>)
    ensures Proper(ivs)
  {
    if gs == [] then []
    else
      UsableIntervals(gs[..|gs| - 1])
      + if IsUsable(gs[|gs| - 1]) then [Interval(gs[|gs| - 1].value.minSeq, gs[|gs| - 1].value.maxSeq)] else []
  }

  function EffectiveLimit(limit: int): nat {
    if limit <= 0 then 10 else if limit > 100 then 100 else limit
  }

  function Considered(gs: seq<Option<Manifest>>, limit: int): seq<Option<Manifest>> {
    if |gs| > EffectiveLimit(limit) then gs[..EffectiveLimit(limit)] else gs
  }

  // A report looks at the newest snapshots: as many as asked for, but never more than a
  // hundred, and ten when the request names no positive number.
  lemma ConsideredAreTheNewest(gs: seq<Option<Manifest>>, limit: int)
    ensures Considered(gs, limit) <= gs
    ensures |Considered(gs, limit)| <= 100 && (limit > 0 ==> |Considered(gs, limit)| <= limit)
    ensures Considered(gs, limit) != gs ==>
      |Considered(gs, limit)| == 100 || |Considered(gs, limit)| == if limit > 0 then limit else 10
  {
  }

  // ----- what the report says, point by point -----

  predicate InWindow(r: Report, x: int64) {
    r.since <= x <= r.until
  }

  // Covered, gaps and out of scope, told from the usable intervals alone.
  ghost predicate Faithful(r: Report, us: seq<Interval>) {
    && Normal(r.covered) && Proper(r.gaps) && Proper(r.outOfScope)
    && (forall x :: Covers(r.covered, x) <==> Covers(us, x) && InWindow(r, x))
    && (forall x :: Covers(r.gaps, x) <==> InHull(r.covered, x) && !Covers(r.covered, x))
    && (forall x :: Covers(r.outOfScope, x) <==> InWindow(r, x) && !InHull(us, x))
  }

  // The frozen precedence of the verdict.
  function Verdict(uncertain: bool, gaps: seq<Interval>, truncated: bool): Completeness {
    if uncertain then Unknown
    else if gaps != [] then GapsPresent
    else if truncated then Unknown
    else Complete
  }

  // ----- the loops -----

  // The complement of a normal form inside its own span [lo, hi]; the cursor never
  // steps past the top of the int64 range.
  method GapsWithin(covered: seq<Interval>, lo: int64, hi: int64) returns (gaps: seq<Interval>)
    requires Normal(covered)
    requires covered != [] ==> lo == covered[0].min && hi == covered[|covered| - 1].max
    requires covered == [] ==> lo == 0 && hi == -1
    ensures forall x :: Covers(gaps, x) <==> lo <= x <= hi && !Covers(covered, x)
    ensures Proper(gaps)
  {
    gaps := [];
    var cursor, exhausted, k := lo, false, 0;
    while k < |covered| && !exhausted
      invariant 0 <= k <= |covered|
      invariant k > 0 && !exhausted ==> cursor as int == covered[k - 1].max as int + 1
      invariant k == 0 ==> cursor == lo && !exhausted && gaps == []
      invariant exhausted ==> k == |covered| && covered[k - 1].max == MAX_INT64
      invariant forall x :: Covers(gaps, x) <==>
        lo <= x && (if k == 0 then false else x <= covered[k - 1].max) && !Covers(covered[..k], x)
      invariant Proper(gaps)
      decreases |covered| - k
    {
      var iv := covered[k];
      assert iv in covered;
      ghost var before := gaps;
      if k > 0 {
        assert Apart(covered[k - 1], covered[k]);
      }
      if iv.min > cursor {
        gaps := gaps + [Interval(cursor, iv.min - 1)];
      }
      assert covered[..k + 1] == covered[..k] + [iv];
      forall x ensures Covers(gaps, x) <==> lo <= x <= iv.max && !Covers(covered[..k + 1], x) {
        CoversSnoc(covered[..k], iv, x);
        CoversSnoc(before, Interval(cursor, if iv.min > cursor then iv.min - 1 else cursor), x);
        AllBefore(covered, k, x);
      }
      if iv.max == MAX_INT64 {
        exhausted := true;
        TopIsLast(covered, k);
      } else if iv.max + 1 > cursor {
        cursor := iv.max + 1;
      }
      k := k + 1;
    }
    assert covered[..|covered|] == covered;
    if !exhausted && cursor <= hi {
      gaps := gaps + [Interval(cursor, hi)];
    }
  }

  // Everything a normal form covers up to index k lies at or below covered[k - 1].max.
  lemma AllBefore(covered: seq<Interval>, k: nat, x: int64)
    requires Normal(covered) && k < |covered|
    ensures Covers(covered[..k], x) ==> k > 0 && x <= covered[k - 1].max && x < covered[k].min
    ensures k > 0 ==> covered[0].min <= covered[k - 1].max
  {
    assert forall iv :: iv in covered ==> iv.min <= iv.max;
    if Covers(covered[..k], x) {
      var w :| w in covered[..k] && In(x, w);
      var j :| 0 <= j < k && covered[j] == w;
      assert j == k - 1 || Apart(covered[j], covered[k - 1]);
      assert Apart(covered[j], covered[k]) && covered[k - 1] in covered;
    }
    if k > 1 {
      assert Apart(covered[0], covered[k - 1]) && covered[k - 1] in covered && covered[0] in covered;
    }
    if k == 1 {
      assert covered[0] in covered;
    }
  }

  lemma TopIsLast(covered: seq<Interval>, k: nat)
    requires Normal(covered) && k < |covered| && covered[k].max == MAX_INT64
    ensures k == |covered| - 1
  {
    var j := |covered| - 1;
    assert k < j ==> Apart(covered[k], covered[j]);
    assert covered[j].min <= MAX_INT64;
  }

  // The hull of a normal form runs from its first start to its last end.
  lemma HullOfNormal(c: seq<Interval>, x: int64)
    requires Normal(c)
    ensures InHull(c, x) <==> c != [] && c[0].min <= x <= c[|c| - 1].max
  {
    if c != [] {
      assert c[0] in c && c[|c| - 1] in c;
      forall iv | iv in c ensures c[0].min <= iv.min && iv.max <= c[|c| - 1].max {
        var j :| 0 <= j < |c| && c[j] == iv;
        assert j == 0 || Apart(c[0], c[j]);
        assert j == |c| - 1 || Apart(c[j], c[|c| - 1]);
      }
    }
  }

  method PublicationGaps(ids: seq<int64>) returns (out: seq<Interval>)
    ensures forall x :: Covers(out, x) <==> IsHole(ids, x)
  {
    out := [];
    if |ids| < 2 {
      return;
    }
    var uniq := SortedUnique(ids);
    HolesOfSorted(ids, uniq);
    if |uniq| < 2 {
      return;
    }
    var i := 1;
    while i < |uniq|
      invariant 1 <= i <= |uniq|
      invariant forall x :: Covers(out, x) <==> uniq[0] < x < uniq[i - 1] && x !in uniq
    {
      BetweenNeighbours(uniq, i, uniq[i]);
      assert uniq[i] in uniq;
      var lo, hi := uniq[i - 1] + 1, uniq[i] - 1;
      ghost var before := out;
      if lo <= hi {
        out := out + [Interval(lo, hi)];
      }
      forall x ensures Covers(out, x) <==> uniq[0] < x < uniq[i] && x !in uniq {
        CoversSnoc(before, Interval(lo, hi), x);
        BetweenNeighbours(uniq, i, x);
      }
      i := i + 1;
    }
  }

  // A publication id that was not seen although a smaller and a larger one were.
  ghost predicate IsHole(ids: seq<int64>, x: int64) {
    x !in ids && (exists a :: a in ids && 0 < a < x) && (exists b :: b in ids && x < b)
  }

  predicate Rising(s: seq<int64>) {
    forall i, j :: 0 <= i < j < |s| ==> s[i] < s[j]
  }

  lemma HolesOfSorted(ids: seq<int64>, uniq: seq<int64>)
    requires Rising(uniq) && forall x :: x in uniq <==> x in ids && x > 0
    ensures forall x :: IsHole(ids, x) <==> uniq != [] && uniq[0] < x < uniq[|uniq| - 1] && x !in uniq
  {
    forall y | y in uniq ensures uniq[0] <= y <= uniq[|uniq| - 1] {
      var k :| 0 <= k < |uniq| && uniq[k] == y;
    }
    forall x | IsHole(ids, x) ensures uniq != [] && uniq[0] < x < uniq[|uniq| - 1] {
      var a :| a in ids && 0 < a < x;
      var b :| b in ids && x < b;
      assert a in uniq && b in uniq;
    }
    if uniq != [] {
      assert uniq[0] in uniq && uniq[|uniq| - 1] in uniq;
    }
  }

  lemma BetweenNeighbours(s: seq<int64>, i: nat, x: int64)
    requires Rising(s) && 1 <= i < |s|
    ensures s[0] <= s[i - 1] < s[i]
    ensures s[i - 1] < x < s[i] ==> x !in s
    ensures x == s[i - 1] ==> x in s
  {
    if x in s {
      var k :| 0 <= k < |s| && s[k] == x;
      assert k <= i - 1 || k >= i;
    }
  }

  function Place(s: seq<int64>, x: int64): seq<int64> {
    if s == [] || x < s[0] then [x] + s else [s[0]] + Place(s[1..], x)
  }

  lemma {:induction false} PlaceMembers(s: seq<int64>, x: int64)
    ensures forall y :: y in Place(s, x) <==> y in s || y == x
  {
    if s != [] && x >= s[0] {
      assert s == [s[0]] + s[1..];
      PlaceMembers(s[1..], x);
    }
  }

  lemma RisingCons(a: int64, s: seq<int64>)
    requires Rising(s) && forall y :: y in s ==> a < y
    ensures Rising([a] + s)
  {
    assert forall k :: 0 <= k < |s| ==> s[k] in s;
  }

  lemma RisingTail(s: seq<int64>)
    requires Rising(s) && s != []
    ensures Rising(s[1..]) && forall y :: y in s[1..] ==> s[0] < y
  {
  }

  lemma {:induction false} PlaceRises(s: seq<int64>, x: int64)
    requires Rising(s) && x !in s
    ensures Rising(Place(s, x)) && forall y :: y in Place(s, x) <==> y in s || y == x
  {
    PlaceMembers(s, x);
    if s != [] {
      RisingTail(s);
      assert s == [s[0]] + s[1..];
      hide Rising;
      if x < s[0] {
        RisingCons(x, s);
      } else {
        PlaceRises(s[1..], x);
        PlaceMembers(s[1..], x);
        RisingCons(s[0], Place(s[1..], x));
      }
    }
  }

  // The positive ids, without repetition, in rising order.
  method SortedUnique(ids: seq<int64>) returns (uniq: seq<int64>)
    ensures Rising(uniq)
    ensures forall x :: x in uniq <==> x in ids && x > 0
  {
    uniq := [];
    var k := 0;
    while k < |ids|
      invariant 0 <= k <= |ids|
      invariant Rising(uniq)
      invariant forall x :: x in uniq <==> x in ids[..k] && x > 0
    {
      assert ids[..k + 1] == ids[..k] + [ids[k]];
      if ids[k] > 0 && ids[k] !in uniq {
        PlaceRises(uniq, ids[k]);
        uniq := Place(uniq, ids[k]);
      }
      k := k + 1;
    }
    assert ids[..k] == ids;
  }

  // ----- the analysis -----

  predicate Least(us: seq<Interval>, x: int64) {
    (exists iv :: iv in us && iv.min == x) && forall iv :: iv in us ==> x <= iv.min
  }

  predicate Greatest(us: seq<Interval>, x: int64) {
    (exists iv :: iv in us && iv.max == x) && forall iv :: iv in us ==> iv.max <= x
  }

  function UnusableEntries(gs: seq<Option<Manifest>>): seq<UnusableEntry> {
    if gs == [] then []
    else
      var g := gs[|gs| - 1];
      UnusableEntries(gs[..|gs| - 1])
      + if IsUsable(g) then []
        else [UnusableEntry(if g.Some? then Some(g.value.publicationId) else None, Unusable(g).value)]
  }

  function PublicationIds(gs: seq<Option<Manifest>>): seq<int64> {
    if gs == [] then []
    else
      var g := gs[|gs| - 1];
      PublicationIds(gs[..|gs| - 1]) + if g.Some? then [g.value.publicationId] else []
  }

  predicate AnyTruncated(gs: seq<Option<Manifest>>) {
    exists g :: g in gs && IsUsable(g) && g.value.truncated
  }

  predicate AnyRelevant(gs: seq<Option<Manifest>>, since: int64, until: int64) {
    exists g :: g in gs && Relevant(g, since, until)
  }

  // The pass over the considered snapshots.
  method Classify(gs: seq<Option<Manifest>>)
    returns (usable: seq<Interval>, lo: int64, hi: int64, unusable: seq<UnusableEntry>, ids: seq<int64>,
             uncertains: seq<Option<Manifest>>, truncated: bool)
    ensures usable == UsableIntervals(gs)
    ensures usable != [] ==> Least(usable, lo) && Greatest(usable, hi)
    ensures unusable == UnusableEntries(gs) && ids == PublicationIds(gs)
    ensures forall s, u :: AnyRelevant(uncertains, s, u) <==> AnyRelevant(gs, s, u)
    ensures truncated <==> AnyTruncated(gs)
  {
    hide Least, Greatest, Relevant, AnyRelevant, AnyTruncated, UsableIntervals, UnusableEntries, PublicationIds;
    NothingClassified();
    usable, lo, hi, unusable, ids, uncertains, truncated := [], 0, 0, [], [], [], false;
    var k := 0;
    while k < |gs|
      invariant 0 <= k <= |gs|
      invariant usable == UsableIntervals(gs[..k])
      invariant usable != [] ==> Least(usable, lo) && Greatest(usable, hi)
      invariant unusable == UnusableEntries(gs[..k]) && ids == PublicationIds(gs[..k])
      invariant forall g :: g in uncertains <==> g in gs[..k] && !IsUsable(g) && Unusable(g) != Some(EmptyRange)
      invariant truncated <==> AnyTruncated(gs[..k])
    {
      var g := gs[k];
      ClassifyStep(gs, k);
      if g.Some? {
        ids := ids + [g.value.publicationId];
      }
      match Unusable(g) {
      case Some(reason) =>
        if reason != EmptyRange {
          uncertains := uncertains + [g];
        }
        unusable := unusable + [UnusableEntry(if g.Some? then Some(g.value.publicationId) else None, reason)];
      case None =>
        var m := g.value;
        if m.truncated {
          truncated := true;
        }
        SpanSnoc(usable, lo, hi, Interval(m.minSeq, m.maxSeq));
        if usable == [] || m.minSeq < lo {
          lo := m.minSeq;
        }
        if usable == [] || m.maxSeq > hi {
          hi := m.maxSeq;
        }
        usable := usable + [Interval(m.minSeq, m.maxSeq)];
      }
      k := k + 1;
    }
    assert gs[..k] == gs;
    OnlyUncertainsMatter(gs, uncertains);
  }

  lemma NothingClassified()
    ensures !AnyTruncated([]) && UsableIntervals([]) == [] && UnusableEntries([]) == [] && PublicationIds([]) == []
  {
  }

  // One more snapshot, list by list.
  lemma ClassifyStep(gs: seq<Option<Manifest>>, k: nat)
    requires k < |gs|
    ensures var g, done := gs[k], gs[..k];
      && gs[..k + 1] == done + [g]
      && UsableIntervals(gs[..k + 1])
         == UsableIntervals(done) + (if IsUsable(g) then [Interval(g.value.minSeq, g.value.maxSeq)] else [])
      && UnusableEntries(gs[..k + 1])
         == UnusableEntries(done) + (if IsUsable(g) then []
              else [UnusableEntry(if g.Some? then Some(g.value.publicationId) else None, Unusable(g).value)])
      && PublicationIds(gs[..k + 1]) == PublicationIds(done) + (if g.Some? then [g.value.publicationId] else [])
      && (AnyTruncated(gs[..k + 1]) <==> AnyTruncated(done) || (IsUsable(g) && g.value.truncated))
  {
    assert gs[..k + 1] == gs[..k] + [gs[k]] && gs[..k + 1][..k] == gs[..k];
    TruncatedSnoc(gs[..k], gs[k]);
  }

  lemma TruncatedSnoc(gs: seq<Option<Manifest>>, g: Option<Manifest>)
    ensures AnyTruncated(gs + [g]) <==> AnyTruncated(gs) || (IsUsable(g) && g.value.truncated)
  {
    assert g in gs + [g];
    assert forall h :: h in gs ==> h in gs + [g];
  }

  // Usable and empty-range snapshots are never relevant uncertainty.
  lemma OnlyUncertainsMatter(gs: seq<Option<Manifest>>, uncertains: seq<Option<Manifest>>)
    requires forall g :: g in uncertains <==> g in gs && !IsUsable(g) && Unusable(g) != Some(EmptyRange)
    ensures forall s, u :: AnyRelevant(uncertains, s, u) <==> AnyRelevant(gs, s, u)
  {
    forall s, u ensures AnyRelevant(uncertains, s, u) <==> AnyRelevant(gs, s, u) {
      if AnyRelevant(gs, s, u) {
        var g :| g in gs && Relevant(g, s, u);
        assert g in uncertains;
      }
    }
  }

  lemma SpanSnoc(us: seq<Interval>, lo: int64, hi: int64, iv: Interval)
    requires us != [] ==> Least(us, lo) && Greatest(us, hi)
    ensures Least(us + [iv], if us == [] || iv.min < lo then iv.min else lo)
    ensures Greatest(us + [iv], if us == [] || iv.max > hi then iv.max else hi)
  {
    assert iv in us + [iv];
    assert forall w :: w in us ==> w in us + [iv];
  }

  // Clip every interval to the window, keeping the span of what is left.
  method ClipToWindow(us: seq<Interval>, since: int64, until: int64) returns (clipped: seq<Interval>, lo: int64, hi: int64)
    ensures clipped == ClipAll(us, since, until) && Proper(clipped)
    ensures if clipped == [] then lo == 0 && hi == -1 else Least(clipped, lo) && Greatest(clipped, hi)
  {
    hide Least, Greatest;
    clipped, lo, hi := [], 0, -1;
    var k := 0;
    while k < |us|
      invariant 0 <= k <= |us|
      invariant clipped == ClipAll(us[..k], since, until) && Proper(clipped)
      invariant if clipped == [] then lo == 0 && hi == -1 else Least(clipped, lo) && Greatest(clipped, hi)
    {
      assert us[..k + 1][..k] == us[..k];
      var l, h := Max(us[k].min, since), Min(us[k].max, until);
      if l <= h {
        SpanSnoc(clipped, lo, hi, Interval(l, h));
        lo := if clipped == [] || l < lo then l else lo;
        hi := if clipped == [] || h > hi then h else hi;
        clipped := clipped + [Interval(l, h)];
      }
      k := k + 1;
    }
    assert us[..k] == us;
  }

  // The window beyond the observed extent [lo, hi], never the inside of it.
  function OutOfScope(since: int64, until: int64, lo: int64, hi: int64): seq<Interval>
    requires since <= until && lo <= hi
  {
    (if since < lo then [Interval(since, Min(until, lo - 1))] else [])
    + (if until > hi then [Interval(Max(since, hi + 1), until)] else [])
  }

  lemma OutOfScopeIsOutside(since: int64, until: int64, lo: int64, hi: int64, x: int64)
    requires since <= until && lo <= hi
    ensures Covers(OutOfScope(since, until, lo, hi), x) <==> since <= x <= until && !(lo <= x <= hi)
  {
    var o := OutOfScope(since, until, lo, hi);
    if since <= x <= until && x < lo {
      assert Interval(since, Min(until, lo - 1)) in o;
    }
    if since <= x <= until && x > hi {
      assert Interval(Max(since, hi + 1), until) in o;
    }
  }

  lemma OutOfScopeOfExtent(us: seq<Interval>, since: int64, until: int64, lo: int64, hi: int64)
    requires since <= until && us != [] && Proper(us) && Least(us, lo) && Greatest(us, hi)
    ensures lo <= hi && Proper(OutOfScope(since, until, lo, hi))
    ensures forall x :: Covers(OutOfScope(since, until, lo, hi), x) <==> since <= x <= until && !InHull(us, x)
  {
    ExtentIsHull(us, lo, hi);
    forall x ensures Covers(OutOfScope(since, until, lo, hi), x) <==> since <= x <= until && !InHull(us, x) {
      OutOfScopeIsOutside(since, until, lo, hi, x);
    }
  }

  // Without usable evidence the whole window, if there is one, is out of scope.
  lemma NoEvidenceIsFaithful(r: Report)
    requires r.covered == r.gaps == []
    requires r.outOfScope == if r.since <= r.until then [Interval(r.since, r.until)] else []
    ensures Faithful(r, [])
  {
    assert r.since <= r.until ==> Interval(r.since, r.until) in r.outOfScope;
  }

  lemma EmptyWindowIsFaithful(r: Report, us: seq<Interval>)
    requires r.covered == r.gaps == r.outOfScope == [] && r.since > r.until
    ensures Faithful(r, us)
  {
  }

  method AnyRelevantOf(uncertains: seq<Option<Manifest>>, since: int64, until: int64) returns (b: bool)
    ensures b <==> AnyRelevant(uncertains, since, until)
  {
    b := false;
    var k := 0;
    while k < |uncertains| && !b
      invariant 0 <= k <= |uncertains|
      invariant b <==> AnyRelevant(uncertains[..k], since, until)
    {
      assert uncertains[..k + 1] == uncertains[..k] + [uncertains[k]];
      b := Relevant(uncertains[k], since, until);
      k := k + 1;
    }
    assert uncertains[..|uncertains|] == uncertains;
  }

  // ----- what a manifest declares, told from its fields -----

  // The seq numbers a manifest vouches for: a range the right way round, holding records.
  ghost predicate Declares(g: Option<Manifest>, x: int64) {
    g.Some? && g.value.records != 0 && In(x, Interval(g.value.minSeq, g.value.maxSeq))
    && !(g.value.minSeq == 0 && g.value.maxSeq == 0)
  }

  // A manifest whose true extent may reach into the window: one that cannot be read or
  // gives no range may hold anything, and a reversed range may hold what lies between.
  ghost predicate MayHide(g: Option<Manifest>, since: int64, until: int64) {
    || g.None?
    || (g.value.minSeq == 0 && g.value.maxSeq == 0)
    || (g.value.minSeq > g.value.maxSeq
        && exists x :: In(x, Interval(since, until)) && In(x, Interval(g.value.maxSeq, g.value.minSeq)))
  }

  lemma RelevantIff(g: Option<Manifest>, since: int64, until: int64)
    requires since <= until
    ensures Relevant(g, since, until) <==> MayHide(g, since, until)
  {
    if g.Some? && g.value.minSeq > g.value.maxSeq && Relevant(g, since, until) {
      assert In(Max(since, g.value.maxSeq), Interval(g.value.maxSeq, g.value.minSeq));
      assert In(Max(since, g.value.maxSeq), Interval(since, until));
    }
  }

  // The intervals the report works on cover exactly what the manifests declare, and every
  // snapshot is either among them or listed as unusable.
  lemma {:induction false} UsableIsDeclared(gs: seq<Option<Manifest>>, x: int64)
    ensures Covers(UsableIntervals(gs), x) <==> exists g :: g in gs && Declares(g, x)
    ensures |UsableIntervals(gs)| + |UnusableEntries(gs)| == |gs|
  {
    if gs != [] {
      var init, g := gs[..|gs| - 1], gs[|gs| - 1];
      UsableIsDeclared(init, x);
      assert gs == init + [g] && g in gs;
      if IsUsable(g) {
        CoversSnoc(UsableIntervals(init), Interval(g.value.minSeq, g.value.maxSeq), x);
      }
      assert IsUsable(g) || !Declares(g, x);
    }
  }

  // Why a snapshot is listed: the first defect in the documented order, with its
  // publication id whenever it could be read.
  lemma {:induction false} EntriesSayWhy(gs: seq<Option<Manifest>>, e: UnusableEntry)
    ensures e in UnusableEntries(gs) <==> exists g :: g in gs && Defect(g, e)
  {
    if gs != [] {
      var init, g := gs[..|gs| - 1], gs[|gs| - 1];
      EntriesSayWhy(init, e);
      assert gs == init + [g] && g in gs;
    }
  }

  predicate Defect(g: Option<Manifest>, e: UnusableEntry) {
    match e.reason
    case Unparseable => g.None? && e.publicationId == None
    case MissingRange => g.Some? && e.publicationId == Some(g.value.publicationId) && g.value.minSeq == 0 == g.value.maxSeq
    case InvalidRange => g.Some? && e.publicationId == Some(g.value.publicationId) && g.value.maxSeq < g.value.minSeq
    case EmptyRange => g.Some? && e.publicationId == Some(g.value.publicationId) && g.value.records == 0
                       && g.value.minSeq <= g.value.maxSeq && !(g.value.minSeq == 0 == g.value.maxSeq)
  }

  // The verdict of a report, told from the considered manifests and its own gaps. A
  // snapshot that may hide part of the window is never washed away.
  ghost predicate VerdictMeans(r: Report, gs: seq<Option<Manifest>>) {
    var decidable := (exists x :: Covers(UsableIntervals(gs), x)) && r.since <= r.until
                     && forall g :: g in gs ==> !MayHide(g, r.since, r.until);
    && (r.completeness == GapsPresent <==> decidable && r.gaps != [])
    && (r.completeness == Complete <==>
          decidable && r.gaps == [] && forall g :: g in gs && (exists x :: Declares(g, x)) ==> !g.value.truncated)
  }

  lemma VerdictIsMeant(r: Report, gs: seq<Option<Manifest>>)
    requires var us := UsableIntervals(gs);
      && (r.sourceTruncated <==> AnyTruncated(gs))
      && (r.provenanceUncertain <==> AnyRelevant(gs, r.since, r.until))
      && r.completeness == (if us == [] || r.since > r.until then Unknown
                            else Verdict(r.provenanceUncertain, r.gaps, r.sourceTruncated))
    ensures VerdictMeans(r, gs)
  {
    var us := UsableIntervals(gs);
    if us != [] {
      assert In(us[0].min, us[0]) && us[0] in us;
      assert Covers(us, us[0].min);
    }
    assert (exists x :: Covers(us, x)) <==> us != [];
    TruncatedIff(gs);
    if r.since <= r.until {
      forall g ensures Relevant(g, r.since, r.until) <==> MayHide(g, r.since, r.until) {
        RelevantIff(g, r.since, r.until);
      }
      hide Relevant, MayHide, AnyTruncated, Declares, UsableIntervals, Covers;
    }
  }

  lemma TruncatedIff(gs: seq<Option<Manifest>>)
    ensures AnyTruncated(gs) <==> exists g :: g in gs && (exists x :: Declares(g, x)) && g.value.truncated
  {
    forall g ensures IsUsable(g) <==> exists x :: Declares(g, x) {
      if IsUsable(g) {
        assert Declares(g, g.value.minSeq);
      }
    }
  }

  // Which window the report answers for: the caller's bounds, or the observed extent.
  ghost predicate WindowOf(us: seq<Interval>, since: Option<int64>, until: Option<int64>, r: Report) {
    && (since.Some? ==> r.since == since.value)
    && (until.Some? ==> r.until == until.value)
    && (since.None? ==> if us == [] then r.since == 0 else Least(us, r.since))
    && (until.None? ==> if us == [] then r.until == 0 else Greatest(us, r.until))
  }

  method Coverage(groups: seq<Option<Manifest>>, since: Option<int64>, until: Option<int64>, limit: int) returns (r: Report)
    ensures var gs, us := Considered(groups, limit), UsableIntervals(Considered(groups, limit));
      && r.considered == |gs| && r.unusable == UnusableEntries(gs)
      && WindowOf(us, since, until, r)
      && (r.sourceTruncated <==> AnyTruncated(gs))
      && (r.provenanceUncertain <==> AnyRelevant(gs, r.since, r.until))
      && (forall x :: Covers(r.publicationGaps, x) <==> IsHole(PublicationIds(gs), x))
      && (us != [] || since.Some? || until.Some? ==> Faithful(r, us))
      && (us == [] && since.None? && until.None? ==> r.covered == r.gaps == r.outOfScope == [])
      && r.bounded == (|groups| > |gs| || r.outOfScope != [] || (us != [] && r.since > r.until))
      && r.completeness == (if us == [] || r.since > r.until then Unknown
                            else Verdict(r.provenanceUncertain, r.gaps, r.sourceTruncated))
    ensures VerdictMeans(r, Considered(groups, limit))
  {
    hide VerdictMeans, Covers, InHull, Proper, Normal, IsHole, Least, Greatest, AnyRelevant, AnyTruncated, OutOfScope;
    var gs := Considered(groups, limit);
    var usable, lo, hi, unusable, ids, uncertains, truncated := Classify(gs);
    var holes := PublicationGaps(ids);
    var s := match since case Some(v) => v case None => if usable != [] then lo else 0;
    var u := match until case Some(v) => v case None => if usable != [] then hi else 0;
    var uncertain := AnyRelevantOf(uncertains, s, u);
    r := Report(s, u, |gs|, unusable, [], [], [], holes, |groups| > |gs|, truncated, uncertain, Unknown);
    if usable == [] {
      if s <= u && (since.Some? || until.Some?) {
        r := r.(outOfScope := [Interval(s, u)], bounded := true);
      }
      if since.Some? || until.Some? {
        NoEvidenceIsFaithful(r);
      }
      VerdictIsMeant(r, gs);
      return;
    }
    if s > u {
      r := r.(bounded := true);
      EmptyWindowIsFaithful(r, usable);
      VerdictIsMeant(r, gs);
      return;
    }
    var covered, gaps := CoveredAndGaps(usable, s, u);
    OutOfScopeOfExtent(usable, s, u, lo, hi);
    r := r.(covered := covered, gaps := gaps, outOfScope := OutOfScope(s, u, lo, hi),
            bounded := |groups| > |gs| || OutOfScope(s, u, lo, hi) != [],
            completeness := Verdict(uncertain, gaps, truncated));
    VerdictIsMeant(r, gs);
  }

  // Clip, merge, and complement within the span of what the clip left.
  method CoveredAndGaps(us: seq<Interval>, since: int64, until: int64) returns (covered: seq<Interval>, gaps: seq<Interval>)
    requires since <= until
    ensures Normal(covered)
    ensures forall x :: Covers(covered, x) <==> Covers(us, x) && since <= x <= until
    ensures forall x :: Covers(gaps, x) <==> InHull(covered, x) && !Covers(covered, x)
    ensures Proper(gaps)
  {
    var clipped, lo, hi := ClipToWindow(us, since, until);
    covered := MergeIntervals(clipped);
    forall x ensures Covers(covered, x) <==> Covers(us, x) && since <= x <= until {
      ClipCovers(us, since, until, x);
    }
    SpanOfMerged(clipped, covered, lo, hi);
    gaps := GapsWithin(covered, lo, hi);
    forall x ensures InHull(covered, x) <==> lo <= x <= hi {
      HullOfNormal(covered, x);
    }
  }

  lemma ExtentIsHull(us: seq<Interval>, lo: int64, hi: int64)
    requires us != [] && Proper(us) && Least(us, lo) && Greatest(us, hi)
    ensures lo <= hi && forall x :: InHull(us, x) <==> lo <= x <= hi
  {
    var a :| a in us && a.min == lo;
    assert a.max <= hi;
  }

  // Merging does not move the span: its ends are the ends of the normal form.
  lemma SpanOfMerged(clipped: seq<Interval>, covered: seq<Interval>, lo: int64, hi: int64)
    requires Proper(clipped) && Normal(covered) && SameCover(covered, clipped)
    requires if clipped == [] then lo == 0 && hi == -1 else Least(clipped, lo) && Greatest(clipped, hi)
    ensures if covered == [] then lo == 0 && hi == -1 else lo == covered[0].min && hi == covered[|covered| - 1].max
  {
    if clipped == [] {
      OnlyEmptyCoversNothing(covered);
    } else {
      ExtentIsHull(clipped, lo, hi);
      assert Covers(clipped, lo) && Covers(clipped, hi);
      assert Covers(covered, lo) && Covers(covered, hi);
      HullOfNormal(covered, lo);
      HullOfNormal(covered, hi);
      var first, last := covered[0], covered[|covered| - 1];
      assert first in covered && last in covered;
      assert In(first.min, first) && In(last.max, last);
      assert Covers(covered, first.min) && Covers(covered, last.max);
    }
  }

  // ----- what a report promises its reader -----

  lemma NoOverlap(r: Report, us: seq<Interval>, x: int64)
    requires Proper(us) && Faithful(r, us)
    ensures !(Covers(r.covered, x) && Covers(r.gaps, x))
    ensures !(Covers(r.covered, x) && Covers(r.outOfScope, x))
    ensures !(Covers(r.gaps, x) && Covers(r.outOfScope, x))
  {
    HullInside(r, us, x);
  }

  // The hull of what is covered lies in the window and in the observed extent.
  lemma HullInside(r: Report, us: seq<Interval>, x: int64)
    requires Proper(us) && Faithful(r, us)
    ensures InHull(r.covered, x) ==> InHull(us, x) && InWindow(r, x)
    ensures Covers(r.covered, x) ==> InHull(r.covered, x)
  {
    if InHull(r.covered, x) {
      var a :| a in r.covered && a.min <= x;
      var b :| b in r.covered && x <= b.max;
      assert In(a.min, a) && In(b.max, b);
      assert Covers(r.covered, a.min) && Covers(r.covered, b.max);
    }
  }

  // Covered and gaps together are exactly the hull of the clipped usable intervals:
  // not the extent cut to the window, which may reach further.
  lemma CoveredAndGapsAreTheHull(r: Report, us: seq<Interval>, x: int64)
    requires Proper(us) && Faithful(r, us)
    ensures Covers(r.covered, x) || Covers(r.gaps, x) <==> InHull(ClipAll(us, r.since, r.until), x)
  {
    var c := ClipAll(us, r.since, r.until);
    ClipIsProper(us, r.since, r.until);
    HullInside(r, us, x);
    forall y ensures Covers(r.covered, y) <==> Covers(c, y) {
      ClipCovers(us, r.since, r.until, y);
    }
    HullFollowsCover(r.covered, c, x);
    HullFollowsCover(c, r.covered, x);
  }

  lemma HullFollowsCover(a: seq<Interval>, b: seq<Interval>, x: int64)
    requires Proper(a) && forall y :: Covers(a, y) ==> Covers(b, y)
    ensures InHull(a, x) ==> InHull(b, x)
  {
    if InHull(a, x) {
      var v :| v in a && v.min <= x;
      var w :| w in a && x <= w.max;
      assert In(v.min, v) && In(w.max, w);
      assert Covers(a, v.min) && Covers(a, w.max);
    }
  }

  lemma {:induction false} ClipIsProper(us: seq<Interval>, lo: int64, hi: int64)
    ensures Proper(ClipAll(us, lo, hi))
  {
    if us != [] {
      ClipIsProper(us[..|us| - 1], lo, hi);
    }
  }

  ghost predicate Partitions(r: Report) {
    forall x :: InWindow(r, x) <==> Covers(r.covered, x) || Covers(r.gaps, x) || Covers(r.outOfScope, x)
  }

  // The ends of extent ∩ window, when they meet, are covered themselves.
  predicate EdgesCovered(us: seq<Interval>, lo: int64, hi: int64) {
    lo > hi || (Covers(us, lo) && Covers(us, hi))
  }

  // The three lists account for every point of the window exactly when the extent cut
  // to the window begins and ends on covered points.
  lemma PartitionIff(r: Report, us: seq<Interval>, extMin: int64, extMax: int64)
    requires Proper(us) && us != [] && Faithful(r, us)
    requires Least(us, extMin) && Greatest(us, extMax)
    ensures Partitions(r) <==> EdgesCovered(us, Max(r.since, extMin), Min(r.until, extMax))
  {
    var lo, hi := Max(r.since, extMin), Min(r.until, extMax);
    ExtentIsHull(us, extMin, extMax);
    if EdgesCovered(us, lo, hi) {
      forall x ensures InWindow(r, x) <==> Covers(r.covered, x) || Covers(r.gaps, x) || Covers(r.outOfScope, x) {
        HullInside(r, us, x);
        if InWindow(r, x) && InHull(us, x) {
          assert Covers(r.covered, lo) && Covers(r.covered, hi);
        }
      }
    }
    if Partitions(r) && lo <= hi {
      assert InWindow(r, lo) && InWindow(r, hi) && InHull(us, lo) && InHull(us, hi);
      HullInside(r, us, lo);
      HullInside(r, us, hi);
      LowEdge(r, us, lo, hi);
      HighEdge(r, us, lo, hi);
    }
  }

  // If the hull of the covered part reaches an end of extent ∩ window, that end is
  // covered.
  lemma LowEdge(r: Report, us: seq<Interval>, lo: int64, hi: int64)
    requires Proper(us) && Faithful(r, us) && lo <= hi
    requires forall x :: InHull(us, x) && InWindow(r, x) <==> lo <= x <= hi
    requires InHull(r.covered, lo)
    ensures Covers(us, lo)
  {
    var a :| a in r.covered && a.min <= lo;
    assert In(a.min, a) && Covers(r.covered, a.min);
    HullInside(r, us, a.min);
    assert a.min == lo;
  }

  lemma HighEdge(r: Report, us: seq<Interval>, lo: int64, hi: int64)
    requires Proper(us) && Faithful(r, us) && lo <= hi
    requires forall x :: InHull(us, x) && InWindow(r, x) <==> lo <= x <= hi
    requires InHull(r.covered, hi)
    ensures Covers(us, hi)
  {
    var b :| b in r.covered && hi <= b.max;
    assert In(b.max, b) && Covers(r.covered, b.max);
    HullInside(r, us, b.max);
    assert b.max == hi;
  }

  // A report without gaps vouches for every seq of extent ∩ window exactly under the
  // same condition.
  lemma NoGapsMeans(r: Report, us: seq<Interval>, extMin: int64, extMax: int64)
    requires Proper(us) && us != [] && Faithful(r, us) && r.gaps == []
    requires Least(us, extMin) && Greatest(us, extMax)
    ensures (forall x :: InWindow(r, x) && InHull(us, x) ==> Covers(us, x))
       <==> EdgesCovered(us, Max(r.since, extMin), Min(r.until, extMax))
  {
    var lo, hi := Max(r.since, extMin), Min(r.until, extMax);
    ExtentIsHull(us, extMin, extMax);
    PartitionIff(r, us, extMin, extMax);
    if lo <= hi {
      assert InWindow(r, lo) && InHull(us, lo) && InWindow(r, hi) && InHull(us, hi);
    }
    if EdgesCovered(us, lo, hi) {
      forall x | InWindow(r, x) && InHull(us, x) ensures Covers(us, x) {
        NoOverlap(r, us, x);
      }
    }
  }

  // For a window that contains the observed extent, as the default one does, the
  // report partitions it, and `complete` means every seq of the extent is covered and
  // nothing truncated or of unknown extent stands in the way.
  lemma CompleteOverTheExtent(r: Report, us: seq<Interval>, extMin: int64, extMax: int64)
    requires Proper(us) && us != [] && Faithful(r, us)
    requires Least(us, extMin) && Greatest(us, extMax) && r.since <= extMin && extMax <= r.until
    requires r.completeness == Verdict(r.provenanceUncertain, r.gaps, r.sourceTruncated)
    ensures Partitions(r)
    ensures r.completeness == Complete <==>
      (forall x :: extMin <= x <= extMax ==> Covers(us, x)) && !r.sourceTruncated && !r.provenanceUncertain
  {
    ExtentIsHull(us, extMin, extMax);
    var a :| a in us && a.min == extMin;
    var b :| b in us && b.max == extMax;
    assert In(extMin, a) && In(extMax, b);
    PartitionIff(r, us, extMin, extMax);
    if r.completeness == Complete {
      NoGapsMeans(r, us, extMin, extMax);
    }
    if r.gaps != [] {
      var g := r.gaps[0];
      assert g in r.gaps && In(g.min, g) && Covers(r.gaps, g.min);
      HullInside(r, us, g.min);
    }
  }

  // A window inside a hole between two snapshots: no gap is reported, and the verdict
  // of a clean pair of manifests is `complete` although no seq of the window is covered.
  method WindowInsideAHole() returns (r: Report)
    ensures r.completeness == Complete && forall x :: InWindow(r, x) ==> !Covers(r.covered, x) && !Covers(r.gaps, x)
    ensures r.since == 5 && r.until == 8
  {
    var a, b := Some(Manifest(1, 1, 3, 3, false)), Some(Manifest(2, 10, 12, 3, false));
    r := Coverage([a, b], Some(5), Some(8), 10);
    assert [a, b][..1] == [a] && [a][..0] == [];
    assert UsableIntervals([a]) == [Interval(1, 3)];
    var us := UsableIntervals([a, b]);
    assert us == [Interval(1, 3), Interval(10, 12)];
    assert forall x :: !Covers(r.covered, x);
    NonEmptyCovers(r.covered);
    NonEmptyCovers(r.gaps);
  }

  lemma NonEmptyCovers(ivs: seq<Interval>)
    requires Proper(ivs)
    ensures ivs != [] ==> Covers(ivs, ivs[0].min)
  {
    if ivs != [] {
      assert ivs[0] in ivs && In(ivs[0].min, ivs[0]);
    }
  }
}
