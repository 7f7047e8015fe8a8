// Closed int64 intervals: coverage, the merged normal form and its uniqueness, window
// clipping. int64 arithmetic is checked: an expression that could leave the range does
// not verify.
module Intervals {
  import opened Seqs

  newtype int64 = x: int | -0x8000_0000_0000_0000 <= x <= 0x7FFF_FFFF_FFFF_FFFF

  const MAX_INT64: int64 := 0x7FFF_FFFF_FFFF_FFFF

  datatype Interval = Interval(min: int64, max: int64)

  predicate In(x: int64, iv: Interval) {
    iv.min <= x <= iv.max
  }

  predicate Covers(ivs: seq<Interval>, x: int64) {
    exists iv :: iv in ivs && In(x, iv)
  }

  ghost predicate SameCover(a: seq<Interval>, b: seq<Interval>) {
    forall x :: Covers(a, x) <==> Covers(b, x)
  }

  // Between two covered points, ends included.
  predicate InHull(ivs: seq<Interval>, x: int64) {
    (exists iv :: iv in ivs && iv.min <= x) && (exists iv :: iv in ivs && x <= iv.max)
  }

  predicate Proper(ivs: seq<Interval>) {
    forall iv :: iv in ivs ==> iv.min <= iv.max
  }

  // a ends before b begins, with at least one point between them.
  predicate Apart(a: Interval, b: Interval) {
    a.max as int + 1 < b.min as int
  }

  // Sorted, non-empty, and pairwise not even adjacent.
  predicate Normal(ivs: seq<Interval>) {
    Proper(ivs) && forall i, j :: 0 <= i < j < |ivs| ==> Apart(ivs[i], ivs[j])
  }

  lemma CoversSnoc(ivs: seq<Interval>, iv: Interval, x: int64)
    ensures Covers(ivs + [iv], x) <==> Covers(ivs, x) || In(x, iv)
  {
    if In(x, iv) {
      assert iv in ivs + [iv];
    }
    if Covers(ivs, x) {
      var w :| w in ivs && In(x, w);
      assert w in ivs + [iv];
    }
  }

  lemma CoversCons(iv: Interval, ivs: seq<Interval>, x: int64)
    ensures Covers([iv] + ivs, x) <==> In(x, iv) || Covers(ivs, x)
  {
    if In(x, iv) {
      assert iv in [iv] + ivs;
    }
    if Covers(ivs, x) {
      var w :| w in ivs && In(x, w);
      assert w in [iv] + ivs;
    }
  }

  lemma NormalSnoc(ivs: seq<Interval>, iv: Interval)
    requires Normal(ivs) && iv.min <= iv.max
    requires ivs != [] ==> Apart(ivs[|ivs| - 1], iv)
    ensures Normal(ivs + [iv])
  {
    var r := ivs + [iv];
    forall i, j | 0 <= i < j < |r| ensures Apart(r[i], r[j]) {
      if j == |ivs| && i < |ivs| - 1 {
        assert Apart(ivs[i], ivs[|ivs| - 1]) && ivs[|ivs| - 1] in ivs;
      }
    }
  }

  // ----- one union, one normal form -----

  // The first interval of a normal form starts at the least covered point and ends
  // before the first uncovered one.
  lemma FirstOfNormal(ivs: seq<Interval>, x: int64)
    requires Normal(ivs) && ivs != []
    ensures Covers(ivs, x) ==> ivs[0].min <= x
    ensures x as int == ivs[0].max as int + 1 ==> !Covers(ivs, x)
    ensures Covers(ivs[1..], x) <==> Covers(ivs, x) && x > ivs[0].max
  {
    assert ivs == [ivs[0]] + ivs[1..];
    CoversCons(ivs[0], ivs[1..], x);
    if Covers(ivs[1..], x) {
      var w :| w in ivs[1..] && In(x, w);
      var j :| 0 <= j < |ivs[1..]| && ivs[1..][j] == w;
      assert Apart(ivs[0], ivs[j + 1]);
    }
    assert ivs[0] in ivs;
  }

  lemma {:induction false} NormalFormIsUnique(a: seq<Interval>, b: seq<Interval>)
    requires Normal(a) && Normal(b) && SameCover(a, b)
    ensures a == b
  {
    if a == [] || b == [] {
      if a == [] {
        OnlyEmptyCoversNothing(b);
      } else {
        OnlyEmptyCoversNothing(a);
      }
    } else {
      SameFirst(a, b);
      SameFirst(b, a);
      assert a[0] == b[0];
      forall x ensures Covers(a[1..], x) <==> Covers(b[1..], x) {
        FirstOfNormal(a, x);
        FirstOfNormal(b, x);
      }
      NormalTail(a);
      NormalTail(b);
      NormalFormIsUnique(a[1..], b[1..]);
      assert a == [a[0]] + a[1..] && b == [b[0]] + b[1..];
    }
  }

  lemma OnlyEmptyCoversNothing(b: seq<Interval>)
    requires Normal(b) && SameCover([], b)
    ensures b == []
  {
    if b != [] {
      assert b[0] in b && In(b[0].min, b[0]);
      assert Covers(b, b[0].min);
    }
  }

  lemma SameFirst(a: seq<Interval>, b: seq<Interval>)
    requires Normal(a) && Normal(b) && SameCover(a, b) && a != [] && b != []
    ensures b[0].min <= a[0].min && a[0].max <= b[0].max
  {
    assert a[0] in a && In(a[0].min, a[0]) && In(a[0].max, a[0]);
    assert b[0] in b && In(b[0].min, b[0]) && In(b[0].max, b[0]);
    FirstOfNormal(b, a[0].min);
    FirstOfNormal(a, b[0].min);
    if b[0].max < a[0].max {
      var x := b[0].max + 1;
      FirstOfNormal(b, x);
      assert In(x, a[0]);
    }
  }

  lemma NormalTail(a: seq<Interval>)
    requires Normal(a) && a != []
    ensures Normal(a[1..])
  {
    forall i, j | 0 <= i < j < |a[1..]| ensures Apart(a[1..][i], a[1..][j]) {
      assert Apart(a[i + 1], a[j + 1]);
    }
  }

  // ----- clipping -----

  function Max(a: int64, b: int64): int64 {
    if a > b then a else b
  }

  function Min(a: int64, b: int64): int64 {
    if a < b then a else b
  }

  function Clip(iv: Interval, lo: int64, hi: int64): seq<Interval> {
    var l, h := Max(iv.min, lo), Min(iv.max, hi);
    if l <= h then [Interval(l, h)] else []
  }

  function ClipAll(ivs: seq<Interval>, lo: int64, hi: int64): seq<Interval> {
    if ivs == [] then [] else ClipAll(ivs[..|ivs| - 1], lo, hi) + Clip(ivs[|ivs| - 1], lo, hi)
  }

  lemma {:induction false} ClipCovers(ivs: seq<Interval>, lo: int64, hi: int64, x: int64)
    ensures Covers(ClipAll(ivs, lo, hi), x) <==> Covers(ivs, x) && lo <= x <= hi
  {
    if ivs != [] {
      var init, last := ivs[..|ivs| - 1], ivs[|ivs| - 1];
      assert ivs == init + [last];
      ClipCovers(init, lo, hi, x);
      CoversSnoc(init, last, x);
      if Clip(last, lo, hi) != [] {
        CoversSnoc(ClipAll(init, lo, hi), Clip(last, lo, hi)[0], x);
      } else {
        assert ClipAll(ivs, lo, hi) == ClipAll(init, lo, hi);
      }
    }
  }

  lemma {:induction false} ClipKeepsNormal(ivs: seq<Interval>, lo: int64, hi: int64)
    requires Normal(ivs)
    ensures var c := ClipAll(ivs, lo, hi);
            && Normal(c)
            && (c != [] ==> ivs != [] && c[|c| - 1].max <= ivs[|ivs| - 1].max)
  {
    if ivs != [] {
      var init, last := ivs[..|ivs| - 1], ivs[|ivs| - 1];
      ClipKeepsNormal(init, lo, hi);
      var c := ClipAll(init, lo, hi);
      assert last in ivs;
      if c != [] {
        assert Apart(init[|init| - 1], last) && ivs[|init| - 1] == init[|init| - 1];
      }
      if Clip(last, lo, hi) != [] {
        NormalSnoc(c, Clip(last, lo, hi)[0]);
      } else {
        assert ClipAll(ivs, lo, hi) == c;
      }
    }
  }

  // Clipping first and then merging, as the source does, gives what clipping the
  // merged intervals would: both orders end in the same normal form.
  lemma MergeClipCommute(ivs: seq<Interval>, merged: seq<Interval>, clippedMerged: seq<Interval>, lo: int64, hi: int64)
    requires Normal(merged) && SameCover(merged, ivs)
    requires Normal(clippedMerged) && SameCover(clippedMerged, ClipAll(ivs, lo, hi))
    ensures clippedMerged == ClipAll(merged, lo, hi)
  {
    ClipKeepsNormal(merged, lo, hi);
    forall x ensures Covers(clippedMerged, x) <==> Covers(ClipAll(merged, lo, hi), x) {
      ClipCovers(ivs, lo, hi, x);
      ClipCovers(merged, lo, hi, x);
    }
    NormalFormIsUnique(clippedMerged, ClipAll(merged, lo, hi));
  }

  // ----- the merge -----

  predicate Before(a: Interval, b: Interval) {
    a.min < b.min || (a.min == b.min && a.max <= b.max)
  }

  predicate Sorted(ivs: seq<Interval>) {
    forall i, j :: 0 <= i < j < |ivs| ==> Before(ivs[i], ivs[j])
  }

  function Insert(ivs: seq<Interval>, x: Interval): seq<Interval> {
    if ivs == [] || Before(x, ivs[0]) then [x] + ivs else [ivs[0]] + Insert(ivs[1..], x)
  }

  // The library sort, by (min, max): values that compare equal are equal.
  function Sort(ivs: seq<Interval>): seq<Interval> {
    if ivs == [] then [] else Insert(Sort(ivs[1..]), ivs[0])
  }

  lemma {:induction false} InsertSorted(ivs: seq<Interval>, x: Interval)
    requires Sorted(ivs)
    ensures Sorted(Insert(ivs, x)) && |Insert(ivs, x)| == |ivs| + 1
    ensures forall y :: y in Insert(ivs, x) <==> y in ivs || y == x
  {
    if ivs != [] && !Before(x, ivs[0]) {
      assert ivs == [ivs[0]] + ivs[1..];
      InsertSorted(ivs[1..], x);
      forall y | y in ivs[1..] ensures Before(ivs[0], y) {
        var k :| 0 <= k < |ivs[1..]| && ivs[1..][k] == y;
        assert Before(ivs[0], ivs[k + 1]);
      }
    }
  }

  lemma {:induction false} SortIsSorted(ivs: seq<Interval>)
    ensures Sorted(Sort(ivs)) && |Sort(ivs)| == |ivs|
    ensures forall y :: y in Sort(ivs) <==> y in ivs
  {
    if ivs != [] {
      assert ivs == [ivs[0]] + ivs[1..];
      SortIsSorted(ivs[1..]);
      InsertSorted(Sort(ivs[1..]), ivs[0]);
    }
  }

  // Overflow-safe at the top of the range: curMax + 1 is only evaluated below it.
  predicate Mergeable(curMax: int64, nextMin: int64) {
    nextMin <= curMax || (curMax < MAX_INT64 && nextMin == curMax + 1)
  }

  // Extending the last interval of a normal form by one that starts in or right
  // behind it, and not before it.
  lemma NormalInit(init: seq<Interval>, last: Interval)
    requires Normal(init + [last])
    ensures Normal(init) && last.min <= last.max && (init != [] ==> Apart(init[|init| - 1], last))
  {
    var out := init + [last];
    assert last in out;
    forall i, j | 0 <= i < j < |init| ensures Apart(init[i], init[j]) {
      assert Apart(out[i], out[j]);
    }
    assert forall iv :: iv in init ==> iv in out;
    assert init != [] ==> Apart(out[|init| - 1], out[|init|]);
  }

  lemma ExtendLast(init: seq<Interval>, last: Interval, cur: Interval)
    requires Normal(init + [last]) && cur.min <= cur.max
    requires last.min <= cur.min && Mergeable(last.max, cur.min)
    ensures Normal(init + [Interval(last.min, Max(last.max, cur.max))])
    ensures forall x :: Covers(init + [Interval(last.min, Max(last.max, cur.max))], x)
                   <==> Covers(init + [last], x) || In(x, cur)
  {
    hide Normal, Covers;
    var ext := Interval(last.min, Max(last.max, cur.max));
    NormalInit(init, last);
    NormalSnoc(init, ext);
    forall x ensures Covers(init + [ext], x) <==> Covers(init + [last], x) || In(x, cur) {
      CoversSnoc(init, ext, x);
      CoversSnoc(init, last, x);
    }
  }

  // One round of the merge loop.
  function MergeStep(out: seq<Interval>, cur: Interval): seq<Interval>
    requires out != []
  {
    var last := out[|out| - 1];
    if Mergeable(last.max, cur.min) then
      if cur.max > last.max then out[..|out| - 1] + [Interval(last.min, cur.max)] else out
    else out + [cur]
  }

  lemma MergeStepKeeps(out: seq<Interval>, cur: Interval)
    requires Normal(out) && out != [] && cur.min <= cur.max && out[|out| - 1].min <= cur.min
    ensures var r := MergeStep(out, cur);
            && Normal(r) && r != [] && r[|r| - 1].min <= cur.min
            && forall x :: Covers(r, x) <==> Covers(out, x) || In(x, cur)
  {
    var init, last := out[..|out| - 1], out[|out| - 1];
    assert out == init + [last];
    if Mergeable(last.max, cur.min) {
      ExtendLast(init, last, cur);
      assert cur.max <= last.max ==> Interval(last.min, Max(last.max, cur.max)) == last;
    } else {
      NormalSnoc(out, cur);
      forall x ensures Covers(out + [cur], x) <==> Covers(out, x) || In(x, cur) {
        CoversSnoc(out, cur, x);
      }
    }
  }

  lemma SameCoverStep(out: seq<Interval>, done: seq<Interval>, cur: Interval)
    requires SameCover(out, done) && out != []
    requires forall x :: Covers(MergeStep(out, cur), x) <==> Covers(out, x) || In(x, cur)
    ensures SameCover(MergeStep(out, cur), done + [cur])
  {
    forall x ensures Covers(MergeStep(out, cur), x) <==> Covers(done + [cur], x) {
      CoversSnoc(done, cur, x);
    }
  }

  // Sorting by start and uniting overlapping or adjacent intervals: the result is the
  // normal form of the union, which NormalFormIsUnique shows to be the only one.
  method MergeIntervals(ivs: seq<Interval>) returns (out: seq<Interval>)
    requires Proper(ivs)
    ensures Normal(out) && SameCover(out, ivs)
  {
    if |ivs| == 0 {
      return [];
    }
    hide Covers, Normal, SameCover;
    var sorted := Sort(ivs);
    SortIsSorted(ivs);
    SortKeepsCover(ivs);
    out := [sorted[0]];
    assert sorted[..1] == [sorted[0]];
    SingletonIsNormal(sorted[0]);
    var k := 1;
    while k < |sorted|
      invariant 1 <= k <= |sorted|
      invariant out != [] && Normal(out) && SameCover(out, sorted[..k])
      invariant out[|out| - 1].min <= sorted[k - 1].min
    {
      var cur := sorted[k];
      assert Before(sorted[k - 1], cur) && cur in sorted;
      MergeStepKeeps(out, cur);
      SameCoverStep(out, sorted[..k], cur);
      assert sorted[..k + 1] == sorted[..k] + [cur];
      var last := out[|out| - 1];
      if Mergeable(last.max, cur.min) {
        if cur.max > last.max {
          out := out[..|out| - 1] + [Interval(last.min, cur.max)];
        }
      } else {
        out := out + [cur];
      }
      k := k + 1;
    }
    assert sorted[..k] == sorted;
    SameCoverTransitive(out, sorted, ivs);
  }

  lemma SameCoverTransitive(a: seq<Interval>, b: seq<Interval>, c: seq<Interval>)
    requires SameCover(a, b) && SameCover(b, c)
    ensures SameCover(a, c)
  {
  }

  lemma SortKeepsCover(ivs: seq<Interval>)
    ensures SameCover(Sort(ivs), ivs)
  {
    SortIsSorted(ivs);
  }

  lemma SingletonIsNormal(iv: Interval)
    requires iv.min <= iv.max
    ensures Normal([iv]) && SameCover([iv], [iv])
  {
  }
}
