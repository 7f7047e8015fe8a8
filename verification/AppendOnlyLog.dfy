// The shared append-only log: true appends, and one rewrite, which drops the oldest
// whole groups and nothing else, and only when every line could be read.
module AppendOnlyLog {
  import opened Seqs
  import opened Text

  // A line and the group its owner assigns to it; None when it cannot be read.
  datatype LogLine<T> = LogLine(raw: T, group: Option<int>)

  // ----- the compaction plan -----

  ghost predicate AllClassified<T>(lines: seq<LogLine<T>>) {
    forall l :: l in lines ==> l.group.Some?
  }

  // The groups in order of first appearance.
  function GroupsOf<T>(lines: seq<LogLine<T>>): seq<int>
    requires AllClassified(lines)
  {
    if lines == [] then []
    else
      var init, g := GroupsOf(lines[..|lines| - 1]), lines[|lines| - 1].group.value;
      if g in init then init else init + [g]
  }

  function Members(s: seq<int>): set<int> {
    set g | g in s
  }

  // The oldest groups, those beyond the newest `keep`.
  function Excess<T>(lines: seq<LogLine<T>>, keep: nat): seq<int>
    requires AllClassified(lines)
  {
    var order := GroupsOf(lines);
    if |order| > keep then order[..|order| - keep] else []
  }

  predicate InGroups<T>(l: LogLine<T>, groups: set<int>) {
    l.group.Some? && l.group.value in groups
  }

  function Without<T>(lines: seq<LogLine<T>>, groups: set<int>): seq<LogLine<T>> {
    Filter(lines, (l: LogLine<T>) => !InGroups(l, groups))
  }

  function Within<T>(lines: seq<LogLine<T>>, groups: set<int>): seq<LogLine<T>> {
    Filter(lines, (l: LogLine<T>) => InGroups(l, groups))
  }

  // What a compaction leaves; a bound of 0 or less means unbounded.
  function Compacted<T>(lines: seq<LogLine<T>>, keep: int): seq<LogLine<T>>
    requires AllClassified(lines)
  {
    if keep <= 0 then lines else Without(lines, Members(Excess(lines, keep)))
  }

  method PlanPrefixDrop<T>(lines: seq<LogLine<T>>, keep: int) returns (drop: set<int>, kept: seq<LogLine<T>>)
    requires AllClassified(lines)
    ensures drop == if keep <= 0 then {} else Members(Excess(lines, keep))
    ensures kept == Compacted(lines, keep)
  {
    drop := {};
    if keep <= 0 {
      return drop, lines;
    }
    var order, seen := [], {};
    for i := 0 to |lines|
      invariant order == GroupsOf(lines[..i]) && seen == Members(order)
    {
      assert lines[..i + 1][..i] == lines[..i];
      var g := lines[i].group.value;
      if g !in seen {
        seen := seen + {g};
        order := order + [g];
      }
    }
    assert lines[..|lines|] == lines;
    if |order| > keep {
      for i := 0 to |order| - keep
        invariant drop == Members(order[..i])
      {
        drop := drop + {order[i]};
      }
    }
    kept := SelectOutside(lines, drop);
  }

  method SelectOutside<T>(lines: seq<LogLine<T>>, drop: set<int>) returns (kept: seq<LogLine<T>>)
    requires AllClassified(lines)
    ensures kept == Without(lines, drop)
  {
    kept := [];
    for i := 0 to |lines|
      invariant kept == Without(lines[..i], drop)
    {
      assert lines[..i + 1][..i] == lines[..i];
      if lines[i].group.value !in drop {
        kept := kept + [lines[i]];
      }
    }
    assert lines[..|lines|] == lines;
  }

  // The dropped lines, and their groups in order of first appearance.
  method CollectDropped<T>(lines: seq<LogLine<T>>, drop: set<int>) returns (groups: seq<int>, dropped: seq<LogLine<T>>)
    requires AllClassified(lines)
    ensures dropped == Within(lines, drop) && AllClassified(dropped) && groups == GroupsOf(dropped)
  {
    groups, dropped := [], [];
    var seen: set<int> := {};
    for i := 0 to |lines|
      invariant dropped == Within(lines[..i], drop)
      invariant AllClassified(dropped) && groups == GroupsOf(dropped) && seen == Members(groups)
    {
      assert lines[..i + 1][..i] == lines[..i];
      var l := lines[i];
      if l.group.value !in drop {
        continue;
      }
      assert (dropped + [l])[..|dropped|] == dropped;
      dropped := dropped + [l];
      if l.group.value !in seen {
        seen := seen + {l.group.value};
        groups := groups + [l.group.value];
      }
    }
    assert lines[..|lines|] == lines;
  }

  // ----- what the plan does -----

  predicate Distinct(order: seq<int>) {
    forall i, j :: 0 <= i < j < |order| ==> order[i] != order[j]
  }

  lemma {:induction false} GroupsAreDistinct<T>(lines: seq<LogLine<T>>)
    requires AllClassified(lines)
    ensures Distinct(GroupsOf(lines))
    ensures forall g :: g in GroupsOf(lines) <==> exists l :: l in lines && l.group == Some(g)
  {
    if lines != [] {
      var init, last := lines[..|lines| - 1], lines[|lines| - 1];
      assert lines == init + [last];
      GroupsAreDistinct(init);
      forall g ensures g in GroupsOf(lines) <==> exists l :: l in lines && l.group == Some(g) {
        assert g in GroupsOf(lines) <==> g in GroupsOf(init) || last.group == Some(g);
        if last.group == Some(g) {
          assert last in lines;
        }
      }
    }
  }

  // Removing whole groups removes exactly those from the order of first appearance.
  function Outside(order: seq<int>, groups: set<int>): seq<int> {
    Filter(order, (g: int) => g !in groups)
  }

  lemma FilterKeepsClassified<T>(lines: seq<LogLine<T>>, p: LogLine<T> -> bool)
    requires AllClassified(lines)
    ensures AllClassified(Filter(lines, p))
  {
    FilterMembers(lines, p);
  }

  lemma {:induction false} GroupsOfWithout<T>(lines: seq<LogLine<T>>, groups: set<int>)
    requires AllClassified(lines)
    ensures AllClassified(Without(lines, groups))
    ensures GroupsOf(Without(lines, groups)) == Outside(GroupsOf(lines), groups)
  {
    FilterKeepsClassified(lines, (l: LogLine<T>) => !InGroups(l, groups));
    if lines != [] {
      var init, last := lines[..|lines| - 1], lines[|lines| - 1];
      GroupsOfWithout(init, groups);
      var g := last.group.value;
      FilterMembers(GroupsOf(init), (g: int) => g !in groups);
      var w := Without(init, groups);
      if g !in groups {
        assert Without(lines, groups) == w + [last];
        assert (w + [last])[..|w|] == w;
      } else {
        assert Without(lines, groups) == w;
      }
      if g !in GroupsOf(init) {
        assert (GroupsOf(init) + [g])[..|GroupsOf(init)|] == GroupsOf(init);
      }
    }
  }

  lemma WithinIsWithoutTheRest<T>(lines: seq<LogLine<T>>, a: set<int>, b: set<int>)
    requires AllClassified(lines)
    requires forall l :: l in lines ==> (l.group.value in a <==> l.group.value !in b)
    ensures Within(lines, a) == Without(lines, b)
  {
    SameFilter(lines, (l: LogLine<T>) => InGroups(l, a), (l: LogLine<T>) => !InGroups(l, b));
  }

  lemma {:induction false} SameFilter<T>(s: seq<T>, p: T -> bool, q: T -> bool)
    requires forall x :: x in s ==> p(x) == q(x)
    ensures Filter(s, p) == Filter(s, q)
  {
    if s != [] {
      SameFilter(s[..|s| - 1], p, q);
    }
  }

  // Splitting a sequence of distinct groups: what lies outside its prefix is its suffix.
  lemma OutsidePrefix(order: seq<int>, n: nat)
    requires n <= |order| && Distinct(order)
    ensures Outside(order, Members(order[..n])) == order[n..]
    ensures Outside(order, Members(order[n..])) == order[..n]
  {
    var pre, suf := order[..n], order[n..];
    assert order == pre + suf;
    hide Outside, Members;
    OutsideOfFirst(pre, suf);
    OutsideOfSecond(pre, suf);
  }

  lemma OutsideOfFirst(pre: seq<int>, suf: seq<int>)
    requires forall i, j :: 0 <= i < |pre| && 0 <= j < |suf| ==> pre[i] != suf[j]
    ensures Outside(pre + suf, Members(pre)) == suf
  {
    hide Filter;
    FilterConcat(pre, suf, (g: int) => g !in Members(pre));
    FilterNone(pre, (g: int) => g !in Members(pre));
    FilterAll(suf, (g: int) => g !in Members(pre));
    assert [] + suf == suf;
  }

  lemma OutsideOfSecond(pre: seq<int>, suf: seq<int>)
    requires forall i, j :: 0 <= i < |pre| && 0 <= j < |suf| ==> pre[i] != suf[j]
    ensures Outside(pre + suf, Members(suf)) == pre
  {
    hide Filter;
    FilterConcat(pre, suf, (g: int) => g !in Members(suf));
    FilterAll(pre, (g: int) => g !in Members(suf));
    FilterNone(suf, (g: int) => g !in Members(suf));
    assert pre + [] == pre;
  }

  lemma PrefixOrSuffix(order: seq<int>, n: nat, g: int)
    requires n <= |order| && Distinct(order) && g in order
    ensures g in Members(order[..n]) <==> g !in Members(order[n..])
  {
    var i :| 0 <= i < |order| && order[i] == g;
    if i < n {
      assert order[..n][i] == g;
      assert forall j :: 0 <= j < |order| - n ==> order[n..][j] == order[n + j] != g;
    } else {
      assert order[n..][i - n] == g;
      assert forall j :: 0 <= j < n ==> order[..n][j] == order[j] != g;
    }
  }

  lemma GroupOfLine<T>(lines: seq<LogLine<T>>, l: LogLine<T>)
    requires AllClassified(lines) && l in lines
    ensures l.group.Some? && l.group.value in GroupsOf(lines)
  {
    GroupsAreDistinct(lines);
    assert l.group == Some(l.group.value);
  }

  // The lines of the oldest n groups are those outside the others.
  lemma DroppedGroups<T>(lines: seq<LogLine<T>>, n: nat)
    requires AllClassified(lines) && n <= |GroupsOf(lines)|
    ensures var drop := GroupsOf(lines)[..n];
      AllClassified(Within(lines, Members(drop))) && GroupsOf(Within(lines, Members(drop))) == drop
  {
    var order := GroupsOf(lines);
    var drop, rest := Members(order[..n]), Members(order[n..]);
    GroupsAreDistinct(lines);
    hide GroupsOf, Within, Without, Members;
    forall l | l in lines ensures l.group.value in drop <==> l.group.value !in rest {
      GroupOfLine(lines, l);
      PrefixOrSuffix(order, n, l.group.value);
    }
    WithinIsWithoutTheRest(lines, drop, rest);
    GroupsOfWithout(lines, rest);
    OutsidePrefix(order, n);
  }

  // A compaction to k keeps exactly the newest k groups, and the observer of an actual
  // drop is handed exactly the groups before those, oldest first.
  lemma CompactionKeepsTheNewest<T>(lines: seq<LogLine<T>>, keep: int)
    requires AllClassified(lines) && keep > 0
    ensures var order, after := GroupsOf(lines), Compacted(lines, keep);
      && AllClassified(after)
      && GroupsOf(after) == LastN(order, keep)
      && AllClassified(Within(lines, Members(Excess(lines, keep))))
      && GroupsOf(Within(lines, Members(Excess(lines, keep)))) == Excess(lines, keep)
      && Excess(lines, keep) + GroupsOf(after) == order
  {
    var order, drop := GroupsOf(lines), Excess(lines, keep);
    var n := |drop|;
    GroupsAreDistinct(lines);
    assert order[..n] == drop && order[n..] == LastN(order, keep);
    assert drop + order[n..] == order;
    hide GroupsOf, Within, Without, Members, Excess, Outside, LastN, AllClassified, Distinct;
    OutsidePrefix(order, n);
    GroupsOfWithout(lines, Members(drop));
    DroppedGroups(lines, n);
  }

  // Groups survive whole: a line is kept exactly when its group is among the newest
  // `keep`, and the file changes exactly when there are more groups than that.
  lemma GroupsSurviveWhole<T>(lines: seq<LogLine<T>>, keep: int)
    requires AllClassified(lines) && keep > 0
    ensures forall l :: l in Compacted(lines, keep) <==> l in lines && l.group.value in LastN(GroupsOf(lines), keep)
    ensures Compacted(lines, keep) == lines <==> |GroupsOf(lines)| <= keep
  {
    var order, drop := GroupsOf(lines), Excess(lines, keep);
    GroupsAreDistinct(lines);
    assert order[..|drop|] == drop && order[|drop|..] == LastN(order, keep);
    FilterMembers(lines, (l: LogLine<T>) => !InGroups(l, Members(drop)));
    hide GroupsOf, Filter;
    forall l | l in lines ensures l.group.value in Members(drop) <==> l.group.value !in LastN(order, keep) {
      GroupOfLine(lines, l);
      PrefixOrSuffix(order, |drop|, l.group.value);
      assert forall g :: g in order[|drop|..] <==> g in Members(order[|drop|..]);
    }
    if |order| <= keep {
      FilterAll(lines, (l: LogLine<T>) => !InGroups(l, Members(drop)));
    } else {
      assert order[0] in drop && order[0] in order;
      var l :| l in lines && l.group == Some(order[0]);
      assert l !in Compacted(lines, keep);
    }
  }

  lemma CompactedIsPart<T>(lines: seq<LogLine<T>>, keep: int, l: LogLine<T>)
    requires AllClassified(lines) && l in Compacted(lines, keep)
    ensures l in lines
  {
    if keep > 0 {
      GroupsSurviveWhole(lines, keep);
    }
  }

  lemma {:induction false} FilterTwice<T>(s: seq<T>, p: T -> bool, q: T -> bool, both: T -> bool)
    requires forall x :: both(x) <==> p(x) && q(x)
    ensures Filter(Filter(s, p), q) == Filter(s, both)
  {
    if s != [] {
      var init, last := s[..|s| - 1], s[|s| - 1];
      FilterTwice(init, p, q, both);
      if p(last) {
        assert (Filter(init, p) + [last])[..|Filter(init, p)|] == Filter(init, p);
      } else {
        assert Filter(s, p) == Filter(init, p);
      }
    }
  }

  // Compacting twice is compacting once, to the smaller bound.
  lemma CompactTwice<T>(lines: seq<LogLine<T>>, first: int, second: int)
    requires AllClassified(lines) && first > 0 && second > 0
    ensures AllClassified(Compacted(lines, first))
    ensures Compacted(Compacted(lines, first), second) == Compacted(lines, if first < second then first else second)
  {
    var smaller := if first < second then first else second;
    var once := Compacted(lines, first);
    CompactionKeepsTheNewest(lines, first);
    ExcessAddsUp(GroupsOf(lines), first, second);
    assert Excess(lines, first) + Excess(once, second) == Excess(lines, smaller);
    hide GroupsOf, Filter, Excess;
    WithoutTwice(lines, Members(Excess(lines, first)), Members(Excess(once, second)));
    MembersOfConcat(Excess(lines, first), Excess(once, second));
  }

  lemma MembersOfConcat(a: seq<int>, b: seq<int>)
    ensures Members(a + b) == Members(a) + Members(b)
  {
  }

  lemma WithoutTwice<T>(lines: seq<LogLine<T>>, a: set<int>, b: set<int>)
    ensures Without(Without(lines, a), b) == Without(lines, a + b)
  {
    FilterTwice(lines, (l: LogLine<T>) => !InGroups(l, a), (l: LogLine<T>) => !InGroups(l, b),
                (l: LogLine<T>) => !InGroups(l, a + b));
  }

  // The excess beyond `first`, and the excess of what remains beyond `second`.
  lemma ExcessAddsUp(order: seq<int>, first: int, second: int)
    requires first > 0 && second > 0
    ensures var smaller := if first < second then first else second;
            var rest := LastN(order, first);
            var a := if |order| > first then order[..|order| - first] else [];
            var b := if |rest| > second then rest[..|rest| - second] else [];
            var c := if |order| > smaller then order[..|order| - smaller] else [];
            a + b == c
  {
  }

  // ----- the file -----

  datatype Outcome = Done | ReadFailed | Refused | ObserverRefused | WriteFailed | CompletionFailed

  function ReadLines(file: seq<string>, classify: string -> Option<int>): seq<LogLine<string>> {
    if file == [] then []
    else
      var t := TrimSpace(file[|file| - 1]);
      ReadLines(file[..|file| - 1], classify) + if t == [] then [] else [LogLine(t, classify(t))]
  }

  lemma NothingRead(file: seq<string>, classify: string -> Option<int>)
    requires file == []
    ensures ReadLines(file, classify) == [] && AllClassified(ReadLines(file, classify))
  {
  }

  lemma ReadStep(file: seq<string>, i: nat, classify: string -> Option<int>)
    requires i < |file|
    ensures var before, t := ReadLines(file[..i], classify), TrimSpace(file[i]);
      && ReadLines(file[..i + 1], classify) == (if t == [] then before else before + [LogLine(t, classify(t))])
      && (AllClassified(before + [LogLine(t, classify(t))]) <==> AllClassified(before) && classify(t).Some?)
  {
    hide TrimSpace;
    var before, l := ReadLines(file[..i], classify), LogLine(TrimSpace(file[i]), classify(TrimSpace(file[i])));
    assert file[..i + 1][..i] == file[..i];
    assert l in before + [l];
    assert forall k :: k in before ==> k in before + [l];
  }

  function RawOf(lines: seq<LogLine<string>>): seq<string> {
    Map(lines, (l: LogLine<string>) => l.raw)
  }

  // What the stores and the observer answer during one compaction.
  datatype Env = Env(readOk: bool, observed: bool, observerOk: bool, rewriteOk: bool, completionOk: bool)

  class LogFile {
    const classify: string -> Option<int>
    // the physical lines, without their newlines
    var file: seq<string>

    constructor (c: string -> Option<int>)
      ensures classify == c && file == []
    {
      classify, file := c, [];
    }

    method ReadLogLines() returns (lines: seq<LogLine<string>>, ok: bool)
      ensures lines == ReadLines(file, classify) && (ok <==> AllClassified(lines))
    {
      hide ReadLines, AllClassified, TrimSpace;
      lines, ok := [], true;
      NothingRead(file[..0], classify);
      for i := 0 to |file|
        invariant lines == ReadLines(file[..i], classify) && (ok <==> AllClassified(lines))
      {
        ReadStep(file, i, classify);
        var trimmed := TrimSpace(file[i]);
        if trimmed == [] {
          continue;
        }
        var g := classify(trimmed);
        if g.None? {
          ok := false;
        }
        lines := lines + [LogLine(trimmed, g)];
      }
      assert file[..|file|] == file;
    }

    // A true append: a blank line is refused, and a failed write changes nothing.
    method AppendLogLine(line: string, writeOk: bool) returns (ok: bool)
      modifies this
      ensures ok <==> TrimSpace(line) != [] && writeOk
      ensures file == if ok then old(file) + [TrimSpace(line)] else old(file)
    {
      var trimmed := TrimSpace(line);
      if trimmed == [] || !writeOk {
        return false;
      }
      file := file + [trimmed];
      return true;
    }

    // seen is what the observer was handed, None when it was not asked.
    method Compact(keep: int, env: Env) returns (r: Outcome, seen: Option<(seq<int>, seq<LogLine<string>>)>)
      modifies this
      ensures var lines := ReadLines(old(file), classify);
        && (keep <= 0 ==> r == Done && file == old(file) && seen == None)
        && (keep > 0 && !env.readOk ==> r == ReadFailed && file == old(file) && seen == None)
        && (keep > 0 && env.readOk && !AllClassified(lines) ==> r == Refused && file == old(file) && seen == None)
        && (keep > 0 && env.readOk && AllClassified(lines) ==>
              && r == CompactionOutcome(lines, keep, env)
              && file == (if Compacted(lines, keep) != lines && (r == Done || r == CompletionFailed)
                          then RawOf(Compacted(lines, keep)) else old(file))
              && seen == (if env.observed && Compacted(lines, keep) != lines
                          then Some((Excess(lines, keep), Within(lines, Members(Excess(lines, keep))))) else None))
    {
      seen := None;
      if keep <= 0 {
        return Done, seen;
      }
      if !env.readOk {
        return ReadFailed, seen;
      }
      var lines, ok := ReadLogLines();
      if !ok {
        return Refused, seen;
      }
      var drop, kept := PlanPrefixDrop(lines, keep);
      CompactionKeepsTheNewest(lines, keep);
      SameLengthSameLines(lines, drop);
      if |kept| == |lines| {
        return Done, seen;
      }
      if env.observed {
        var groups, dropped := CollectDropped(lines, drop);
        seen := Some((groups, dropped));
        if !env.observerOk {
          return ObserverRefused, seen;
        }
      }
      if !env.rewriteOk {
        return WriteFailed, seen;
      }
      file := RawOf(kept);
      return if env.observed && !env.completionOk then CompletionFailed else Done, seen;
    }
  }

  ghost function CompactionOutcome(lines: seq<LogLine<string>>, keep: int, env: Env): Outcome
    requires AllClassified(lines)
  {
    if Compacted(lines, keep) == lines then Done
    else if env.observed && !env.observerOk then ObserverRefused
    else if !env.rewriteOk then WriteFailed
    else if env.observed && !env.completionOk then CompletionFailed
    else Done
  }

  lemma {:induction false} SameLengthSameLines<T>(lines: seq<LogLine<T>>, drop: set<int>)
    ensures |Without(lines, drop)| == |lines| <==> Without(lines, drop) == lines
  {
    if lines != [] {
      SameLengthSameLines(lines[..|lines| - 1], drop);
      assert lines == lines[..|lines| - 1] + [lines[|lines| - 1]];
    }
  }

  // ----- verbatim -----

  predicate Tidy(file: seq<string>) {
    forall l :: l in file ==> l != [] && TrimSpace(l) == l
  }

  function IsKept(groups: seq<int>, classify: string -> Option<int>): string -> bool {
    (l: string) => TrimSpace(l) != [] && classify(TrimSpace(l)).Some? && classify(TrimSpace(l)).value in groups
  }

  // The original, untrimmed lines of given groups.
  function LinesOf(file: seq<string>, groups: seq<int>, classify: string -> Option<int>): seq<string> {
    Filter(file, IsKept(groups, classify))
  }

  // The physical lines of the groups a compaction to `keep` retains.
  ghost function Survivors(file: seq<string>, keep: nat, classify: string -> Option<int>): seq<string>
    requires AllClassified(ReadLines(file, classify))
  {
    LinesOf(file, LastN(GroupsOf(ReadLines(file, classify)), keep), classify)
  }

  function Trimmed(lines: seq<string>): seq<string> {
    Map(lines, (l: string) => TrimSpace(l))
  }

  // A readable line is dropped exactly when its group is not kept.
  ghost predicate Complement<T>(lines: seq<LogLine<T>>, drop: set<int>, groups: seq<int>) {
    forall l :: l in lines ==> l.group.Some? && (l.group.value in drop <==> l.group.value !in groups)
  }

  lemma ComplementSnoc<T>(lines: seq<LogLine<T>>, l: LogLine<T>, drop: set<int>, groups: seq<int>)
    requires Complement(lines + [l], drop, groups)
    ensures Complement(lines, drop, groups) && l.group.Some? && (l.group.value in drop <==> l.group.value !in groups)
  {
    assert l in lines + [l];
    assert forall k :: k in lines ==> k in lines + [l];
  }

  // What the rewrite makes of the surviving lines: each is trimmed and none is lost.
  lemma {:induction false} WithoutIsTrimmed(file: seq<string>, drop: set<int>, groups: seq<int>,
        classify: string -> Option<int>)
    requires Complement(ReadLines(file, classify), drop, groups)
    ensures RawOf(Without(ReadLines(file, classify), drop)) == Trimmed(LinesOf(file, groups, classify))
  {
    hide ReadLines, LinesOf, Without, RawOf, Trimmed, TrimSpace, IsKept, Complement;
    if file == [] {
      NothingKept(file, drop, groups, classify);
    } else {
      var init, last := file[..|file| - 1], file[|file| - 1];
      var before := ReadLines(init, classify);
      assert init + [last] == file;
      ReadSnoc(init, last, classify);
      KeptSnoc(init, last, groups, classify);
      KeptIff(last, groups, classify);
      var originals := LinesOf(init, groups, classify);
      if TrimSpace(last) == [] {
        WithoutIsTrimmed(init, drop, groups, classify);
      } else {
        var l := LogLine(TrimSpace(last), classify(TrimSpace(last)));
        ComplementSnoc(before, l, drop, groups);
        WithoutIsTrimmed(init, drop, groups, classify);
        KeptStep(before, l, originals, last, drop, groups);
      }
    }
  }

  lemma KeptIff(line: string, groups: seq<int>, classify: string -> Option<int>)
    ensures var t := TrimSpace(line);
      IsKept(groups, classify)(line) <==> t != [] && classify(t).Some? && classify(t).value in groups
  {
  }

  // One more line, on either side of the equation.
  lemma KeptStep(before: seq<LogLine<string>>, l: LogLine<string>, originals: seq<string>, last: string,
        drop: set<int>, groups: seq<int>)
    requires RawOf(Without(before, drop)) == Trimmed(originals)
    requires l.raw == TrimSpace(last) && l.group.Some? && (l.group.value in drop <==> l.group.value !in groups)
    ensures RawOf(Without(before + [l], drop))
         == Trimmed(if l.group.value in groups then originals + [last] else originals)
  {
    WithoutSnoc(before, l, drop);
    RawSnoc(Without(before, drop), l, originals, last);
    hide Without, RawOf, Trimmed, TrimSpace;
    assert Without(before, drop) + [] == Without(before, drop);
  }

  lemma NothingKept(file: seq<string>, drop: set<int>, groups: seq<int>, classify: string -> Option<int>)
    requires file == []
    ensures RawOf(Without(ReadLines(file, classify), drop)) == Trimmed(LinesOf(file, groups, classify))
  {
  }

  lemma ReadSnoc(init: seq<string>, last: string, classify: string -> Option<int>)
    ensures ReadLines(init + [last], classify)
      == if TrimSpace(last) == [] then ReadLines(init, classify)
         else ReadLines(init, classify) + [LogLine(TrimSpace(last), classify(TrimSpace(last)))]
  {
    hide TrimSpace;
    assert (init + [last])[..|init|] == init;
  }

  lemma KeptSnoc(init: seq<string>, last: string, groups: seq<int>, classify: string -> Option<int>)
    ensures LinesOf(init + [last], groups, classify)
      == if IsKept(groups, classify)(last) then LinesOf(init, groups, classify) + [last] else LinesOf(init, groups, classify)
  {
    hide TrimSpace;
    assert (init + [last])[..|init|] == init;
  }

  lemma WithoutSnoc<T>(lines: seq<LogLine<T>>, l: LogLine<T>, drop: set<int>)
    ensures Without(lines + [l], drop) == Without(lines, drop) + if InGroups(l, drop) then [] else [l]
  {
    assert (lines + [l])[..|lines|] == lines;
  }

  lemma RawSnoc(lines: seq<LogLine<string>>, l: LogLine<string>, originals: seq<string>, original: string)
    ensures RawOf(lines + [l]) == RawOf(lines) + [l.raw]
    ensures Trimmed(originals + [original]) == Trimmed(originals) + [TrimSpace(original)]
  {
    hide TrimSpace;
  }

  // A compaction that rewrites the file writes the survivors trimmed, so they are
  // verbatim, as documented, if and only if no surviving line carries surrounding white
  // space; what the dropped lines look like does not matter.
  lemma SurvivorsAreVerbatimIff(file: seq<string>, keep: nat, classify: string -> Option<int>)
    requires AllClassified(ReadLines(file, classify)) && keep > 0
    ensures var rewritten, kept := RawOf(Compacted(ReadLines(file, classify), keep)), Survivors(file, keep, classify);
      && rewritten == Trimmed(kept)
      && (rewritten == kept <==> forall l :: l in kept ==> TrimSpace(l) == l)
  {
    var lines := ReadLines(file, classify);
    var newest, drop := LastN(GroupsOf(lines), keep), Members(Excess(lines, keep));
    DropOrKeep(lines, keep);
    WithoutIsTrimmed(file, drop, newest, classify);
    TrimmedIsSameIff(Survivors(file, keep, classify));
  }

  lemma DropOrKeep<T>(lines: seq<LogLine<T>>, keep: nat)
    requires AllClassified(lines) && keep > 0
    ensures Complement(lines, Members(Excess(lines, keep)), LastN(GroupsOf(lines), keep))
  {
    var order, drop := GroupsOf(lines), Excess(lines, keep);
    GroupsAreDistinct(lines);
    assert order[..|drop|] == drop && order[|drop|..] == LastN(order, keep);
    hide GroupsOf;
    forall l | l in lines ensures l.group.value in Members(drop) <==> l.group.value !in LastN(order, keep) {
      GroupOfLine(lines, l);
      PrefixOrSuffix(order, |drop|, l.group.value);
      assert forall g :: g in order[|drop|..] <==> g in Members(order[|drop|..]);
    }
  }

  lemma TrimmedIsSameIff(s: seq<string>)
    ensures Trimmed(s) == s <==> forall l :: l in s ==> TrimSpace(l) == l
  {
    hide TrimSpace;
    if Trimmed(s) == s {
      forall l | l in s ensures TrimSpace(l) == l {
        var i :| 0 <= i < |s| && s[i] == l;
        assert Trimmed(s)[i] == TrimSpace(l);
      }
    }
    if forall l :: l in s ==> TrimSpace(l) == l {
      forall i | 0 <= i < |s| ensures Trimmed(s)[i] == s[i] {
        assert s[i] in s;
      }
    }
  }

  // Reading a whole file gives its lines back verbatim exactly when no line is blank or
  // carries surrounding white space; appends write no others.
  lemma {:induction false} TidyReadsVerbatim(file: seq<string>, classify: string -> Option<int>)
    ensures RawOf(ReadLines(file, classify)) == file <==> Tidy(file)
    ensures |ReadLines(file, classify)| <= |file|
  {
    if file != [] {
      var init, last := file[..|file| - 1], file[|file| - 1];
      TidyReadsVerbatim(init, classify);
      assert file == init + [last];
      TidySnoc(init, last);
      ReadLinesSnoc(init, last, classify);
      hide Tidy, TrimSpace, ReadLines, RawOf;
      SameSnoc(RawOf(ReadLines(init, classify)), TrimSpace(last), init, last);
    }
  }

  lemma ReadLinesSnoc(init: seq<string>, last: string, classify: string -> Option<int>)
    ensures var before, after := ReadLines(init, classify), ReadLines(init + [last], classify);
      && |after| == |before| + (if TrimSpace(last) == [] then 0 else 1)
      && |RawOf(before)| == |before| && |RawOf(after)| == |after|
      && RawOf(after) == RawOf(before) + if TrimSpace(last) == [] then [] else [TrimSpace(last)]
  {
    hide TrimSpace;
    assert (init + [last])[..|init|] == init;
  }

  lemma TidySnoc(init: seq<string>, last: string)
    ensures Tidy(init + [last]) <==> Tidy(init) && last != [] && TrimSpace(last) == last
  {
    assert last in init + [last];
    assert forall l :: l in init ==> l in init + [last];
  }

  lemma SameSnoc(a: seq<string>, x: string, b: seq<string>, y: string)
    ensures a + [x] == b + [y] <==> a == b && x == y
  {
    if a + [x] == b + [y] {
      assert (a + [x])[..|a|] == a && (b + [y])[..|b|] == b;
    }
  }

  lemma AppendKeepsTidy(file: seq<string>, line: string)
    requires Tidy(file) && TrimSpace(line) != []
    ensures Tidy(file + [TrimSpace(line)])
  {
    TrimTwice(line);
  }

  lemma TrimTwice(s: string)
    ensures TrimSpace(TrimSpace(s)) == TrimSpace(s)
  {
    var l := TrimLeft(s);
    var r := TrimRight(l);
    if r != [] {
      assert r[0] == l[0];
      assert TrimLeft(r) == r;
    }
  }
}
