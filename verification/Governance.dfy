// Policy evaluation: rules in priority order, the first that matches decides.
module Governance {
  import opened Seqs

  datatype Code = Allow | Deny | RequireApproval | MaintenanceBlocked

  datatype Kind = MaintenanceWindow | ChangeFreeze | ApprovalRequired | TenantScope | GroupAllow | OtherKind(name: string)

  datatype Rule = Rule(ruleID: string, priority: int, kind: Kind, param: string)

  datatype Policy = Policy(policyID: string, rules: seq<Rule>)

  datatype State = State(
    pluginID: string, runtimeID: string, group: string, executionID: string, tenant: string,
    inMaintenanceWindow: bool, changeFreeze: bool, requiresApproval: bool)

  datatype Verdict = Verdict(
    code: Code, reason: string, policyID: string, ruleID: string,
    matchedPolicy: string, matchedRule: string, priority: int, evidence: map<string, string>)

  // The code and reason a rule implies for a state; None when it does not match.
  function EvalRule(r: Rule, s: State): Option<(Code, string)> {
    match r.kind
    case MaintenanceWindow => if s.inMaintenanceWindow then Some((MaintenanceBlocked, "maintenance window active")) else None
    case ChangeFreeze => if s.changeFreeze then Some((Deny, "change freeze active")) else None
    case ApprovalRequired => if s.requiresApproval then Some((RequireApproval, "action requires approval")) else None
    case TenantScope => if r.param != "" && s.tenant != r.param then Some((Deny, "tenant out of scope")) else None
    case GroupAllow => if r.param != "" && s.group == r.param then Some((Allow, "group allowed")) else None
    case OtherKind(_) => None
  }

  predicate Matches(r: Rule, s: State) {
    EvalRule(r, s).Some?
  }

  function KindName(k: Kind): string {
    match k
    case MaintenanceWindow => "maintenance-window"
    case ChangeFreeze => "change-freeze"
    case ApprovalRequired => "require-approval"
    case TenantScope => "tenant-scope"
    case GroupAllow => "group-allow"
    case OtherKind(n) => n
  }

  // The kind in a verdict's evidence names the kind of the rule.
  lemma KindNamesDiffer(a: Kind, b: Kind)
    requires !a.OtherKind? && !b.OtherKind?
    ensures KindName(a) == KindName(b) <==> a == b
  {
    assert forall k: Kind :: !k.OtherKind? ==> k == MaintenanceWindow || k == ChangeFreeze || k == ApprovalRequired
                                               || k == TenantScope || k == GroupAllow;
    assert |KindName(MaintenanceWindow)| == 18 && |KindName(ChangeFreeze)| == 13;
    assert |KindName(ApprovalRequired)| == 16 && |KindName(TenantScope)| == 12 && |KindName(GroupAllow)| == 11;
  }

  // ----- the order -----

  // Byte order on identifiers.
  predicate StringLess(a: string, b: string) {
    if b == [] then false
    else if a == [] then true
    else a[0] < b[0] || (a[0] == b[0] && StringLess(a[1..], b[1..]))
  }

  lemma {:induction false} StringOrder(a: string, b: string, c: string)
    ensures !StringLess(a, a)
    ensures StringLess(a, b) ==> !StringLess(b, a)
    ensures StringLess(a, b) || StringLess(b, a) || a == b
    ensures StringLess(a, b) && StringLess(b, c) ==> StringLess(a, c)
    decreases |a|
  {
    if a != [] && b != [] && a[0] == b[0] {
      assert a == [a[0]] + a[1..] && b == [b[0]] + b[1..];
      StringOrder(a[1..], b[1..], if c == [] then [] else c[1..]);
    }
    if a != [] {
      StringOrder(a[1..], a[1..], a[1..]);
    }
  }

  // a comes before b: higher priority, then smaller rule id.
  predicate Before(a: Rule, b: Rule) {
    a.priority > b.priority || (a.priority == b.priority && StringLess(a.ruleID, b.ruleID))
  }

  predicate SameRank(a: Rule, b: Rule) {
    a.priority == b.priority && a.ruleID == b.ruleID
  }

  lemma RankOrder(a: Rule, b: Rule, c: Rule)
    ensures !Before(a, a)
    ensures Before(a, b) ==> !Before(b, a)
    ensures Before(a, b) || Before(b, a) || SameRank(a, b)
    ensures SameRank(a, b) ==> !Before(a, b)
    ensures Before(a, b) && !Before(c, b) ==> Before(a, c)
    ensures !Before(b, a) && !Before(c, b) ==> !Before(c, a)
  {
    StringOrder(a.ruleID, b.ruleID, c.ruleID);
    StringOrder(c.ruleID, b.ruleID, a.ruleID);
    StringOrder(b.ruleID, c.ruleID, a.ruleID);
    StringOrder(c.ruleID, a.ruleID, b.ruleID);
    StringOrder(a.ruleID, c.ruleID, b.ruleID);
  }

  // ----- the stable sort -----

  // x goes in front of everything that does not come strictly before it.
  function Insert(s: seq<Rule>, x: Rule): seq<Rule> {
    if s == [] || !Before(s[0], x) then [x] + s else [s[0]] + Insert(s[1..], x)
  }

  function SortStable(rules: seq<Rule>): seq<Rule> {
    if rules == [] then [] else Insert(SortStable(rules[1..]), rules[0])
  }

  predicate Ordered(s: seq<Rule>) {
    forall i, j :: 0 <= i < j < |s| ==> !Before(s[j], s[i])
  }

  function FirstMatch(s: seq<Rule>, st: State): Option<Rule> {
    if s == [] then None else if Matches(s[0], st) then Some(s[0]) else FirstMatch(s[1..], st)
  }

  lemma {:induction false} InsertAdds(s: seq<Rule>, x: Rule)
    ensures multiset(Insert(s, x)) == multiset(s) + multiset{x}
  {
    hide Before;
    if s != [] && Before(s[0], x) {
      InsertAdds(s[1..], x);
      assert s == [s[0]] + s[1..];
    }
  }

  lemma InsertedIsNewOrOld(s: seq<Rule>, x: Rule, y: Rule)
    requires y in Insert(s, x)
    ensures y == x || y in s
  {
    InsertAdds(s, x);
    assert y in multiset(Insert(s, x));
    assert y == x || y in multiset(s);
  }

  lemma OrderedTail(s: seq<Rule>)
    requires Ordered(s) && s != []
    ensures Ordered(s[1..]) && forall y :: y in s[1..] ==> !Before(y, s[0])
  {
  }

  lemma OrderedCons(x: Rule, s: seq<Rule>)
    requires Ordered(s) && forall y :: y in s ==> !Before(y, x)
    ensures Ordered([x] + s)
  {
    assert forall j :: 0 <= j < |s| ==> s[j] in s;
  }

  lemma {:induction false} InsertIsOrdered(s: seq<Rule>, x: Rule)
    requires Ordered(s)
    ensures Ordered(Insert(s, x)) && multiset(Insert(s, x)) == multiset(s) + multiset{x}
  {
    InsertAdds(s, x);
    if s == [] {
    } else {
      OrderedTail(s);
      hide Before, Ordered;
      if Before(s[0], x) {
        InsertIsOrdered(s[1..], x);
        RankOrder(s[0], x, x);
        forall y | y in Insert(s[1..], x) ensures !Before(y, s[0]) {
          InsertedIsNewOrOld(s[1..], x, y);
        }
        OrderedCons(s[0], Insert(s[1..], x));
      } else {
        forall y | y in s ensures !Before(y, x) {
          RankOrder(x, s[0], y);
          RankOrder(s[0], s[0], s[0]);
          assert s == [s[0]] + s[1..];
        }
        OrderedCons(x, s);
      }
    }
  }

  lemma {:induction false} SortStableSorts(rules: seq<Rule>)
    ensures Ordered(SortStable(rules)) && multiset(SortStable(rules)) == multiset(rules)
  {
    if rules != [] {
      SortStableSorts(rules[1..]);
      InsertIsOrdered(SortStable(rules[1..]), rules[0]);
      assert rules == [rules[0]] + rules[1..];
    }
  }

  // ----- the best matching rule, without sorting -----

  // The matching rule no other matching rule comes before; among equals, the earliest.
  function Best(rules: seq<Rule>, st: State): Option<Rule> {
    if rules == [] then None
    else
      var b := Best(rules[1..], st);
      if Matches(rules[0], st) && (b.None? || !Before(b.value, rules[0])) then Some(rules[0]) else b
  }

  lemma {:induction false} FirstMatchOfInsert(s: seq<Rule>, x: Rule, st: State)
    requires Ordered(s)
    ensures var f := FirstMatch(s, st);
      FirstMatch(Insert(s, x), st) == if Matches(x, st) && (f.None? || !Before(f.value, x)) then Some(x) else f
  {
    hide Before, Matches;
    if s == [] {
      assert [x] + s == [x];
    } else {
      assert s == [s[0]] + s[1..];
      if Before(s[0], x) {
        assert Insert(s, x)[1..] == Insert(s[1..], x);
        FirstMatchOfInsert(s[1..], x, st);
      } else {
        assert ([x] + s)[1..] == s;
        FirstMatchIsIn(s, st);
        var f := FirstMatch(s, st);
        if f.Some? {
          var k :| 0 <= k < |s| && s[k] == f.value;
          assert k == 0 || !Before(s[k], s[0]);
          RankOrder(x, s[0], f.value);
        }
      }
    }
  }

  lemma {:induction false} FirstMatchIsIn(s: seq<Rule>, st: State)
    ensures FirstMatch(s, st).Some? ==> FirstMatch(s, st).value in s && Matches(FirstMatch(s, st).value, st)
  {
    if s != [] {
      FirstMatchIsIn(s[1..], st);
    }
  }

  // Sorting first and taking the first match, as the engine does, finds the best rule.
  lemma {:induction false} SortingFindsTheBest(rules: seq<Rule>, st: State)
    ensures FirstMatch(SortStable(rules), st) == Best(rules, st)
  {
    if rules != [] {
      SortStableSorts(rules[1..]);
      SortingFindsTheBest(rules[1..], st);
      FirstMatchOfInsert(SortStable(rules[1..]), rules[0], st);
    }
  }

  predicate Candidate(rules: seq<Rule>, st: State, r: Rule) {
    r in rules && Matches(r, st) && forall o :: o in rules && Matches(o, st) ==> !Before(o, r)
  }

  // The best rule is a matching rule of greatest priority and then least id; there is
  // none exactly when no rule matches.
  lemma {:induction false} BestIsACandidate(rules: seq<Rule>, st: State)
    ensures match Best(rules, st)
            case None => forall r :: r in rules ==> !Matches(r, st)
            case Some(b) => Candidate(rules, st, b)
  {
    hide Before, Matches;
    if rules != [] {
      BestIsACandidate(rules[1..], st);
      assert rules == [rules[0]] + rules[1..];
      var b := Best(rules[1..], st);
      RankOrder(rules[0], rules[0], rules[0]);
      if b.Some? {
        RankOrder(b.value, rules[0], rules[0]);
        if !Before(b.value, rules[0]) {
          forall o | o in rules[1..] && Matches(o, st) ensures !Before(o, rules[0]) {
            RankOrder(rules[0], b.value, o);
          }
        }
      }
    }
  }

  // ----- the engine -----

  function With(m: map<string, string>, key: string, value: string): map<string, string> {
    if value != "" then m[key := value] else m
  }

  function Evidence(r: Rule, s: State): map<string, string> {
    With(With(With(With(With(With(map["ruleKind" := KindName(r.kind)],
      "param", r.param), "plugin", s.pluginID), "runtime", s.runtimeID), "group", s.group), "tenant", s.tenant),
      "execution", s.executionID)
  }

  // A key is present exactly when there is something to say, and says it.
  predicate Says(ev: map<string, string>, key: string, value: string) {
    (key in ev <==> value != "") && (key in ev ==> ev[key] == value)
  }

  const KEYS := {"ruleKind", "param", "plugin", "runtime", "group", "tenant", "execution"}

  // The evidence of a verdict, key by key, and no other key.
  predicate Documents(ev: map<string, string>, r: Rule, s: State) {
    && ev.Keys <= KEYS
    && "ruleKind" in ev && ev["ruleKind"] == KindName(r.kind)
    && Says(ev, "param", r.param) && Says(ev, "plugin", s.pluginID) && Says(ev, "runtime", s.runtimeID)
    && Says(ev, "group", s.group) && Says(ev, "tenant", s.tenant) && Says(ev, "execution", s.executionID)
  }

  method BuildEvidence(r: Rule, s: State) returns (ev: map<string, string>)
    ensures Documents(ev, r, s)
  {
    ev := map["ruleKind" := KindName(r.kind)];
    if r.param != "" {
      ev := ev["param" := r.param];
    }
    if s.pluginID != "" {
      ev := ev["plugin" := s.pluginID];
    }
    if s.runtimeID != "" {
      ev := ev["runtime" := s.runtimeID];
    }
    if s.group != "" {
      ev := ev["group" := s.group];
    }
    if s.tenant != "" {
      ev := ev["tenant" := s.tenant];
    }
    if s.executionID != "" {
      ev := ev["execution" := s.executionID];
    }
  }

  // That leaves one map.
  lemma EvidenceIsDetermined(ev: map<string, string>, r: Rule, s: State)
    ensures Documents(ev, r, s) <==> ev == Evidence(r, s)
  {
    EvidenceDocuments(r, s);
    hide Evidence;
    if Documents(ev, r, s) {
      SameDocument(ev, Evidence(r, s), r, s);
    }
  }

  lemma EvidenceDocuments(r: Rule, s: State)
    ensures Documents(Evidence(r, s), r, s)
  {
  }

  lemma SameDocument(a: map<string, string>, b: map<string, string>, r: Rule, s: State)
    requires Documents(a, r, s) && Documents(b, r, s)
    ensures a == b
  {
    forall k ensures (k in a <==> k in b) && (k in a ==> a[k] == b[k]) {
      if k !in KEYS {
        assert k !in a.Keys && k !in b.Keys;
      }
    }
  }

  function VerdictOf(policyID: string, r: Rule, s: State): Verdict
    requires Matches(r, s)
  {
    var e := EvalRule(r, s).value;
    Verdict(e.0, e.1, policyID, r.ruleID, policyID, r.ruleID, r.priority, Evidence(r, s))
  }

  const NO_POLICY := Verdict(Allow, "empty policy", "", "", "", "", 0, map["default" := "allow", "note" := "empty-policy"])

  function NoMatch(policyID: string): Verdict {
    Verdict(Allow, "no rule matched", policyID, "", "", "", 0, map["default" := "allow"])
  }

  function Outcome(p: Policy, s: State): Verdict {
    BestIsACandidate(p.rules, s);
    if p.policyID == "" then NO_POLICY
    else
      match Best(p.rules, s)
      case None => NoMatch(p.policyID)
      case Some(r) => VerdictOf(p.policyID, r, s)
  }

  method Evaluate(p: Policy, s: State) returns (v: Verdict)
    ensures v == Outcome(p, s)
  {
    if p.policyID == "" {
      return Verdict(Allow, "empty policy", "", "", "", "", 0, map["default" := "allow", "note" := "empty-policy"]);
    }
    var rules := SortStable(p.rules);
    SortingFindsTheBest(p.rules, s);
    var k := 0;
    while k < |rules|
      invariant 0 <= k <= |rules|
      invariant FirstMatch(rules[k..], s) == Best(p.rules, s)
    {
      var e := EvalRule(rules[k], s);
      assert rules[k..][1..] == rules[k + 1..];
      if e.Some? {
        var r := rules[k];
        var ev := BuildEvidence(r, s);
        EvidenceIsDetermined(ev, r, s);
        return Verdict(e.value.0, e.value.1, p.policyID, r.ruleID, p.policyID, r.ruleID, r.priority, ev);
      }
      k := k + 1;
    }
    return Verdict(Allow, "no rule matched", p.policyID, "", "", "", 0, map["default" := "allow"]);
  }

  // ----- what a verdict means -----

  // The restriction a rule of each kind puts on a state.
  predicate Blocks(r: Rule, s: State) {
    r.kind == MaintenanceWindow && s.inMaintenanceWindow
  }

  predicate Denies(r: Rule, s: State) {
    (r.kind == ChangeFreeze && s.changeFreeze) || (r.kind == TenantScope && r.param !in {"", s.tenant})
  }

  predicate AsksApproval(r: Rule, s: State) {
    r.kind == ApprovalRequired && s.requiresApproval
  }

  predicate Allows(r: Rule, s: State) {
    r.kind == GroupAllow && r.param == s.group != ""
  }

  predicate Speaks(r: Rule, s: State) {
    Blocks(r, s) || Denies(r, s) || AsksApproval(r, s) || Allows(r, s)
  }

  // The code of a verdict is what its rule demands, and no rule of the policy that also
  // speaks to the state comes before that rule. Without such a rule the answer is Allow,
  // which a named policy gives by default exactly when none of its rules speaks.
  lemma VerdictMeans(p: Policy, s: State)
    requires p.policyID != ""
    ensures var v := Outcome(p, s);
      match Best(p.rules, s)
      case None => v == NoMatch(p.policyID) && v.code == Allow && forall r :: r in p.rules ==> !Speaks(r, s)
      case Some(r) =>
        && r in p.rules && Speaks(r, s) && v.matchedRule == r.ruleID && v.priority == r.priority
        && (v.code == MaintenanceBlocked <==> Blocks(r, s))
        && (v.code == Deny <==> Denies(r, s))
        && (v.code == RequireApproval <==> AsksApproval(r, s))
        && (v.code == Allow <==> Allows(r, s))
        && forall o :: o in p.rules && Speaks(o, s) ==> !Before(o, r)
  {
    BestIsACandidate(p.rules, s);
    hide Best, Before, Evidence;
    assert forall r :: Matches(r, s) <==> Speaks(r, s);
  }

  // ----- determinism -----

  predicate Permutation(a: seq<Rule>, b: seq<Rule>) {
    multiset(a) == multiset(b)
  }

  lemma SameMembers(a: seq<Rule>, b: seq<Rule>)
    requires Permutation(a, b)
    ensures forall r :: r in a <==> r in b
  {
    assert forall r :: r in a <==> r in multiset(a);
    assert forall r :: r in b <==> r in multiset(b);
  }

  // The candidates agree on the verdict.
  ghost predicate Unambiguous(p: Policy, s: State) {
    forall a, b :: Candidate(p.rules, s, a) && Candidate(p.rules, s, b) ==>
      VerdictOf(p.policyID, a, s) == VerdictOf(p.policyID, b, s)
  }

  // A rule put in front wins over every rule of its rank.
  lemma PutInFront(rules: seq<Rule>, st: State, r: Rule) returns (front: seq<Rule>)
    requires Candidate(rules, st, r)
    ensures Permutation(front, rules) && Best(front, st) == Some(r)
  {
    var k :| 0 <= k < |rules| && rules[k] == r;
    var rest := rules[..k] + rules[k + 1..];
    front := [r] + rest;
    assert rules == rules[..k] + [r] + rules[k + 1..];
    assert front[1..] == rest;
    BestIsACandidate(rest, st);
  }

  // The order in which a policy lists its rules never matters exactly when the rules
  // tied for best agree; distinct rule ids are enough.
  lemma OrderNeverMattersIff(p: Policy, s: State)
    requires p.policyID != ""
    ensures (forall rules :: Permutation(rules, p.rules) ==> Outcome(p.(rules := rules), s) == Outcome(p, s))
       <==> Unambiguous(p, s)
  {
    BestIsACandidate(p.rules, s);
    if Unambiguous(p, s) {
      forall rules | Permutation(rules, p.rules) ensures Outcome(p.(rules := rules), s) == Outcome(p, s) {
        SameMembers(rules, p.rules);
        BestIsACandidate(rules, s);
      }
    }
    if forall rules :: Permutation(rules, p.rules) ==> Outcome(p.(rules := rules), s) == Outcome(p, s) {
      forall a, b | Candidate(p.rules, s, a) && Candidate(p.rules, s, b)
        ensures VerdictOf(p.policyID, a, s) == VerdictOf(p.policyID, b, s)
      {
        var fa := PutInFront(p.rules, s, a);
        var fb := PutInFront(p.rules, s, b);
        assert Outcome(p.(rules := fa), s) == Outcome(p.(rules := fb), s);
      }
    }
  }

  lemma DistinctIdsAreUnambiguous(p: Policy, s: State)
    requires forall i, j :: 0 <= i < j < |p.rules| ==> p.rules[i].ruleID != p.rules[j].ruleID
    ensures Unambiguous(p, s)
  {
    forall a, b | Candidate(p.rules, s, a) && Candidate(p.rules, s, b) ensures a == b {
      RankOrder(a, b, a);
    }
  }

  // Two rules of one id and priority: the documented total order does not separate
  // them, and swapping them turns a denial into an approval request.
  lemma DuplicateIdsDependOnOrder()
    ensures var a, b := Rule("r", 1, ChangeFreeze, ""), Rule("r", 1, ApprovalRequired, "");
            var s := State("", "", "", "", "", false, true, true);
      Outcome(Policy("p", [a, b]), s).code == Deny && Outcome(Policy("p", [b, a]), s).code == RequireApproval
  {
    var a, b := Rule("r", 1, ChangeFreeze, ""), Rule("r", 1, ApprovalRequired, "");
    var s := State("", "", "", "", "", false, true, true);
    StringOrder("r", "r", "r");
    assert [a, b][1..] == [b] && [b, a][1..] == [a] && [a][1..] == [] && [b][1..] == [];
    assert Best([b], s) == Some(b) && Best([a], s) == Some(a);
  }
}
