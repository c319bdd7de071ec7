/** The APL/1.0 rule loops of the evaluator (`sidecar/evaluator.py`) and what they compute. */
module AplRules {
  import opened Wrappers
  import opened Text
  import opened JsonValues
  import opened Hosting
  import opened TrustConfiguration

  /** What a rule may look at. */
  datatype Subject = Subject(action: string, resource: string, agentId: string, amount: real)

  /** A condition can hold, fail, or raise (a comparison whose operand is not a number). */
  datatype Truth = Yes | No | Raises

  /** Pass: the loops go on. Everything else ends them. */
  datatype Verdict = Pass | Deny | RequireApproval | Crash

  function InputOf(subject: Subject): map<string, Json> {
    map["amount" := Float(subject.amount)]
  }

  function ContextOf(subject: Subject): map<string, Json> {
    map[
      "agent" := Obj(map["id" := JsonValues.Text(subject.agentId)]),
      "agent.id" := JsonValues.Text(subject.agentId),
      "action" := JsonValues.Text(subject.action),
      "resource" := JsonValues.Text(subject.resource),
      "input" := Obj(InputOf(subject)),
      "input.amount" := Float(subject.amount)]
  }

  /** The value under test, with the second look into "input" for a field the context lacks. */
  function Actual(subject: Subject, field: Option<string>): Json {
    if field.None? then Null
    else
      var direct := Get(Obj(ContextOf(subject)), field.value);
      if StartsWith(field.value, "input.") && direct == Null
      then Get(Obj(InputOf(subject)), field.value[6..])
      else direct
  }

  /** The second look never finds anything the first one missed. */
  lemma SecondLookRedundant(subject: Subject, field: string)
    ensures Actual(subject, Some(field)) == Get(Obj(ContextOf(subject)), field)
  {
    if StartsWith(field, "input.") && field[6..] == "amount" {
      assert field == "input." + "amount" == "input.amount";
    }
  }

  function PyStr(host: Host, v: Json): string {
    if v.Text? then v.s else host.repr(v)
  }

  /** `float(v)`; None when Python raises. */
  function PyFloat(host: Host, v: Json): Option<real> {
    match v
    case Bool(b) => Some(if b then 1.0 else 0.0)
    case Int(i) => Some(i as real)
    case Float(r) => Some(r)
    case Text(s) => host.parseFloat(s)
    case _ => None
  }

  predicate Compares(op: string, x: real, y: real) {
    if op == "gt" then x > y
    else if op == "gte" then x >= y
    else if op == "lt" then x < y
    else x <= y
  }

  function ConditionTruth(host: Host, subject: Subject, c: Condition): Truth {
    var actual := Actual(subject, c.field);
    if c.operator == "eq" then
      if PyEqual(actual, c.expected) then Yes else No
    else if c.operator in ["gt", "gte", "lt", "lte"] then
      if actual == Null || c.expected == Null then No
      else
        var x, y := PyFloat(host, actual), PyFloat(host, c.expected);
        if x.None? || y.None? then Raises
        else if Compares(c.operator, x.value, y.value) then Yes else No
    else if c.operator == "in" then
      if c.expected.List? && exists e :: e in c.expected.items && PyEqual(actual, e) then Yes else No
    else if c.operator == "starts_with" then
      if actual != Null && StartsWith(PyStr(host, actual), PyStr(host, c.expected)) then Yes else No
    else if c.operator == "exists" then
      if actual != Null then Yes else No
    else No
  }

  /** Left to right: the first condition that is not met settles a conjunction. */
  function Conjunction(host: Host, subject: Subject, conditions: seq<Condition>): Truth {
    if conditions == [] then Yes
    else
      var t := ConditionTruth(host, subject, conditions[0]);
      if t != Yes then t else Conjunction(host, subject, conditions[1..])
  }

  lemma {:induction false} ConjunctionHoldsIff(host: Host, subject: Subject, conditions: seq<Condition>)
    ensures Conjunction(host, subject, conditions) == Yes
            <==> forall c :: c in conditions ==> ConditionTruth(host, subject, c) == Yes
  {
    if conditions != [] {
      ConjunctionHoldsIff(host, subject, conditions[1..]);
      assert conditions == [conditions[0]] + conditions[1..];
    }
  }

  function RuleVerdict(host: Host, subject: Subject, rule: Rule): Verdict {
    match Conjunction(host, subject, rule.conditions)
    case No => Pass
    case Raises => Crash
    case Yes =>
      var effect := host.upper(PyStr(host, rule.effect));
      if effect == "DENY" then Deny
      else if effect == "REQUIRE_APPROVAL" then RequireApproval
      else Pass
  }

  function AllRules(docs: seq<PolicyDoc>): seq<Rule> {
    if docs == [] then [] else docs[0].rules + AllRules(docs[1..])
  }

  /** The verdict of the first rule that does not pass. */
  function FirstVerdict(host: Host, subject: Subject, rules: seq<Rule>): Verdict {
    if rules == [] then Pass
    else
      var v := RuleVerdict(host, subject, rules[0]);
      if v != Pass then v else FirstVerdict(host, subject, rules[1..])
  }

  // ---------- the loops ----------

  /** The innermost loop: `rule_matched` starts true and the first unmet condition breaks out. */
  method MatchRule(host: Host, subject: Subject, conditions: seq<Condition>) returns (matched: Truth)
    ensures matched == Conjunction(host, subject, conditions)
  {
    matched := Yes;
    var k := 0;
    while k < |conditions| && matched == Yes
      invariant 0 <= k <= |conditions|
      invariant matched == Yes ==>
        Conjunction(host, subject, conditions) == Conjunction(host, subject, conditions[k..])
      invariant matched != Yes ==> Conjunction(host, subject, conditions) == matched
    {
      matched := ConditionTruth(host, subject, conditions[k]);
      assert conditions[k..][1..] == conditions[k + 1..];
      k := k + 1;
    }
  }

  /** The policy and rule loops; returning stands for the early returns in their bodies. */
  method RunRules(host: Host, subject: Subject, docs: seq<PolicyDoc>) returns (v: Verdict)
    ensures v == FirstVerdict(host, subject, AllRules(docs))
  {
    var i := 0;
    while i < |docs|
      invariant 0 <= i <= |docs|
      invariant FirstVerdict(host, subject, AllRules(docs)) == FirstVerdict(host, subject, AllRules(docs[i..]))
    {
      var rules := docs[i].rules;
      assert docs[i..][1..] == docs[i + 1..];
      var j := 0;
      while j < |rules|
        invariant 0 <= j <= |rules|
        invariant FirstVerdict(host, subject, AllRules(docs))
               == FirstVerdict(host, subject, rules[j..] + AllRules(docs[i + 1..]))
      {
        ghost var ahead := rules[j..] + AllRules(docs[i + 1..]);
        assert ahead[0] == rules[j] && ahead[1..] == rules[j + 1..] + AllRules(docs[i + 1..]);
        var matched := MatchRule(host, subject, rules[j].conditions);
        if matched == Raises {
          return Crash;
        }
        if matched == Yes {
          var effect := host.upper(PyStr(host, rules[j].effect));
          if effect == "DENY" {
            return Deny;
          } else if effect == "REQUIRE_APPROVAL" {
            return RequireApproval;
          }
        }
        j := j + 1;
      }
      assert rules[j..] + AllRules(docs[i + 1..]) == AllRules(docs[i + 1..]);
      i := i + 1;
    }
    v := Pass;
  }

  // ---------- what they compute ----------

  ghost predicate FirstDecisiveAt(host: Host, subject: Subject, rules: seq<Rule>, k: nat) {
    k < |rules| && RuleVerdict(host, subject, rules[k]) != Pass &&
    forall j :: 0 <= j < k ==> RuleVerdict(host, subject, rules[j]) == Pass
  }

  /** The stage falls through iff every rule passes; otherwise one rule is first and its verdict stands. */
  lemma {:induction false} FirstVerdictIsFirst(host: Host, subject: Subject, rules: seq<Rule>)
    ensures FirstVerdict(host, subject, rules) == Pass
            <==> forall r :: r in rules ==> RuleVerdict(host, subject, r) == Pass
    ensures FirstVerdict(host, subject, rules) != Pass ==>
      exists k: nat :: FirstDecisiveAt(host, subject, rules, k)
                  && RuleVerdict(host, subject, rules[k]) == FirstVerdict(host, subject, rules)
  {
    if rules != [] {
      var rest := rules[1..];
      assert rules == [rules[0]] + rest;
      FirstVerdictIsFirst(host, subject, rest);
      if RuleVerdict(host, subject, rules[0]) != Pass {
        assert FirstDecisiveAt(host, subject, rules, 0);
      } else if FirstVerdict(host, subject, rest) != Pass {
        var k: nat :| FirstDecisiveAt(host, subject, rest, k)
                 && RuleVerdict(host, subject, rest[k]) == FirstVerdict(host, subject, rest);
        assert rules[k + 1] == rest[k];
        assert FirstDecisiveAt(host, subject, rules, k + 1);
      }
    }
  }

  /** Rules that pass (not matching, or matching with an effect such as ALLOW) may be inserted anywhere. */
  lemma {:induction false} PassingRulesAreInert(host: Host, subject: Subject,
      before: seq<Rule>, inserted: seq<Rule>, after: seq<Rule>)
    requires forall r :: r in inserted ==> RuleVerdict(host, subject, r) == Pass
    ensures FirstVerdict(host, subject, before + inserted + after) == FirstVerdict(host, subject, before + after)
    decreases |before| + |inserted|
  {
    var all := before + inserted + after;
    if before != [] {
      assert all[1..] == before[1..] + inserted + after;
      assert (before + after)[1..] == before[1..] + after;
      PassingRulesAreInert(host, subject, before[1..], inserted, after);
    } else if inserted != [] {
      assert all[0] == inserted[0];
      assert all[1..] == [] + inserted[1..] + after;
      PassingRulesAreInert(host, subject, [], inserted[1..], after);
    } else {
      assert all == before + after;
    }
  }

  /** Reordering the rules may change which verdict comes first, never whether the stage falls through. */
  lemma FallThroughIgnoresOrder(host: Host, subject: Subject, a: seq<Rule>, b: seq<Rule>)
    requires multiset(a) == multiset(b)
    ensures FirstVerdict(host, subject, a) == Pass <==> FirstVerdict(host, subject, b) == Pass
  {
    FirstVerdictIsFirst(host, subject, a);
    FirstVerdictIsFirst(host, subject, b);
    assert forall r :: r in a <==> r in multiset(a);
    assert forall r :: r in b <==> r in multiset(b);
  }

  lemma {:induction false} AllRulesMembers(docs: seq<PolicyDoc>)
    ensures forall r :: r in AllRules(docs) <==> exists d :: d in docs && r in d.rules
  {
    if docs != [] {
      AllRulesMembers(docs[1..]);
      assert docs == [docs[0]] + docs[1..];
    }
  }
}
