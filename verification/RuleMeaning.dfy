/**
 * What one APL rule means, told over its JSON and the request alone: field names, operators,
 * effects, and the first rule that ends the stage (`sidecar/evaluator.py`). The reader and the
 * rule functions of the evaluator are proved to compute it.
 */
module RuleMeaning {
  import opened Wrappers
  import opened JsonValues
  import opened Hosting
  import opened TrustConfiguration
  import Apl = AplRules

  // ---------- JSON, as the evaluator may look into it ----------

  ghost predicate Has(v: Json, key: string, item: Json) {
    v.Obj? && key in v.fields && v.fields[key] == item
  }

  ghost predicate Lacks(v: Json, key: string) {
    !(v.Obj? && key in v.fields)
  }

  /** The list under a key; anything else there, or nothing, holds no items. */
  ghost function ListUnder(v: Json, key: string): seq<Json> {
    if v.Obj? && key in v.fields && v.fields[key].List? then v.fields[key].items else []
  }

  /** The values Python takes for false. */
  ghost predicate Falsy(v: Json) {
    v == Null || v == Bool(false) || v == Int(0) || v == Float(0.0) || v == Text("") || v == List([]) || v == Obj(map[])
  }

  lemma LookupsAgree(v: Json, key: string)
    ensures ItemsOf(Get(v, key)) == ListUnder(v, key)
    ensures forall t :: TextOf(Get(v, key)) == Some(t) <==> Has(v, key, Text(t))
    ensures Truthy(v) <==> !Falsy(v)
  {
  }

  // ---------- equality ----------

  predicate Numeric(v: Json) {
    v.Bool? || v.Int? || v.Float?
  }

  function Quantity(v: Json): real
    requires Numeric(v)
  {
    match v
    case Bool(b) => if b then 1.0 else 0.0
    case Int(i) => i as real
    case Float(r) => r
  }

  /** Python's `==`, part by part: numbers by value, lists and dictionaries by their contents. */
  ghost predicate Same(a: Json, b: Json) {
    if Numeric(a) && Numeric(b) then Quantity(a) == Quantity(b)
    else if a.List? && b.List? then
      |a.items| == |b.items| && forall i :: 0 <= i < |a.items| ==> Same(a.items[i], b.items[i])
    else if a.Obj? && b.Obj? then
      a.fields.Keys == b.fields.Keys && forall k :: k in a.fields ==> Same(a.fields[k], b.fields[k])
    else a == b
  }

  lemma NormalLists(a: Json, b: Json)
    requires a.List? && b.List?
    ensures PyEqual(a, b) <==>
      |a.items| == |b.items| && forall i :: 0 <= i < |a.items| ==> PyEqual(a.items[i], b.items[i])
  {
    var x, y := Normal(a), Normal(b);
    assert |x.items| == |a.items| && |y.items| == |b.items|;
    if x == y {
      forall i | 0 <= i < |a.items| ensures PyEqual(a.items[i], b.items[i]) {
        assert x.items[i] == y.items[i];
      }
    }
  }

  lemma NormalObjects(a: Json, b: Json)
    requires a.Obj? && b.Obj?
    ensures PyEqual(a, b) <==>
      a.fields.Keys == b.fields.Keys && forall k :: k in a.fields ==> PyEqual(a.fields[k], b.fields[k])
  {
    var x, y := Normal(a), Normal(b);
    assert x.fields.Keys == a.fields.Keys && y.fields.Keys == b.fields.Keys;
    if x == y {
      forall k | k in a.fields ensures PyEqual(a.fields[k], b.fields[k]) {
        assert x.fields[k] == y.fields[k];
      }
    }
  }

  /** Comparing representatives is comparing part by part, however deep the values. */
  lemma {:induction false} EqualIffSame(a: Json, b: Json)
    ensures PyEqual(a, b) <==> Same(a, b)
  {
    if a.List? && b.List? {
      NormalLists(a, b);
      if |a.items| == |b.items| {
        forall i | 0 <= i < |a.items| ensures PyEqual(a.items[i], b.items[i]) <==> Same(a.items[i], b.items[i]) {
          EqualIffSame(a.items[i], b.items[i]);
        }
      }
    } else if a.Obj? && b.Obj? {
      NormalObjects(a, b);
      if a.fields.Keys == b.fields.Keys {
        forall k | k in a.fields ensures PyEqual(a.fields[k], b.fields[k]) <==> Same(a.fields[k], b.fields[k]) {
          EqualIffSame(a.fields[k], b.fields[k]);
        }
      }
    }
  }

  // ---------- one condition ----------

  /** What a condition's field names: one of six things a rule may look at, or nothing. */
  ghost function Named(subject: Apl.Subject, condition: Json): Json {
    if Has(condition, "field", Text("action")) then Text(subject.action)
    else if Has(condition, "field", Text("resource")) then Text(subject.resource)
    else if Has(condition, "field", Text("agent.id")) then Text(subject.agentId)
    else if Has(condition, "field", Text("input.amount")) then Float(subject.amount)
    else if Has(condition, "field", Text("agent")) then Obj(map["id" := Text(subject.agentId)])
    else if Has(condition, "field", Text("input")) then Obj(map["amount" := Float(subject.amount)])
    else Null
  }

  /** The condition asks by this operator; by "eq" when it names none. */
  ghost predicate Asks(condition: Json, operator: string) {
    Has(condition, "operator", Text(operator)) || (operator == "eq" && Lacks(condition, "operator"))
  }

  ghost function Against(condition: Json): Json {
    if condition.Obj? && "value" in condition.fields then condition.fields["value"] else Null
  }

  /** What `float` makes of a value. */
  ghost predicate ReadsAs(host: Host, v: Json, x: real) {
    (Numeric(v) && x == Quantity(v)) || (v.Text? && host.parseFloat(v.s) == Some(x))
  }

  ghost function Shown(host: Host, v: Json): string {
    if v.Text? then v.s else host.repr(v)
  }

  predicate IsOrder(operator: string) {
    operator == "gt" || operator == "gte" || operator == "lt" || operator == "lte"
  }

  predicate InOrder(operator: string, x: real, y: real) {
    (operator == "gt" && x > y) || (operator == "gte" && x >= y) || (operator == "lt" && x < y) || (operator == "lte" && x <= y)
  }

  ghost predicate HoldsBy(host: Host, operator: string, actual: Json, expected: Json) {
    (operator == "eq" && Same(actual, expected)) ||
    (exists x, y :: ReadsAs(host, actual, x) && ReadsAs(host, expected, y) && InOrder(operator, x, y)) ||
    (operator == "in" && expected.List? && exists v :: v in expected.items && Same(actual, v)) ||
    (operator == "starts_with" && actual != Null && Shown(host, expected) <= Shown(host, actual)) ||
    (operator == "exists" && actual != Null)
  }

  ghost predicate RaisesBy(host: Host, operator: string, actual: Json, expected: Json) {
    IsOrder(operator) && actual != Null && expected != Null &&
    !exists x, y :: ReadsAs(host, actual, x) && ReadsAs(host, expected, y)
  }

  ghost predicate Holds(host: Host, subject: Apl.Subject, condition: Json) {
    exists operator :: Asks(condition, operator) && HoldsBy(host, operator, Named(subject, condition), Against(condition))
  }

  ghost predicate Raises(host: Host, subject: Apl.Subject, condition: Json) {
    exists operator :: Asks(condition, operator) && RaisesBy(host, operator, Named(subject, condition), Against(condition))
  }

  lemma ContextNames(subject: Apl.Subject, f: string)
    ensures Get(Obj(Apl.ContextOf(subject)), f) ==
      if f == "action" then Text(subject.action)
      else if f == "resource" then Text(subject.resource)
      else if f == "agent.id" then Text(subject.agentId)
      else if f == "input.amount" then Float(subject.amount)
      else if f == "agent" then Obj(map["id" := Text(subject.agentId)])
      else if f == "input" then Obj(map["amount" := Float(subject.amount)])
      else Null
  {
  }

  lemma ActualIsNamed(subject: Apl.Subject, condition: Json)
    ensures Apl.Actual(subject, ReadCondition(condition).field) == Named(subject, condition)
  {
    var field := ReadCondition(condition).field;
    if field.Some? {
      Apl.SecondLookRedundant(subject, field.value);
      ContextNames(subject, field.value);
    }
  }

  lemma NumbersAgree(host: Host, v: Json)
    ensures forall x :: ReadsAs(host, v, x) <==> Apl.PyFloat(host, v) == Some(x)
  {
  }

  lemma OrderTruth(host: Host, subject: Apl.Subject, c: Condition)
    requires IsOrder(c.operator)
    ensures var a := Apl.Actual(subject, c.field);
      (Apl.ConditionTruth(host, subject, c) == Apl.Yes <==> HoldsBy(host, c.operator, a, c.expected)) &&
      (Apl.ConditionTruth(host, subject, c) == Apl.Raises <==> RaisesBy(host, c.operator, a, c.expected))
  {
    var a := Apl.Actual(subject, c.field);
    NumbersAgree(host, a);
    NumbersAgree(host, c.expected);
  }

  lemma OtherTruth(host: Host, subject: Apl.Subject, c: Condition)
    requires !IsOrder(c.operator)
    ensures var a := Apl.Actual(subject, c.field);
      (Apl.ConditionTruth(host, subject, c) == Apl.Yes <==> HoldsBy(host, c.operator, a, c.expected)) &&
      Apl.ConditionTruth(host, subject, c) != Apl.Raises
  {
    var a := Apl.Actual(subject, c.field);
    EqualIffSame(a, c.expected);
    if c.expected.List? {
      forall v | v in c.expected.items ensures PyEqual(a, v) <==> Same(a, v) {
        EqualIffSame(a, v);
      }
    }
  }

  lemma OperatorIsAsked(condition: Json)
    ensures forall operator :: Asks(condition, operator) ==> ReadCondition(condition).operator == operator
    ensures Asks(condition, ReadCondition(condition).operator) || ReadCondition(condition).operator == ""
  {
  }

  /** A condition holds, or raises, exactly as its own field, operator and value say. */
  lemma ConditionMeaning(host: Host, subject: Apl.Subject, condition: Json)
    ensures Apl.ConditionTruth(host, subject, ReadCondition(condition)) == Apl.Yes <==> Holds(host, subject, condition)
    ensures Apl.ConditionTruth(host, subject, ReadCondition(condition)) == Apl.Raises <==> Raises(host, subject, condition)
  {
    var c := ReadCondition(condition);
    ActualIsNamed(subject, condition);
    OperatorIsAsked(condition);
    if IsOrder(c.operator) {
      OrderTruth(host, subject, c);
    } else {
      OtherTruth(host, subject, c);
    }
    assert c.expected == Against(condition);
  }

  // ---------- one rule ----------

  /** "when", unless it is falsy, in which case "conditions". */
  ghost function Clause(rule: Json): Json {
    if rule.Obj? && "when" in rule.fields && !Falsy(rule.fields["when"]) then rule.fields["when"]
    else if rule.Obj? && "conditions" in rule.fields then rule.fields["conditions"]
    else Null
  }

  /** The conditions under "all"; without that key, the clause itself if it names a field. */
  ghost function Conditions(rule: Json): seq<Json> {
    var clause := Clause(rule);
    if !Lacks(clause, "all") then ListUnder(clause, "all")
    else if !Lacks(clause, "field") then [clause]
    else []
  }

  ghost predicate AllHold(host: Host, subject: Apl.Subject, conditions: seq<Json>) {
    forall k :: 0 <= k < |conditions| ==> Holds(host, subject, conditions[k])
  }

  /** One condition raises and every one before it holds. */
  ghost predicate OneRaises(host: Host, subject: Apl.Subject, conditions: seq<Json>) {
    exists k :: RaisesAt(host, subject, conditions, k)
  }

  ghost predicate RaisesAt(host: Host, subject: Apl.Subject, conditions: seq<Json>, k: int) {
    0 <= k < |conditions| && Raises(host, subject, conditions[k]) && AllHold(host, subject, conditions[..k])
  }

  ghost predicate HasEffect(host: Host, rule: Json, effect: string) {
    host.upper(if Lacks(rule, "effect") then "" else Shown(host, rule.fields["effect"])) == effect
  }

  /** The rule ends the stage, and how. */
  ghost predicate Ends(host: Host, subject: Apl.Subject, rule: Json, how: Apl.Verdict) {
    match how
    case Pass => false
    case Crash => OneRaises(host, subject, Conditions(rule))
    case Deny => AllHold(host, subject, Conditions(rule)) && HasEffect(host, rule, "DENY")
    case RequireApproval => AllHold(host, subject, Conditions(rule)) && HasEffect(host, rule, "REQUIRE_APPROVAL")
  }

  lemma ConditionsAreRead(rule: Json)
    ensures ReadRule(rule).conditions == ReadConditions(Conditions(rule))
  {
    LookupsAgree(Get(rule, "when"), "all");
  }

  lemma {:induction false} ConjunctionMeaning(host: Host, subject: Apl.Subject, conditions: seq<Json>)
    ensures Apl.Conjunction(host, subject, ReadConditions(conditions)) == Apl.Yes <==> AllHold(host, subject, conditions)
    ensures Apl.Conjunction(host, subject, ReadConditions(conditions)) == Apl.Raises <==> OneRaises(host, subject, conditions)
  {
    if conditions != [] {
      var first, rest := conditions[0], conditions[1..];
      ConditionMeaning(host, subject, first);
      ConjunctionMeaning(host, subject, rest);
      assert ReadConditions(conditions)[1..] == ReadConditions(rest);
      AllHoldSplits(host, subject, conditions);
      OneRaisesSplits(host, subject, conditions);
    }
  }

  lemma AllHoldSplits(host: Host, subject: Apl.Subject, conditions: seq<Json>)
    requires conditions != []
    ensures AllHold(host, subject, conditions) <==>
      Holds(host, subject, conditions[0]) && AllHold(host, subject, conditions[1..])
  {
    assert forall k :: 1 <= k < |conditions| ==> conditions[k] == conditions[1..][k - 1];
  }

  lemma RaisesAtShifts(host: Host, subject: Apl.Subject, conditions: seq<Json>, k: nat)
    requires conditions != []
    ensures RaisesAt(host, subject, conditions, k + 1) <==>
      Holds(host, subject, conditions[0]) && RaisesAt(host, subject, conditions[1..], k)
  {
    if k < |conditions| - 1 {
      var before := conditions[..k + 1];
      assert before[0] == conditions[0] && before[1..] == conditions[1..][..k];
      AllHoldSplits(host, subject, before);
    }
  }

  lemma OneRaisesSplits(host: Host, subject: Apl.Subject, conditions: seq<Json>)
    requires conditions != []
    ensures OneRaises(host, subject, conditions) <==>
      Raises(host, subject, conditions[0]) ||
      (Holds(host, subject, conditions[0]) && OneRaises(host, subject, conditions[1..]))
  {
    if Raises(host, subject, conditions[0]) {
      assert RaisesAt(host, subject, conditions, 0);
    }
    if Holds(host, subject, conditions[0]) && OneRaises(host, subject, conditions[1..]) {
      var k :| RaisesAt(host, subject, conditions[1..], k);
      RaisesAtShifts(host, subject, conditions, k);
    }
    if OneRaises(host, subject, conditions) && !Raises(host, subject, conditions[0]) {
      var k :| RaisesAt(host, subject, conditions, k);
      RaisesAtShifts(host, subject, conditions, k - 1);
    }
  }

  /** A rule ends the stage exactly as its own clause and effect say. */
  lemma VerdictMeaning(host: Host, subject: Apl.Subject, rule: Json, how: Apl.Verdict)
    requires how != Apl.Pass
    ensures Apl.RuleVerdict(host, subject, ReadRule(rule)) == how <==> Ends(host, subject, rule, how)
  {
    ConditionsAreRead(rule);
    ConjunctionMeaning(host, subject, Conditions(rule));
    assert Apl.PyStr(host, ReadRule(rule).effect) == if Lacks(rule, "effect") then "" else Shown(host, rule.fields["effect"]);
  }
}
