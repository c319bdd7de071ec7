/** Reading the active configuration dictionary, key by key, as the evaluator does (`sidecar/evaluator.py`). */
module TrustConfiguration {
  import opened Wrappers
  import opened JsonValues

  const APL_VERSION := "APL/1.0"

  datatype Revocation = Revocation(id: Option<string>, kind: Option<string>)

  /** `operator` is "eq" when the key is absent. */
  datatype Condition = Condition(field: Option<string>, operator: string, expected: Json)

  /** A rule holds when all its conditions do; a rule without conditions always holds. */
  datatype Rule = Rule(conditions: seq<Condition>, effect: Json)

  datatype PolicyDoc = PolicyDoc(
    version: Option<string>,
    rules: seq<Rule>,
    allowedActions: seq<string>,
    allowedResources: seq<string>)

  datatype TrustConfig = TrustConfig(
    requirements: seq<string>,
    revocations: seq<Revocation>,
    aplPolicies: seq<PolicyDoc>,
    policies: seq<PolicyDoc>)

  function Texts(items: seq<Json>): seq<string> {
    if items == [] then []
    else (if items[0].Text? then [items[0].s] else []) + Texts(items[1..])
  }

  /** A requirement is a type name, or a dictionary with a "type"; anything falsy asks for nothing. */
  function ReadRequirement(v: Json): string {
    match (if v.Obj? then TextOf(Get(v, "type")) else TextOf(v))
    case Some(t) => t
    case None => ""
  }

  function ReadRequirements(items: seq<Json>): seq<string> {
    seq(|items|, i requires 0 <= i < |items| => ReadRequirement(items[i]))
  }

  function ReadRevocation(v: Json): Revocation {
    Revocation(TextOf(Get(v, "id")), TextOf(Get(v, "type")))
  }

  function ReadRevocations(items: seq<Json>): seq<Revocation> {
    seq(|items|, i requires 0 <= i < |items| => ReadRevocation(items[i]))
  }

  function ReadCondition(v: Json): Condition {
    var operator := GetOr(v, "operator", Text("eq"));
    Condition(TextOf(Get(v, "field")), if operator.Text? then operator.s else "", Get(v, "value"))
  }

  function ReadConditions(items: seq<Json>): seq<Condition> {
    seq(|items|, i requires 0 <= i < |items| => ReadCondition(items[i]))
  }

  /** `when = r.get("when") or r.get("conditions")`, then its "all" list, else itself when it names a field. */
  function ReadRule(v: Json): Rule {
    var when := if Truthy(Get(v, "when")) then Get(v, "when") else Get(v, "conditions");
    var conditions :=
      if !when.Obj? then []
      else if "all" in when.fields then ItemsOf(when.fields["all"])
      else if "field" in when.fields then [when]
      else [];
    Rule(ReadConditions(conditions), GetOr(v, "effect", Text("")))
  }

  function ReadRules(items: seq<Json>): seq<Rule> {
    seq(|items|, i requires 0 <= i < |items| => ReadRule(items[i]))
  }

  function ReadPolicy(v: Json): PolicyDoc {
    PolicyDoc(TextOf(Get(v, "version")), ReadRules(ItemsOf(Get(v, "rules"))),
              Texts(ItemsOf(Get(v, "allowed_actions"))), Texts(ItemsOf(Get(v, "allowed_resources"))))
  }

  /** Entries that are not dictionaries are passed over. */
  function ReadPolicies(items: seq<Json>): seq<PolicyDoc> {
    if items == [] then []
    else (if items[0].Obj? then [ReadPolicy(items[0])] else []) + ReadPolicies(items[1..])
  }

  function ReadConfig(v: Json): TrustConfig {
    TrustConfig(
      ReadRequirements(ItemsOf(Get(v, "credential_requirements"))),
      ReadRevocations(ItemsOf(Get(v, "revocations"))),
      ReadPolicies(ItemsOf(Get(v, "apl_policies"))),
      ReadPolicies(ItemsOf(Get(v, "policies"))))
  }

  /** The policies whose version is, or is not, that of APL. */
  function WithApl(policies: seq<PolicyDoc>, apl: bool): seq<PolicyDoc> {
    if policies == [] then []
    else (if (policies[0].version == Some(APL_VERSION)) == apl then [policies[0]] else [])
         + WithApl(policies[1..], apl)
  }

  lemma {:induction false} WithAplMembers(policies: seq<PolicyDoc>, apl: bool)
    ensures forall p :: p in WithApl(policies, apl)
                        <==> p in policies && (p.version == Some(APL_VERSION)) == apl
  {
    if policies != [] {
      WithAplMembers(policies[1..], apl);
      assert policies == [policies[0]] + policies[1..];
    }
  }

  /** `cfg.get("apl_policies") or [p for p in policies if p is APL]`: a non-empty list hides the embedded ones. */
  function EffectiveApl(cfg: TrustConfig): seq<PolicyDoc> {
    if cfg.aplPolicies != [] then cfg.aplPolicies else WithApl(cfg.policies, true)
  }

  function StandardPolicies(cfg: TrustConfig): seq<PolicyDoc> {
    WithApl(cfg.policies, false)
  }

  function RevokedIds(revocations: seq<Revocation>, kind: string): set<Option<string>> {
    set r | r in revocations && r.kind == Some(kind) :: r.id
  }

  predicate RevokesAgent(cfg: TrustConfig, agentId: string) {
    Some(agentId) in RevokedIds(cfg.revocations, "agent")
  }
}
