/**
 * The outcome of a call, told over the configuration's JSON, the request and the state alone: no
 * stages, no reading step, no rule functions (`sidecar/evaluator.py`).
 */
module ConfiguredOutcomes {
  import opened Wrappers
  import opened JsonValues
  import opened Hosting
  import opened SidecarRuntime
  import opened TrustConfiguration
  import opened WildcardPatterns
  import opened Evaluator
  import opened EvaluatorProperties
  import opened RuleMeaning
  import Text
  import Apl = AplRules

  // ---------- the rules that run, and the first that ends the stage ----------

  ghost predicate IsApl(policy: Json) {
    Has(policy, "version", Text("APL/1.0"))
  }

  /** The rules of these policies in order; of the APL ones only, or of all. */
  ghost function RulesOf(policies: seq<Json>, aplOnly: bool): seq<Json> {
    if policies == [] then []
    else
      (if policies[0].Obj? && (aplOnly ==> IsApl(policies[0])) then ListUnder(policies[0], "rules") else [])
      + RulesOf(policies[1..], aplOnly)
  }

  /** Those under "apl_policies" if there are any policies there, otherwise the APL ones among "policies". */
  ghost function RulesInForce(config: Json): seq<Json> {
    if exists p :: p in ListUnder(config, "apl_policies") && p.Obj? then RulesOf(ListUnder(config, "apl_policies"), false)
    else RulesOf(ListUnder(config, "policies"), true)
  }

  /** Of the rules that end the stage the first ends it so. */
  ghost predicate FirstEnds(host: Host, subject: Apl.Subject, rules: seq<Json>, how: Apl.Verdict) {
    exists k :: EndsAt(host, subject, rules, how, k)
  }

  ghost predicate EndsAt(host: Host, subject: Apl.Subject, rules: seq<Json>, how: Apl.Verdict, k: int) {
    0 <= k < |rules| && Ends(host, subject, rules[k], how) && NoneEnds(host, subject, rules[..k])
  }

  ghost predicate NoneEnds(host: Host, subject: Apl.Subject, rules: seq<Json>) {
    forall m :: 0 <= m < |rules| ==> Silent(host, subject, rules[m])
  }

  ghost predicate Silent(host: Host, subject: Apl.Subject, rule: Json) {
    forall how :: !Ends(host, subject, rule, how)
  }

  lemma SilentMeansPass(host: Host, subject: Apl.Subject, rule: Json)
    ensures Silent(host, subject, rule) <==> Apl.RuleVerdict(host, subject, ReadRule(rule)) == Apl.Pass
  {
    var v := Apl.RuleVerdict(host, subject, ReadRule(rule));
    if v == Apl.Pass {
      forall how | how != Apl.Pass ensures !Ends(host, subject, rule, how) {
        VerdictMeaning(host, subject, rule, how);
      }
    } else {
      VerdictMeaning(host, subject, rule, v);
    }
  }

  lemma NoneEndsSplits(host: Host, subject: Apl.Subject, rules: seq<Json>)
    requires rules != []
    ensures NoneEnds(host, subject, rules) <==> Silent(host, subject, rules[0]) && NoneEnds(host, subject, rules[1..])
  {
    assert forall m :: 1 <= m < |rules| ==> rules[m] == rules[1..][m - 1];
  }

  lemma EndsAtShifts(host: Host, subject: Apl.Subject, rules: seq<Json>, how: Apl.Verdict, k: nat)
    requires rules != [] && Silent(host, subject, rules[0])
    ensures EndsAt(host, subject, rules, how, k + 1) <==> EndsAt(host, subject, rules[1..], how, k)
  {
    if k < |rules| - 1 {
      var before := rules[..k + 1];
      assert before[0] == rules[0] && before[1..] == rules[1..][..k];
      NoneEndsSplits(host, subject, before);
    }
  }

  lemma FirstEndsLater(host: Host, subject: Apl.Subject, rules: seq<Json>, how: Apl.Verdict)
    requires rules != [] && Silent(host, subject, rules[0])
    ensures FirstEnds(host, subject, rules, how) <==> FirstEnds(host, subject, rules[1..], how)
  {
    if FirstEnds(host, subject, rules[1..], how) {
      var k :| EndsAt(host, subject, rules[1..], how, k);
      EndsAtShifts(host, subject, rules, how, k);
    }
    if FirstEnds(host, subject, rules, how) {
      var k :| EndsAt(host, subject, rules, how, k);
      assert k > 0;
      EndsAtShifts(host, subject, rules, how, k - 1);
    }
  }

  lemma FirstEndsNow(host: Host, subject: Apl.Subject, rules: seq<Json>, how: Apl.Verdict)
    requires rules != [] && !Silent(host, subject, rules[0])
    ensures FirstEnds(host, subject, rules, how) <==> Ends(host, subject, rules[0], how)
  {
    if Ends(host, subject, rules[0], how) {
      assert EndsAt(host, subject, rules, how, 0);
    }
    if FirstEnds(host, subject, rules, how) {
      var k :| EndsAt(host, subject, rules, how, k);
      if k > 0 {
        SilentBefore(host, subject, rules, how, k);
        assert false;
      }
    }
  }

  lemma SilentBefore(host: Host, subject: Apl.Subject, rules: seq<Json>, how: Apl.Verdict, k: nat)
    requires k > 0 && EndsAt(host, subject, rules, how, k)
    ensures Silent(host, subject, rules[0])
  {
    assert rules[..k][0] == rules[0];
  }

  lemma {:induction false} FirstRuleMeaning(host: Host, subject: Apl.Subject, rules: seq<Json>, how: Apl.Verdict)
    requires how != Apl.Pass
    ensures Apl.FirstVerdict(host, subject, ReadRules(rules)) == how <==> FirstEnds(host, subject, rules, how)
  {
    if rules != [] {
      assert ReadRules(rules)[0] == ReadRule(rules[0]) && ReadRules(rules)[1..] == ReadRules(rules[1..]);
      FirstRuleMeaning(host, subject, rules[1..], how);
      VerdictMeaning(host, subject, rules[0], how);
      SilentMeansPass(host, subject, rules[0]);
      if Silent(host, subject, rules[0]) {
        FirstEndsLater(host, subject, rules, how);
      } else {
        FirstEndsNow(host, subject, rules, how);
      }
    }
  }

  lemma ReadRulesConcat(a: seq<Json>, b: seq<Json>)
    ensures ReadRules(a + b) == ReadRules(a) + ReadRules(b)
  {
  }

  lemma RulesOfPolicy(policy: Json)
    ensures ReadPolicy(policy).rules == ReadRules(ListUnder(policy, "rules"))
    ensures ReadPolicy(policy).version == Some(APL_VERSION) <==> IsApl(policy)
  {
    LookupsAgree(policy, "rules");
    LookupsAgree(policy, "version");
  }

  lemma {:induction false} RulesAreRead(policies: seq<Json>, aplOnly: bool)
    ensures var docs := ReadPolicies(policies);
      Apl.AllRules(if aplOnly then WithApl(docs, true) else docs) == ReadRules(RulesOf(policies, aplOnly))
  {
    if policies != [] {
      var first, rest := policies[0], policies[1..];
      RulesAreRead(rest, aplOnly);
      RulesOfPolicy(first);
      var docs := ReadPolicies(policies);
      if first.Obj? {
        assert docs[0] == ReadPolicy(first) && docs[1..] == ReadPolicies(rest);
        if !aplOnly || IsApl(first) {
          var chosen := if aplOnly then WithApl(docs, true) else docs;
          assert chosen[0] == ReadPolicy(first);
          assert chosen[1..] == if aplOnly then WithApl(ReadPolicies(rest), true) else ReadPolicies(rest);
          ReadRulesConcat(ListUnder(first, "rules"), RulesOf(rest, aplOnly));
        } else {
          assert WithApl(docs, true) == WithApl(docs[1..], true);
          assert RulesOf(policies, aplOnly) == RulesOf(rest, aplOnly);
        }
      } else {
        assert docs == ReadPolicies(rest);
        assert RulesOf(policies, aplOnly) == RulesOf(rest, aplOnly);
      }
    }
  }

  lemma {:induction false} PoliciesRead(policies: seq<Json>)
    ensures ReadPolicies(policies) == [] <==> !exists p :: p in policies && p.Obj?
    ensures forall d :: d in ReadPolicies(policies) <==> exists p :: p in policies && p.Obj? && ReadPolicy(p) == d
  {
    if policies != [] {
      PoliciesRead(policies[1..]);
      assert policies == [policies[0]] + policies[1..];
    }
  }

  lemma RulesInForceAreRead(config: Json)
    ensures Apl.AllRules(EffectiveApl(ReadConfig(config))) == ReadRules(RulesInForce(config))
  {
    LookupsAgree(config, "apl_policies");
    LookupsAgree(config, "policies");
    PoliciesRead(ListUnder(config, "apl_policies"));
    RulesAreRead(ListUnder(config, "apl_policies"), false);
    RulesAreRead(ListUnder(config, "policies"), true);
  }

  // ---------- requirements and revocations ----------

  /** An entry of "credential_requirements" that asks for credentials of type `t`. */
  ghost predicate Requires(entry: Json, t: string) {
    t != "" && (entry == Text(t) || Has(entry, "type", Text(t)))
  }

  ghost predicate SomeRequirementUnmet(config: Json, request: Request) {
    exists entry, t :: entry in ListUnder(config, "credential_requirements") && Requires(entry, t) &&
      forall c :: c in request.credentials ==> c.credentialType != Some(t)
  }

  ghost predicate Revokes(entry: Json, kind: string, id: string) {
    Has(entry, "type", Text(kind)) && Has(entry, "id", Text(id))
  }

  ghost predicate SomeCredentialRevoked(config: Json, request: Request) {
    exists entry, c :: entry in ListUnder(config, "revocations") && c in request.credentials &&
      c.credentialId.Some? && c.credentialId.value != "" && Revokes(entry, "credential", c.credentialId.value)
  }

  ghost predicate AgentRevoked(config: Json, request: Request) {
    exists entry :: entry in ListUnder(config, "revocations") && Revokes(entry, "agent", request.agentId)
  }

  lemma RequirementIsRead(entry: Json, t: string)
    requires t != ""
    ensures ReadRequirement(entry) == t <==> Requires(entry, t)
  {
    LookupsAgree(entry, "type");
  }

  lemma RequirementsAreRead(config: Json, request: Request)
    ensures MissesRequirement(ReadConfig(config), request) <==> SomeRequirementUnmet(config, request)
  {
    LookupsAgree(config, "credential_requirements");
    var entries, read := ListUnder(config, "credential_requirements"), ReadConfig(config).requirements;
    if MissesRequirement(ReadConfig(config), request) {
      var t :| t in read && t != "" && !Presents(request.credentials, t);
      var i :| 0 <= i < |read| && read[i] == t;
      RequirementIsRead(entries[i], t);
      assert entries[i] in entries && Requires(entries[i], t);
    }
    if SomeRequirementUnmet(config, request) {
      var entry, t :| entry in entries && Requires(entry, t) &&
        forall c :: c in request.credentials ==> c.credentialType != Some(t);
      var i :| 0 <= i < |entries| && entries[i] == entry;
      RequirementIsRead(entry, t);
      assert read[i] == t && t in read;
    }
  }

  lemma RevocationIsRead(entry: Json, kind: string, id: string)
    ensures ReadRevocation(entry) == Revocation(Some(id), Some(kind)) <==> Revokes(entry, kind, id)
  {
    LookupsAgree(entry, "type");
    LookupsAgree(entry, "id");
  }

  lemma RevokedIdsAreRead(config: Json, kind: string, id: string)
    ensures Some(id) in RevokedIds(ReadConfig(config).revocations, kind)
      <==> exists entry :: entry in ListUnder(config, "revocations") && Revokes(entry, kind, id)
  {
    LookupsAgree(config, "revocations");
    var entries, read := ListUnder(config, "revocations"), ReadConfig(config).revocations;
    if Some(id) in RevokedIds(read, kind) {
      var r :| r in read && r.kind == Some(kind) && r.id == Some(id);
      var i :| 0 <= i < |read| && read[i] == r;
      RevocationIsRead(entries[i], kind, id);
      assert entries[i] in entries && Revokes(entries[i], kind, id);
    }
    if exists entry :: entry in entries && Revokes(entry, kind, id) {
      var entry :| entry in entries && Revokes(entry, kind, id);
      var i :| 0 <= i < |entries| && entries[i] == entry;
      RevocationIsRead(entry, kind, id);
      assert read[i] in read;
    }
  }

  lemma RevocationsAreRead(config: Json, request: Request)
    ensures PresentsRevoked(ReadConfig(config), request) <==> SomeCredentialRevoked(config, request)
    ensures RevokesAgent(ReadConfig(config), request.agentId) <==> AgentRevoked(config, request)
  {
    RevokedIdsAreRead(config, "agent", request.agentId);
    forall c | c in request.credentials && c.credentialId.Some?
      ensures c.credentialId in RevokedIds(ReadConfig(config).revocations, "credential")
        <==> exists entry :: entry in ListUnder(config, "revocations") && Revokes(entry, "credential", c.credentialId.value)
    {
      RevokedIdsAreRead(config, "credential", c.credentialId.value);
    }
  }

  // ---------- standard policies ----------

  ghost predicate IsStandard(policy: Json) {
    policy.Obj? && !IsApl(policy)
  }

  /** Some allowed action and some allowed resource, without their stars, begin what is asked for. */
  ghost predicate Permits(policy: Json, request: Request) {
    exists a, s ::
      Text(a) in ListUnder(policy, "allowed_actions") && DeleteStars(a) <= request.action &&
      Text(s) in ListUnder(policy, "allowed_resources") && DeleteStars(s) <= request.resource
  }

  ghost predicate Permitted(config: Json, request: Request) {
    (forall p :: p in ListUnder(config, "policies") ==> !IsStandard(p)) ||
    exists p :: p in ListUnder(config, "policies") && IsStandard(p) && Permits(p, request)
  }

  lemma {:induction false} TextsMembers(items: seq<Json>)
    ensures forall t :: t in Texts(items) <==> Text(t) in items
  {
    if items != [] {
      TextsMembers(items[1..]);
      assert items == [items[0]] + items[1..];
    }
  }

  lemma PermitsIsRead(policy: Json, request: Request)
    ensures PolicyAllows(ReadPolicy(policy), request.action, request.resource) <==> Permits(policy, request)
  {
    var doc := ReadPolicy(policy);
    LookupsAgree(policy, "allowed_actions");
    LookupsAgree(policy, "allowed_resources");
    TextsMembers(ListUnder(policy, "allowed_actions"));
    TextsMembers(ListUnder(policy, "allowed_resources"));
    StarTestRedundant(request.action, doc.allowedActions);
    StarTestRedundant(request.resource, doc.allowedResources);
  }

  lemma StandardPoliciesAreRead(config: Json, request: Request)
    ensures StandardAllows(StandardPolicies(ReadConfig(config)), request.action, request.resource)
      <==> Permitted(config, request)
  {
    LookupsAgree(config, "policies");
    var entries, chosen := ListUnder(config, "policies"), StandardPolicies(ReadConfig(config));
    PoliciesRead(entries);
    WithAplMembers(ReadPolicies(entries), false);
    forall p | p in entries && p.Obj?
      ensures ReadPolicy(p) in chosen <==> IsStandard(p)
      ensures PolicyAllows(ReadPolicy(p), request.action, request.resource) <==> Permits(p, request)
    {
      RulesOfPolicy(p);
      PermitsIsRead(p, request);
      assert ReadPolicy(p) in ReadPolicies(entries);
    }
    assert chosen != [] ==> chosen[0] in chosen;
  }

  // ---------- the outcome ----------

  ghost predicate Escalates(action: string) {
    exists stem :: action == stem + ".admin" || action == stem + ".delete"
  }

  ghost predicate IsOffline(c: Call) {
    c.request.forceOffline || !c.state.reachable
  }

  ghost predicate RulesEnd(c: Call, how: Apl.Verdict) {
    FirstEnds(c.host, Apl.Subject(c.request.action, c.request.resource, c.request.agentId, c.request.amount),
              RulesInForce(c.state.activeConfig), how)
  }

  /** What each code says of a call. */
  ghost predicate Says(code: Code, c: Call) {
    var r, config := c.request, c.state.activeConfig;
    match code
    case NonceNotAscii => exists i :: 0 <= i < |r.nonce| && r.nonce[i] as int >= 128
    case ReplayAttackDetected =>
      r.nonce != "" && c.host.sha256(r.nonce) in c.state.nonces && c.state.nonces[c.host.sha256(r.nonce)] > c.mono
    case ConfigExpired => c.state.expiresAt.None? || c.state.expiresAt.value < c.now
    case OfflineFailClosed => IsOffline(c) && c.offlinePolicy == "FAIL_CLOSED"
    case OfflineHighRiskBlocked => IsOffline(c) && c.offlinePolicy == "LIMITED_OFFLINE" && r.amount > 5000.0
    case OfflineAdminBlocked => IsOffline(c) && c.offlinePolicy == "LIMITED_OFFLINE" && Escalates(r.action)
    case InvalidOfflinePolicy => IsOffline(c) && c.offlinePolicy != "FAIL_CLOSED" && c.offlinePolicy != "LIMITED_OFFLINE"
    case RequiredCredentialMissing => SomeRequirementUnmet(config, r)
    case CredentialRevoked => SomeCredentialRevoked(config, r)
    case AgentSuspended => AgentRevoked(config, r)
    case HighValueTransaction => r.amount > 5000.0
    case HighRiskCapability => Escalates(r.action)
    case RuleError => RulesEnd(c, Apl.Crash)
    case AplPolicyDeny => RulesEnd(c, Apl.Deny)
    case AplPolicyRequireApproval => RulesEnd(c, Apl.RequireApproval)
    case PermissionDenied => !Permitted(config, r)
    case Authorized => true
  }

  /** The codes in the order in which they are considered. */
  const CASCADE := [
    NonceNotAscii, ReplayAttackDetected, ConfigExpired,
    OfflineFailClosed, OfflineHighRiskBlocked, OfflineAdminBlocked, InvalidOfflinePolicy,
    RequiredCredentialMissing, CredentialRevoked, AgentSuspended, HighValueTransaction, HighRiskCapability,
    RuleError, AplPolicyDeny, AplPolicyRequireApproval, PermissionDenied, Authorized]

  lemma EscalatesIffAdministrative(action: string)
    ensures Administrative(action) <==> Escalates(action)
  {
    if Administrative(action) {
      var n := |action| - (if Text.EndsWith(action, ".admin") then 6 else 7);
      assert action == action[..n] + action[n..];
    }
  }

  lemma RulesAreReadInCall(c: Call, how: Apl.Verdict)
    requires how != Apl.Pass
    ensures c.RuleVerdict() == how <==> RulesEnd(c, how)
  {
    RulesInForceAreRead(c.state.activeConfig);
    FirstRuleMeaning(c.host, c.Subject(), RulesInForce(c.state.activeConfig), how);
  }

  lemma EarlyCodesSay(c: Call, code: Code)
    requires Rank(code) <= 6
    ensures Says(code, c) <==> Applies(code, FindingsOf(c))
  {
    EscalatesIffAdministrative(c.request.action);
  }

  lemma TrustCodesSay(c: Call, code: Code)
    requires 7 <= Rank(code) <= 11
    ensures Says(code, c) <==> Applies(code, FindingsOf(c))
  {
    EscalatesIffAdministrative(c.request.action);
    RequirementsAreRead(c.state.activeConfig, c.request);
    RevocationsAreRead(c.state.activeConfig, c.request);
  }

  lemma PolicyCodesSay(c: Call, code: Code)
    requires 12 <= Rank(code)
    ensures Says(code, c) <==> Applies(code, FindingsOf(c))
  {
    RulesAreReadInCall(c, Apl.Crash);
    RulesAreReadInCall(c, Apl.Deny);
    RulesAreReadInCall(c, Apl.RequireApproval);
    StandardPoliciesAreRead(c.state.activeConfig, c.request);
  }

  lemma CodesSay(c: Call, code: Code)
    ensures Says(code, c) <==> Applies(code, FindingsOf(c))
  {
    if Rank(code) <= 6 {
      EarlyCodesSay(c, code);
    } else if Rank(code) <= 11 {
      TrustCodesSay(c, code);
    } else {
      PolicyCodesSay(c, code);
    }
  }

  /** Every code has its place. */
  lemma CascadeRanks(code: Code)
    ensures Rank(code) < |CASCADE| == 17 && CASCADE[Rank(code)] == code
    ensures forall k :: 0 <= k < 17 ==> Rank(CASCADE[k]) == k
  {
  }

  /**
   * The outcome of every call, from the JSON of its configuration: the first code of the cascade
   * that says something true of the call. In particular a rule's effect, an operator, a
   * requirement given as text or as an object, a revocation or an allowed resource counts for
   * exactly what it says.
   */
  lemma OutcomeIffFirstSaid(c: Call, k: nat)
    requires k < |CASCADE|
    ensures Decide(c) == CASCADE[k] <==>
      Says(CASCADE[k], c) && forall i :: 0 <= i < k ==> !Says(CASCADE[i], c)
  {
    CascadeRanks(CASCADE[k]);
    ChosenIffFirst(FindingsOf(c), CASCADE[k]);
    forall code: Code ensures Says(code, c) <==> Applies(code, FindingsOf(c)) {
      CodesSay(c, code);
    }
    forall d: Code ensures Rank(d) < 17 && CASCADE[Rank(d)] == d {
      CascadeRanks(d);
    }
  }

  /** What a code makes of a call: approval, rejection, escalation, or an exception. */
  lemma DecisionsOfCodes(code: Code)
    ensures DecisionOf(code) == LocalApproved <==> code == Authorized
    ensures DecisionOf(code) == CentralCheckRequired <==> code == OfflineHighRiskBlocked || code == OfflineAdminBlocked
    ensures DecisionOf(code) == PendingHumanApproval <==>
      code == HighValueTransaction || code == HighRiskCapability || code == AplPolicyRequireApproval
    ensures DecisionOf(code) in {LocalApproved, CentralCheckRequired, PendingHumanApproval, Rejected}
    ensures RaisesException(code) <==> code == NonceNotAscii || code == RuleError
  {
  }
}
