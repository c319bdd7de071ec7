/** What the local evaluator guarantees about one call, or about two calls that differ in one respect. */
module EvaluatorProperties {
  import opened Wrappers
  import opened Text
  import opened JsonValues
  import opened SidecarRuntime
  import opened TrustConfiguration
  import opened WildcardPatterns
  import opened Evaluator
  import Apl = AplRules

  // ---------- exactly when a call is approved ----------

  ghost predicate NotAReplay(c: Call) {
    IsAscii(c.request.nonce) &&
    (c.request.nonce != "" ==>
      var h := c.host.sha256(c.request.nonce);
      h in c.state.nonces ==> c.state.nonces[h] <= c.mono)
  }

  ghost predicate Unexpired(c: Call) {
    c.state.expiresAt.Some? && c.now <= c.state.expiresAt.value
  }

  ghost predicate OfflinePermits(c: Call) {
    (c.request.forceOffline || !c.state.reachable) ==> c.offlinePolicy == "LIMITED_OFFLINE"
  }

  ghost predicate LowRisk(r: Request) {
    r.amount <= 5000.0 && !EndsWith(r.action, ".admin") && !EndsWith(r.action, ".delete")
  }

  ghost predicate RequirementsPresented(cfg: TrustConfig, r: Request) {
    forall t :: t in cfg.requirements && t != "" ==>
      exists c :: c in r.credentials && c.credentialType == Some(t)
  }

  ghost predicate NothingRevoked(cfg: TrustConfig, r: Request) {
    forall v :: v in cfg.revocations ==>
      !(v.kind == Some("agent") && v.id == Some(r.agentId)) &&
      forall c :: c in r.credentials && v.kind == Some("credential") && v.id == c.credentialId ==> !IsSet(c.credentialId)
  }

  ghost predicate NoDecisiveRule(c: Call) {
    forall d, r :: d in EffectiveApl(c.Config()) && r in d.rules ==>
      Apl.RuleVerdict(c.host, c.Subject(), r) == Apl.Pass
  }

  ghost predicate StandardPolicyPermits(cfg: TrustConfig, r: Request) {
    (forall p :: p in cfg.policies ==> p.version == Some(APL_VERSION)) ||
    exists p, a, s ::
      p in cfg.policies && p.version != Some(APL_VERSION) && a in p.allowedActions && s in p.allowedResources
      && StartsWith(r.action, DeleteStars(a)) && StartsWith(r.resource, DeleteStars(s))
  }

  lemma RevokedFindings(cfg: TrustConfig, r: Request)
    ensures NothingRevoked(cfg, r) <==> !PresentsRevoked(cfg, r) && !RevokesAgent(cfg, r.agentId)
  {
  }

  lemma VerdictPassesIff(c: Call)
    ensures c.RuleVerdict() == Apl.Pass <==> NoDecisiveRule(c)
  {
    var docs := EffectiveApl(c.Config());
    Apl.FirstVerdictIsFirst(c.host, c.Subject(), Apl.AllRules(docs));
    Apl.AllRulesMembers(docs);
  }

  lemma StandardAllowsIff(cfg: TrustConfig, r: Request)
    ensures StandardAllows(StandardPolicies(cfg), r.action, r.resource) <==> StandardPolicyPermits(cfg, r)
  {
    WithAplMembers(cfg.policies, false);
    var policies := StandardPolicies(cfg);
    assert policies != [] ==> policies[0] in policies;
    forall p | p in policies
      ensures PolicyAllows(p, r.action, r.resource) <==>
        exists a, s :: a in p.allowedActions && s in p.allowedResources
          && StartsWith(r.action, DeleteStars(a)) && StartsWith(r.resource, DeleteStars(s))
    {
      StarTestRedundant(r.action, p.allowedActions);
      StarTestRedundant(r.resource, p.allowedResources);
    }
  }

  lemma AuthorizedIffNothingFound(f: Findings)
    ensures Choose(f) == Authorized <==>
      f.nonceIsAscii && !f.replayed && !f.expired && (f.offline ==> f.mode == Limited) &&
      !f.highValue && !f.administrative && !f.missesRequirement && !f.presentsRevoked && !f.agentRevoked &&
      f.verdict == Apl.Pass && f.allowed
  {
  }

  /** A call is approved iff it satisfies every one of these, none of which mentions the cascade. */
  lemma ApprovedIff(c: Call)
    ensures Decide(c) == Authorized <==>
      NotAReplay(c) && Unexpired(c) && OfflinePermits(c) && LowRisk(c.request) &&
      RequirementsPresented(c.Config(), c.request) && NothingRevoked(c.Config(), c.request) &&
      NoDecisiveRule(c) && StandardPolicyPermits(c.Config(), c.request)
  {
    AuthorizedIffNothingFound(FindingsOf(c));
    RevokedFindings(c.Config(), c.request);
    VerdictPassesIff(c);
    StandardAllowsIff(c.Config(), c.request);
  }

  // ---------- offline against online ----------

  /** The same call with and without a connection to the control plane. */
  function Connected(c: Call, online: bool): Call {
    c.(state := c.state.(reachable := online), request := c.request.(forceOffline := false))
  }

  lemma ConnectionChangesOneFinding(c: Call, online: bool)
    ensures FindingsOf(Connected(c, online)) == FindingsOf(c).(offline := !online)
  {
    assert Connected(c, online).LiveNonces() == c.LiveNonces();
  }

  /** An outcome is the online one, an escalation of the two high-risk codes, or a rejection. */
  lemma OfflineOutcome(f: Findings)
    requires f.offline
    ensures var on := Choose(f.(offline := false));
      match f.mode
      case Limited => Choose(f) == (
          if on in {NonceNotAscii, ReplayAttackDetected, ConfigExpired} then on
          else if f.highValue then OfflineHighRiskBlocked
          else if f.administrative then OfflineAdminBlocked
          else on)
      case _ => Choose(f) in {NonceNotAscii, ReplayAttackDetected, ConfigExpired, OfflineFailClosed, InvalidOfflinePolicy}
    ensures Choose(f) != HighValueTransaction && Choose(f) != HighRiskCapability
  {
  }

  /**
   * Losing the connection never approves more. Under LIMITED_OFFLINE the same calls are approved;
   * under FAIL_CLOSED or an unknown policy none is; and offline no call waits for stage-5 approval.
   */
  lemma OfflineNeverMorePermissive(c: Call)
    ensures var on, off := Decide(Connected(c, true)), Decide(Connected(c, false));
      (c.offlinePolicy == "LIMITED_OFFLINE" ==> (off == Authorized <==> on == Authorized)) &&
      (c.offlinePolicy != "LIMITED_OFFLINE" ==> off != Authorized) &&
      off != HighValueTransaction && off != HighRiskCapability
  {
    ConnectionChangesOneFinding(c, true);
    ConnectionChangesOneFinding(c, false);
    var f := FindingsOf(c).(offline := true);
    OfflineOutcome(f);
    AuthorizedIffNothingFound(f);
    AuthorizedIffNothingFound(f.(offline := false));
  }

  // ---------- a stricter configuration ----------

  function WithConfig(c: Call, config: Json): Call {
    c.(state := c.state.(activeConfig := config))
  }

  /** At least the requirements, revocations and effective APL rules of `weak`; the same standard policies. */
  ghost predicate Stricter(weak: TrustConfig, strict: TrustConfig) {
    (forall t :: t in weak.requirements ==> t in strict.requirements) &&
    (forall v :: v in weak.revocations ==> v in strict.revocations) &&
    (forall r :: r in Apl.AllRules(EffectiveApl(weak)) ==> r in Apl.AllRules(EffectiveApl(strict))) &&
    StandardPolicies(weak) == StandardPolicies(strict)
  }

  /** Adding requirements, revocations or effective rules never turns a refused call into an approved one. */
  lemma StricterNeverApprovesMore(c: Call, strict: Json)
    requires Stricter(c.Config(), ReadConfig(strict))
    requires Decide(WithConfig(c, strict)) == Authorized
    ensures Decide(c) == Authorized
  {
    var s := WithConfig(c, strict);
    assert s.LiveNonces() == c.LiveNonces();
    AuthorizedIffNothingFound(FindingsOf(s));
    AuthorizedIffNothingFound(FindingsOf(c));
    var f, g := FindingsOf(c), FindingsOf(s);
    Apl.FirstVerdictIsFirst(c.host, c.Subject(), Apl.AllRules(EffectiveApl(s.Config())));
    Apl.FirstVerdictIsFirst(c.host, c.Subject(), Apl.AllRules(EffectiveApl(c.Config())));
    RevokedFindings(c.Config(), c.request);
    RevokedFindings(s.Config(), c.request);
    assert !MissesRequirement(c.Config(), c.request);
  }

  /** The configuration with more entries in its "apl_policies" list. */
  function WithAplAdded(config: Json, added: seq<Json>): Json
    requires config.Obj?
  {
    Obj(config.fields["apl_policies" := List(ItemsOf(Get(config, "apl_policies")) + added)])
  }

  lemma {:induction false} ReadPoliciesConcat(a: seq<Json>, b: seq<Json>)
    ensures ReadPolicies(a + b) == ReadPolicies(a) + ReadPolicies(b)
  {
    if a == [] {
      assert a + b == b;
    } else {
      assert (a + b)[1..] == a[1..] + b;
      ReadPoliciesConcat(a[1..], b);
    }
  }

  lemma AplAddedReads(config: Json, added: seq<Json>)
    requires config.Obj?
    ensures var cfg := ReadConfig(config);
      ReadConfig(WithAplAdded(config, added)) == cfg.(aplPolicies := cfg.aplPolicies + ReadPolicies(added))
  {
    ReadPoliciesConcat(ItemsOf(Get(config, "apl_policies")), added);
    var config' := WithAplAdded(config, added);
    assert Get(config', "policies") == Get(config, "policies");
    assert Get(config', "revocations") == Get(config, "revocations");
    assert Get(config', "credential_requirements") == Get(config, "credential_requirements");
  }

  /** The conditions of approval other than the rules. */
  ghost predicate AllButRulesApprove(c: Call) {
    NotAReplay(c) && Unexpired(c) && OfflinePermits(c) && LowRisk(c.request) &&
    RequirementsPresented(c.Config(), c.request) && NothingRevoked(c.Config(), c.request) &&
    StandardPolicyPermits(c.Config(), c.request)
  }

  /**
   * The call is stopped by rules embedded in "policies", with no "apl_policies" entry beside them,
   * and by nothing else.
   */
  ghost predicate OnlyEmbeddedRulesStop(c: Call) {
    c.Config().aplPolicies == [] && !NoDecisiveRule(c) && AllButRulesApprove(c)
  }

  lemma AllButRulesIff(c: Call)
    ensures AllButRulesApprove(c) <==> Choose(FindingsOf(c).(verdict := Apl.Pass)) == Authorized
    ensures NoDecisiveRule(c) <==> FindingsOf(c).verdict == Apl.Pass
  {
    AuthorizedIffNothingFound(FindingsOf(c).(verdict := Apl.Pass));
    RevokedFindings(c.Config(), c.request);
    VerdictPassesIff(c);
    StandardAllowsIff(c.Config(), c.request);
  }

  lemma AplAddedChangesVerdictOnly(c: Call, added: seq<Json>)
    requires c.state.activeConfig.Obj?
    ensures var c' := WithConfig(c, WithAplAdded(c.state.activeConfig, added));
      FindingsOf(c') == FindingsOf(c).(verdict := c'.RuleVerdict())
  {
    var c' := WithConfig(c, WithAplAdded(c.state.activeConfig, added));
    AplAddedReads(c.state.activeConfig, added);
    assert c'.LiveNonces() == c.LiveNonces();
  }

  lemma {:induction false} AllRulesConcat(a: seq<PolicyDoc>, b: seq<PolicyDoc>)
    ensures Apl.AllRules(a + b) == Apl.AllRules(a) + Apl.AllRules(b)
  {
    if a == [] {
      assert a + b == b;
    } else {
      assert (a + b)[1..] == a[1..] + b;
      AllRulesConcat(a[1..], b);
    }
  }

  /** Unless the call is in that one situation, adding APL policies to the list never approves it. */
  lemma AddingAplKeepsRefusal(c: Call, added: seq<Json>)
    requires c.state.activeConfig.Obj? && !OnlyEmbeddedRulesStop(c)
    requires Decide(WithConfig(c, WithAplAdded(c.state.activeConfig, added))) == Authorized
    ensures Decide(c) == Authorized
  {
    var c' := WithConfig(c, WithAplAdded(c.state.activeConfig, added));
    var f := FindingsOf(c);
    AplAddedReads(c.state.activeConfig, added);
    AplAddedChangesVerdictOnly(c, added);
    AllButRulesIff(c);
    AuthorizedIffNothingFound(FindingsOf(c'));
    AuthorizedIffNothingFound(f);
    AuthorizedIffNothingFound(f.(verdict := Apl.Pass));
    var own, more := c.Config().aplPolicies, ReadPolicies(added);
    if own != [] {
      AllRulesConcat(own, more);
      Apl.FirstVerdictIsFirst(c.host, c.Subject(), Apl.AllRules(own + more));
      Apl.FirstVerdictIsFirst(c.host, c.Subject(), Apl.AllRules(own));
    }
  }

  /**
   * Exactly when "adding APL policies never approves a refused call" holds of a call. It fails
   * for embedded rules, because the first entry of "apl_policies" hides them all.
   */
  lemma AddingAplIsMonotoneIff(c: Call)
    requires c.state.activeConfig.Obj?
    ensures (forall added: seq<Json> ::
              Decide(WithConfig(c, WithAplAdded(c.state.activeConfig, added))) == Authorized ==> Decide(c) == Authorized)
            <==> !OnlyEmbeddedRulesStop(c)
  {
    AllButRulesIff(c);
    if OnlyEmbeddedRulesStop(c) {
      var added := [Obj(map[])];
      var c' := WithConfig(c, WithAplAdded(c.state.activeConfig, added));
      AplAddedReads(c.state.activeConfig, added);
      AplAddedChangesVerdictOnly(c, added);
      assert added[1..] == [];
      var doc := ReadPolicy(Obj(map[]));
      assert ReadPolicies(added) == [doc] && doc.rules == [];
      assert EffectiveApl(c'.Config()) == [doc];
      assert [doc][1..] == [] && Apl.AllRules([doc]) == [];
      assert c'.RuleVerdict() == Apl.Pass;
      assert Decide(c') == Authorized;
      AuthorizedIffNothingFound(FindingsOf(c));
      assert Decide(c) != Authorized;
    } else {
      forall added: seq<Json> | Decide(WithConfig(c, WithAplAdded(c.state.activeConfig, added))) == Authorized
        ensures Decide(c) == Authorized
      {
        AddingAplKeepsRefusal(c, added);
      }
    }
  }

  /** A bundle whose only policy is an embedded APL policy that denies everything. */
  function EmbeddedDeny(): Json {
    Obj(map["policies" := List([EmbeddedDenyPolicy()])])
  }

  function EmbeddedDenyPolicy(): Json {
    Obj(map["version" := JsonValues.Text(APL_VERSION), "rules" := List([Obj(map["effect" := JsonValues.Text("DENY")])])])
  }

  lemma EmbeddedDenyReads()
    ensures ReadConfig(EmbeddedDeny())
      == TrustConfig([], [], [], [PolicyDoc(Some(APL_VERSION), [Rule([], JsonValues.Text("DENY"))], [], [])])
  {
    var rule := Obj(map["effect" := JsonValues.Text("DENY")]);
    assert ReadRule(rule) == Rule([], JsonValues.Text("DENY"));
    assert ReadRules([rule]) == [Rule([], JsonValues.Text("DENY"))];
    var p := EmbeddedDenyPolicy();
    assert Get(p, "rules") == List([rule]);
    assert ReadPolicy(p) == PolicyDoc(Some(APL_VERSION), [Rule([], JsonValues.Text("DENY"))], [], []);
    assert [p][1..] == [];
    assert ReadPolicies([p]) == [ReadPolicy(p)];
  }

  lemma EmbeddedDenyDenies(c: Call)
    requires c.host.upper("DENY") == "DENY" && c.state.activeConfig == EmbeddedDeny()
    ensures c.Config().aplPolicies == [] && c.RuleVerdict() == Apl.Deny
    ensures !MissesRequirement(c.Config(), c.request) && !PresentsRevoked(c.Config(), c.request)
    ensures !RevokesAgent(c.Config(), c.request.agentId)
    ensures StandardPolicies(c.Config()) == []
  {
    EmbeddedDenyReads();
    var doc := PolicyDoc(Some(APL_VERSION), [Rule([], JsonValues.Text("DENY"))], [], []);
    assert [doc][1..] == [];
    assert WithApl([doc], true) == [doc] && WithApl([doc], false) == [];
    assert Apl.AllRules([doc]) == doc.rules;
    assert Apl.RuleVerdict(c.host, c.Subject(), doc.rules[0]) == Apl.Deny;
  }

  /** Such calls exist: any harmless online request under that bundle, while it is unexpired. */
  lemma HiddenDenyExample(c: Call)
    requires c.host.upper("DENY") == "DENY"
    requires c.state == Fresh(None).(activeConfig := EmbeddedDeny(), expiresAt := Some(c.now))
    requires c.request == Request("a", "r", "agent", 0.0, [], "", false)
    ensures Decide(c) == AplPolicyDeny && OnlyEmbeddedRulesStop(c)
  {
    EmbeddedDenyDenies(c);
    AllButRulesIff(c);
  }
}
