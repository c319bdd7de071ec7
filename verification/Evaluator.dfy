/** Local authorization of one request (`sidecar/evaluator.py`). */
module Evaluator {
  import opened Wrappers
  import opened Text
  import opened Hosting
  import opened SidecarRuntime
  import opened TrustConfiguration
  import opened WildcardPatterns
  import Apl = AplRules

  const REPLAY_WINDOW: real := 300.0
  const AUTONOMOUS_LIMIT: real := 5000.0

  datatype Credential = Credential(credentialType: Option<string>, credentialId: Option<string>)

  /** An absent nonce is the empty string. */
  datatype Request = Request(
    action: string,
    resource: string,
    agentId: string,
    amount: real,
    credentials: seq<Credential>,
    nonce: string,
    forceOffline: bool)

  /** How a call ends. `NonceNotAscii` and `RuleError` are the calls that end in an exception. */
  datatype Code =
    | NonceNotAscii
    | ReplayAttackDetected
    | ConfigExpired
    | OfflineFailClosed
    | OfflineHighRiskBlocked
    | OfflineAdminBlocked
    | InvalidOfflinePolicy
    | RequiredCredentialMissing
    | CredentialRevoked
    | AgentSuspended
    | HighValueTransaction
    | HighRiskCapability
    | RuleError
    | AplPolicyDeny
    | AplPolicyRequireApproval
    | PermissionDenied
    | Authorized

  /** One call: the request and everything its outcome may depend on. */
  datatype Call = Call(
    host: Host, offlinePolicy: string, state: Snapshot, request: Request, mono: real, now: real)
  {
    function Config(): TrustConfig { ReadConfig(state.activeConfig) }

    predicate Offline() { request.forceOffline || !state.reachable }

    /** The nonce table once the entries that have run out are evicted. */
    function LiveNonces(): map<string, real> {
      map k | k in state.nonces && state.nonces[k] > mono :: state.nonces[k]
    }

    function Subject(): Apl.Subject {
      Apl.Subject(request.action, request.resource, request.agentId, request.amount)
    }

    function RuleVerdict(): Apl.Verdict {
      Apl.FirstVerdict(host, Subject(), Apl.AllRules(EffectiveApl(Config())))
    }
  }

  predicate Administrative(action: string) {
    EndsWith(action, ".admin") || EndsWith(action, ".delete")
  }

  predicate Presents(credentials: seq<Credential>, credentialType: string) {
    exists c :: c in credentials && c.credentialType == Some(credentialType)
  }

  predicate PolicyAllows(p: PolicyDoc, action: string, resource: string) {
    MatchesAny(action, p.allowedActions) && MatchesAny(resource, p.allowedResources)
  }

  predicate StandardAllows(policies: seq<PolicyDoc>, action: string, resource: string) {
    policies == [] || exists p :: p in policies && PolicyAllows(p, action, resource)
  }

  predicate MissesRequirement(cfg: TrustConfig, request: Request) {
    exists t :: t in cfg.requirements && t != "" && !Presents(request.credentials, t)
  }

  predicate PresentsRevoked(cfg: TrustConfig, request: Request) {
    exists c :: c in request.credentials && IsSet(c.credentialId)
                && c.credentialId in RevokedIds(cfg.revocations, "credential")
  }

  /** What the configured offline policy asks for; any other text is unknown. */
  datatype OfflineMode = AlwaysClosed | Limited | UnknownMode

  function ModeOf(offlinePolicy: string): OfflineMode {
    if offlinePolicy == "FAIL_CLOSED" then AlwaysClosed
    else if offlinePolicy == "LIMITED_OFFLINE" then Limited
    else UnknownMode
  }

  /** The findings the stages make about a call, each on its own, in no order. */
  datatype Findings = Findings(
    nonceIsAscii: bool,
    replayed: bool,
    expired: bool,
    offline: bool,
    mode: OfflineMode,
    highValue: bool,
    administrative: bool,
    missesRequirement: bool,
    presentsRevoked: bool,
    agentRevoked: bool,
    verdict: Apl.Verdict,
    allowed: bool)

  function FindingsOf(c: Call): Findings {
    var cfg, r := c.Config(), c.request;
    Findings(
      IsAscii(r.nonce),
      r.nonce != "" && c.host.sha256(r.nonce) in c.LiveNonces(),
      c.state.Expired(c.now),
      c.Offline(),
      ModeOf(c.offlinePolicy),
      r.amount > AUTONOMOUS_LIMIT,
      Administrative(r.action),
      MissesRequirement(cfg, r),
      PresentsRevoked(cfg, r),
      RevokesAgent(cfg, r.agentId),
      c.RuleVerdict(),
      StandardAllows(StandardPolicies(cfg), r.action, r.resource))
  }

  /** The condition behind each code, on its own: no mention of the other stages. */
  predicate Applies(code: Code, f: Findings) {
    match code
    case NonceNotAscii => !f.nonceIsAscii
    case ReplayAttackDetected => f.replayed
    case ConfigExpired => f.expired
    case OfflineFailClosed => f.offline && f.mode == AlwaysClosed
    case OfflineHighRiskBlocked => f.offline && f.mode == Limited && f.highValue
    case OfflineAdminBlocked => f.offline && f.mode == Limited && f.administrative
    case InvalidOfflinePolicy => f.offline && f.mode == UnknownMode
    case RequiredCredentialMissing => f.missesRequirement
    case CredentialRevoked => f.presentsRevoked
    case AgentSuspended => f.agentRevoked
    case HighValueTransaction => f.highValue
    case HighRiskCapability => f.administrative
    case RuleError => f.verdict == Apl.Crash
    case AplPolicyDeny => f.verdict == Apl.Deny
    case AplPolicyRequireApproval => f.verdict == Apl.RequireApproval
    case PermissionDenied => !f.allowed
    case Authorized => true
  }

  /** The order of the stages. */
  function Rank(code: Code): nat {
    match code
    case NonceNotAscii => 0
    case ReplayAttackDetected => 1
    case ConfigExpired => 2
    case OfflineFailClosed => 3
    case OfflineHighRiskBlocked => 4
    case OfflineAdminBlocked => 5
    case InvalidOfflinePolicy => 6
    case RequiredCredentialMissing => 7
    case CredentialRevoked => 8
    case AgentSuspended => 9
    case HighValueTransaction => 10
    case HighRiskCapability => 11
    case RuleError => 12
    case AplPolicyDeny => 13
    case AplPolicyRequireApproval => 14
    case PermissionDenied => 15
    case Authorized => 16
  }

  /** No code ranked from `low` to `high` applies. */
  ghost predicate NoneApplies(low: nat, high: int, f: Findings) {
    forall d :: low <= Rank(d) <= high ==> !Applies(d, f)
  }

  /** Of the codes ranked from `low` on, `code` is the first that applies. */
  ghost predicate FirstFrom(low: nat, code: Code, f: Findings) {
    Applies(code, f) && NoneApplies(low, Rank(code) - 1, f)
  }

  function NonceStage(f: Findings): Option<Code> {
    if !f.nonceIsAscii then Some(NonceNotAscii)
    else if f.replayed then Some(ReplayAttackDetected)
    else None
  }

  function OfflineStage(f: Findings): Option<Code> {
    if !f.offline then None
    else match f.mode
      case AlwaysClosed => Some(OfflineFailClosed)
      case Limited =>
        if f.highValue then Some(OfflineHighRiskBlocked)
        else if f.administrative then Some(OfflineAdminBlocked)
        else None
      case UnknownMode => Some(InvalidOfflinePolicy)
  }

  function TrustAndRiskStage(f: Findings): Option<Code> {
    if f.missesRequirement then Some(RequiredCredentialMissing)
    else if f.presentsRevoked then Some(CredentialRevoked)
    else if f.agentRevoked then Some(AgentSuspended)
    else if f.highValue then Some(HighValueTransaction)
    else if f.administrative then Some(HighRiskCapability)
    else None
  }

  function VerdictCode(v: Apl.Verdict): Option<Code> {
    match v
    case Crash => Some(RuleError)
    case Deny => Some(AplPolicyDeny)
    case RequireApproval => Some(AplPolicyRequireApproval)
    case Pass => None
  }

  function PolicyStage(f: Findings): Code {
    match VerdictCode(f.verdict)
    case Some(code) => code
    case None => if f.allowed then Authorized else PermissionDenied
  }

  /** Everything after the nonce stage. */
  function LaterStages(f: Findings): Code {
    if f.expired then ConfigExpired
    else if OfflineStage(f).Some? then OfflineStage(f).value
    else if TrustAndRiskStage(f).Some? then TrustAndRiskStage(f).value
    else PolicyStage(f)
  }

  function Choose(f: Findings): Code {
    if NonceStage(f).Some? then NonceStage(f).value else LaterStages(f)
  }

  lemma NonceStageIsFirst(f: Findings)
    ensures match NonceStage(f)
      case Some(code) => Rank(code) <= 1 && FirstFrom(0, code, f)
      case None => NoneApplies(0, 1, f)
  {
  }

  lemma OfflineStageIsFirst(f: Findings)
    ensures match OfflineStage(f)
      case Some(code) => 3 <= Rank(code) <= 6 && FirstFrom(3, code, f)
      case None => NoneApplies(3, 6, f)
  {
  }

  lemma TrustAndRiskStageIsFirst(f: Findings)
    ensures match TrustAndRiskStage(f)
      case Some(code) => 7 <= Rank(code) <= 11 && FirstFrom(7, code, f)
      case None => NoneApplies(7, 11, f)
  {
  }

  lemma PolicyStageIsFirst(f: Findings)
    ensures 12 <= Rank(PolicyStage(f)) && FirstFrom(12, PolicyStage(f), f)
  {
  }

  lemma LaterStagesFirst(f: Findings)
    ensures FirstFrom(2, LaterStages(f), f) && Rank(LaterStages(f)) >= 2
  {
    OfflineStageIsFirst(f);
    TrustAndRiskStageIsFirst(f);
    PolicyStageIsFirst(f);
  }

  lemma FirstIsUnique(f: Findings, a: Code, b: Code)
    requires FirstFrom(0, a, f) && FirstFrom(0, b, f)
    ensures a == b
  {
    assert Rank(a) == Rank(b);
  }

  /** What the cascade returns is the one code that applies although no code before it does. */
  lemma ChosenIffFirst(f: Findings, code: Code)
    ensures Choose(f) == code <==> FirstFrom(0, code, f)
  {
    NonceStageIsFirst(f);
    LaterStagesFirst(f);
    assert FirstFrom(0, Choose(f), f);
    if FirstFrom(0, code, f) {
      FirstIsUnique(f, code, Choose(f));
    }
  }

  /** The outcome of a call. */
  function Decide(c: Call): Code {
    Choose(FindingsOf(c))
  }

  predicate RaisesException(code: Code) {
    code == NonceNotAscii || code == RuleError
  }

  function DecisionOf(code: Code): RequestResult {
    match code
    case OfflineHighRiskBlocked | OfflineAdminBlocked => CentralCheckRequired
    case HighValueTransaction | HighRiskCapability | AplPolicyRequireApproval => PendingHumanApproval
    case Authorized => LocalApproved
    case _ => Rejected
  }

  /** The nonce stage lets this call through and remembers its nonce. */
  predicate PassesReplayStage(c: Call) {
    c.request.nonce != "" && IsAscii(c.request.nonce) && c.host.sha256(c.request.nonce) !in c.LiveNonces()
  }

  function NoncesAfter(c: Call): map<string, real> {
    if c.request.nonce == "" then c.state.nonces
    else if PassesReplayStage(c) then c.LiveNonces()[c.host.sha256(c.request.nonce) := c.mono + REPLAY_WINDOW]
    else c.LiveNonces()
  }

  /** A stage records the call it ends, unless it ends it with an exception. */
  function RecordedIfEnded(m: Metrics, ended: Option<Code>, offline: bool): Metrics {
    if ended.None? || RaisesException(ended.value) then m else Recorded(m, DecisionOf(ended.value), offline)
  }

  function MetricsAfter(c: Call): Metrics {
    RecordedIfEnded(c.state.metrics, Some(Decide(c)), c.Offline())
  }

  /** The state a call leaves: only nonces and counters move, and the nonce stays used whatever follows. */
  function After(c: Call): Snapshot {
    c.state.(nonces := NoncesAfter(c), metrics := MetricsAfter(c))
  }

  // ---------- the loops of the cascade ----------

  method FindMissingRequirement(requirements: seq<string>, credentials: seq<Credential>) returns (missing: bool)
    ensures missing <==> exists t :: t in requirements && t != "" && !Presents(credentials, t)
  {
    for i := 0 to |requirements|
      invariant forall j :: 0 <= j < i ==> requirements[j] == "" || Presents(credentials, requirements[j])
    {
      if requirements[i] != "" && !Presents(credentials, requirements[i]) {
        return true;
      }
    }
    missing := false;
  }

  method FindRevokedCredential(revoked: set<Option<string>>, credentials: seq<Credential>) returns (found: bool)
    ensures found <==> exists c :: c in credentials && IsSet(c.credentialId) && c.credentialId in revoked
  {
    for i := 0 to |credentials|
      invariant forall j :: 0 <= j < i ==>
        !(IsSet(credentials[j].credentialId) && credentials[j].credentialId in revoked)
    {
      if IsSet(credentials[i].credentialId) && credentials[i].credentialId in revoked {
        return true;
      }
    }
    found := false;
  }

  method FindAllowingPolicy(policies: seq<PolicyDoc>, action: string, resource: string) returns (allowed: bool)
    ensures allowed <==> exists p :: p in policies && PolicyAllows(p, action, resource)
  {
    allowed := false;
    var i := 0;
    while i < |policies| && !allowed
      invariant 0 <= i <= |policies|
      invariant allowed ==> i > 0 && PolicyAllows(policies[i - 1], action, resource)
      invariant !allowed ==> forall j :: 0 <= j < i ==> !PolicyAllows(policies[j], action, resource)
    {
      var actionMatch := MatchesAny(action, policies[i].allowedActions);
      var resourceMatch := MatchesAny(resource, policies[i].allowedResources);
      if actionMatch && resourceMatch {
        allowed := true;
      }
      i := i + 1;
    }
  }

  // ---------- the cascade ----------

  /** Stage 1. Some(code) ends the call; None goes on. */
  method CheckNonce(state: SidecarState, host: Host, request: Request, mono: real, isOffline: bool,
                    ghost c: Call) returns (ended: Option<Code>)
    requires c.state == state.Value() && c.host == host && c.request == request && c.mono == mono
    modifies state`processedNonces, state`metrics
    ensures state.processedNonces == NoncesAfter(c)
    ensures ended == NonceStage(FindingsOf(c))
    ensures state.metrics == RecordedIfEnded(c.state.metrics, ended, isOffline)
  {
    if request.nonce == "" {
      return None;
    }
    state.processedNonces :=
      map k | k in state.processedNonces && state.processedNonces[k] > mono :: state.processedNonces[k];
    if !IsAscii(request.nonce) {
      return Some(NonceNotAscii);
    }
    var nonceHash := host.sha256(request.nonce);
    if nonceHash in state.processedNonces {
      state.RecordRequest(Rejected, isOffline);
      return Some(ReplayAttackDetected);
    }
    state.processedNonces := state.processedNonces[nonceHash := mono + REPLAY_WINDOW];
    return None;
  }

  /** Stage 3. */
  method CheckOfflineSafety(state: SidecarState, offlinePolicy: string, request: Request, isOffline: bool,
                            ghost f: Findings) returns (ended: Option<Code>)
    requires f.mode == ModeOf(offlinePolicy) && f.offline == isOffline
    requires f.highValue == (request.amount > AUTONOMOUS_LIMIT)
    requires f.administrative == Administrative(request.action)
    modifies state`metrics
    ensures ended == OfflineStage(f)
    ensures state.metrics == RecordedIfEnded(old(state.metrics), ended, isOffline)
  {
    if !isOffline {
      return None;
    }
    if offlinePolicy == "FAIL_CLOSED" {
      state.RecordRequest(Rejected, true);
      return Some(OfflineFailClosed);
    } else if offlinePolicy == "LIMITED_OFFLINE" {
      if request.amount > AUTONOMOUS_LIMIT {
        state.RecordRequest(CentralCheckRequired, true);
        return Some(OfflineHighRiskBlocked);
      }
      if EndsWith(request.action, ".delete") || EndsWith(request.action, ".admin") {
        state.RecordRequest(CentralCheckRequired, true);
        return Some(OfflineAdminBlocked);
      }
      return None;
    } else {
      state.RecordRequest(Rejected, true);
      return Some(InvalidOfflinePolicy);
    }
  }

  /** Stages 4 and 5. */
  method CheckTrustAndRisk(state: SidecarState, cfg: TrustConfig, request: Request, isOffline: bool,
                           ghost f: Findings) returns (ended: Option<Code>)
    requires f.missesRequirement == MissesRequirement(cfg, request)
    requires f.presentsRevoked == PresentsRevoked(cfg, request)
    requires f.agentRevoked == RevokesAgent(cfg, request.agentId)
    requires f.highValue == (request.amount > AUTONOMOUS_LIMIT)
    requires f.administrative == Administrative(request.action)
    modifies state`metrics
    ensures ended == TrustAndRiskStage(f)
    ensures state.metrics == RecordedIfEnded(old(state.metrics), ended, isOffline)
  {
    var missing := FindMissingRequirement(cfg.requirements, request.credentials);
    if missing {
      state.RecordRequest(Rejected, isOffline);
      return Some(RequiredCredentialMissing);
    }
    var found := FindRevokedCredential(RevokedIds(cfg.revocations, "credential"), request.credentials);
    if found {
      state.RecordRequest(Rejected, isOffline);
      return Some(CredentialRevoked);
    }
    if Some(request.agentId) in RevokedIds(cfg.revocations, "agent") {
      state.RecordRequest(Rejected, isOffline);
      return Some(AgentSuspended);
    }
    if request.amount > AUTONOMOUS_LIMIT {
      state.RecordRequest(PendingHumanApproval, isOffline);
      return Some(HighValueTransaction);
    }
    if EndsWith(request.action, ".admin") || EndsWith(request.action, ".delete") {
      state.RecordRequest(PendingHumanApproval, isOffline);
      return Some(HighRiskCapability);
    }
    return None;
  }

  /** Without standard policies the request is allowed, whether or not APL policies have run. */
  method CheckStandardPolicies(policies: seq<PolicyDoc>, aplPolicies: seq<PolicyDoc>, request: Request)
    returns (allowed: bool)
    ensures allowed == StandardAllows(policies, request.action, request.resource)
  {
    allowed := false;
    if policies == [] && aplPolicies == [] {
      allowed := true;
    } else if policies == [] && aplPolicies != [] {
      allowed := true;
    } else {
      allowed := FindAllowingPolicy(policies, request.action, request.resource);
    }
  }

  /** The APL half of stage 6. */
  method CheckAplRules(state: SidecarState, host: Host, aplPolicies: seq<PolicyDoc>, subject: Apl.Subject, isOffline: bool)
    returns (ended: Option<Code>)
    modifies state`metrics
    ensures ended == VerdictCode(Apl.FirstVerdict(host, subject, Apl.AllRules(aplPolicies)))
    ensures state.metrics == RecordedIfEnded(old(state.metrics), ended, isOffline)
  {
    var verdict := Apl.RunRules(host, subject, aplPolicies);
    match verdict
    case Crash =>
      return Some(RuleError);
    case Deny =>
      state.RecordRequest(Rejected, isOffline);
      return Some(AplPolicyDeny);
    case RequireApproval =>
      state.RecordRequest(PendingHumanApproval, isOffline);
      return Some(AplPolicyRequireApproval);
    case Pass =>
      return None;
  }

  /** Stage 6: APL rules, then the standard policies. */
  method CheckPolicies(state: SidecarState, host: Host, aplPolicies: seq<PolicyDoc>, policies: seq<PolicyDoc>,
                       request: Request, subject: Apl.Subject, isOffline: bool, ghost f: Findings) returns (code: Code)
    requires f.verdict == Apl.FirstVerdict(host, subject, Apl.AllRules(aplPolicies))
    requires f.allowed == StandardAllows(policies, request.action, request.resource)
    modifies state`metrics
    ensures code == PolicyStage(f)
    ensures state.metrics == RecordedIfEnded(old(state.metrics), Some(code), isOffline)
  {
    var ended := CheckAplRules(state, host, aplPolicies, subject, isOffline);
    if ended.Some? {
      return ended.value;
    }
    var allowed := CheckStandardPolicies(policies, aplPolicies, request);
    if !allowed {
      state.RecordRequest(Rejected, isOffline);
      return PermissionDenied;
    }
    state.RecordRequest(LocalApproved, isOffline);
    return Authorized;
  }

  /** Stages 2 to 6, recording the result on every path that returns. */
  method DecideRecorded(state: SidecarState, host: Host, offlinePolicy: string, request: Request, now: real,
                        isOffline: bool, ghost c: Call) returns (code: Code)
    requires c.host == host && c.offlinePolicy == offlinePolicy && c.request == request && c.now == now
    requires c.state == state.Value().(nonces := c.state.nonces) && c.Offline() == isOffline
    modifies state`metrics
    ensures code == LaterStages(FindingsOf(c))
    ensures state.metrics == RecordedIfEnded(old(state.metrics), Some(code), isOffline)
  {
    ghost var f := FindingsOf(c);
    var expired := state.IsConfigExpired(now);
    if expired {
      state.RecordRequest(Rejected, isOffline);
      return ConfigExpired;
    }
    var early := CheckOfflineSafety(state, offlinePolicy, request, isOffline, f);
    if early.Some? {
      return early.value;
    }
    var cfg := ReadConfig(state.activeConfig);
    early := CheckTrustAndRisk(state, cfg, request, isOffline, f);
    if early.Some? {
      return early.value;
    }
    var subject := Apl.Subject(request.action, request.resource, request.agentId, request.amount);
    code := CheckPolicies(state, host, EffectiveApl(cfg), StandardPolicies(cfg), request, subject, isOffline, f);
  }

  method EvaluateLocalRequest(state: SidecarState, host: Host, offlinePolicy: string, request: Request,
                              mono: real, now: real) returns (code: Code)
    modifies state
    ensures code == Decide(Call(host, offlinePolicy, old(state.Value()), request, mono, now))
    ensures state.Value() == After(Call(host, offlinePolicy, old(state.Value()), request, mono, now))
  {
    ghost var c := Call(host, offlinePolicy, state.Value(), request, mono, now);
    var isOffline := request.forceOffline || !state.controlPlaneReachable;
    var early := CheckNonce(state, host, request, mono, isOffline, c);
    if early.Some? {
      return early.value;
    }
    code := DecideRecorded(state, host, offlinePolicy, request, now, isOffline, c);
  }
}
