/** With a control-plane key set, only signed configuration is ever in force (`sidecar/crypto.py`, `sync.py`, `storage.py`). */
module SignedRuns {
  import opened Wrappers
  import opened JsonValues
  import opened Hosting
  import opened ConfigSigning
  import opened SidecarRuntime
  import opened Storage
  import opened Synchronization
  import opened FailoverProperties
  import opened TrustConfiguration
  import opened Evaluator
  import opened EvaluatorProperties
  import opened DataPlane

  /** `a` is, value for value, a configuration that was signed; a falsy bundle stands for a signed `{}`. */
  ghost predicate IsSigned(host: Host, signed: set<SignedConfig>, a: Applied) {
    exists c :: c in signed && Puts(host, c, a)
  }

  ghost predicate Puts(host: Host, c: SignedConfig, a: Applied) {
    a.version == c.version && host.parseIso(ExpiryText(c.expiresAt)) == Some(a.expiresAt) &&
    (if Truthy(a.bundle) then a.bundle else EMPTY_OBJECT) == c.bundle
  }

  /** An unforgeable key, one-line fields in whatever was signed, and no text that collides with it. */
  ghost predicate TrustedKey(host: Host, publicKey: Option<string>, signed: set<SignedConfig>) {
    IsSet(publicKey) && SignsOnly(host, publicKey.value, signed) &&
    (forall c :: c in signed ==> OneLineTexts(host, c)) &&
    forall text :: host.loadDocument(text).Some? ==> NoCollision(host, signed, host.loadDocument(text).value)
  }

  ghost predicate OnlySigned(host: Host, signed: set<SignedConfig>, s: Snapshot) {
    InForce(s).Some? ==> IsSigned(host, signed, InForce(s).value)
  }

  lemma AcceptedPutsSigned(host: Host, publicKey: Option<string>, signed: set<SignedConfig>, doc: ConfigDocument)
    requires TrustedKey(host, publicKey, signed) && NoCollision(host, signed, doc)
    requires SignatureAccepted(host, publicKey, doc) && ActivatesAs(host, doc).Some?
    ensures IsSigned(host, signed, ActivatesAs(host, doc).value)
  {
    AcceptedIsSigned(host, publicKey.value, signed, doc);
    var c :| c in signed && Carries(doc, c);
    assert Puts(host, c, ActivatesAs(host, doc).value);
  }

  lemma CachedIsSigned(host: Host, publicKey: Option<string>, signed: set<SignedConfig>, d: Disk, readable: bool)
    requires TrustedKey(host, publicKey, signed)
    requires CachedAs(host, publicKey, d, readable).Some?
    ensures IsSigned(host, signed, CachedAs(host, publicKey, d, readable).value)
  {
    var doc := host.loadDocument(d.cacheFile.value).value;
    assert ActivatesAs(host, doc) == CachedAs(host, publicKey, d, readable);
    AcceptedPutsSigned(host, publicKey, signed, doc);
  }

  lemma TurnSigned(host: Host, s: Snapshot, d: Disk, a: Attempt, now: real, signed: set<SignedConfig>)
    requires TrustedKey(host, s.publicKey, signed) && OnlySigned(host, signed, s)
    ensures var t := EndpointTurn(host, s, d, a, now);
      OnlySigned(host, signed, t.state) && t.state.publicKey == s.publicKey
  {
    if DocumentIn(host, a.reply).Some? {
      var doc := DocumentIn(host, a.reply).value;
      if SignatureAccepted(host, s.publicKey, doc) && ActivatesAs(host, doc).Some? {
        AcceptedPutsSigned(host, s.publicKey, signed, doc);
      }
    }
  }

  lemma {:induction false} SyncSigned(host: Host, s: Snapshot, d: Disk, attempts: seq<Attempt>, now: real,
                                      signed: set<SignedConfig>)
    requires TrustedKey(host, s.publicKey, signed) && OnlySigned(host, signed, s)
    ensures var o := SyncEndpoints(host, s, d, attempts, now);
      OnlySigned(host, signed, o.state) && o.state.publicKey == s.publicKey
    decreases |attempts|
  {
    if attempts != [] {
      var t := EndpointTurn(host, s, d, attempts[0], now);
      TurnSigned(host, s, d, attempts[0], now, signed);
      if t.ended.None? {
        SyncSigned(host, t.state, t.disk, attempts[1..], now, signed);
      }
    }
  }

  lemma {:induction false} HeartbeatSigned(host: Host, s: Snapshot, d: Disk, replies: seq<HeartbeatReply>, now: real,
                                           signed: set<SignedConfig>)
    requires TrustedKey(host, s.publicKey, signed) && OnlySigned(host, signed, s)
    ensures var o := HeartbeatEndpoints(host, s, d, replies, now);
      OnlySigned(host, signed, o.state) && o.state.publicKey == s.publicKey
    decreases |replies|
  {
    if replies != [] {
      match replies[0]
      case NoAnswer => HeartbeatSigned(host, s, d, replies[1..], now, signed);
      case Acknowledged(syncRequired, attempts) =>
        var s1 := s.(reachable := true, lastHeartbeat := Some(now));
        SyncSigned(host, s1, d, attempts, now, signed);
    }
  }

  ghost predicate SystemSigned(dep: Deployment, signed: set<SignedConfig>, sys: System) {
    sys.Up? ==> sys.state.publicKey == dep.publicKey && OnlySigned(dep.host, signed, sys.state)
  }

  lemma StartSigned(dep: Deployment, signed: set<SignedConfig>, disk: Disk, readable: bool, now: real)
    requires TrustedKey(dep.host, dep.publicKey, signed)
    ensures Started(dep, disk, readable, now).publicKey == dep.publicKey
    ensures OnlySigned(dep.host, signed, Started(dep, disk, readable, now))
  {
    if CachedAs(dep.host, dep.publicKey, disk, readable).Some? {
      CachedIsSigned(dep.host, dep.publicKey, signed, disk, readable);
    }
  }

  lemma SyncOutcomeSigned(dep: Deployment, signed: set<SignedConfig>, sys: System, e: Event)
    requires TrustedKey(dep.host, dep.publicKey, signed) && SystemSigned(dep, signed, sys)
    requires SyncOutcomeOf(dep, sys, e).Some?
    ensures var s := SyncOutcomeOf(dep, sys, e).value.state;
      s.publicKey == dep.publicKey && OnlySigned(dep.host, signed, s)
  {
    match e
    case Synchronize(attempts, now) => SyncSigned(dep.host, sys.state, sys.disk, attempts, now, signed);
    case Beat(replies, now) => HeartbeatSigned(dep.host, sys.state, sys.disk, replies, now, signed);
  }

  lemma StepSigned(dep: Deployment, signed: set<SignedConfig>, sys: System, e: Event)
    requires TrustedKey(dep.host, dep.publicKey, signed) && SystemSigned(dep, signed, sys)
    ensures SystemSigned(dep, signed, Step(dep, sys, e))
  {
    if e.Start? {
      StartSigned(dep, signed, sys.disk, e.readable, e.now);
    } else if SyncOutcomeOf(dep, sys, e).Some? {
      SyncOutcomeSigned(dep, signed, sys, e);
    }
  }

  /**
   * In every state of every run, from any disk content, readable or not: the version, expiry and
   * content in force are those of one configuration the control plane signed.
   */
  lemma {:induction false} OnlySignedInForce(dep: Deployment, signed: set<SignedConfig>, r: Run, i: nat)
    requires TrustedKey(dep.host, dep.publicKey, signed) && IsRun(dep, r) && i <= |r.events|
    ensures SystemSigned(dep, signed, r.systems[i])
  {
    if i > 0 {
      OnlySignedInForce(dep, signed, r, i - 1);
      StepSigned(dep, signed, r.systems[i - 1], r.events[i - 1]);
      assert StepAt(dep, r, i - 1);
    }
  }

  /** A bundle read as empty because it is falsy reads like the signed `{}` it stands for. */
  lemma SignedReadsAlike(host: Host, c: SignedConfig, a: Applied)
    requires Puts(host, c, a)
    ensures ReadConfig(a.bundle) == ReadConfig(c.bundle)
  {
    if !Truthy(a.bundle) {
      assert a.bundle.Obj? ==> a.bundle == EMPTY_OBJECT;
    }
  }

  /** What a signed configuration must say for a call to be approved under it. */
  ghost predicate Supports(host: Host, c: SignedConfig, request: Evaluator.Request, now: real) {
    var cfg := ReadConfig(c.bundle);
    host.parseIso(ExpiryText(c.expiresAt)).Some? && now <= host.parseIso(ExpiryText(c.expiresAt)).value &&
    RequirementsPresented(cfg, request) && NothingRevoked(cfg, request) && StandardPolicyPermits(cfg, request)
  }

  /**
   * End to end: whenever a call is approved, in any run from any disk content, the control plane
   * has signed an unexpired configuration that revokes neither the agent nor a presented
   * credential, whose requirements are met, and whose policies permit the request.
   */
  lemma ApprovalRestsOnSignedConfiguration(dep: Deployment, signed: set<SignedConfig>, r: Run, j: nat)
    requires TrustedKey(dep.host, dep.publicKey, signed) && IsRun(dep, r) && j < |r.events|
    requires r.events[j].Evaluate? && OutcomeAt(dep, r, j) == Some(Authorized)
    ensures exists c :: c in signed && Supports(dep.host, c, r.events[j].request, r.events[j].now)
  {
    var call := CallOf(dep, r.systems[j].state, r.events[j]);
    ApprovedIff(call);
    OnlySignedInForce(dep, signed, r, j);
    var a := InForce(r.systems[j].state).value;
    var c :| c in signed && Puts(dep.host, c, a);
    SignedReadsAlike(dep.host, c, a);
    assert call.Config() == ReadConfig(c.bundle);
    assert Supports(dep.host, c, r.events[j].request, r.events[j].now);
  }
}
