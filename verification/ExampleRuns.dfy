/**
 * One deployment that meets every assumption, and two of its runs: one in which the theorems about
 * runs all have something to say, and one in which a failed cache write lets a revoked agent back in.
 */
module ExampleRuns {
  import opened Wrappers
  import opened JsonValues
  import opened Hosting
  import opened ConfigSigning
  import opened SidecarRuntime
  import opened TrustConfiguration
  import opened Storage
  import opened Synchronization
  import opened FailoverProperties
  import opened Evaluator
  import opened DataPlane
  import opened DurableConfiguration
  import opened SignedRuns
  import Apl = AplRules

  // ---------- three signed configurations, of which the second revokes agent "a" ----------

  const REVOCATION := Obj(map["type" := JsonValues.Text("agent"), "id" := JsonValues.Text("a")])
  const REVOKING := Obj(map["revocations" := List([REVOCATION])])

  function BundleNo(n: int): Json {
    if n == 2 then REVOKING else EMPTY_OBJECT
  }

  function Canonical(bundle: Json): string {
    if bundle == REVOKING then "r" else "e"
  }

  function Signed(n: int): SignedConfig {
    SignedConfig(n, "o", "e", "i", "t", BundleNo(n))
  }

  function Fields(n: int): ConfigFields {
    ConfigFields(n, "o", "e", "i", "t", Canonical(BundleNo(n)))
  }

  function Document(n: int): ConfigDocument {
    var f := Fields(n);
    ConfigDocument(Some(n), Some(f.organization), Some(f.environment), Some(f.issuedAt), Some(f.expiresAt),
                   Some(f.sha256), Some("s"), Some(BundleNo(n)))
  }

  function AppliedNo(n: int): Applied {
    Applied(n, BundleNo(n), 10.0)
  }

  /** Document `n` is written as `n` strokes. */
  function Strokes(n: nat): string {
    seq(n, _ => '|')
  }

  const SIGNED := set n | 1 <= n <= 3 :: Signed(n)

  // ---------- the runs, of any deployment that reads the three documents so ----------

  ghost predicate ReadsDocument(dep: Deployment, n: nat) {
    dep.host.loadDocument(Strokes(n)) == Some(Document(n)) && dep.host.dumpDocument(Document(n)) == Strokes(n) &&
    SignatureAccepted(dep.host, dep.publicKey, Document(n)) && ActivatesAs(dep.host, Document(n)) == Some(AppliedNo(n))
  }

  ghost predicate Serves(dep: Deployment) {
    dep.offlinePolicy == "LIMITED_OFFLINE" && IsSet(dep.gatewayId) &&
    ReadsDocument(dep, 1) && ReadsDocument(dep, 2) && ReadsDocument(dep, 3)
  }

  function Offer(n: nat, fate: WriteFate): Event {
    Synchronize([Attempt(Body(Strokes(n)), fate)], 0.0)
  }

  lemma OfferActivates(dep: Deployment, s: Snapshot, d: Disk, n: nat, fate: WriteFate)
    requires ReadsDocument(dep, n) && IsSet(s.gatewayId) && s.publicKey == dep.publicKey && 0 <= s.version < n
    requires fate.Completes? || fate.ReplaceFails?
    ensures var o := Sync(dep.host, s, d, [Attempt(Body(Strokes(n)), fate)], 0.0);
      o.state == WithApplied(s, AppliedNo(n), 0.0).(reachable := fate.Completes?) &&
      if fate.Completes? then o.disk == Disk(Some(Strokes(n)), None) && o.ending == Returned(true) && o.saved == Some(Document(n))
      else o.disk == d.(tempFile := Some(Strokes(n))) && o.ending == Returned(false) && o.saved == None
  {
    var a := Attempt(Body(Strokes(n)), fate);
    assert [a][0] == a && [a][1..] == [];
    var t := EndpointTurn(dep.host, s, d, a, 0.0);
    assert t == DocumentTurn(dep.host, s, d, Document(n), fate, 0.0);
    assert SyncEndpoints(dep.host, t.state, t.disk, [], 0.0).state == t.state.(reachable := false);
  }

  const REQUEST := Evaluator.Request("read", "r", "a", 0.0, [], "", false)
  const ASK := Evaluate(REQUEST, 0.0, 5.0)

  lemma BundleReads(n: int)
    ensures var cfg := ReadConfig(BundleNo(n));
      cfg.requirements == [] && cfg.aplPolicies == [] && cfg.policies == [] && (n != 2 ==> cfg.revocations == []) &&
      (RevokesAgent(cfg, "a") <==> n == 2)
  {
    if n == 2 {
      assert ReadRevocation(REVOCATION) == Revocation(Some("a"), Some("agent"));
      assert ReadConfig(REVOKING).revocations == [Revocation(Some("a"), Some("agent"))];
      assert Revocation(Some("a"), Some("agent")) in ReadConfig(REVOKING).revocations;
    }
  }

  /** Agent "a" is approved under each of the configurations but the second. */
  lemma Answer(dep: Deployment, s: Snapshot, n: int)
    requires dep.offlinePolicy == "LIMITED_OFFLINE" && InForce(s) == Some(AppliedNo(n))
    ensures Decide(CallOf(dep, s, ASK)) == if n == 2 then AgentSuspended else Authorized
  {
    var c := CallOf(dep, s, ASK);
    BundleReads(n);
    var f := FindingsOf(c);
    assert !f.replayed && !f.expired && f.mode == Limited && !f.highValue;
    assert !f.administrative && !f.missesRequirement && !f.presentsRevoked;
    assert c.RuleVerdict() == Apl.Pass;
  }

  ghost predicate Caches(disk: Disk, m: nat) {
    m <= 3 && disk.cacheFile == if m == 0 then None else Some(Strokes(m))
  }

  /** Running with configuration `n` in force and configuration `m` cached; zero stands for none. */
  ghost predicate Stands(dep: Deployment, sys: System, n: nat, m: nat) {
    sys.Up? && IsSet(sys.state.gatewayId) && sys.state.publicKey == dep.publicKey && sys.state.version == n &&
    InForce(sys.state) == (if n == 0 then None else Some(AppliedNo(n))) && Caches(sys.disk, m)
  }

  lemma CachedIs(dep: Deployment, disk: Disk, m: nat)
    requires Caches(disk, m) && (m > 0 ==> ReadsDocument(dep, m))
    ensures CachedAs(dep.host, dep.publicKey, disk, true) == if m == 0 then None else Some(AppliedNo(m))
  {
    if m > 0 {
      assert LoadableAs(dep.host, dep.publicKey, Document(m)) == ActivatesAs(dep.host, Document(m));
    }
  }

  lemma StartAt(dep: Deployment, r: Run, k: nat, m: nat)
    requires IsRun(dep, r) && k < |r.events| && r.events[k] == Start(true, 0.0)
    requires IsSet(dep.gatewayId) && Caches(r.systems[k].disk, m) && (m > 0 ==> ReadsDocument(dep, m))
    ensures Stands(dep, r.systems[k + 1], m, m)
  {
    assert StepAt(dep, r, k);
    CachedIs(dep, r.systems[k].disk, m);
  }

  lemma OfferAt(dep: Deployment, r: Run, k: nat, n: nat, m: nat, offered: nat, fate: WriteFate)
    requires IsRun(dep, r) && k < |r.events| && r.events[k] == Offer(offered, fate)
    requires Stands(dep, r.systems[k], n, m) && n < offered <= 3 && ReadsDocument(dep, offered)
    requires fate.Completes? || fate.ReplaceFails?
    ensures Stands(dep, r.systems[k + 1], offered, if fate.Completes? then offered else m)
    ensures SavedAt(dep, r, k) == if fate.Completes? then Some(Document(offered)) else None
  {
    assert StepAt(dep, r, k);
    OfferActivates(dep, r.systems[k].state, r.systems[k].disk, offered, fate);
  }

  lemma AskAt(dep: Deployment, r: Run, k: nat, n: nat, m: nat)
    requires IsRun(dep, r) && k < |r.events| && r.events[k] == ASK
    requires dep.offlinePolicy == "LIMITED_OFFLINE" && Stands(dep, r.systems[k], n, m) && n > 0
    ensures Stands(dep, r.systems[k + 1], n, m)
    ensures OutcomeAt(dep, r, k) == Some(if n == 2 then AgentSuspended else Authorized)
  {
    assert StepAt(dep, r, k);
    Answer(dep, r.systems[k].state, n);
  }

  /** The first three events of both runs: a start, version 1 saved, version 2 activated. */
  lemma TwoUpdates(dep: Deployment, r: Run, fate: WriteFate)
    requires Serves(dep) && IsRun(dep, r) && |r.events| >= 3 && r.systems[0] == Down(Disk(None, None))
    requires r.events[0] == Start(true, 0.0) && r.events[1] == Offer(1, Completes) && r.events[2] == Offer(2, fate)
    requires fate.Completes? || fate.ReplaceFails?
    ensures SavedAt(dep, r, 1) == Some(Document(1))
    ensures SavedAt(dep, r, 2) == if fate.Completes? then Some(Document(2)) else None
    ensures Stands(dep, r.systems[3], 2, if fate.Completes? then 2 else 1)
    ensures Cached(dep, r.systems[3]) == Some(AppliedNo(if fate.Completes? then 2 else 1))
  {
    StartAt(dep, r, 0, 0);
    OfferAt(dep, r, 1, 0, 0, 1, Completes);
    OfferAt(dep, r, 2, 1, 1, 2, fate);
    CachedIs(dep, r.systems[3].disk, if fate.Completes? then 2 else 1);
  }

  function Updates(): seq<Event> {
    [Start(true, 0.0), Offer(1, Completes), Offer(2, Completes), Offer(3, Completes), ASK]
  }

  lemma UpdatesOutcomes(dep: Deployment, r: Run)
    requires Serves(dep) && IsRun(dep, r) && r.systems[0] == Down(Disk(None, None)) && r.events == Updates()
    ensures SavedAt(dep, r, 1) == Some(Document(1)) && SavedAt(dep, r, 2) == Some(Document(2))
    ensures r.systems[3].Up? && InForce(r.systems[3].state) == Some(AppliedNo(2)) == Cached(dep, r.systems[3])
    ensures OutcomeAt(dep, r, 4) == Some(Authorized)
  {
    TwoUpdates(dep, r, Completes);
    OfferAt(dep, r, 3, 2, 2, 3, Completes);
    AskAt(dep, r, 4, 3, 3);
  }

  lemma UpdatesReadable()
    ensures ReadableStorage(Updates())
  {
    forall k | 0 <= k < |Updates()| && Updates()[k].Start? ensures Updates()[k].readable {
      assert k == 0;
    }
  }

  function FailedWrite(): seq<Event> {
    [Start(true, 0.0), Offer(1, Completes), Offer(2, ReplaceFails), ASK, Start(true, 0.0), ASK]
  }

  lemma RestartForgets(dep: Deployment, r: Run)
    requires Serves(dep) && IsRun(dep, r) && |r.events| == 6 && Stands(dep, r.systems[3], 2, 1)
    requires r.events[3] == ASK && r.events[4] == Start(true, 0.0) && r.events[5] == ASK
    ensures OutcomeAt(dep, r, 3) == Some(AgentSuspended) && OutcomeAt(dep, r, 5) == Some(Authorized)
  {
    AskAt(dep, r, 3, 2, 1);
    StartAt(dep, r, 4, 1);
    AskAt(dep, r, 5, 1, 1);
  }

  lemma FailedWriteOutcomes(dep: Deployment, r: Run)
    requires Serves(dep) && IsRun(dep, r) && r.systems[0] == Down(Disk(None, None)) && r.events == FailedWrite()
    ensures r.systems[3].Up? && InForce(r.systems[3].state) == Some(AppliedNo(2))
    ensures Cached(dep, r.systems[3]) == Some(AppliedNo(1))
    ensures OutcomeAt(dep, r, 3) == Some(AgentSuspended) && OutcomeAt(dep, r, 5) == Some(Authorized)
  {
    TwoUpdates(dep, r, ReplaceFails);
    RestartForgets(dep, r);
  }

  lemma FailedWriteReadable()
    ensures ReadableStorage(FailedWrite())
  {
    forall k | 0 <= k < |FailedWrite()| && FailedWrite()[k].Start? ensures FailedWrite()[k].readable {
      assert k == 0 || k == 4;
    }
  }

  // ---------- one such deployment ----------

  predicate IsSignedMessage(message: string) {
    exists n :: 1 <= n <= 3 && message == ConfigString(Fields(n))
  }

  const HOST := Host(
    s => s,
    Canonical,
    (key, message, signature) => IsSignedMessage(message),
    s => if s == "" then None else Some(10.0),
    (doc: ConfigDocument) => if doc.version.Some? && 0 <= doc.version.value then Strokes(doc.version.value) else "",
    s => if 1 <= |s| <= 3 then Some(Document(|s|)) else None,
    _ => "",
    s => s,
    _ => None)

  const DEPLOYMENT := Deployment(HOST, "LIMITED_OFFLINE", Some("g"), Some("k"))

  lemma DigestOf(bundle: Json)
    ensures BundleSha256(HOST, bundle) == Canonical(bundle)
  {
  }

  lemma SignedReads(n: int)
    requires 1 <= n <= 3
    ensures Signed(n) in SIGNED && SignedFields(HOST, Signed(n)) == Fields(n)
  {
    DigestOf(BundleNo(n));
  }

  lemma DocumentVerifies(n: nat)
    requires 1 <= n <= 3
    ensures VerifyConfig(HOST, Document(n), "k")
  {
    assert FieldsOf(Document(n)) == Fields(n);
    assert IsSignedMessage(ConfigString(Fields(n)));
    DigestOf(HashedBundle(Document(n)));
  }

  lemma HostReads(n: nat)
    requires 1 <= n <= 3
    ensures ReadsDocument(DEPLOYMENT, n)
  {
    DocumentVerifies(n);
    assert HOST.parseIso(ExpiryText(Fields(n).expiresAt)) == Some(10.0);
  }

  lemma KeySignsOnly()
    ensures SignsOnly(HOST, "k", SIGNED)
  {
    forall m, sig | HOST.verifyEd25519("k", m, sig)
      ensures exists c :: c in SIGNED && m == ConfigString(SignedFields(HOST, c))
    {
      assert IsSignedMessage(m);
      var n :| 1 <= n <= 3 && m == ConfigString(Fields(n));
      SignedReads(n);
    }
  }

  lemma SignedIsOneLine(c: SignedConfig)
    requires c in SIGNED
    ensures OneLineTexts(HOST, c)
  {
    DigestOf(c.bundle);
  }

  lemma DigestsTellApart(n: int)
    ensures NoCollision(HOST, SIGNED, Document(n))
  {
    forall c | c in SIGNED && BundleSha256(HOST, c.bundle) == BundleSha256(HOST, HashedBundle(Document(n)))
      ensures c.bundle == HashedBundle(Document(n))
    {
      DigestOf(c.bundle);
      DigestOf(HashedBundle(Document(n)));
    }
  }

  lemma KeyIsTrusted()
    ensures TrustedKey(HOST, Some("k"), SIGNED)
  {
    KeySignsOnly();
    forall c | c in SIGNED ensures OneLineTexts(HOST, c) {
      SignedIsOneLine(c);
    }
    forall text | HOST.loadDocument(text).Some?
      ensures NoCollision(HOST, SIGNED, HOST.loadDocument(text).value)
    {
      DigestsTellApart(|text|);
    }
  }

  /** Every assumption the theorems about runs make of a host or a key, met at once. */
  lemma AssumptionsMeet()
    ensures StorageFaithful(DEPLOYMENT.host) && TrustedKey(DEPLOYMENT.host, DEPLOYMENT.publicKey, SIGNED)
    ensures Serves(DEPLOYMENT)
  {
    KeyIsTrusted();
    HostReads(1);
    HostReads(2);
    HostReads(3);
    forall text | HOST.loadDocument(text).Some?
      ensures SurvivesStorage(HOST, HOST.loadDocument(text).value)
    {
      HostReads(|text|);
    }
  }

  /**
   * A deployment and a run that meet the hypotheses of the theorems about runs, all at once: two
   * saved versions, then a cached configuration that revokes the agent, and at the end an approval.
   */
  lemma HypothesesMeet() returns (dep: Deployment, r: Run)
    ensures SoundRun(dep, r) && TrustedKey(dep.host, dep.publicKey, SIGNED) && r.events == Updates()
    ensures SavedAt(dep, r, 1) == Some(Document(1)) && SavedAt(dep, r, 2) == Some(Document(2))
    ensures r.systems[3].Up? && InForce(r.systems[3].state) == Some(AppliedNo(2)) == Cached(dep, r.systems[3])
    ensures RevokesAgent(ReadConfig(AppliedNo(2).bundle), REQUEST.agentId)
    ensures OutcomeAt(dep, r, 4) == Some(Authorized)
  {
    AssumptionsMeet();
    dep := DEPLOYMENT;
    r := EveryEventListRuns(dep, Disk(None, None), Updates());
    UpdatesOutcomes(dep, r);
    UpdatesReadable();
    BundleReads(2);
  }

  /**
   * The property that fails. Version 1 is cached; version 2 revokes agent "a", comes into force
   * and refuses it, but its cache write fails; after a restart that reads the cache, version 1
   * approves agent "a" again.
   */
  lemma RevocationLost() returns (dep: Deployment, r: Run)
    ensures SoundRun(dep, r) && TrustedKey(dep.host, dep.publicKey, SIGNED) && r.events == FailedWrite()
    ensures r.systems[3].Up? && InForce(r.systems[3].state) == Some(AppliedNo(2))
    ensures Cached(dep, r.systems[3]) == Some(AppliedNo(1))
    ensures OutcomeAt(dep, r, 3) == Some(AgentSuspended) && OutcomeAt(dep, r, 5) == Some(Authorized)
  {
    AssumptionsMeet();
    dep := DEPLOYMENT;
    r := EveryEventListRuns(dep, Disk(None, None), FailedWrite());
    FailedWriteOutcomes(dep, r);
    FailedWriteReadable();
  }
}
