/** Anti-rollback, restart, revocation and expiry over whole runs with power losses (`sidecar/sync.py`, `sidecar/storage.py`). */
module DurableConfiguration {
  import opened Wrappers
  import opened Text
  import opened Hosting
  import opened TrustConfiguration
  import opened Storage
  import opened Synchronization
  import opened FailoverProperties
  import opened Evaluator
  import opened EvaluatorProperties
  import opened DataPlane

  // ---------- the invariant of a run ----------

  ghost predicate Sound(dep: Deployment, sys: System) {
    sys.Up? ==> sys.state.publicKey == dep.publicKey && NotBehindCache(dep.host, sys.state, sys.disk)
  }

  /** What the cache would load, were the machine started now. */
  function Cached(dep: Deployment, sys: System): Option<Applied> {
    CachedAs(dep.host, dep.publicKey, sys.disk, true)
  }

  lemma SyncOutcomeProgress(dep: Deployment, sys: System, e: Event)
    requires StorageFaithful(dep.host) && Sound(dep, sys)
    requires SyncOutcomeOf(dep, sys, e).Some?
    ensures var o := SyncOutcomeOf(dep, sys, e).value;
      Progress(dep.host, sys.state, sys.disk, o.state, o.disk, o.saved)
  {
    match e
    case Synchronize(attempts, now) => SyncProgress(dep.host, sys.state, sys.disk, attempts, now);
    case Beat(replies, now) => HeartbeatProgress(dep.host, sys.state, sys.disk, replies, now);
  }

  lemma StepSound(dep: Deployment, sys: System, e: Event)
    requires StorageFaithful(dep.host) && Sound(dep, sys) && (e.Start? ==> e.readable)
    ensures Sound(dep, Step(dep, sys, e))
  {
    if SyncOutcomeOf(dep, sys, e).Some? {
      SyncOutcomeProgress(dep, sys, e);
    }
  }

  /** The runs considered: faithful storage that every start can read. */
  ghost predicate SoundRun(dep: Deployment, r: Run) {
    IsRun(dep, r) && StorageFaithful(dep.host) && ReadableStorage(r.events)
  }

  lemma {:induction false} AlwaysSound(dep: Deployment, r: Run, i: nat)
    requires SoundRun(dep, r) && i <= |r.events|
    ensures Sound(dep, r.systems[i])
  {
    if i > 0 {
      AlwaysSound(dep, r, i - 1);
      StepSound(dep, r.systems[i - 1], r.events[i - 1]);
      assert StepAt(dep, r, i - 1);
    }
  }

  // ---------- cached versions, and what a restart restores ----------

  function SavedBy(dep: Deployment, sys: System, e: Event): Option<ConfigDocument> {
    match SyncOutcomeOf(dep, sys, e)
    case None => None
    case Some(o) => o.saved
  }

  /** An event that saves nothing leaves what is cached; one that saves raises a positive cached version. */
  lemma CachedAfterStep(dep: Deployment, sys: System, e: Event)
    requires StorageFaithful(dep.host) && Sound(dep, sys)
    ensures var before, after := Cached(dep, sys), Cached(dep, Step(dep, sys, e));
      match SavedBy(dep, sys, e)
      case None => after == before
      case Some(doc) =>
        after == ActivatesAs(dep.host, doc) && after.Some? &&
        (before.Some? && before.value.version > 0 ==> after.value.version > before.value.version)
  {
    if SyncOutcomeOf(dep, sys, e).Some? {
      SyncOutcomeProgress(dep, sys, e);
    }
  }

  /** The document that event `k` gets into the cache file, if it does. */
  function SavedAt(dep: Deployment, r: Run, k: nat): Option<ConfigDocument>
    requires k < |r.events| < |r.systems|
  {
    SavedBy(dep, r.systems[k], r.events[k])
  }

  ghost predicate CachesAtLeast(dep: Deployment, sys: System, version: int) {
    Cached(dep, sys).Some? && Cached(dep, sys).value.version >= version
  }

  lemma {:induction false} CachedNeverDrops(dep: Deployment, r: Run, i: nat, j: nat, version: int)
    requires SoundRun(dep, r) && i <= j <= |r.events| && version > 0
    requires CachesAtLeast(dep, r.systems[i], version)
    ensures CachesAtLeast(dep, r.systems[j], version)
    decreases j
  {
    if i < j {
      CachedNeverDrops(dep, r, i, j - 1, version);
      AlwaysSound(dep, r, j - 1);
      CachedAfterStep(dep, r.systems[j - 1], r.events[j - 1]);
      assert StepAt(dep, r, j - 1);
    }
  }

  lemma CachedOnceSaved(dep: Deployment, r: Run, i: nat)
    requires SoundRun(dep, r) && i < |r.events| && SavedAt(dep, r, i).Some?
    ensures var before, after := Cached(dep, r.systems[i]), Cached(dep, r.systems[i + 1]);
      after == ActivatesAs(dep.host, SavedAt(dep, r, i).value) && after.Some? &&
      (before.Some? && before.value.version > 0 ==> after.value.version > before.value.version)
  {
    AlwaysSound(dep, r, i);
    CachedAfterStep(dep, r.systems[i], r.events[i]);
    assert StepAt(dep, r, i);
  }

  /**
   * Durable anti-rollback. Over any run with starts, failed writes and power losses at any point
   * of any cache write, of two documents that reach the cache the later has the higher version,
   * once the earlier is positive.
   */
  lemma SavedVersionsIncrease(dep: Deployment, r: Run, i: nat, j: nat)
    requires SoundRun(dep, r) && i < j < |r.events|
    requires SavedAt(dep, r, i).Some? && VersionOf(SavedAt(dep, r, i).value) > 0
    requires SavedAt(dep, r, j).Some?
    ensures VersionOf(SavedAt(dep, r, j).value) > VersionOf(SavedAt(dep, r, i).value)
  {
    CachedOnceSaved(dep, r, i);
    CachedNeverDrops(dep, r, i + 1, j, VersionOf(SavedAt(dep, r, i).value));
    CachedOnceSaved(dep, r, j);
  }

  ghost predicate NothingSaved(dep: Deployment, r: Run, i: nat, j: nat)
    requires j <= |r.events| < |r.systems|
  {
    forall k: nat {:trigger SavedAt(dep, r, k)} :: i <= k < j ==> SavedAt(dep, r, k).None?
  }

  lemma {:induction false} CachedUntilNextSave(dep: Deployment, r: Run, i: nat, j: nat)
    requires SoundRun(dep, r) && i <= j <= |r.events|
    requires NothingSaved(dep, r, i, j)
    ensures Cached(dep, r.systems[j]) == Cached(dep, r.systems[i])
    decreases j
  {
    if i < j {
      CachedUntilNextSave(dep, r, i, j - 1);
      AlwaysSound(dep, r, j - 1);
      assert SavedAt(dep, r, j - 1).None?;
      CachedAfterStep(dep, r.systems[j - 1], r.events[j - 1]);
      assert StepAt(dep, r, j - 1);
    }
  }

  /**
   * A start puts in force exactly the version, bundle and expiry of the document saved last,
   * however many power losses and failed writes lie in between.
   */
  lemma StartRestoresLastSaved(dep: Deployment, r: Run, i: nat, j: nat)
    requires SoundRun(dep, r) && i < j < |r.events| && r.events[j].Start?
    requires SavedAt(dep, r, i).Some? && NothingSaved(dep, r, i + 1, j)
    ensures r.systems[j + 1].Up? && InForce(r.systems[j + 1].state).Some?
    ensures InForce(r.systems[j + 1].state) == ActivatesAs(dep.host, SavedAt(dep, r, i).value)
  {
    CachedOnceSaved(dep, r, i);
    CachedUntilNextSave(dep, r, i + 1, j);
    assert StepAt(dep, r, j);
  }

  /**
   * Why the storage must be readable. Take a cached positive version and an acceptable document
   * that is not newer: a sync right after a start activates it iff that start could not read the cache.
   */
  lemma RollbackAfterStartIff(dep: Deployment, disk: Disk, text: string, doc: ConfigDocument, readable: bool, now: real)
    requires IsSet(dep.gatewayId) && dep.host.loadDocument(text) == Some(doc)
    requires CachedAs(dep.host, dep.publicKey, disk, true).Some?
    requires CachedAs(dep.host, dep.publicKey, disk, true).value.version > 0
    requires SignatureAccepted(dep.host, dep.publicKey, doc) && ActivatesAs(dep.host, doc).Some?
    requires VersionOf(doc) <= CachedAs(dep.host, dep.publicKey, disk, true).value.version
    ensures var o := Sync(dep.host, Started(dep, disk, readable, now), disk, [Attempt(Body(text), Completes)], now);
      o.ending == Returned(!readable)
  {
    var s := Started(dep, disk, readable, now);
    var a := Attempt(Body(text), Completes);
    assert [a][0] == a;
    var t := EndpointTurn(dep.host, s, disk, a, now);
    assert t.ended == Some(Returned(!readable));
  }

  // ---------- revocation ----------

  /** Event `k` is a sync, or a heartbeat with one, that put `a` in force where something else was. */
  ghost predicate ActivatedBy(dep: Deployment, r: Run, k: int, a: Option<Applied>)
    requires 0 <= k < |r.events| < |r.systems|
  {
    var o := SyncOutcomeOf(dep, r.systems[k], r.events[k]);
    o.Some? && InForce(r.systems[k].state) != a && InForce(o.value.state) == a
  }

  ghost predicate ActivatedBetween(dep: Deployment, r: Run, i: nat, j: nat, a: Option<Applied>)
    requires i <= j <= |r.events| < |r.systems|
  {
    exists k :: i <= k < j && ActivatedBy(dep, r, k, a)
  }

  /** `a` is still what it was at event `i`, or a sync since then activated it with a higher version. */
  ghost predicate SameOrNewer(dep: Deployment, r: Run, i: nat, j: nat, was: Applied, a: Option<Applied>)
    requires i <= j <= |r.events| < |r.systems|
  {
    a == Some(was) || (a.Some? && a.value.version > was.version && ActivatedBetween(dep, r, i, j, a))
  }

  /** What the machine has kept since event `i`: in memory and, when it was cached, on disk. */
  ghost predicate Holds(dep: Deployment, r: Run, i: nat, j: nat, was: Applied, cached: bool)
    requires i <= j <= |r.events| < |r.systems|
  {
    (r.systems[j].Up? ==> SameOrNewer(dep, r, i, j, was, InForce(r.systems[j].state))) &&
    (cached ==> SameOrNewer(dep, r, i, j, was, Cached(dep, r.systems[j])))
  }

  lemma SameOrNewerExtends(dep: Deployment, r: Run, i: nat, j: nat, was: Applied, a: Option<Applied>)
    requires i <= j < |r.events| < |r.systems| && SameOrNewer(dep, r, i, j, was, a)
    ensures SameOrNewer(dep, r, i, j + 1, was, a)
  {
    if a != Some(was) {
      var k :| i <= k < j && ActivatedBy(dep, r, k, a);
      assert i <= k < j + 1 && ActivatedBy(dep, r, k, a);
    }
  }

  /** In memory after a sync: what was there, or something newer that this very sync activated. */
  lemma SyncKeepsOrRenews(dep: Deployment, r: Run, i: nat, j: nat, was: Applied)
    requires SoundRun(dep, r) && i <= j < |r.events| && was.version > 0
    requires SyncOutcomeOf(dep, r.systems[j], r.events[j]).Some?
    requires SameOrNewer(dep, r, i, j, was, InForce(r.systems[j].state))
    ensures SameOrNewer(dep, r, i, j + 1, was, InForce(SyncOutcomeOf(dep, r.systems[j], r.events[j]).value.state))
  {
    var s := r.systems[j].state;
    var o := SyncOutcomeOf(dep, r.systems[j], r.events[j]).value;
    AlwaysSound(dep, r, j);
    SyncOutcomeProgress(dep, r.systems[j], r.events[j]);
    SameOrNewerExtends(dep, r, i, j, was, InForce(s));
    if InForce(o.state) != InForce(s) {
      assert o.state.version > s.version >= was.version;
      assert ActivatedBy(dep, r, j, InForce(o.state));
    }
  }

  lemma HoldsAfterSync(dep: Deployment, r: Run, i: nat, j: nat, was: Applied, cached: bool)
    requires SoundRun(dep, r) && i <= j < |r.events| && was.version > 0
    requires Holds(dep, r, i, j, was, cached)
    requires SyncOutcomeOf(dep, r.systems[j], r.events[j]).Some?
    ensures Holds(dep, r, i, j + 1, was, cached)
  {
    SyncKeepsOrRenews(dep, r, i, j, was);
    AlwaysSound(dep, r, j);
    SyncOutcomeProgress(dep, r.systems[j], r.events[j]);
    if cached {
      SameOrNewerExtends(dep, r, i, j, was, Cached(dep, r.systems[j]));
    }
    assert StepAt(dep, r, j);
  }

  lemma HoldsAfterEvent(dep: Deployment, r: Run, i: nat, j: nat, was: Applied, cached: bool)
    requires SoundRun(dep, r) && i <= j < |r.events| && was.version > 0
    requires Holds(dep, r, i, j, was, cached)
    requires cached || (r.systems[j].Up? && !r.events[j].Start?)
    ensures Holds(dep, r, i, j + 1, was, cached)
  {
    if SyncOutcomeOf(dep, r.systems[j], r.events[j]).Some? {
      HoldsAfterSync(dep, r, i, j, was, cached);
    } else {
      assert StepAt(dep, r, j);
      if r.systems[j].Up? {
        SameOrNewerExtends(dep, r, i, j, was, InForce(r.systems[j].state));
      }
      if cached {
        SameOrNewerExtends(dep, r, i, j, was, Cached(dep, r.systems[j]));
      }
    }
  }

  lemma {:induction false} HoldsThroughout(dep: Deployment, r: Run, i: nat, j: nat, was: Applied, cached: bool)
    requires SoundRun(dep, r) && i <= j <= |r.events| && was.version > 0
    requires Holds(dep, r, i, i, was, cached)
    requires cached || StaysUp(r, i, j)
    ensures Holds(dep, r, i, j, was, cached)
    decreases j
  {
    if i < j {
      HoldsThroughout(dep, r, i, j - 1, was, cached);
      HoldsAfterEvent(dep, r, i, j - 1, was, cached);
    }
  }

  /**
   * Once the configuration in force (positive version) revokes an agent, a call for that agent is
   * approved only under a bundle that omits the revocation and that a sync has since activated
   * with a higher version. Without a restart in between this needs nothing more; if the revoking
   * configuration had reached the cache, it also survives restarts and power losses.
   */
  lemma RevocationHolds(dep: Deployment, r: Run, i: nat, j: nat, was: Applied)
    requires SoundRun(dep, r) && i <= j < |r.events|
    requires r.systems[i].Up? && InForce(r.systems[i].state) == Some(was) && was.version > 0
    requires Cached(dep, r.systems[i]) == Some(was) || StaysUp(r, i, j)
    requires r.events[j].Evaluate? && OutcomeAt(dep, r, j) == Some(Authorized)
    requires RevokesAgent(ReadConfig(was.bundle), r.events[j].request.agentId)
    ensures var s := r.systems[j].state;
      s.version > was.version &&
      !RevokesAgent(ReadConfig(s.activeConfig), r.events[j].request.agentId) &&
      ActivatedBetween(dep, r, i, j, InForce(s))
  {
    HoldsThroughout(dep, r, i, j, was, Cached(dep, r.systems[i]) == Some(was));
    var c := CallOf(dep, r.systems[j].state, r.events[j]);
    ApprovedIff(c);
    RevokedFindings(c.Config(), c.request);
  }

  /**
   * Within one life of the process, whatever the endpoints offer and whether or not the cache could
   * be written: the configuration in force is the same, or a newer one that a sync activated.
   */
  lemma RunningConfigurationNeverRollsBack(dep: Deployment, r: Run, i: nat, j: nat, was: Applied)
    requires SoundRun(dep, r) && i <= j <= |r.events| && StaysUp(r, i, j)
    requires r.systems[i].Up? && InForce(r.systems[i].state) == Some(was) && was.version > 0
    ensures SameOrNewer(dep, r, i, j, was, InForce(r.systems[j].state))
  {
    HoldsThroughout(dep, r, i, j, was, false);
  }

  // ---------- exactly when nothing is lost ----------

  /** Run `r'` begins as `r`. */
  ghost predicate Continues(r: Run, r': Run) {
    |r.systems| == |r.events| + 1 && |r'.systems| == |r'.events| + 1 && |r.events| <= |r'.events| &&
    r'.events[..|r.events|] == r.events && r'.systems[..|r.systems|] == r.systems
  }

  /** Where run `r` ends, `was` is in force; at event `j` of run `r'` it, or something newer, still is. */
  ghost predicate KeptAt(dep: Deployment, r: Run, r': Run, j: nat, was: Applied) {
    Continues(r, r') && SoundRun(dep, r') && |r.events| <= j <= |r'.events| && r'.systems[j].Up? ==>
      SameOrNewer(dep, r', |r.events|, j, was, InForce(r'.systems[j].state))
  }

  lemma CachedIsKept(dep: Deployment, r: Run, r': Run, j: nat, was: Applied)
    requires SoundRun(dep, r) && was.version > 0
    requires var sys := r.systems[|r.events|];
      sys.Up? && InForce(sys.state) == Some(was) && Cached(dep, sys) == Some(was)
    ensures KeptAt(dep, r, r', j, was)
  {
    var n := |r.events|;
    if Continues(r, r') && SoundRun(dep, r') && n <= j <= |r'.events| {
      assert r'.systems[n] == r'.systems[..|r.systems|][n] == r.systems[n];
      HoldsThroughout(dep, r', n, j, was, true);
    }
  }

  lemma UncachedIsLost(dep: Deployment, r: Run, was: Applied) returns (r': Run)
    requires SoundRun(dep, r) && was.version > 0
    requires r.systems[|r.events|].Up? && Cached(dep, r.systems[|r.events|]) != Some(was)
    ensures !KeptAt(dep, r, r', |r.events| + 1, was)
  {
    var n := |r.events|;
    var start := Start(true, 0.0);
    var last := Step(dep, r.systems[n], start);
    ExtendRun(dep, r, start, last);
    r' := Run(r.systems + [last], r.events + [start]);
    assert Continues(r, r') && SoundRun(dep, r');
    assert InForce(last.state) == Cached(dep, r.systems[n]);
  }

  /**
   * Exactly when a configuration in force cannot be lost to an older one. Every continuation, with
   * any starts and power losses, keeps it or something newer iff it is what the cache holds, that
   * is, iff the write that should have saved it did not fail.
   */
  lemma NeverRollsBackIffCached(dep: Deployment, r: Run, was: Applied)
    requires SoundRun(dep, r) && was.version > 0
    requires r.systems[|r.events|].Up? && InForce(r.systems[|r.events|].state) == Some(was)
    ensures (forall r', j :: KeptAt(dep, r, r', j, was)) <==> Cached(dep, r.systems[|r.events|]) == Some(was)
  {
    if Cached(dep, r.systems[|r.events|]) == Some(was) {
      forall r', j ensures KeptAt(dep, r, r', j, was) {
        CachedIsKept(dep, r, r', j, was);
      }
    } else {
      var r' := UncachedIsLost(dep, r, was);
    }
  }

  // ---------- expiry ----------

  /** Event `k` puts a configuration in force: a start that loads one, or a sync that changes it. */
  ghost predicate Installs(r: Run, k: nat)
    requires k < |r.events| && |r.systems| == |r.events| + 1
  {
    var sys, sys' := r.systems[k], r.systems[k + 1];
    sys'.Up? && InForce(sys'.state).Some? &&
    (sys.Down? || r.events[k].Start? || InForce(sys'.state) != InForce(sys.state))
  }

  /** Without such an event nothing is in force, or still what was at event `i`. */
  lemma {:induction false} InForceWithoutInstall(r: Run, i: nat, j: nat)
    requires i <= j <= |r.events| && |r.systems| == |r.events| + 1
    requires forall k :: i <= k < j ==> !Installs(r, k)
    requires r.systems[j].Up? && InForce(r.systems[j].state).Some?
    ensures r.systems[i].Up? && InForce(r.systems[j].state) == InForce(r.systems[i].state)
    decreases j
  {
    if i < j {
      assert !Installs(r, j - 1);
      InForceWithoutInstall(r, i, j - 1);
    }
  }

  /**
   * From a moment at which nothing is in force, or what is has expired by the clock `since`, no
   * later call is approved until an event installs a configuration. The start of a run is such a moment.
   */
  lemma NothingApprovedUntilInstall(dep: Deployment, r: Run, i: nat, j: nat, since: real)
    requires IsRun(dep, r) && i <= j < |r.events|
    requires r.systems[i].Up? ==> r.systems[i].state.Expired(since)
    requires r.events[j].Evaluate? && r.events[j].now >= since
    requires forall k :: i <= k < j ==> !Installs(r, k)
    ensures OutcomeAt(dep, r, j) != Some(Authorized)
  {
    if r.systems[j].Up? {
      ApprovedIff(CallOf(dep, r.systems[j].state, r.events[j]));
      if InForce(r.systems[j].state).Some? {
        InForceWithoutInstall(r, i, j);
      }
    }
  }

  /** A start puts an expired cached configuration in force all the same; it is the evaluator that then refuses. */
  lemma ExpiredCacheLoadsAndRefuses(dep: Deployment, disk: Disk, a: Applied, started: real, e: Event)
    requires CachedAs(dep.host, dep.publicKey, disk, true) == Some(a) && started > a.expiresAt
    requires e.Evaluate? && IsAscii(e.request.nonce) && e.now >= started
    ensures InForce(Started(dep, disk, true, started)) == Some(a)
    ensures Decide(CallOf(dep, Started(dep, disk, true, started), e)) == ConfigExpired
  {
    var c := CallOf(dep, Started(dep, disk, true, started), e);
    assert c.LiveNonces() == map[];
    assert NonceStage(FindingsOf(c)).None?;
  }
}
