/** What the failover loop of a sync amounts to, and what a sync keeps (`sidecar/sync.py`). */
module FailoverProperties {
  import opened Wrappers
  import opened Hosting
  import opened SidecarRuntime
  import opened Storage
  import opened Synchronization

  // ---------- the first endpoint that is not a failure decides ----------

  /** What an endpoint's answer means to a sidecar in state `s`. */
  datatype Verdict =
    | Fails
    | FailsAfterActivating
    | Unchanged
    | BadSignature
    | RollbackRefused
    | Activates
    | Dies

  function VerdictOf(host: Host, s: Snapshot, a: Attempt): Verdict {
    if a.reply.NotModified? then Unchanged
    else match DocumentIn(host, a.reply)
      case None => Fails
      case Some(doc) =>
        if !SignatureAccepted(host, s.publicKey, doc) then BadSignature
        else if s.version > 0 && VersionOf(doc) <= s.version then RollbackRefused
        else if ActivatesAs(host, doc).None? then Fails
        else match SaveResultOf(a.fate)
          case Saved => Activates
          case SaveRaised => FailsAfterActivating
          case PowerLost => Dies
  }

  predicate IsFailure(v: Verdict) {
    v == Fails || v == FailsAfterActivating
  }

  /** The state that failing endpoints hand on: an activation whose cache write failed stays in force. */
  function Carried(host: Host, s: Snapshot, attempts: seq<Attempt>, now: real): Snapshot
    decreases |attempts|
  {
    if attempts == [] then s
    else
      var a := attempts[0];
      var s' :=
        match DocumentIn(host, a.reply)
        case Some(doc) =>
          if VerdictOf(host, s, a) == FailsAfterActivating
          then WithApplied(s.(reachable := true), ActivatesAs(host, doc).value, now)
          else s.(reachable := true)
        case None => s;
      Carried(host, s', attempts[1..], now)
  }

  /** Endpoint `k`, reached through failures only, meets a state handed on by them. */
  ghost predicate AllFailBefore(host: Host, s: Snapshot, attempts: seq<Attempt>, now: real, k: nat)
    requires k <= |attempts|
  {
    forall j :: 0 <= j < k ==> IsFailure(VerdictOf(host, Carried(host, s, attempts[..j], now), attempts[j]))
  }

  lemma CarriedPeels(host: Host, s: Snapshot, attempts: seq<Attempt>, now: real, j: nat)
    requires 0 < j <= |attempts|
    ensures Carried(host, s, attempts[..j], now)
         == Carried(host, Carried(host, s, attempts[..1], now), attempts[1..][..j - 1], now)
  {
    assert attempts[..j][0] == attempts[0] && attempts[..j][1..] == attempts[1..][..j - 1];
    assert attempts[..1][0] == attempts[0] && attempts[..1][1..] == [];
  }

  lemma FailingTurn(host: Host, s: Snapshot, d: Disk, a: Attempt, now: real)
    ensures IsFailure(VerdictOf(host, s, a)) <==> EndpointTurn(host, s, d, a, now).ended.None?
    ensures IsFailure(VerdictOf(host, s, a)) ==> EndpointTurn(host, s, d, a, now).state == Carried(host, s, [a], now)
  {
    assert [a][1..] == [];
  }

  /**
   * The outcome is that of the first endpoint `k` that is not a failure, judged in the state the
   * failures before it handed on; with no such endpoint nothing is activated by the return value
   * and the control plane counts as unreachable.
   */
  lemma {:induction false} FirstDecisiveEndpoint(host: Host, s: Snapshot, d: Disk, attempts: seq<Attempt>, now: real)
    returns (k: nat)
    ensures k <= |attempts| && AllFailBefore(host, s, attempts, now, k)
    ensures var o := SyncEndpoints(host, s, d, attempts, now);
      var met := Carried(host, s, attempts[..k], now);
      if k == |attempts| then
        o.state == met.(reachable := false) && o.ending == Returned(false)
      else
        var v := VerdictOf(host, met, attempts[k]);
        !IsFailure(v) && o.state.reachable &&
        o.ending == (if v == Dies then Lost else Returned(v == Activates)) &&
        (v == Activates || v == Dies
         ==> DocumentIn(host, attempts[k].reply).Some? &&
             ActivatesAs(host, DocumentIn(host, attempts[k].reply).value).Some? &&
             o.state == WithApplied(met.(reachable := true), ActivatesAs(host, DocumentIn(host, attempts[k].reply).value).value, now)) &&
        (v == BadSignature || v == RollbackRefused ==> o.state == met.(reachable := true)) &&
        (v == Unchanged ==> o.state == met.(reachable := true, lastSync := Some(now)))
    decreases |attempts|
  {
    if attempts == [] {
      k := 0;
      return;
    }
    var t := EndpointTurn(host, s, d, attempts[0], now);
    FailingTurn(host, s, d, attempts[0], now);
    if t.ended.Some? {
      k := 0;
      assert attempts[..0] == [];
      return;
    }
    assert attempts[..1] == [attempts[0]] && attempts[..0] == [];
    var rest := attempts[1..];
    var k' := FirstDecisiveEndpoint(host, t.state, t.disk, rest, now);
    k := k' + 1;
    CarriedPeels(host, s, attempts, now, k);
    forall j | 0 <= j < k
      ensures IsFailure(VerdictOf(host, Carried(host, s, attempts[..j], now), attempts[j]))
    {
      if j > 0 {
        CarriedPeels(host, s, attempts, now, j);
        assert attempts[j] == rest[j - 1];
      }
    }
  }

  /**
   * A heartbeat ends with the first endpoint that acknowledges it: unless that endpoint asks for
   * a sync it only marks the control plane reachable; with none, unreachable. Apart from the
   * nested sync nothing it does can change the configuration or the cache.
   */
  lemma {:induction false} FirstAcknowledgement(host: Host, s: Snapshot, d: Disk, replies: seq<HeartbeatReply>, now: real)
    returns (k: nat)
    ensures k <= |replies| && forall j :: 0 <= j < k ==> replies[j].NoAnswer?
    ensures var o := HeartbeatEndpoints(host, s, d, replies, now);
      var beaten := s.(reachable := true, lastHeartbeat := Some(now));
      if k == |replies| then
        o.state == s.(reachable := false) && o.disk == d && o.ending == Returned(false)
      else
        replies[k].Acknowledged? &&
        if !replies[k].syncRequired then o.state == beaten && o.disk == d && o.ending == Returned(true)
        else
          var nested := Sync(host, beaten, d, replies[k].attempts, now);
          o.state == nested.state && o.disk == nested.disk && o.ending == (if nested.ending.Lost? then Lost else Returned(true))
    decreases |replies|
  {
    if replies == [] || replies[0].Acknowledged? {
      k := 0;
    } else {
      var k' := FirstAcknowledgement(host, s, d, replies[1..], now);
      k := k' + 1;
    }
  }

  // ---------- what a sync keeps and raises ----------

  /** Version, bundle and expiry in force, once there is an expiry. */
  function InForce(s: Snapshot): Option<Applied> {
    if s.expiresAt.None? then None else Some(Applied(s.version, s.activeConfig, s.expiresAt.value))
  }

  /** The running version is at least the cached one, when that is positive. */
  ghost predicate NotBehindCache(host: Host, s: Snapshot, d: Disk) {
    var cached := CachedAs(host, s.publicKey, d, true);
    cached.Some? && cached.value.version > 0 ==> s.version >= cached.value.version
  }

  /** From (s, d) to (s', d'): versions only rise, and what was saved is what is now in force and loadable. */
  ghost predicate Progress(host: Host, s: Snapshot, d: Disk, s': Snapshot, d': Disk, saved: Option<ConfigDocument>) {
    s'.publicKey == s.publicKey && s'.gatewayId == s.gatewayId &&
    s'.nonces == s.nonces && s'.metrics == s.metrics &&
    NotBehindCache(host, s', d') &&
    (InForce(s).Some? ==> InForce(s').Some?) &&
    ((InForce(s') == InForce(s) && s'.version == s.version) || (s.version > 0 ==> s'.version > s.version)) &&
    (saved.None? ==> d'.cacheFile == d.cacheFile) &&
    (saved.Some? ==>
      InForce(s') == ActivatesAs(host, saved.value) && InForce(s').Some? &&
      CachedAs(host, s.publicKey, d', true) == InForce(s') &&
      (s.version > 0 ==> s'.version > s.version) &&
      var cached := CachedAs(host, s.publicKey, d, true);
      cached.Some? && cached.value.version > 0 ==> s'.version > cached.value.version)
  }

  /** Every document a sync can persist is one the startup load accepts, with the same result. */
  lemma SavedIsLoadable(host: Host, publicKey: Option<string>, doc: ConfigDocument)
    requires StorageFaithful(host)
    requires SignatureAccepted(host, publicKey, doc) && ActivatesAs(host, doc).Some?
    ensures LoadableAs(host, publicKey, doc) == ActivatesAs(host, doc)
  {
    assert ExpiryText("") == "";
  }

  lemma DiskAfterSaveHolds(host: Host, publicKey: Option<string>, d: Disk, doc: ConfigDocument, fate: WriteFate)
    requires StorageFaithful(host) && SurvivesStorage(host, doc)
    requires SignatureAccepted(host, publicKey, doc) && ActivatesAs(host, doc).Some?
    ensures var d' := DiskAfterSave(d, host.dumpDocument(doc), fate);
      if Replaces(fate) then CachedAs(host, publicKey, d', true) == ActivatesAs(host, doc)
      else d'.cacheFile == d.cacheFile
  {
    SavedIsLoadable(host, publicKey, doc);
  }

  lemma ActivationProgress(host: Host, s: Snapshot, d: Disk, doc: ConfigDocument, fate: WriteFate, now: real)
    requires StorageFaithful(host) && SurvivesStorage(host, doc) && NotBehindCache(host, s, d)
    requires SignatureAccepted(host, s.publicKey, doc) && !RollbackBlocked(s, doc) && ActivatesAs(host, doc).Some?
    ensures var t := DocumentTurn(host, s, d, doc, fate, now);
      Progress(host, s, d, t.state, t.disk, t.saved) && (t.ended.None? ==> t.saved.None?)
  {
    DiskAfterSaveHolds(host, s.publicKey, d, doc, fate);
    var t := DocumentTurn(host, s, d, doc, fate, now);
    var a := ActivatesAs(host, doc).value;
    assert t.state == WithApplied(s.(reachable := true), a, now);
    assert t.disk == DiskAfterSave(d, host.dumpDocument(doc), fate);
    assert InForce(t.state) == Some(a) && t.state.version == a.version == VersionOf(doc);
  }

  lemma TurnProgress(host: Host, s: Snapshot, d: Disk, a: Attempt, now: real)
    requires StorageFaithful(host) && NotBehindCache(host, s, d)
    ensures var t := EndpointTurn(host, s, d, a, now);
      Progress(host, s, d, t.state, t.disk, t.saved) && (t.ended.None? ==> t.saved.None?)
  {
    if DocumentIn(host, a.reply).Some? {
      var doc := DocumentIn(host, a.reply).value;
      assert SurvivesStorage(host, doc);
      if SignatureAccepted(host, s.publicKey, doc) && !RollbackBlocked(s, doc) && ActivatesAs(host, doc).Some? {
        ActivationProgress(host, s, d, doc, a.fate, now);
      }
    }
  }

  lemma ProgressComposes(host: Host, s: Snapshot, d: Disk, s1: Snapshot, d1: Disk,
                         s2: Snapshot, d2: Disk, saved: Option<ConfigDocument>)
    requires Progress(host, s, d, s1, d1, None) && Progress(host, s1, d1, s2, d2, saved)
    ensures Progress(host, s, d, s2, d2, saved)
  {
  }

  lemma {:induction false} EndpointsProgress(host: Host, s: Snapshot, d: Disk, attempts: seq<Attempt>, now: real)
    requires StorageFaithful(host) && NotBehindCache(host, s, d)
    ensures var o := SyncEndpoints(host, s, d, attempts, now);
      Progress(host, s, d, o.state, o.disk, o.saved)
    decreases |attempts|
  {
    if attempts != [] {
      var t := EndpointTurn(host, s, d, attempts[0], now);
      TurnProgress(host, s, d, attempts[0], now);
      if t.ended.None? {
        EndpointsProgress(host, t.state, t.disk, attempts[1..], now);
        var o := SyncEndpoints(host, t.state, t.disk, attempts[1..], now);
        ProgressComposes(host, s, d, t.state, t.disk, o.state, o.disk, o.saved);
      }
    }
  }

  lemma SyncProgress(host: Host, s: Snapshot, d: Disk, attempts: seq<Attempt>, now: real)
    requires StorageFaithful(host) && NotBehindCache(host, s, d)
    ensures var o := Sync(host, s, d, attempts, now);
      Progress(host, s, d, o.state, o.disk, o.saved)
  {
    EndpointsProgress(host, s, d, attempts, now);
  }

  lemma {:induction false} HeartbeatEndpointsProgress(host: Host, s: Snapshot, d: Disk, replies: seq<HeartbeatReply>, now: real)
    requires StorageFaithful(host) && NotBehindCache(host, s, d)
    ensures var o := HeartbeatEndpoints(host, s, d, replies, now);
      Progress(host, s, d, o.state, o.disk, o.saved)
    decreases |replies|
  {
    if replies != [] {
      match replies[0]
      case NoAnswer => HeartbeatEndpointsProgress(host, s, d, replies[1..], now);
      case Acknowledged(syncRequired, attempts) =>
        var s1 := s.(reachable := true, lastHeartbeat := Some(now));
        SyncProgress(host, s1, d, attempts, now);
        var o := Sync(host, s1, d, attempts, now);
        ProgressComposes(host, s, d, s1, d, o.state, o.disk, o.saved);
    }
  }

  lemma HeartbeatProgress(host: Host, s: Snapshot, d: Disk, replies: seq<HeartbeatReply>, now: real)
    requires StorageFaithful(host) && NotBehindCache(host, s, d)
    ensures var o := Heartbeat(host, s, d, replies, now);
      Progress(host, s, d, o.state, o.disk, o.saved)
  {
    HeartbeatEndpointsProgress(host, s, d, replies, now);
  }
}
