/** Configuration sync with endpoint failover, and the heartbeat that may nest one (`sidecar/sync.py`). */
module Synchronization {
  import opened Wrappers
  import opened Hosting
  import opened ConfigSigning
  import opened SidecarRuntime
  import opened Storage

  /** What one endpoint answers. `NoReply` is every error status and exception before there is a body. */
  datatype Reply = NotModified | NoReply | Body(text: string)

  /** The document an answer carries, if its body decodes to one. */
  function DocumentIn(host: Host, reply: Reply): Option<ConfigDocument> {
    if reply.Body? then host.loadDocument(reply.text) else None
  }

  /** One endpoint's turn: its answer, and how the cache write goes should there be one. */
  datatype Attempt = Attempt(reply: Reply, fate: WriteFate)

  /** A sync returns whether it activated a configuration, or the power goes off under it. */
  datatype Ending = Returned(result: bool) | Lost

  /** `saved` is the document that reached the cache file, if one did. */
  datatype SyncOutcome = SyncOutcome(state: Snapshot, disk: Disk, ending: Ending, saved: Option<ConfigDocument>)

  /** What an activation of the document would put in force; None when its expiry does not parse. */
  function ActivatesAs(host: Host, doc: ConfigDocument): Option<Applied> {
    match host.parseIso(ExpiryText(if doc.expiresAt.Some? then doc.expiresAt.value else ""))
    case None => None
    case Some(t) => Some(Applied(VersionOf(doc), BundleOf(doc), t))
  }

  predicate RollbackBlocked(s: Snapshot, doc: ConfigDocument) {
    VersionOf(doc) <= s.version && s.version > 0
  }

  /** One endpoint's turn: where it leaves things, and whether the loop ends with it. */
  datatype Turn = Turn(state: Snapshot, disk: Disk, ended: Option<Ending>, saved: Option<ConfigDocument>)

  function DocumentTurn(host: Host, s: Snapshot, d: Disk, doc: ConfigDocument, fate: WriteFate, now: real): Turn {
    var s1 := s.(reachable := true);
    if !SignatureAccepted(host, s.publicKey, doc) || RollbackBlocked(s, doc) then
      Turn(s1, d, Some(Returned(false)), None)
    else
      match ActivatesAs(host, doc)
      case None => Turn(s1, d, None, None)
      case Some(a) =>
        Turn(WithApplied(s1, a, now), DiskAfterSave(d, host.dumpDocument(doc), fate),
             match SaveResultOf(fate)
             case Saved => Some(Returned(true))
             case SaveRaised => None
             case PowerLost => Some(Lost),
             if Replaces(fate) then Some(doc) else None)
  }

  function EndpointTurn(host: Host, s: Snapshot, d: Disk, a: Attempt, now: real): Turn {
    match a.reply
    case NotModified => Turn(s.(reachable := true, lastSync := Some(now)), d, Some(Returned(false)), None)
    case NoReply => Turn(s, d, None, None)
    case Body(text) =>
      match host.loadDocument(text)
      case None => Turn(s, d, None, None)
      case Some(doc) => DocumentTurn(host, s, d, doc, a.fate, now)
  }

  function SyncEndpoints(host: Host, s: Snapshot, d: Disk, attempts: seq<Attempt>, now: real): SyncOutcome
    decreases |attempts|
  {
    if attempts == [] then SyncOutcome(s.(reachable := false), d, Returned(false), None)
    else
      var t := EndpointTurn(host, s, d, attempts[0], now);
      if t.ended.Some? then SyncOutcome(t.state, t.disk, t.ended.value, t.saved)
      else SyncEndpoints(host, t.state, t.disk, attempts[1..], now)
  }

  function Sync(host: Host, s: Snapshot, d: Disk, attempts: seq<Attempt>, now: real): SyncOutcome {
    if !IsSet(s.gatewayId) then SyncOutcome(s, d, Returned(false), None)
    else SyncEndpoints(host, s, d, attempts, now)
  }

  /** What one endpoint answers to a heartbeat; an acknowledgement may ask for a sync. */
  datatype HeartbeatReply = NoAnswer | Acknowledged(syncRequired: bool, attempts: seq<Attempt>)

  function HeartbeatEndpoints(host: Host, s: Snapshot, d: Disk, replies: seq<HeartbeatReply>, now: real): SyncOutcome
    decreases |replies|
  {
    if replies == [] then SyncOutcome(s.(reachable := false), d, Returned(false), None)
    else
      match replies[0]
      case NoAnswer => HeartbeatEndpoints(host, s, d, replies[1..], now)
      case Acknowledged(syncRequired, attempts) =>
        var s1 := s.(reachable := true, lastHeartbeat := Some(now));
        if !syncRequired then SyncOutcome(s1, d, Returned(true), None)
        else
          var o := Sync(host, s1, d, attempts, now);
          o.(ending := if o.ending.Lost? then Lost else Returned(true))
  }

  function Heartbeat(host: Host, s: Snapshot, d: Disk, replies: seq<HeartbeatReply>, now: real): SyncOutcome {
    if !IsSet(s.gatewayId) then SyncOutcome(s, d, Returned(false), None)
    else HeartbeatEndpoints(host, s, d, replies, now)
  }

  /** The primary control plane, then the secondary when one is configured. */
  function Endpoints(primary: string, secondary: Option<string>): seq<string> {
    [primary] + (if IsSet(secondary) then [secondary.value] else [])
  }

  // ---------- the loops ----------

  /** The body of one turn once a document has arrived; None means that an exception moved the loop on. */
  method ApplyDocument(state: SidecarState, dir: CacheDirectory, host: Host, doc: ConfigDocument,
                       fate: WriteFate, now: real) returns (ended: Option<Ending>)
    modifies state, dir
    ensures var t := DocumentTurn(host, old(state.Value()), old(dir.Value()), doc, fate, now);
      state.Value() == t.state && dir.Value() == t.disk && ended == t.ended
  {
    state.controlPlaneReachable := true;
    if IsSet(state.controlPlanePublicKey) {
      if !VerifyConfig(host, doc, state.controlPlanePublicKey.value) {
        return Some(Returned(false));
      }
    }
    var newVersion := VersionOf(doc);
    if newVersion <= state.appliedConfigVersion && state.appliedConfigVersion > 0 {
      return Some(Returned(false));
    }
    var expiresAt := host.parseIso(ExpiryText(if doc.expiresAt.Some? then doc.expiresAt.value else ""));
    if expiresAt.None? {
      return None;
    }
    state.UpdateConfig(newVersion, BundleOf(doc), expiresAt.value, now);
    var r := dir.SaveConfigCache(host, doc, fate);
    match r
    case Saved => return Some(Returned(true));
    case SaveRaised => return None;
    case PowerLost => return Some(Lost);
  }

  /** `attempts[i]` is what endpoint `i` answers; a power loss stops the method where it stands. */
  method SyncConfiguration(state: SidecarState, dir: CacheDirectory, host: Host,
                           primary: string, secondary: Option<string>, attempts: seq<Attempt>, now: real)
    returns (ending: Ending)
    requires |attempts| == |Endpoints(primary, secondary)|
    modifies state, dir
    ensures var o := Sync(host, old(state.Value()), old(dir.Value()), attempts, now);
      state.Value() == o.state && dir.Value() == o.disk && ending == o.ending
  {
    if !IsSet(state.gatewayId) {
      return Returned(false);
    }
    var endpoints := Endpoints(primary, secondary);
    var i := 0;
    while i < |endpoints|
      invariant 0 <= i <= |endpoints| == |attempts|
      invariant SyncEndpoints(host, old(state.Value()), old(dir.Value()), attempts, now)
             == SyncEndpoints(host, state.Value(), dir.Value(), attempts[i..], now)
      decreases |endpoints| - i
    {
      assert attempts[i..][1..] == attempts[i + 1..];
      match attempts[i].reply {
      case NotModified =>
        state.controlPlaneReachable := true;
        state.lastSyncTime := Some(now);
        return Returned(false);
      case NoReply =>
      case Body(text) =>
        var decoded := host.loadDocument(text);
        if decoded.Some? {
          var ended := ApplyDocument(state, dir, host, decoded.value, attempts[i].fate, now);
          if ended.Some? {
            return ended.value;
          }
        }
      }
      i := i + 1;
    }
    state.controlPlaneReachable := false;
    return Returned(false);
  }

  method SendHeartbeat(state: SidecarState, dir: CacheDirectory, host: Host,
                       primary: string, secondary: Option<string>, replies: seq<HeartbeatReply>, now: real)
    returns (ending: Ending)
    requires |replies| == |Endpoints(primary, secondary)|
    requires forall r :: r in replies && r.Acknowledged? ==> |r.attempts| == |Endpoints(primary, secondary)|
    modifies state, dir
    ensures var o := Heartbeat(host, old(state.Value()), old(dir.Value()), replies, now);
      state.Value() == o.state && dir.Value() == o.disk && ending == o.ending
  {
    if !IsSet(state.gatewayId) {
      return Returned(false);
    }
    var endpoints := Endpoints(primary, secondary);
    var i := 0;
    while i < |endpoints|
      invariant 0 <= i <= |endpoints|
      invariant state.Value() == old(state.Value()) && dir.Value() == old(dir.Value())
      invariant HeartbeatEndpoints(host, old(state.Value()), old(dir.Value()), replies, now)
             == HeartbeatEndpoints(host, old(state.Value()), old(dir.Value()), replies[i..], now)
      decreases |endpoints| - i
    {
      assert replies[i..][1..] == replies[i + 1..];
      match replies[i] {
      case NoAnswer =>
      case Acknowledged(syncRequired, attempts) =>
        assert replies[i] in replies;
        state.controlPlaneReachable := true;
        state.lastHeartbeatTime := Some(now);
        if syncRequired {
          var nested := SyncConfiguration(state, dir, host, primary, secondary, attempts, now);
          if nested.Lost? {
            return Lost;
          }
        }
        return Returned(true);
      }
      i := i + 1;
    }
    state.controlPlaneReachable := false;
    return Returned(false);
  }
}
