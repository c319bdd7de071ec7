/** The shared runtime state of the sidecar (`sidecar/state.py`). */
module SidecarRuntime {
  import opened Wrappers
  import opened JsonValues

  datatype RequestResult =
    | LocalApproved | Approved | CentralCheckRequired | PendingHumanApproval | Rejected | FailClosed | Error

  datatype Metrics = Metrics(total: nat, approved: nat, rejected: nat, offline: nat, errors: nat)

  const NO_REQUESTS := Metrics(0, 0, 0, 0, 0)

  /** The state as a value. */
  datatype Snapshot = Snapshot(
    gatewayId: Option<string>,
    publicKey: Option<string>,
    version: int,
    activeConfig: Json,
    expiresAt: Option<real>,
    reachable: bool,
    lastSync: Option<real>,
    lastHeartbeat: Option<real>,
    nonces: map<string, real>,
    metrics: Metrics)
  {
    predicate Expired(now: real) {
      expiresAt.None? || now > expiresAt.value
    }
  }

  const INITIAL_CONFIG := Obj(map[
    "policies" := List([]),
    "trusted_issuers" := List([]),
    "credential_requirements" := List([]),
    "revocations" := List([]),
    "routing" := Obj(map["allowed_peer_gateways" := List([Text("*")]), "privacy_mode" := Text("DIRECT_PRIVATE")])])

  function Fresh(publicKey: Option<string>): Snapshot {
    Snapshot(None, publicKey, 0, INITIAL_CONFIG, None, true, None, None, map[], NO_REQUESTS)
  }

  function Recorded(m: Metrics, result: RequestResult, wasOffline: bool): Metrics {
    m.(total := m.total + 1,
       offline := m.offline + (if wasOffline then 1 else 0),
       approved := m.approved + (if result.LocalApproved? || result.Approved? then 1 else 0),
       rejected := m.rejected + (if result.Rejected? || result.FailClosed? then 1 else 0),
       errors := m.errors + (if result.Error? then 1 else 0))
  }

  /** Each request counts once in the total and in at most one of approved, rejected and errors, by its result. */
  lemma OneRequestRecorded(m: Metrics, result: RequestResult, wasOffline: bool)
    ensures var m' := Recorded(m, result, wasOffline);
      m'.total == m.total + 1 && m'.offline == m.offline + (if wasOffline then 1 else 0) &&
      (m'.approved, m'.rejected, m'.errors) == (
        if result in {LocalApproved, Approved} then (m.approved + 1, m.rejected, m.errors)
        else if result in {Rejected, FailClosed} then (m.approved, m.rejected + 1, m.errors)
        else if result == Error then (m.approved, m.rejected, m.errors + 1)
        else (m.approved, m.rejected, m.errors))
  {
  }

  class SidecarState {
    var gatewayId: Option<string>
    var controlPlanePublicKey: Option<string>
    var appliedConfigVersion: int
    var activeConfig: Json
    var configExpiresAt: Option<real>
    var controlPlaneReachable: bool
    var lastSyncTime: Option<real>
    var lastHeartbeatTime: Option<real>
    var processedNonces: map<string, real>
    var metrics: Metrics

    function Value(): Snapshot
      reads this
    {
      Snapshot(gatewayId, controlPlanePublicKey, appliedConfigVersion, activeConfig, configExpiresAt,
               controlPlaneReachable, lastSyncTime, lastHeartbeatTime, processedNonces, metrics)
    }

    /** A state as the process starts with it; the control-plane key is the deployment's setting. */
    constructor (publicKey: Option<string>)
      ensures Value() == Fresh(publicKey)
    {
      gatewayId, controlPlanePublicKey := None, publicKey;
      appliedConfigVersion, activeConfig, configExpiresAt := 0, INITIAL_CONFIG, None;
      controlPlaneReachable, lastSyncTime, lastHeartbeatTime := true, None, None;
      processedNonces, metrics := map[], NO_REQUESTS;
    }

    /** Version, bundle and expiry change together. */
    method UpdateConfig(newVersion: int, configBundle: Json, expiresAt: real, now: real)
      modifies this
      ensures Value() == old(Value()).(version := newVersion, activeConfig := configBundle,
                                       expiresAt := Some(expiresAt), lastSync := Some(now))
    {
      appliedConfigVersion := newVersion;
      activeConfig := configBundle;
      configExpiresAt := Some(expiresAt);
      lastSyncTime := Some(now);
    }

    method IsConfigExpired(now: real) returns (expired: bool)
      ensures expired == Value().Expired(now)
    {
      if configExpiresAt.None? {
        return true;
      }
      expired := now > configExpiresAt.value;
    }

    method RecordRequest(result: RequestResult, wasOffline: bool)
      modifies this`metrics
      ensures metrics == Recorded(old(metrics), result, wasOffline)
    {
      metrics := metrics.(total := metrics.total + 1);
      if wasOffline {
        metrics := metrics.(offline := metrics.offline + 1);
      }
      if result in {LocalApproved, Approved} {
        metrics := metrics.(approved := metrics.approved + 1);
      } else if result in {Rejected, FailClosed} {
        metrics := metrics.(rejected := metrics.rejected + 1);
      } else if result == Error {
        metrics := metrics.(errors := metrics.errors + 1);
      }
    }
  }
}
