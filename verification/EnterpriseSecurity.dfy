/** Organization security policy and SSO connections (`backend/app/api/enterprise_security.py`). */
module EnterpriseSecurity {
  import opened Wrappers

  datatype HttpError =
    | BadRequest400 | Forbidden403 | NotFound404 | Conflict409 | ServerError500 | BadGateway502

  datatype Outcome = Done | Refused(error: HttpError)

  datatype Status = Draft | Active | Disabled

  datatype Policy = Policy(requireMfa: bool, requireSso: bool, sessionTimeout: int, maxLifetime: int)

  /** What an organization without a stored policy has. */
  const DEFAULT_POLICY := Policy(false, false, 15, 1440)

  datatype Connection = Connection(organizationId: string, status: Status, verifiedAt: Option<real>)

  /** The two tables. */
  datatype Store = Store(policies: map<string, Policy>, connections: map<string, Connection>)

  /** Who asks, and when that session last verified its identity. */
  datatype Access = NoWorkspace | Member | Owner

  datatype Request = Request(organizationId: string, access: Access, stepUpAt: Option<real>, now: real)

  /** Only the fields that the payload sets. */
  datatype PolicyUpdate = PolicyUpdate(
    requireMfa: Option<bool>, requireSso: Option<bool>, sessionTimeout: Option<int>, maxLifetime: Option<int>)

  const STEP_UP_WINDOW: real := 300.0

  /** The owner check, then a step-up at most five minutes old. */
  function Guard(r: Request): Option<HttpError> {
    if r.access == NoWorkspace then Some(NotFound404)
    else if r.access == Member then Some(Forbidden403)
    else if r.stepUpAt.None? || r.stepUpAt.value < r.now - STEP_UP_WINDOW then Some(Forbidden403)
    else None
  }

  function Or<T>(update: Option<T>, current: T): T {
    if update.Some? then update.value else current
  }

  function Merged(current: Policy, u: PolicyUpdate): Policy {
    Policy(Or(u.requireMfa, current.requireMfa), Or(u.requireSso, current.requireSso),
           Or(u.sessionTimeout, current.sessionTimeout), Or(u.maxLifetime, current.maxLifetime))
  }

  predicate ValidPolicy(p: Policy) {
    5 <= p.sessionTimeout <= 60 && 15 <= p.maxLifetime <= 1440 && p.maxLifetime >= p.sessionTimeout
  }

  predicate HasActive(connections: map<string, Connection>, organizationId: string) {
    exists id :: id in connections && connections[id].organizationId == organizationId && connections[id].status == Active
  }

  function PolicyOf(store: Store, organizationId: string): Policy {
    if organizationId in store.policies then store.policies[organizationId] else DEFAULT_POLICY
  }

  predicate IsConnectionOf(store: Store, id: string, organizationId: string) {
    id in store.connections && store.connections[id].organizationId == organizationId
  }

  // ---------- what the handlers do ----------

  datatype Operation =
    | SetPolicy(payload: PolicyUpdate)
    | CreateConnection(id: string, providerAccepted: bool)
    | TestConnection(id: string, discovered: bool)
    | EnableConnection(id: string)
    | DisableConnection(id: string)

  function OutcomeOf(store: Store, r: Request, op: Operation): Outcome {
    if Guard(r).Some? then Refused(Guard(r).value)
    else match op
      case SetPolicy(payload) =>
        var merged := Merged(PolicyOf(store, r.organizationId), payload);
        if !ValidPolicy(merged) then Refused(ServerError500)
        else if merged.requireSso && !HasActive(store.connections, r.organizationId) then Refused(Conflict409)
        else Done
      case CreateConnection(id, providerAccepted) =>
        if !providerAccepted then Refused(BadRequest400)
        else if id in store.connections then Refused(ServerError500)
        else Done
      case TestConnection(id, discovered) =>
        if !IsConnectionOf(store, id, r.organizationId) then Refused(NotFound404)
        else if !discovered then Refused(BadGateway502)
        else Done
      case EnableConnection(id) =>
        if !IsConnectionOf(store, id, r.organizationId) then Refused(NotFound404)
        else if store.connections[id].verifiedAt.None? then Refused(Conflict409)
        else Done
      case DisableConnection(id) =>
        if PolicyOf(store, r.organizationId).requireSso then Refused(Conflict409)
        else if !IsConnectionOf(store, id, r.organizationId) then Refused(NotFound404)
        else Done
  }

  function After(store: Store, r: Request, op: Operation): Store {
    if OutcomeOf(store, r, op).Refused? then store
    else match op
      case SetPolicy(payload) =>
        store.(policies := store.policies[r.organizationId := Merged(PolicyOf(store, r.organizationId), payload)])
      case CreateConnection(id, _) =>
        store.(connections := store.connections[id := Connection(r.organizationId, Draft, None)])
      case TestConnection(id, _) =>
        store.(connections := store.connections[id := store.connections[id].(verifiedAt := Some(r.now))])
      case EnableConnection(id) =>
        store.(connections := store.connections[id := store.connections[id].(status := Active)])
      case DisableConnection(id) =>
        store.(connections := store.connections[id := store.connections[id].(status := Disabled)])
  }

  // ---------- the handlers, on stored records ----------

  class PolicyRecord {
    const organizationId: string
    var requireMfa: bool
    var requireSso: bool
    var sessionTimeout: int
    var maxLifetime: int

    function Value(): Policy
      reads this
    {
      Policy(requireMfa, requireSso, sessionTimeout, maxLifetime)
    }

    constructor (organizationId: string)
      ensures this.organizationId == organizationId && Value() == DEFAULT_POLICY
    {
      this.organizationId := organizationId;
      requireMfa, requireSso := DEFAULT_POLICY.requireMfa, DEFAULT_POLICY.requireSso;
      sessionTimeout, maxLifetime := DEFAULT_POLICY.sessionTimeout, DEFAULT_POLICY.maxLifetime;
    }

    method Assign(p: Policy)
      modifies this
      ensures Value() == p
    {
      requireMfa, requireSso := p.requireMfa, p.requireSso;
      sessionTimeout, maxLifetime := p.sessionTimeout, p.maxLifetime;
    }
  }

  class ConnectionRecord {
    const id: string
    const organizationId: string
    var status: Status
    var verifiedAt: Option<real>

    function Value(): Connection
      reads this
    {
      Connection(organizationId, status, verifiedAt)
    }

    constructor (id: string, organizationId: string)
      ensures this.id == id && Value() == Connection(organizationId, Draft, None)
    {
      this.id, this.organizationId, status, verifiedAt := id, organizationId, Draft, None;
    }
  }

  class Database {
    var policies: map<string, PolicyRecord>
    var connections: map<string, ConnectionRecord>

    ghost predicate Valid()
      reads this
    {
      (forall o :: o in policies ==> policies[o].organizationId == o) &&
      (forall i :: i in connections ==> connections[i].id == i)
    }

    function Value(): Store
      reads this, policies.Values, connections.Values
    {
      Store(map o | o in policies :: policies[o].Value(), map i | i in connections :: connections[i].Value())
    }

    constructor ()
      ensures Valid() && Value() == Store(map[], map[])
    {
      policies, connections := map[], map[];
    }

    /** Assigns the stored record, or a new one when there is none. */
    method StorePolicy(o: string, p: Policy)
      requires Valid()
      modifies this`policies, policies.Values
      ensures Valid() && connections == old(connections)
      ensures Value() == old(Value()).(policies := old(Value()).policies[o := p])
    {
      ghost var store := Value();
      var record;
      if o in policies {
        record := policies[o];
      } else {
        record := new PolicyRecord(o);
        policies := policies[o := record];
      }
      record.Assign(p);
      assert Value().policies == store.policies[o := p];
      assert Value().connections == store.connections;
    }

    method SetSecurityPolicy(r: Request, payload: PolicyUpdate) returns (outcome: Outcome)
      requires Valid()
      modifies this, policies.Values
      ensures Valid() && outcome == OutcomeOf(old(Value()), r, SetPolicy(payload))
      ensures Value() == After(old(Value()), r, SetPolicy(payload))
    {
      if Guard(r).Some? {
        return Refused(Guard(r).value);
      }
      var o := r.organizationId;
      var current := if o in policies then policies[o].Value() else DEFAULT_POLICY;
      assert current == PolicyOf(Value(), o);
      var merged := Merged(current, payload);
      if !ValidPolicy(merged) {
        return Refused(ServerError500);
      }
      if merged.requireSso && !HasActive(Value().connections, o) {
        return Refused(Conflict409);
      }
      StorePolicy(o, merged);
      return Done;
    }

    method CreateSsoConnection(r: Request, id: string, providerAccepted: bool) returns (outcome: Outcome)
      requires Valid()
      modifies this
      ensures Valid() && outcome == OutcomeOf(old(Value()), r, CreateConnection(id, providerAccepted))
      ensures Value() == After(old(Value()), r, CreateConnection(id, providerAccepted))
    {
      if Guard(r).Some? {
        return Refused(Guard(r).value);
      }
      if !providerAccepted {
        return Refused(BadRequest400);
      }
      if id in connections {
        return Refused(ServerError500);
      }
      var connection := new ConnectionRecord(id, r.organizationId);
      connections := connections[id := connection];
      return Done;
    }

    method TestSsoConnection(r: Request, id: string, discovered: bool) returns (outcome: Outcome)
      requires Valid()
      modifies connections.Values
      ensures Valid() && outcome == OutcomeOf(old(Value()), r, TestConnection(id, discovered))
      ensures Value() == After(old(Value()), r, TestConnection(id, discovered))
    {
      if Guard(r).Some? {
        return Refused(Guard(r).value);
      }
      if id !in connections || connections[id].organizationId != r.organizationId {
        return Refused(NotFound404);
      }
      if !discovered {
        return Refused(BadGateway502);
      }
      connections[id].verifiedAt := Some(r.now);
      return Done;
    }

    method EnableSsoConnection(r: Request, id: string) returns (outcome: Outcome)
      requires Valid()
      modifies connections.Values
      ensures Valid() && outcome == OutcomeOf(old(Value()), r, EnableConnection(id))
      ensures Value() == After(old(Value()), r, EnableConnection(id))
    {
      if Guard(r).Some? {
        return Refused(Guard(r).value);
      }
      if id !in connections || connections[id].organizationId != r.organizationId {
        return Refused(NotFound404);
      }
      if connections[id].verifiedAt.None? {
        return Refused(Conflict409);
      }
      connections[id].status := Active;
      return Done;
    }

    method DisableSsoConnection(r: Request, id: string) returns (outcome: Outcome)
      requires Valid()
      modifies connections.Values
      ensures Valid() && outcome == OutcomeOf(old(Value()), r, DisableConnection(id))
      ensures Value() == After(old(Value()), r, DisableConnection(id))
    {
      if Guard(r).Some? {
        return Refused(Guard(r).value);
      }
      if r.organizationId in policies && policies[r.organizationId].requireSso {
        return Refused(Conflict409);
      }
      if id !in connections || connections[id].organizationId != r.organizationId {
        return Refused(NotFound404);
      }
      connections[id].status := Disabled;
      return Done;
    }
  }

  // ---------- the SSO requirement can always be met ----------

  /** Required SSO has an active connection, active connections have passed discovery, stored limits are consistent. */
  ghost predicate Sound(store: Store) {
    (forall o :: o in store.policies && store.policies[o].requireSso ==> HasActive(store.connections, o)) &&
    (forall i :: i in store.connections && store.connections[i].status == Active ==> store.connections[i].verifiedAt.Some?) &&
    (forall o :: o in store.policies ==> ValidPolicy(store.policies[o]))
  }

  /** An operation that leaves a connection as active as it was keeps the organization's active connection. */
  lemma ActiveKept(before: map<string, Connection>, after: map<string, Connection>, organizationId: string)
    requires HasActive(before, organizationId)
    requires forall i :: i in before && before[i].organizationId == organizationId && before[i].status == Active ==>
      i in after && after[i].organizationId == organizationId && after[i].status == Active
    ensures HasActive(after, organizationId)
  {
    var i :| i in before && before[i].organizationId == organizationId && before[i].status == Active;
    assert i in after && after[i].organizationId == organizationId && after[i].status == Active;
  }

  lemma OperationKeepsSound(store: Store, r: Request, op: Operation)
    requires Sound(store)
    ensures Sound(After(store, r, op))
  {
    var after := After(store, r, op);
    forall o | o in after.policies && after.policies[o].requireSso
      ensures HasActive(after.connections, o)
    {
      if !op.SetPolicy? || o != r.organizationId {
        ActiveKept(store.connections, after.connections, o);
      }
    }
  }

  function AfterAll(store: Store, ops: seq<(Request, Operation)>): Store
    decreases |ops|
  {
    if ops == [] then store else AfterAll(After(store, ops[0].0, ops[0].1), ops[1..])
  }

  /** In every state that any sequence of requests reaches, by any organizations in any order. */
  lemma {:induction false} AlwaysSound(store: Store, ops: seq<(Request, Operation)>)
    requires Sound(store)
    ensures Sound(AfterAll(store, ops))
    decreases |ops|
  {
    if ops != [] {
      OperationKeepsSound(store, ops[0].0, ops[0].1);
      AlwaysSound(After(store, ops[0].0, ops[0].1), ops[1..]);
    }
  }

  /** An organization's requests touch no other organization's policy or connections. */
  lemma OtherOrganizationsUntouched(store: Store, r: Request, op: Operation, other: string)
    requires other != r.organizationId
    ensures PolicyOf(After(store, r, op), other) == PolicyOf(store, other)
    ensures forall i :: IsConnectionOf(After(store, r, op), i, other) <==> IsConnectionOf(store, i, other)
    ensures forall i :: IsConnectionOf(store, i, other) ==> After(store, r, op).connections[i] == store.connections[i]
  {
  }

  ghost predicate NoneOf(ops: seq<(Request, Operation)>, organizationId: string) {
    forall i :: 0 <= i < |ops| ==> ops[i].0.organizationId != organizationId
  }

  /** However many requests other organizations make, a policy and its connections stay as they are. */
  lemma {:induction false} OthersNeverInterfere(store: Store, ops: seq<(Request, Operation)>, organizationId: string)
    requires NoneOf(ops, organizationId)
    ensures PolicyOf(AfterAll(store, ops), organizationId) == PolicyOf(store, organizationId)
    ensures forall i :: IsConnectionOf(AfterAll(store, ops), i, organizationId) <==> IsConnectionOf(store, i, organizationId)
    ensures forall i :: IsConnectionOf(store, i, organizationId) ==>
      i in AfterAll(store, ops).connections && AfterAll(store, ops).connections[i] == store.connections[i]
    decreases |ops|
  {
    if ops != [] {
      OtherOrganizationsUntouched(store, ops[0].0, ops[0].1, organizationId);
      OthersNeverInterfere(After(store, ops[0].0, ops[0].1), ops[1..], organizationId);
    }
  }

  /**
   * Requiring SSO where nothing else is changed: an owner with a recent step-up succeeds iff the
   * organization has a connection that is active, and hence has passed discovery.
   */
  lemma RequiringSsoSucceedsIff(store: Store, r: Request)
    requires Sound(store) && Guard(r).None?
    ensures OutcomeOf(store, r, SetPolicy(PolicyUpdate(None, Some(true), None, None))) == Done
      <==> exists i :: IsConnectionOf(store, i, r.organizationId) && store.connections[i].status == Active
                       && store.connections[i].verifiedAt.Some?
  {
    assert HasActive(store.connections, r.organizationId) <==>
      exists i :: IsConnectionOf(store, i, r.organizationId) && store.connections[i].status == Active;
  }

  lemma EnabledConnectionIsActive(store: Store, r: Request, id: string)
    requires Guard(r).None? && id !in store.connections
    ensures var s := After(After(After(store, r, CreateConnection(id, true)), r, TestConnection(id, true)), r, EnableConnection(id));
      s.policies == store.policies && IsConnectionOf(s, id, r.organizationId) && HasActive(s.connections, r.organizationId)
  {
    var s1 := After(store, r, CreateConnection(id, true));
    assert s1.connections[id] == Connection(r.organizationId, Draft, None);
    var s2 := After(s1, r, TestConnection(id, true));
    assert s2.connections[id] == Connection(r.organizationId, Draft, Some(r.now));
    var s3 := After(s2, r, EnableConnection(id));
    assert s3.connections[id] == Connection(r.organizationId, Active, Some(r.now));
  }

  /** From create, test and enable the requirement can be reached; it blocks disabling until it is lifted. */
  lemma SsoCanBeRequiredAndLifted(store: Store, r: Request, id: string)
    requires Sound(store) && Guard(r).None? && id !in store.connections
    ensures var enabled :=
        After(After(After(store, r, CreateConnection(id, true)), r, TestConnection(id, true)), r, EnableConnection(id));
      var required := After(enabled, r, SetPolicy(PolicyUpdate(None, Some(true), None, None)));
      var lifted := After(required, r, SetPolicy(PolicyUpdate(None, Some(false), None, None)));
      PolicyOf(required, r.organizationId).requireSso &&
      OutcomeOf(required, r, DisableConnection(id)) == Refused(Conflict409) &&
      !PolicyOf(lifted, r.organizationId).requireSso && OutcomeOf(lifted, r, DisableConnection(id)) == Done
  {
    EnabledConnectionIsActive(store, r, id);
    assert ValidPolicy(PolicyOf(store, r.organizationId));
  }

  // ---------- who may, and what then happens ----------

  /** An owner whose session has verified its identity within the last 300 seconds. */
  ghost predicate Entitled(r: Request) {
    r.access == Owner && r.stepUpAt.Some? && r.now - r.stepUpAt.value <= 300.0
  }

  /**
   * Nobody but an owner with a recent step-up gets anything done, or is told more than that: 404
   * without a workspace, else 403. Nobody else gets 403, and whatever is refused changes nothing.
   */
  lemma OnlyRecentOwnersAct(store: Store, r: Request, op: Operation)
    ensures r.access == NoWorkspace ==> OutcomeOf(store, r, op) == Refused(NotFound404)
    ensures r.access != NoWorkspace ==> (OutcomeOf(store, r, op) == Refused(Forbidden403) <==> !Entitled(r))
    ensures OutcomeOf(store, r, op) == Done ==> Entitled(r)
    ensures OutcomeOf(store, r, op).Refused? ==> After(store, r, op) == store
  {
  }

  ghost predicate OwnActive(store: Store, organizationId: string) {
    exists id :: id in store.connections && store.connections[id].organizationId == organizationId &&
      store.connections[id].status == Active
  }

  /** The stored policy of an organization; until one is stored, nothing required, 15 and 1440 minutes. */
  ghost predicate HasPolicy(store: Store, organizationId: string, mfa: bool, sso: bool, timeout: int, lifetime: int) {
    if organizationId in store.policies then store.policies[organizationId] == Policy(mfa, sso, timeout, lifetime)
    else !mfa && !sso && timeout == 15 && lifetime == 1440
  }

  /** A field keeps its value unless the update sets it. */
  ghost predicate Becomes<T>(update: Option<T>, before: T, after: T) {
    match update
    case Some(v) => after == v
    case None => after == before
  }

  /**
   * A policy update by an entitled owner, in terms of the values that result: 500 iff they are out of
   * bounds, else 409 iff they require SSO without an active connection, else they are stored.
   */
  lemma UpdateOutcome(store: Store, r: Request, u: PolicyUpdate, mfa: bool, sso: bool, timeout: int, lifetime: int,
                      mfa': bool, sso': bool, timeout': int, lifetime': int)
    requires Entitled(r) && HasPolicy(store, r.organizationId, mfa, sso, timeout, lifetime)
    requires Becomes(u.requireMfa, mfa, mfa') && Becomes(u.requireSso, sso, sso')
    requires Becomes(u.sessionTimeout, timeout, timeout') && Becomes(u.maxLifetime, lifetime, lifetime')
    ensures var o, inBounds := OutcomeOf(store, r, SetPolicy(u)),
        5 <= timeout' <= 60 && 15 <= lifetime' <= 1440 && timeout' <= lifetime';
      (o == Refused(ServerError500) <==> !inBounds) &&
      (o == Refused(Conflict409) <==> inBounds && sso' && !OwnActive(store, r.organizationId)) &&
      (o == Done <==> inBounds && (sso' ==> OwnActive(store, r.organizationId))) &&
      (o == Done ==>
        After(store, r, SetPolicy(u))
          == store.(policies := store.policies[r.organizationId := Policy(mfa', sso', timeout', lifetime')]))
  {
  }

  ghost predicate Owned(store: Store, r: Request, id: string) {
    id in store.connections && store.connections[id].organizationId == r.organizationId
  }

  /** An entitled owner's operation on a connection, by the code it is answered with. */
  lemma ConnectionOutcomesByCode(store: Store, r: Request, op: Operation, id: string)
    requires Entitled(r) && op in {CreateConnection(id, true), CreateConnection(id, false), TestConnection(id, true),
                                   TestConnection(id, false), EnableConnection(id), DisableConnection(id)}
    ensures var o := OutcomeOf(store, r, op);
      (o == Refused(BadRequest400) <==> op == CreateConnection(id, false)) &&
      (o == Refused(ServerError500) <==> op == CreateConnection(id, true) && id in store.connections) &&
      (o == Refused(BadGateway502) <==> op == TestConnection(id, false) && Owned(store, r, id)) &&
      (o == Refused(Conflict409) <==>
        (op.EnableConnection? && Owned(store, r, id) && store.connections[id].verifiedAt.None?) ||
        (op.DisableConnection? && r.organizationId in store.policies && store.policies[r.organizationId].requireSso)) &&
      (o == Refused(NotFound404) <==>
        !op.CreateConnection? && !Owned(store, r, id) && o != Refused(Conflict409))
  {
  }

  /** What an accepted operation makes of the connection: draft, stamped, active or disabled; nothing else changes. */
  lemma ConnectionBecomes(store: Store, r: Request, op: Operation, id: string)
    requires OutcomeOf(store, r, op) == Done && !op.SetPolicy? && op.id == id
    ensures var s := After(store, r, op);
      s.policies == store.policies && id in s.connections && s.connections[id].organizationId == r.organizationId &&
      (op.CreateConnection? ==> id !in store.connections && s.connections[id].status == Draft && s.connections[id].verifiedAt == None) &&
      (op.TestConnection? ==> s.connections[id].verifiedAt == Some(r.now) && s.connections[id].status == store.connections[id].status) &&
      (op.EnableConnection? ==> s.connections[id].status == Active && s.connections[id].verifiedAt == store.connections[id].verifiedAt) &&
      (op.DisableConnection? ==> s.connections[id].status == Disabled && s.connections[id].verifiedAt == store.connections[id].verifiedAt) &&
      s.connections.Keys == store.connections.Keys + {id} &&
      forall other :: other in store.connections && other != id ==> s.connections[other] == store.connections[other]
  {
  }

  /** What the last accepted operation that names a connection made of it; `otherwise` if none did. */
  ghost function LastSwitch(store: Store, ops: seq<(Request, Operation)>, id: string, otherwise: Option<Status>): Option<Status>
    decreases |ops|
  {
    if ops == [] then otherwise
    else
      var (r, op) := ops[0];
      var accepted := OutcomeOf(store, r, op) == Done && !op.SetPolicy? && op.id == id;
      LastSwitch(After(store, r, op), ops[1..], id,
        if accepted && op.CreateConnection? then Some(Draft)
        else if accepted && op.EnableConnection? then Some(Active)
        else if accepted && op.DisableConnection? then Some(Disabled)
        else otherwise)
  }

  ghost function StatusOf(store: Store, id: string): Option<Status> {
    if id in store.connections then Some(store.connections[id].status) else None
  }

  /** Over any requests of anyone: a connection is active iff the last accepted switch of it was an enabling. */
  lemma {:induction false} StatusIsLastSwitch(store: Store, ops: seq<(Request, Operation)>, id: string)
    ensures StatusOf(AfterAll(store, ops), id) == LastSwitch(store, ops, id, StatusOf(store, id))
    decreases |ops|
  {
    if ops != [] {
      var (r, op) := ops[0];
      if OutcomeOf(store, r, op) == Done && !op.SetPolicy? {
        ConnectionBecomes(store, r, op, op.id);
      }
      StatusIsLastSwitch(After(store, r, op), ops[1..], id);
    }
  }
}
