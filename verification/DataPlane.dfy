/** The sidecar as one state machine: startup, evaluation, sync, heartbeat, power loss (`sidecar/main.py`). */
module DataPlane {
  import opened Wrappers
  import opened Hosting
  import opened SidecarRuntime
  import opened Storage
  import opened Synchronization
  import opened Evaluator

  /** What stays fixed over a run. */
  datatype Deployment = Deployment(
    host: Host, offlinePolicy: string, gatewayId: Option<string>, publicKey: Option<string>)

  /** A running process with its state in memory, or a machine that is off; the disk outlives both. */
  datatype System = Up(state: Snapshot, disk: Disk) | Down(disk: Disk)

  datatype Event =
    | Evaluate(request: Request, mono: real, now: real)
    | Synchronize(attempts: seq<Attempt>, now: real)
    | Beat(replies: seq<HeartbeatReply>, now: real)
    | PowerCut
    | Start(readable: bool, now: real)

  /** A fresh state, the cached configuration if one loads, then the configured gateway. */
  function Started(dep: Deployment, disk: Disk, readable: bool, now: real): Snapshot {
    var cached := CachedAs(dep.host, dep.publicKey, disk, readable);
    var loaded := if cached.Some? then WithApplied(Fresh(dep.publicKey), cached.value, now) else Fresh(dep.publicKey);
    if IsSet(dep.gatewayId) then loaded.(gatewayId := dep.gatewayId) else loaded
  }

  method StartUp(dep: Deployment, dir: CacheDirectory, readable: bool, now: real) returns (state: SidecarState)
    ensures fresh(state) && state.Value() == Started(dep, dir.Value(), readable, now)
  {
    state := new SidecarState(dep.publicKey);
    var loaded := dir.LoadConfigCache(state, dep.host, readable, now);
    if IsSet(dep.gatewayId) {
      state.gatewayId := dep.gatewayId;
    }
  }

  function CallOf(dep: Deployment, s: Snapshot, e: Event): Call
    requires e.Evaluate?
  {
    Call(dep.host, dep.offlinePolicy, s, e.request, e.mono, e.now)
  }

  /** How a sync or heartbeat event goes for a running process. */
  function SyncOutcomeOf(dep: Deployment, sys: System, e: Event): Option<SyncOutcome> {
    if sys.Down? then None
    else match e
      case Synchronize(attempts, now) => Some(Sync(dep.host, sys.state, sys.disk, attempts, now))
      case Beat(replies, now) => Some(Heartbeat(dep.host, sys.state, sys.disk, replies, now))
      case _ => None
  }

  /** A power loss, also one inside a sync, loses the memory and keeps the disk; starting reloads it. */
  function Step(dep: Deployment, sys: System, e: Event): System {
    match e
    case Start(readable, now) => Up(Started(dep, sys.disk, readable, now), sys.disk)
    case PowerCut => Down(sys.disk)
    case Evaluate(_, _, _) => if sys.Up? then sys.(state := After(CallOf(dep, sys.state, e))) else sys
    case _ =>
      match SyncOutcomeOf(dep, sys, e)
      case None => sys
      case Some(o) => if o.ending.Lost? then Down(o.disk) else Up(o.state, o.disk)
  }

  /** A run: the systems passed through, and the events between them. */
  datatype Run = Run(systems: seq<System>, events: seq<Event>)

  ghost predicate StepAt(dep: Deployment, r: Run, k: int) {
    0 <= k < |r.events| && |r.systems| == |r.events| + 1 &&
    r.systems[k + 1] == Step(dep, r.systems[k], r.events[k])
  }

  /** A run begins with a machine that is off, whatever its disk holds. */
  ghost predicate IsRun(dep: Deployment, r: Run) {
    |r.systems| == |r.events| + 1 && r.systems[0].Down? &&
    forall k {:trigger StepAt(dep, r, k)} :: 0 <= k < |r.events| ==> StepAt(dep, r, k)
  }

  lemma ExtendRun(dep: Deployment, r: Run, e: Event, last: System)
    requires IsRun(dep, r) && last == Step(dep, r.systems[|r.events|], e)
    ensures IsRun(dep, Run(r.systems + [last], r.events + [e]))
  {
    var r' := Run(r.systems + [last], r.events + [e]);
    forall k | 0 <= k < |r'.events| ensures StepAt(dep, r', k) {
      if k < |r.events| {
        assert StepAt(dep, r, k);
        assert r'.systems[k] == r.systems[k] && r'.systems[k + 1] == r.systems[k + 1] && r'.events[k] == r.events[k];
      }
    }
  }

  lemma {:induction false} ContinueRun(dep: Deployment, r: Run, rest: seq<Event>) returns (r': Run)
    requires IsRun(dep, r)
    ensures IsRun(dep, r') && r'.events == r.events + rest && r'.systems[0] == r.systems[0]
    decreases |rest|
  {
    if rest == [] {
      r' := r;
    } else {
      var last := Step(dep, r.systems[|r.events|], rest[0]);
      ExtendRun(dep, r, rest[0], last);
      r' := ContinueRun(dep, Run(r.systems + [last], r.events + [rest[0]]), rest[1..]);
      assert r.events + [rest[0]] + rest[1..] == r.events + rest;
    }
  }

  /** Any disk and any events make a run. */
  lemma EveryEventListRuns(dep: Deployment, disk: Disk, events: seq<Event>) returns (r: Run)
    ensures IsRun(dep, r) && r.events == events && r.systems[0] == Down(disk)
  {
    r := ContinueRun(dep, Run([Down(disk)], []), events);
    assert [] + events == events;
  }

  /** The outcome of event `k`, if it is a call to a running process. */
  function OutcomeAt(dep: Deployment, r: Run, k: nat): Option<Code>
    requires k < |r.events| < |r.systems|
  {
    if r.events[k].Evaluate? && r.systems[k].Up?
    then Some(Decide(CallOf(dep, r.systems[k].state, r.events[k]))) else None
  }

  /** Events i to j-1 happen within one life of the process. */
  ghost predicate StaysUp(r: Run, i: nat, j: nat)
    requires i <= j < |r.systems| && |r.systems| == |r.events| + 1
  {
    r.systems[j].Up? && forall k :: i <= k < j ==> r.systems[k].Up? && !r.events[k].Start?
  }

  /** Every start finds the cache file readable. */
  ghost predicate ReadableStorage(events: seq<Event>) {
    forall k :: 0 <= k < |events| && events[k].Start? ==> events[k].readable
  }
}
