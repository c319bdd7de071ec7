/** Replays and metrics over whole runs (`sidecar/evaluator.py`, `sidecar/state.py`). */
module RequestHistory {
  import opened Wrappers
  import opened Text
  import opened Hosting
  import opened SidecarRuntime
  import opened Storage
  import opened Synchronization
  import opened Evaluator
  import opened DataPlane

  // ---------- the nonce table against the full history ----------

  /** A call with a nonce: it evicts what has run out, even when it then raises on a nonce it cannot encode. */
  predicate TouchesTable(e: Event) {
    e.Evaluate? && e.request.nonce != ""
  }

  predicate UsesNonce(e: Event) {
    TouchesTable(e) && IsAscii(e.request.nonce)
  }

  function HashOf(dep: Deployment, e: Event): string
    requires e.Evaluate?
  {
    dep.host.sha256(e.request.nonce)
  }

  /** `later` reuses the nonce of `earlier` strictly less than 300 seconds after it. */
  predicate Within(dep: Deployment, earlier: Event, later: Event)
    requires earlier.Evaluate? && later.Evaluate?
  {
    HashOf(dep, earlier) == HashOf(dep, later) && later.mono < earlier.mono + 300.0
  }

  /**
   * The reference, which knows no table: from event `i` on, a use of a nonce is admitted unless an
   * admitted use of the same nonce precedes it by less than 300 seconds. Only times and hashes
   * matter: not what later stages decide, and not the uses that were refused.
   */
  ghost predicate Admitted(dep: Deployment, es: seq<Event>, i: nat, k: nat)
    requires i <= k < |es|
    decreases k
  {
    UsesNonce(es[k]) &&
    !exists m: nat :: i <= m < k && Admitted(dep, es, i, m) && Within(dep, es[m], es[k])
  }

  ghost predicate RecentlyAdmitted(dep: Deployment, es: seq<Event>, i: nat, k: nat)
    requires i <= k < |es| && es[k].Evaluate?
  {
    exists m: nat :: i <= m < k && Admitted(dep, es, i, m) && Within(dep, es[m], es[k])
  }

  /** From event `i` to event `k` the monotonic clock does not run backwards over the calls with a nonce. */
  ghost predicate ClockRuns(es: seq<Event>, i: nat, k: nat)
    requires i <= k < |es|
  {
    forall a, b :: i <= a <= b <= k && TouchesTable(es[a]) && TouchesTable(es[b]) ==> es[a].mono <= es[b].mono
  }

  /** Every entry of the table comes from an admitted use. */
  ghost predicate EntriesExplained(dep: Deployment, es: seq<Event>, i: nat, k: nat, table: map<string, real>)
    requires i <= k <= |es|
  {
    forall h :: h in table ==>
      exists m: nat :: i <= m < k && Admitted(dep, es, i, m) && HashOf(dep, es[m]) == h && table[h] == es[m].mono + 300.0
  }

  /** The use at `m` is still in the table, or some call has come 300 seconds later. */
  ghost predicate Remembered(dep: Deployment, es: seq<Event>, i: nat, k: nat, table: map<string, real>, m: nat)
    requires i <= m < k <= |es| && es[m].Evaluate?
  {
    (HashOf(dep, es[m]) in table && table[HashOf(dep, es[m])] >= es[m].mono + 300.0) ||
    exists n: nat :: i <= n < k && TouchesTable(es[n]) && es[m].mono + 300.0 <= es[n].mono
  }

  ghost predicate TableRefines(dep: Deployment, es: seq<Event>, i: nat, k: nat, table: map<string, real>)
    requires i <= k <= |es|
  {
    EntriesExplained(dep, es, i, k, table) &&
    forall m: nat :: i <= m < k && Admitted(dep, es, i, m) ==> Remembered(dep, es, i, k, table, m)
  }

  /** Looking into the live part of the table is asking the history. */
  lemma LookupIsHistory(dep: Deployment, r: Run, i: nat, k: nat)
    requires i <= k < |r.events| < |r.systems| && r.systems[k].Up? && UsesNonce(r.events[k])
    requires ClockRuns(r.events, i, k)
    requires TableRefines(dep, r.events, i, k, r.systems[k].state.nonces)
    ensures HashOf(dep, r.events[k]) in CallOf(dep, r.systems[k].state, r.events[k]).LiveNonces()
            <==> RecentlyAdmitted(dep, r.events, i, k)
  {
    var es, table := r.events, r.systems[k].state.nonces;
    var h := HashOf(dep, es[k]);
    if h in table && table[h] > es[k].mono {
      var m: nat :| i <= m < k && Admitted(dep, es, i, m) && HashOf(dep, es[m]) == h && table[h] == es[m].mono + 300.0;
      assert Within(dep, es[m], es[k]);
    }
    if RecentlyAdmitted(dep, es, i, k) {
      var m: nat :| i <= m < k && Admitted(dep, es, i, m) && Within(dep, es[m], es[k]);
      assert Remembered(dep, es, i, k, table, m);
    }
  }

  lemma AdmittedIffPasses(dep: Deployment, r: Run, i: nat, k: nat)
    requires i <= k < |r.events| < |r.systems| && r.systems[k].Up? && UsesNonce(r.events[k])
    requires ClockRuns(r.events, i, k)
    requires TableRefines(dep, r.events, i, k, r.systems[k].state.nonces)
    ensures PassesReplayStage(CallOf(dep, r.systems[k].state, r.events[k])) <==> Admitted(dep, r.events, i, k)
  {
    LookupIsHistory(dep, r, i, k);
  }

  function LiveAt(table: map<string, real>, mono: real): map<string, real> {
    map h | h in table && table[h] > mono :: table[h]
  }

  /** The table after a call with a nonce at `k`. */
  ghost function TableAfter(dep: Deployment, es: seq<Event>, i: nat, k: nat, table: map<string, real>): map<string, real>
    requires i <= k < |es| && TouchesTable(es[k])
  {
    var live := LiveAt(table, es[k].mono);
    if Admitted(dep, es, i, k) then live[HashOf(dep, es[k]) := es[k].mono + 300.0] else live
  }

  lemma ExplainedAfterCall(dep: Deployment, es: seq<Event>, i: nat, k: nat, table: map<string, real>)
    requires i <= k < |es| && TouchesTable(es[k]) && EntriesExplained(dep, es, i, k, table)
    ensures EntriesExplained(dep, es, i, k + 1, TableAfter(dep, es, i, k, table))
  {
    var table' := TableAfter(dep, es, i, k, table);
    forall h | h in table'
      ensures exists m: nat :: i <= m < k + 1 && Admitted(dep, es, i, m) && HashOf(dep, es[m]) == h
                               && table'[h] == es[m].mono + 300.0
    {
      if Admitted(dep, es, i, k) && h == HashOf(dep, es[k]) {
        assert i <= k < k + 1;
      } else {
        var m: nat :| i <= m < k && Admitted(dep, es, i, m) && HashOf(dep, es[m]) == h && table[h] == es[m].mono + 300.0;
        assert i <= m < k + 1;
      }
    }
  }

  lemma RememberedAfterCall(dep: Deployment, es: seq<Event>, i: nat, k: nat, table: map<string, real>, m: nat)
    requires i <= m < k < |es| && TouchesTable(es[k]) && TouchesTable(es[m]) && ClockRuns(es, i, k)
    requires Remembered(dep, es, i, k, table, m)
    ensures Remembered(dep, es, i, k + 1, TableAfter(dep, es, i, k, table), m)
  {
    var h := HashOf(dep, es[m]);
    if h in table && table[h] >= es[m].mono + 300.0 {
      if table[h] <= es[k].mono {
        assert i <= k < k + 1 && TouchesTable(es[k]);
      }
    } else {
      var n: nat :| i <= n < k && TouchesTable(es[n]) && es[m].mono + 300.0 <= es[n].mono;
      assert i <= n < k + 1;
    }
  }

  lemma RefinesAfterCall(dep: Deployment, es: seq<Event>, i: nat, k: nat, table: map<string, real>)
    requires i <= k < |es| && TouchesTable(es[k]) && ClockRuns(es, i, k)
    requires TableRefines(dep, es, i, k, table)
    ensures TableRefines(dep, es, i, k + 1, TableAfter(dep, es, i, k, table))
  {
    ExplainedAfterCall(dep, es, i, k, table);
    forall m: nat | i <= m < k + 1 && Admitted(dep, es, i, m)
      ensures Remembered(dep, es, i, k + 1, TableAfter(dep, es, i, k, table), m)
    {
      if m < k {
        RememberedAfterCall(dep, es, i, k, table, m);
      }
    }
  }

  /** An event that is no call with a nonce leaves the table and adds nothing to the history. */
  lemma RefinesAfterOther(dep: Deployment, es: seq<Event>, i: nat, k: nat, table: map<string, real>)
    requires i <= k < |es| && !TouchesTable(es[k])
    requires TableRefines(dep, es, i, k, table)
    ensures TableRefines(dep, es, i, k + 1, table)
  {
    forall h | h in table
      ensures exists m: nat :: i <= m < k + 1 && Admitted(dep, es, i, m) && HashOf(dep, es[m]) == h
                               && table[h] == es[m].mono + 300.0
    {
      var m: nat :| i <= m < k && Admitted(dep, es, i, m) && HashOf(dep, es[m]) == h && table[h] == es[m].mono + 300.0;
      assert i <= m < k + 1;
    }
    forall m: nat | i <= m < k + 1 && Admitted(dep, es, i, m)
      ensures Remembered(dep, es, i, k + 1, table, m)
    {
      assert Remembered(dep, es, i, k, table, m);
    }
  }

  /** Syncs and heartbeats leave the nonces and the counters alone. */
  lemma {:induction false} EndpointsKeepHistory(host: Host, s: Snapshot, d: Disk, attempts: seq<Attempt>, now: real)
    ensures var o := SyncEndpoints(host, s, d, attempts, now);
      o.state.nonces == s.nonces && o.state.metrics == s.metrics
    decreases |attempts|
  {
    if attempts != [] {
      var t := EndpointTurn(host, s, d, attempts[0], now);
      assert t.state.nonces == s.nonces && t.state.metrics == s.metrics;
      EndpointsKeepHistory(host, t.state, t.disk, attempts[1..], now);
    }
  }

  lemma {:induction false} BeatsKeepHistory(host: Host, s: Snapshot, d: Disk, replies: seq<HeartbeatReply>, now: real)
    ensures var o := HeartbeatEndpoints(host, s, d, replies, now);
      o.state.nonces == s.nonces && o.state.metrics == s.metrics
    decreases |replies|
  {
    if replies != [] {
      match replies[0]
      case NoAnswer => BeatsKeepHistory(host, s, d, replies[1..], now);
      case Acknowledged(_, attempts) =>
        EndpointsKeepHistory(host, s.(reachable := true, lastHeartbeat := Some(now)), d, attempts, now);
    }
  }

  lemma OnlyCallsMakeHistory(dep: Deployment, sys: System, e: Event)
    requires sys.Up? && Step(dep, sys, e).Up? && !e.Start? && !e.Evaluate?
    ensures Step(dep, sys, e).state.nonces == sys.state.nonces && Step(dep, sys, e).state.metrics == sys.state.metrics
  {
    match e
    case Synchronize(attempts, now) => EndpointsKeepHistory(dep.host, sys.state, sys.disk, attempts, now);
    case Beat(replies, now) => BeatsKeepHistory(dep.host, sys.state, sys.disk, replies, now);
    case _ =>
  }

  lemma CallLeavesTable(dep: Deployment, r: Run, i: nat, k: nat)
    requires i <= k < |r.events| < |r.systems| && ClockRuns(r.events, i, k)
    requires r.systems[k].Up? && TouchesTable(r.events[k])
    requires TableRefines(dep, r.events, i, k, r.systems[k].state.nonces)
    ensures NoncesAfter(CallOf(dep, r.systems[k].state, r.events[k]))
         == TableAfter(dep, r.events, i, k, r.systems[k].state.nonces)
  {
    if UsesNonce(r.events[k]) {
      AdmittedIffPasses(dep, r, i, k);
    }
    assert CallOf(dep, r.systems[k].state, r.events[k]).LiveNonces()
        == LiveAt(r.systems[k].state.nonces, r.events[k].mono);
  }

  lemma StepNonces(dep: Deployment, sys: System, e: Event)
    requires sys.Up? && Step(dep, sys, e).Up? && !e.Start?
    ensures Step(dep, sys, e).state.nonces
      == if TouchesTable(e) then NoncesAfter(CallOf(dep, sys.state, e)) else sys.state.nonces
  {
    if !e.Evaluate? {
      OnlyCallsMakeHistory(dep, sys, e);
    }
  }

  lemma RefinesAfterEvent(dep: Deployment, r: Run, i: nat, k: nat)
    requires IsRun(dep, r) && i <= k < |r.events| && ClockRuns(r.events, i, k)
    requires r.systems[k].Up? && r.systems[k + 1].Up? && !r.events[k].Start?
    requires TableRefines(dep, r.events, i, k, r.systems[k].state.nonces)
    ensures TableRefines(dep, r.events, i, k + 1, r.systems[k + 1].state.nonces)
  {
    assert StepAt(dep, r, k);
    StepNonces(dep, r.systems[k], r.events[k]);
    if TouchesTable(r.events[k]) {
      CallLeavesTable(dep, r, i, k);
      RefinesAfterCall(dep, r.events, i, k, r.systems[k].state.nonces);
    } else {
      RefinesAfterOther(dep, r.events, i, k, r.systems[k].state.nonces);
    }
  }

  lemma {:induction false} TableAlwaysRefines(dep: Deployment, r: Run, i: nat, k: nat)
    requires IsRun(dep, r) && i <= k <= |r.events| && (i < k ==> ClockRuns(r.events, i, k - 1))
    requires r.systems[i].Up? && r.systems[i].state.nonces == map[] && StaysUp(r, i, k)
    ensures TableRefines(dep, r.events, i, k, r.systems[k].state.nonces)
    decreases k
  {
    if i < k {
      TableAlwaysRefines(dep, r, i, k - 1);
      RefinesAfterEvent(dep, r, i, k - 1);
    }
  }

  /**
   * From a start on, whatever else happens, a call with a nonce is refused as a replay iff an
   * admitted call used the same nonce strictly less than 300 seconds before, and otherwise it is
   * itself admitted. Admission is the reference above, so two admitted uses are 300 seconds apart,
   * a refused use extends nothing, and a use that a later stage rejects still counts.
   */
  lemma ReplayIffRecentlyAdmitted(dep: Deployment, r: Run, i: nat, k: nat)
    requires IsRun(dep, r) && i <= k < |r.events| && ClockRuns(r.events, i, k)
    requires r.systems[i].Up? && r.systems[i].state.nonces == map[] && StaysUp(r, i, k)
    requires UsesNonce(r.events[k])
    ensures OutcomeAt(dep, r, k) == Some(ReplayAttackDetected) <==> RecentlyAdmitted(dep, r.events, i, k)
    ensures OutcomeAt(dep, r, k) != Some(ReplayAttackDetected) <==> Admitted(dep, r.events, i, k)
  {
    TableAlwaysRefines(dep, r, i, k);
    LookupIsHistory(dep, r, i, k);
    var c := CallOf(dep, r.systems[k].state, r.events[k]);
    assert FindingsOf(c).replayed <==> RecentlyAdmitted(dep, r.events, i, k);
  }

  /**
   * The table lives in memory only: after a start the first use of a nonce is never refused as a
   * replay, even of a call admitted moments before it in the life of the process that ended.
   */
  lemma StartForgetsNonces(dep: Deployment, r: Run, start: nat, k: nat)
    requires IsRun(dep, r) && start < k < |r.events| && ClockRuns(r.events, start + 1, k)
    requires r.events[start].Start? && StaysUp(r, start + 1, k) && UsesNonce(r.events[k])
    requires forall m :: start < m < k && UsesNonce(r.events[m]) ==> HashOf(dep, r.events[m]) != HashOf(dep, r.events[k])
    ensures OutcomeAt(dep, r, k) != Some(ReplayAttackDetected) && Admitted(dep, r.events, start + 1, k)
  {
    assert StepAt(dep, r, start);
    ReplayIffRecentlyAdmitted(dep, r, start + 1, k);
  }

  lemma AdmittedUsesAreApart(dep: Deployment, es: seq<Event>, i: nat, m: nat, k: nat)
    requires i <= m < k < |es| && Admitted(dep, es, i, m) && Admitted(dep, es, i, k)
    requires HashOf(dep, es[m]) == HashOf(dep, es[k])
    ensures es[k].mono >= es[m].mono + 300.0
  {
  }

  // ---------- the counters against the outcomes ----------

  datatype Tally = Answered | ApprovedCalls | RejectedCalls | EscalatedCalls | OfflineCalls

  /** Which outcomes a tally counts; a call that ends in an exception is in none. */
  predicate CountsAs(tally: Tally, code: Code, offline: bool) {
    !RaisesException(code) &&
    match tally
    case Answered => true
    case ApprovedCalls => code == Authorized
    case RejectedCalls => DecisionOf(code) == Rejected
    case EscalatedCalls => DecisionOf(code) == CentralCheckRequired || DecisionOf(code) == PendingHumanApproval
    case OfflineCalls => offline
  }

  predicate Counts(tally: Tally, c: Call) {
    CountsAs(tally, Decide(c), c.request.forceOffline || !c.state.reachable)
  }

  /** How many of the calls i to k-1 a tally counts. */
  function Tallied(dep: Deployment, r: Run, i: nat, k: nat, tally: Tally): nat
    requires i <= k <= |r.events| < |r.systems|
  {
    if i == k then 0
    else
      Tallied(dep, r, i, k - 1, tally) +
      (if r.events[k - 1].Evaluate? && r.systems[k - 1].Up?
          && Counts(tally, CallOf(dep, r.systems[k - 1].state, r.events[k - 1])) then 1 else 0)
  }

  lemma RecordingMovesCounters(m: Metrics, code: Code, offline: bool)
    ensures var m' := RecordedIfEnded(m, Some(code), offline);
      m'.total == m.total + (if CountsAs(Answered, code, offline) then 1 else 0) &&
      m'.approved == m.approved + (if CountsAs(ApprovedCalls, code, offline) then 1 else 0) &&
      m'.rejected == m.rejected + (if CountsAs(RejectedCalls, code, offline) then 1 else 0) &&
      m'.offline == m.offline + (if CountsAs(OfflineCalls, code, offline) then 1 else 0) &&
      m'.errors == m.errors
  {
  }

  lemma OutcomesPartition(code: Code, offline: bool)
    ensures CountsAs(Answered, code, offline) <==>
      CountsAs(ApprovedCalls, code, offline) || CountsAs(RejectedCalls, code, offline) || CountsAs(EscalatedCalls, code, offline)
    ensures !(CountsAs(ApprovedCalls, code, offline) && CountsAs(RejectedCalls, code, offline))
    ensures !(CountsAs(ApprovedCalls, code, offline) && CountsAs(EscalatedCalls, code, offline))
    ensures !(CountsAs(RejectedCalls, code, offline) && CountsAs(EscalatedCalls, code, offline))
  {
  }

  lemma CallMovesCounters(c: Call)
    ensures var m, m' := c.state.metrics, After(c).metrics;
      m'.total == m.total + (if Counts(Answered, c) then 1 else 0) &&
      m'.approved == m.approved + (if Counts(ApprovedCalls, c) then 1 else 0) &&
      m'.rejected == m.rejected + (if Counts(RejectedCalls, c) then 1 else 0) &&
      m'.offline == m.offline + (if Counts(OfflineCalls, c) then 1 else 0) &&
      m'.errors == m.errors
    ensures Counts(Answered, c) <==>
      Counts(ApprovedCalls, c) || Counts(RejectedCalls, c) || Counts(EscalatedCalls, c)
    ensures !(Counts(ApprovedCalls, c) && Counts(RejectedCalls, c))
    ensures !(Counts(ApprovedCalls, c) && Counts(EscalatedCalls, c))
    ensures !(Counts(RejectedCalls, c) && Counts(EscalatedCalls, c))
  {
    var code, offline := Decide(c), c.Offline();
    RecordingMovesCounters(c.state.metrics, code, offline);
    OutcomesPartition(code, offline);
  }

  /**
   * Conservation: over any stretch of one process life the counters move by exactly the calls
   * that returned such a decision; what is neither approved nor rejected was escalated.
   */
  lemma {:induction false} MetricsConserved(dep: Deployment, r: Run, i: nat, k: nat)
    requires IsRun(dep, r) && i <= k <= |r.events| && r.systems[i].Up? && StaysUp(r, i, k)
    ensures var m, m' := r.systems[i].state.metrics, r.systems[k].state.metrics;
      m'.total == m.total + Tallied(dep, r, i, k, Answered) &&
      m'.approved == m.approved + Tallied(dep, r, i, k, ApprovedCalls) &&
      m'.rejected == m.rejected + Tallied(dep, r, i, k, RejectedCalls) &&
      m'.offline == m.offline + Tallied(dep, r, i, k, OfflineCalls) &&
      m'.errors == m.errors
    ensures Tallied(dep, r, i, k, Answered) ==
      Tallied(dep, r, i, k, ApprovedCalls) + Tallied(dep, r, i, k, RejectedCalls) + Tallied(dep, r, i, k, EscalatedCalls)
    decreases k
  {
    if i < k {
      MetricsConserved(dep, r, i, k - 1);
      assert StepAt(dep, r, k - 1);
      if r.events[k - 1].Evaluate? {
        CallMovesCounters(CallOf(dep, r.systems[k - 1].state, r.events[k - 1]));
      } else {
        OnlyCallsMakeHistory(dep, r.systems[k - 1], r.events[k - 1]);
      }
    }
  }
}
