/** Two places where the source's unbounded-log machine, as written, does
    not keep its own invariant, each shown on a state reached from a
    one-node start by one update request.

    Both are corrected in `UnboundedLog`: the wellformedness of an update
    request (`InvLocalUpdatesWf`) asks `idx < versionUpperBound` only of a
    done request, and `UpdateFinishEnabled` asks that no combiner still
    queues the request. */
module UnboundedLogFindings {
  import opened NRTypes
  import opened UnboundedLogTypes
  import opened LogRange
  import opened UnboundedLog
  import opened UnboundedLogProofs

  // ---------------------------------------------------------------------------
  // The source's definitions, as written
  // ---------------------------------------------------------------------------

  /** The source's wellformedness of an update request: every state but
      `Init` refers to a log entry below the version upper bound. */
  ghost predicate InvLocalUpdatesWfAsWritten(s: State, update: UpdateState)
  {
    match update
    case Init(_) => true
    case Placed(_, idx) => idx in s.log && idx < s.versionUpperBound
    case Applied(_, idx) => idx in s.log && idx < s.versionUpperBound
    case Done(_, idx) => idx in s.log && idx < s.versionUpperBound
  }

  /** The source's invariant: the model's, with the source's update-request
      wellformedness. */
  ghost predicate InvAsWritten(s: State)
  {
    && CombinerLocalVersionsDomains(s)
    && CombinerReplicasDomains(s)
    && InvVersionInRange(s)
    && InvLocalVersionUpperBoundHeads(s)
    && InvLogComplete(s)
    && InvReadonlyRequestsWf(s)
    && CombinerStatesWf(s)
    && InvCombinerRidsDistinct(s)
    && InvQueuedOps(s)
    && forall rid {:trigger InvLocalUpdatesWfAsWritten(s, s.localUpdates[rid])} ::
         rid in s.localUpdates ==> InvLocalUpdatesWfAsWritten(s, s.localUpdates[rid])
  }

  /** The source's guard of `update_finish`: the request is done. */
  ghost predicate UpdateFinishEnabledAsWritten(s: State, rid: nat)
  {
    rid in s.localUpdates && s.localUpdates[rid].Done?
  }

  ghost function UpdateFinishAsWritten(s: State, rid: nat): (r: State)
    requires UpdateFinishEnabledAsWritten(s, rid)
  {
    s.(localUpdates := s.localUpdates - {rid})
  }

  // ---------------------------------------------------------------------------
  // One update request on one node
  // ---------------------------------------------------------------------------

  /** Node 0 has started a combiner round and request 0 is waiting. */
  ghost function BeforePlace(ds: Dispatch, op: UpdateOp): (r: State)
  {
    var s0 := Initialize(1, ds);
    assert 0 in NatsBelow(1);
    var s1 := UpdateStart(s0, op);
    ExecTrivialStart(s1, 0)
  }

  /** Node 0's combiner has applied request 0, published the version upper
      bound and still queues the request; the request is done. */
  ghost function AfterUpdateDone(ds: Dispatch, op: UpdateOp): (r: State)
  {
    var s2 := BeforePlace(ds, op);
    var s3 := UpdatePlaceOpsInLogOne(s2, 0, 0);
    var s4 := ExecLoadLocalVersion(s3, 0);
    var s5 := ExecLoadGlobalHead(s4, 0);
    var s6 := ExecDispatchLocal(s5, 0, ds);
    var s7 := ExecUpdateVersionUpperBound(s6, 0);
    UpdateDone(s7, 0)
  }

  /** Both states are reached by enabled steps from the initial state, so
      they satisfy the invariant. */
  lemma BeforePlaceReachable(ds: Dispatch, op: UpdateOp)
    ensures Inv(BeforePlace(ds, op))
  {
    var s0 := Initialize(1, ds);
    assert 0 in NatsBelow(1);
    UpdateStartInductive(s0, op);
    ExecTrivialStartInductive(UpdateStart(s0, op), 0);
  }

  lemma AfterUpdateDoneReachable(ds: Dispatch, op: UpdateOp)
    ensures Inv(AfterUpdateDone(ds, op))
  {
    var s2 := BeforePlace(ds, op);
    BeforePlaceReachable(ds, op);
    var s3 := UpdatePlaceOpsInLogOne(s2, 0, 0);
    UpdatePlaceOpsInLogOneInductive(s2, 0, 0);
    var s4 := ExecLoadLocalVersion(s3, 0);
    ExecLoadLocalVersionInductive(s3, 0);
    var s5 := ExecLoadGlobalHead(s4, 0);
    ExecLoadGlobalHeadInductive(s4, 0);
    var s6 := ExecDispatchLocal(s5, 0, ds);
    ExecDispatchLocalInductive(s5, 0, ds);
    var s7 := ExecUpdateVersionUpperBound(s6, 0);
    ExecUpdateVersionUpperBoundInductive(s6, 0);
    UpdateDoneInductive(s7, 0);
  }

  // ---------------------------------------------------------------------------
  // The discrepancies
  // ---------------------------------------------------------------------------

  /** Placing a request writes it at the global tail, which the version
      upper bound has not reached: the source's invariant holds before the
      step and fails after it. */
  lemma PlaceBreaksInvAsWritten(ds: Dispatch, op: UpdateOp)
    ensures InvAsWritten(BeforePlace(ds, op))
    ensures UpdatePlaceOpsInLogOneEnabled(BeforePlace(ds, op), 0, 0)
    ensures !InvAsWritten(UpdatePlaceOpsInLogOne(BeforePlace(ds, op), 0, 0))
  {
    var s := BeforePlace(ds, op);
    BeforePlaceReachable(ds, op);
    assert s.localUpdates == map[0 := UpdateState.Init(op)];
    var t := UpdatePlaceOpsInLogOne(s, 0, 0);
    assert t.localUpdates[0] == UpdateState.Placed(op, 0);
    assert !InvLocalUpdatesWfAsWritten(t, t.localUpdates[0]);
  }

  /** The source lets a done request leave while its combiner still queues
      it; afterwards a queued request is not a known update request. The
      corrected guard refuses the step. */
  lemma FinishBreaksQueuedOps(ds: Dispatch, op: UpdateOp)
    ensures Inv(AfterUpdateDone(ds, op))
    ensures UpdateFinishEnabledAsWritten(AfterUpdateDone(ds, op), 0)
    ensures !InvQueuedOps(UpdateFinishAsWritten(AfterUpdateDone(ds, op), 0))
    ensures !UpdateFinishEnabled(AfterUpdateDone(ds, op), 0)
  {
    var s := AfterUpdateDone(ds, op);
    AfterUpdateDoneReachable(ds, op);
    assert s.combiner[0].QueuedOps() == [0];
    assert 0 in s.combiner[0].QueuedOps();
  }
}
