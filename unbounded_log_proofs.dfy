/** The invariant of the unbounded log holds initially and is preserved by
    every transition, and the obligations the source attaches to its `add`
    operations (the key added is not present yet) hold.

    Each transition's proof is split: one lemma per combiner (its phase
    invariant, from the few facts it needs), one for the conjuncts the
    transition touches, and the frame lemmas below for the rest. */
module UnboundedLogProofs {
  import opened NRTypes
  import opened UnboundedLogTypes
  import opened LogRange
  import opened UnboundedLog

  // ---------------------------------------------------------------------------
  // Helpers
  // ---------------------------------------------------------------------------

  /** A request that has not been placed yet is in no combiner's queue. */
  lemma InitNotQueued(s: State, nodeId: nat, rid: nat)
    requires CombinerLocalVersionsDomains(s) && CombinerStatesWf(s)
    requires nodeId in s.combiner
    requires rid in s.localUpdates && s.localUpdates[rid].Init?
    ensures rid !in s.combiner[nodeId].QueuedOps()
  {
    assert WfCombinerForNodeId(s, nodeId);
    var q := s.combiner[nodeId].QueuedOps();
    forall j | 0 <= j < |q| ensures q[j] != rid {
      assert q[j] in q;
    }
  }

  /** The version a combiner works at is at least its node's local version. */
  lemma CurrentLocalVersionAtLeastLocal(s: State, nodeId: nat)
    requires CombinerLocalVersionsDomains(s) && CombinerStatesWf(s)
    requires nodeId in s.combiner
    ensures CurrentLocalVersion(s, nodeId) >= s.localVersions[nodeId]
  {
    assert WfCombinerForNodeId(s, nodeId);
  }

  /** Read-only request states stay well formed when the version upper bound
      and every node's current version do not decrease. */
  lemma ReadStatesKept(s: State, t: State)
    requires CombinerLocalVersionsDomains(s) && InvReadonlyRequestsWf(s)
    requires t.localReads == s.localReads
    requires t.versionUpperBound >= s.versionUpperBound
    requires t.combiner.Keys == s.combiner.Keys
    requires t.localVersions.Keys == s.localVersions.Keys
    requires t.replicas.Keys == s.replicas.Keys
    requires forall n :: n in s.combiner ==> CurrentLocalVersion(t, n) >= CurrentLocalVersion(s, n)
    ensures InvReadonlyRequestsWf(t)
  {
    forall rid | rid in t.localReads ensures WfReadState(t, t.localReads[rid]) {
      assert WfReadState(s, s.localReads[rid]);
    }
  }

  /** Update request states stay well formed when the log only grows and the
      version upper bound does not decrease. */
  lemma LocalUpdatesKept(s: State, t: State)
    requires InvLocalUpdates(s)
    requires t.localUpdates == s.localUpdates
    requires forall i :: i in s.log ==> i in t.log
    requires t.versionUpperBound >= s.versionUpperBound
    ensures InvLocalUpdates(t)
  {
    forall rid | rid in t.localUpdates ensures InvLocalUpdatesWf(t, t.localUpdates[rid]) {
      assert InvLocalUpdatesWf(s, s.localUpdates[rid]);
    }
  }

  /** The queue invariants hold after a step that keeps every queue or empties
      it and forgets no update request. */
  lemma QueuesKept(s: State, t: State)
    requires InvCombinerRidsDistinct(s) && InvQueuedOps(s)
    requires t.combiner.Keys == s.combiner.Keys
    requires forall rid :: rid in s.localUpdates ==> rid in t.localUpdates
    requires forall n :: n in t.combiner ==>
               t.combiner[n].QueuedOps() == s.combiner[n].QueuedOps() || t.combiner[n].QueuedOps() == []
    ensures InvCombinerRidsDistinct(t) && InvQueuedOps(t)
  {
    forall n1, n2 | n1 in t.combiner && n2 in t.combiner && n1 != n2
      ensures SeqDisjoint(t.combiner[n1].QueuedOps(), t.combiner[n2].QueuedOps())
    {
      assert SeqDisjoint(s.combiner[n1].QueuedOps(), s.combiner[n2].QueuedOps());
    }
  }

  /** The queue-state facts of a combiner survive a change of the update
      map that leaves the queued requests alone. */
  lemma QueueStatesKept(q: seq<nat>, lu1: map<nat, UpdateState>, lu2: map<nat, UpdateState>, bound: nat)
    requires forall rid :: rid in q ==> (rid in lu2 <==> rid in lu1) && (rid in lu1 ==> lu2[rid] == lu1[rid])
    ensures QueueRidsUpdatePlaced(q, lu1, bound) ==> QueueRidsUpdatePlaced(q, lu2, bound)
    ensures QueueRidsUpdateDone(q, lu1, bound) ==> QueueRidsUpdateDone(q, lu2, bound)
  {
    assert forall j :: 0 <= j < |q| ==> q[j] in q;
  }

  /** A combiner's phase invariant survives a step that changes the update
      map only outside its queue and leaves its own state, its node's local
      version, the log and the bounds alone. */
  lemma CombinerWfUpdatesChanged(s: State, t: State, n: nat)
    requires n in s.combiner && n in s.localVersions && WfCombinerForNodeId(s, n)
    requires s.localVersions[n] <= s.globalTail
    requires t.log == s.log && t.globalTail == s.globalTail && t.versionUpperBound == s.versionUpperBound
    requires n in t.combiner && t.combiner[n] == s.combiner[n]
    requires n in t.localVersions && t.localVersions[n] == s.localVersions[n]
    requires forall rid :: rid in s.combiner[n].QueuedOps() ==>
               (rid in t.localUpdates <==> rid in s.localUpdates)
               && (rid in s.localUpdates ==> t.localUpdates[rid] == s.localUpdates[rid])
    ensures WfCombinerForNodeId(t, n)
  {
    var q := s.combiner[n].QueuedOps();
    match s.combiner[n]
    case Ready =>
    case Placed(_) =>
      LogRangeMatchesQueueUpdateChange2(q, s.log, 0, s.localVersions[n], s.globalTail, n, s.localUpdates, t.localUpdates);
      QueueStatesKept(q, s.localUpdates, t.localUpdates, 0);
    case LoadedLocalVersion(_, lversion) =>
      LogRangeMatchesQueueUpdateChange2(q, s.log, 0, lversion, s.globalTail, n, s.localUpdates, t.localUpdates);
      QueueStatesKept(q, s.localUpdates, t.localUpdates, 0);
    case Loop(_, lversion, idx, gt) =>
      LogRangeMatchesQueueUpdateChange2(q, s.log, idx, lversion, gt, n, s.localUpdates, t.localUpdates);
      QueueStatesKept(q, s.localUpdates, t.localUpdates, idx);
    case UpdatedVersion(_, _) =>
      QueueStatesKept(q, s.localUpdates, t.localUpdates, |q|);
  }

  /** A step that changes only the read-only requests keeps the invariant
      once the new read-only request states are well formed. */
  lemma OnlyReadsChanged(s: State, t: State)
    requires Inv(s)
    requires t == s.(localReads := t.localReads)
    requires InvReadonlyRequestsWf(t)
    ensures Inv(t)
  {
    forall n | n in t.combiner ensures WfCombinerForNodeId(t, n) {
      assert WfCombinerForNodeId(s, n);
    }
    LocalUpdatesKept(s, t);
  }

  /** What a combiner step leaves alone: the log, the requests and the key
      sets; it only raises the version upper bound and keeps or empties
      each queue. */
  ghost predicate CombinerStepFrame(s: State, t: State)
  {
    && t.log == s.log
    && t.globalTail == s.globalTail
    && t.localReads == s.localReads
    && t.localUpdates == s.localUpdates
    && t.versionUpperBound >= s.versionUpperBound
    && t.combiner.Keys == s.combiner.Keys
    && t.localVersions.Keys == s.localVersions.Keys
    && t.replicas.Keys == s.replicas.Keys
    && forall n :: n in t.combiner ==>
         t.combiner[n].QueuedOps() == s.combiner[n].QueuedOps() || t.combiner[n].QueuedOps() == []
  }

  /** A combiner step within the frame keeps the invariant once the combiner
      states are well formed, no node's current version decreased and the
      version bounds hold. */
  lemma CombinerStepKeepsInv(s: State, t: State)
    requires Inv(s)
    requires CombinerStepFrame(s, t)
    requires CombinerLocalVersionsDomains(t) && CombinerStatesWf(t)
    requires forall n :: n in s.combiner ==> CurrentLocalVersion(t, n) >= CurrentLocalVersion(s, n)
    requires InvVersionInRange(t) && InvLocalVersionUpperBoundHeads(t)
    ensures Inv(t)
  {
    QueuesKept(s, t);
    ReadStatesKept(s, t);
    LocalUpdatesKept(s, t);
  }

  // ---------------------------------------------------------------------------
  // Read-only transitions
  // ---------------------------------------------------------------------------

  lemma ReadonlyStartInductive(s: State, op: ReadonlyOp)
    requires Inv(s)
    ensures GetNewNat(s.localReads.Keys) !in s.localReads
    ensures Inv(ReadonlyStart(s, op))
  {
    var t := ReadonlyStart(s, op);
    forall rid | rid in t.localReads ensures WfReadState(t, t.localReads[rid]) {
      if rid in s.localReads {
        assert WfReadState(s, s.localReads[rid]);
      }
    }
    OnlyReadsChanged(s, t);
  }

  lemma ReadonlyReadCtailInductive(s: State, rid: nat)
    requires Inv(s)
    requires ReadonlyReadCtailEnabled(s, rid)
    ensures Inv(ReadonlyReadCtail(s, rid))
  {
    var t := ReadonlyReadCtail(s, rid);
    forall r | r in t.localReads ensures WfReadState(t, t.localReads[r]) {
      if r != rid {
        assert WfReadState(s, s.localReads[r]);
      }
    }
    OnlyReadsChanged(s, t);
  }

  lemma ReadonlyReadyToReadInductive(s: State, rid: nat, nodeId: nat)
    requires Inv(s)
    requires ReadonlyReadyToReadEnabled(s, rid, nodeId)
    ensures Inv(ReadonlyReadyToRead(s, rid, nodeId))
  {
    var t := ReadonlyReadyToRead(s, rid, nodeId);
    assert WfReadState(s, s.localReads[rid]);
    CurrentLocalVersionAtLeastLocal(s, nodeId);
    forall r | r in t.localReads ensures WfReadState(t, t.localReads[r]) {
      if r != rid {
        assert WfReadState(s, s.localReads[r]);
      }
    }
    OnlyReadsChanged(s, t);
  }

  lemma ReadonlyApplyInductive(s: State, rid: nat, ds: Dispatch)
    requires Inv(s)
    requires ReadonlyApplyEnabled(s, rid)
    ensures Inv(ReadonlyApply(s, rid, ds))
  {
    var t := ReadonlyApply(s, rid, ds);
    assert WfReadState(s, s.localReads[rid]);
    forall r | r in t.localReads ensures WfReadState(t, t.localReads[r]) {
      if r != rid {
        assert WfReadState(s, s.localReads[r]);
      }
    }
    OnlyReadsChanged(s, t);
  }

  lemma ReadonlyFinishInductive(s: State, rid: nat, op: ReadonlyOp, vub: nat, nodeId: nat, ret: ReturnType)
    requires Inv(s)
    requires ReadonlyFinishEnabled(s, rid, op, vub, nodeId, ret)
    ensures Inv(ReadonlyFinish(s, rid, op, vub, nodeId, ret))
  {
    var t := ReadonlyFinish(s, rid, op, vub, nodeId, ret);
    forall r | r in t.localReads ensures WfReadState(t, t.localReads[r]) {
      assert WfReadState(s, s.localReads[r]);
    }
    OnlyReadsChanged(s, t);
  }

  // ---------------------------------------------------------------------------
  // Update transitions
  // ---------------------------------------------------------------------------

  lemma UpdateStartCombinerWf(s: State, op: UpdateOp, n: nat)
    requires CombinerLocalVersionsDomains(s)
    requires n in s.combiner && WfCombinerForNodeId(s, n)
    requires GetNewNat(s.localUpdates.Keys) !in s.combiner[n].QueuedOps()
    requires s.localVersions[n] <= s.globalTail
    ensures WfCombinerForNodeId(UpdateStart(s, op), n)
  {
    CombinerWfUpdatesChanged(s, UpdateStart(s, op), n);
  }

  lemma UpdateStartRest(s: State, op: UpdateOp)
    requires Inv(s)
    ensures CombinerLocalVersionsDomains(UpdateStart(s, op))
    ensures CombinerStatesWf(UpdateStart(s, op))
    ensures InvLocalUpdates(UpdateStart(s, op))
  {
    var t := UpdateStart(s, op);
    var rid := GetNewNat(s.localUpdates.Keys);
    forall n | n in t.combiner ensures WfCombinerForNodeId(t, n) {
      assert WfCombinerForNodeId(s, n);
      UpdateStartCombinerWf(s, op, n);
    }
    forall r | r in t.localUpdates ensures InvLocalUpdatesWf(t, t.localUpdates[r]) {
      if r != rid {
        assert InvLocalUpdatesWf(s, s.localUpdates[r]);
      }
    }
  }

  lemma UpdateStartInductive(s: State, op: UpdateOp)
    requires Inv(s)
    ensures GetNewNat(s.localUpdates.Keys) !in s.localUpdates
    ensures Inv(UpdateStart(s, op))
  {
    var t := UpdateStart(s, op);
    UpdateStartRest(s, op);
    QueuesKept(s, t);
    ReadStatesKept(s, t);
  }

  /** The placing node's own queue, with the new request appended, still
      matches the log, which gained the request's entry. */
  lemma UpdatePlaceOpsInLogOneCombinerWfSelf(s: State, nodeId: nat, rid: nat)
    requires CombinerLocalVersionsDomains(s)
    requires UpdatePlaceOpsInLogOneEnabled(s, nodeId, rid)
    requires WfCombinerForNodeId(s, nodeId)
    requires rid !in s.combiner[nodeId].QueuedOps()
    requires s.localVersions[nodeId] <= s.globalTail
    ensures WfCombinerForNodeId(UpdatePlaceOpsInLogOne(s, nodeId, rid), nodeId)
  {
    var t := UpdatePlaceOpsInLogOne(s, nodeId, rid);
    var e := LogEntry(s.localUpdates[rid].op, nodeId);
    var q := s.combiner[nodeId].queuedOps;
    LogRangeMatchesQueueAppend(q, s.log, t.log, 0, s.localVersions[nodeId], s.globalTail, nodeId,
                               s.localUpdates, t.localUpdates, rid, e);
    var q' := q + [rid];
    forall j | 0 <= j < |q'| ensures q'[j] in t.localUpdates && t.localUpdates[q'[j]].Placed? {
      if j < |q| {
        assert q'[j] == q[j];
      }
    }
  }

  /** Another node's queue still matches the log, which gained an entry that
      is not its own. */
  lemma UpdatePlaceOpsInLogOneCombinerWfOther(s: State, nodeId: nat, rid: nat, n: nat)
    requires CombinerLocalVersionsDomains(s)
    requires UpdatePlaceOpsInLogOneEnabled(s, nodeId, rid)
    requires n in s.combiner && n != nodeId && WfCombinerForNodeId(s, n)
    requires rid !in s.combiner[n].QueuedOps()
    requires s.localVersions[n] <= s.versionUpperBound <= s.globalTail
    ensures WfCombinerForNodeId(UpdatePlaceOpsInLogOne(s, nodeId, rid), n)
  {
    var t := UpdatePlaceOpsInLogOne(s, nodeId, rid);
    var e := LogEntry(s.localUpdates[rid].op, nodeId);
    var lv := s.localVersions[n];
    var q := s.combiner[n].QueuedOps();
    match s.combiner[n]
    case Ready =>
      LogRangeNoNodeIdAppendOther(s.log, t.log, lv, s.globalTail, n, e);
    case Placed(_) =>
      LogRangeMatchesQueueAppendOtherAugment(q, s.log, t.log, 0, lv, s.globalTail, n, s.localUpdates, t.localUpdates, rid, e);
    case LoadedLocalVersion(_, lversion) =>
      LogRangeMatchesQueueAppendOtherAugment(q, s.log, t.log, 0, lversion, s.globalTail, n, s.localUpdates, t.localUpdates, rid, e);
    case Loop(_, lversion, idx, gt) =>
      LogRangeMatchesQueueAppendOther(q, s.log, t.log, idx, lversion, gt, s.globalTail, n, s.localUpdates, t.localUpdates, rid, e);
      LogRangeNoNodeIdAppendOther(s.log, t.log, gt, s.globalTail, n, e);
    case UpdatedVersion(_, gt) =>
      LogRangeNoNodeIdAppendOther(s.log, t.log, gt, s.globalTail, n, e);
  }

  lemma UpdatePlaceOpsInLogOneCombinersWf(s: State, nodeId: nat, rid: nat)
    requires Inv(s)
    requires UpdatePlaceOpsInLogOneEnabled(s, nodeId, rid)
    ensures CombinerLocalVersionsDomains(UpdatePlaceOpsInLogOne(s, nodeId, rid))
    ensures CombinerStatesWf(UpdatePlaceOpsInLogOne(s, nodeId, rid))
  {
    var t := UpdatePlaceOpsInLogOne(s, nodeId, rid);
    forall n | n in t.combiner ensures WfCombinerForNodeId(t, n) {
      assert WfCombinerForNodeId(s, n);
      InitNotQueued(s, n, rid);
      if n == nodeId {
        UpdatePlaceOpsInLogOneCombinerWfSelf(s, nodeId, rid);
      } else {
        UpdatePlaceOpsInLogOneCombinerWfOther(s, nodeId, rid, n);
      }
    }
  }

  lemma UpdatePlaceOpsInLogOneQueues(s: State, nodeId: nat, rid: nat)
    requires Inv(s)
    requires UpdatePlaceOpsInLogOneEnabled(s, nodeId, rid)
    ensures InvCombinerRidsDistinct(UpdatePlaceOpsInLogOne(s, nodeId, rid))
    ensures InvQueuedOps(UpdatePlaceOpsInLogOne(s, nodeId, rid))
  {
    var t := UpdatePlaceOpsInLogOne(s, nodeId, rid);
    forall n | n in s.combiner ensures rid !in s.combiner[n].QueuedOps() {
      InitNotQueued(s, n, rid);
    }
    forall n1, n2 | n1 in t.combiner && n2 in t.combiner && n1 != n2
      ensures SeqDisjoint(t.combiner[n1].QueuedOps(), t.combiner[n2].QueuedOps())
    {
      assert SeqDisjoint(s.combiner[n1].QueuedOps(), s.combiner[n2].QueuedOps());
    }
  }

  lemma UpdatePlaceOpsInLogOneRest(s: State, nodeId: nat, rid: nat)
    requires Inv(s)
    requires UpdatePlaceOpsInLogOneEnabled(s, nodeId, rid)
    ensures s.globalTail !in s.log
    ensures CombinerReplicasDomains(UpdatePlaceOpsInLogOne(s, nodeId, rid))
    ensures InvVersionInRange(UpdatePlaceOpsInLogOne(s, nodeId, rid))
    ensures InvLocalVersionUpperBoundHeads(UpdatePlaceOpsInLogOne(s, nodeId, rid))
    ensures InvLogComplete(UpdatePlaceOpsInLogOne(s, nodeId, rid))
    ensures InvLocalUpdates(UpdatePlaceOpsInLogOne(s, nodeId, rid))
  {
    var t := UpdatePlaceOpsInLogOne(s, nodeId, rid);
    forall r | r in t.localUpdates ensures InvLocalUpdatesWf(t, t.localUpdates[r]) {
      if r != rid {
        assert InvLocalUpdatesWf(s, s.localUpdates[r]);
      }
    }
  }

  lemma UpdatePlaceOpsInLogOneReads(s: State, nodeId: nat, rid: nat)
    requires CombinerLocalVersionsDomains(s) && InvReadonlyRequestsWf(s)
    requires UpdatePlaceOpsInLogOneEnabled(s, nodeId, rid)
    ensures InvReadonlyRequestsWf(UpdatePlaceOpsInLogOne(s, nodeId, rid))
  {
    ReadStatesKept(s, UpdatePlaceOpsInLogOne(s, nodeId, rid));
  }

  lemma UpdatePlaceOpsInLogOneInductive(s: State, nodeId: nat, rid: nat)
    requires Inv(s)
    requires UpdatePlaceOpsInLogOneEnabled(s, nodeId, rid)
    ensures s.globalTail !in s.log
    ensures Inv(UpdatePlaceOpsInLogOne(s, nodeId, rid))
  {
    UpdatePlaceOpsInLogOneCombinersWf(s, nodeId, rid);
    UpdatePlaceOpsInLogOneQueues(s, nodeId, rid);
    UpdatePlaceOpsInLogOneRest(s, nodeId, rid);
    UpdatePlaceOpsInLogOneReads(s, nodeId, rid);
  }

  lemma UpdateDoneCombinerWf(s: State, rid: nat, n: nat)
    requires CombinerLocalVersionsDomains(s)
    requires UpdateDoneEnabled(s, rid)
    requires n in s.combiner && WfCombinerForNodeId(s, n)
    requires s.localVersions[n] <= s.globalTail
    ensures WfCombinerForNodeId(UpdateDone(s, rid), n)
  {
    var t := UpdateDone(s, rid);
    var q := s.combiner[n].QueuedOps();
    match s.combiner[n]
    case Ready =>
    case Placed(_) =>
      LogRangeMatchesQueueUpdateChange(q, s.log, 0, s.localVersions[n], s.globalTail, n, s.localUpdates, t.localUpdates);
    case LoadedLocalVersion(_, lversion) =>
      LogRangeMatchesQueueUpdateChange(q, s.log, 0, lversion, s.globalTail, n, s.localUpdates, t.localUpdates);
    case Loop(_, lversion, idx, gt) =>
      LogRangeMatchesQueueUpdateChange(q, s.log, idx, lversion, gt, n, s.localUpdates, t.localUpdates);
    case UpdatedVersion(_, _) =>
  }

  lemma UpdateDoneRest(s: State, rid: nat)
    requires Inv(s)
    requires UpdateDoneEnabled(s, rid)
    ensures CombinerLocalVersionsDomains(UpdateDone(s, rid))
    ensures CombinerStatesWf(UpdateDone(s, rid))
    ensures InvLocalUpdates(UpdateDone(s, rid))
  {
    var t := UpdateDone(s, rid);
    forall n | n in t.combiner ensures WfCombinerForNodeId(t, n) {
      assert WfCombinerForNodeId(s, n);
      UpdateDoneCombinerWf(s, rid, n);
    }
    forall r | r in t.localUpdates ensures InvLocalUpdatesWf(t, t.localUpdates[r]) {
      assert InvLocalUpdatesWf(s, s.localUpdates[r]);
    }
  }

  lemma UpdateDoneInductive(s: State, rid: nat)
    requires Inv(s)
    requires UpdateDoneEnabled(s, rid)
    ensures Inv(UpdateDone(s, rid))
  {
    var t := UpdateDone(s, rid);
    UpdateDoneRest(s, rid);
    QueuesKept(s, t);
    ReadStatesKept(s, t);
  }

  lemma UpdateFinishCombinerWf(s: State, rid: nat, n: nat)
    requires CombinerLocalVersionsDomains(s)
    requires UpdateFinishEnabled(s, rid)
    requires n in s.combiner && WfCombinerForNodeId(s, n)
    requires s.localVersions[n] <= s.globalTail
    ensures WfCombinerForNodeId(UpdateFinish(s, rid), n)
  {
    CombinerWfUpdatesChanged(s, UpdateFinish(s, rid), n);
  }

  lemma UpdateFinishRest(s: State, rid: nat)
    requires Inv(s)
    requires UpdateFinishEnabled(s, rid)
    ensures CombinerLocalVersionsDomains(UpdateFinish(s, rid))
    ensures CombinerStatesWf(UpdateFinish(s, rid))
    ensures InvCombinerRidsDistinct(UpdateFinish(s, rid))
    ensures InvQueuedOps(UpdateFinish(s, rid))
    ensures InvLocalUpdates(UpdateFinish(s, rid))
  {
    var t := UpdateFinish(s, rid);
    forall n | n in t.combiner ensures WfCombinerForNodeId(t, n) {
      assert WfCombinerForNodeId(s, n);
      UpdateFinishCombinerWf(s, rid, n);
    }
    forall n1, n2 | n1 in t.combiner && n2 in t.combiner && n1 != n2
      ensures SeqDisjoint(t.combiner[n1].QueuedOps(), t.combiner[n2].QueuedOps())
    {
      assert SeqDisjoint(s.combiner[n1].QueuedOps(), s.combiner[n2].QueuedOps());
    }
    forall r | r in t.localUpdates ensures InvLocalUpdatesWf(t, t.localUpdates[r]) {
      assert InvLocalUpdatesWf(s, s.localUpdates[r]);
    }
  }

  lemma UpdateFinishInductive(s: State, rid: nat)
    requires Inv(s)
    requires UpdateFinishEnabled(s, rid)
    ensures Inv(UpdateFinish(s, rid))
  {
    var t := UpdateFinish(s, rid);
    UpdateFinishRest(s, rid);
    ReadStatesKept(s, t);
  }

  // ---------------------------------------------------------------------------
  // Combiner transitions
  // ---------------------------------------------------------------------------

  lemma ExecTrivialStartCombinerWf(s: State, nodeId: nat, n: nat)
    requires CombinerLocalVersionsDomains(s)
    requires ExecTrivialStartEnabled(s, nodeId)
    requires n in s.combiner && WfCombinerForNodeId(s, n)
    requires s.localVersions[n] <= s.globalTail
    ensures WfCombinerForNodeId(ExecTrivialStart(s, nodeId), n)
  {
    if n == nodeId {
      ConcatLogRangeNoNodeIdLogRangeMatchesQueue([], s.log, 0, s.localVersions[nodeId], s.globalTail, s.globalTail,
                                                nodeId, s.localUpdates);
    }
  }

  lemma ExecTrivialStartCombinersWf(s: State, nodeId: nat)
    requires Inv(s)
    requires ExecTrivialStartEnabled(s, nodeId)
    ensures CombinerLocalVersionsDomains(ExecTrivialStart(s, nodeId))
    ensures CombinerStatesWf(ExecTrivialStart(s, nodeId))
  {
    var t := ExecTrivialStart(s, nodeId);
    forall n | n in t.combiner ensures WfCombinerForNodeId(t, n) {
      assert WfCombinerForNodeId(s, n);
      ExecTrivialStartCombinerWf(s, nodeId, n);
    }
  }

  lemma ExecTrivialStartFrame(s: State, nodeId: nat)
    requires ExecTrivialStartEnabled(s, nodeId)
    ensures CombinerStepFrame(s, ExecTrivialStart(s, nodeId))
  {
  }

  lemma ExecTrivialStartVersions(s: State, nodeId: nat)
    requires CombinerLocalVersionsDomains(s) && InvVersionInRange(s) && InvLocalVersionUpperBoundHeads(s)
    requires ExecTrivialStartEnabled(s, nodeId)
    requires WfCombinerForNodeId(s, nodeId)
    ensures forall n :: n in s.combiner ==>
              CurrentLocalVersion(ExecTrivialStart(s, nodeId), n) >= CurrentLocalVersion(s, n)
    ensures InvVersionInRange(ExecTrivialStart(s, nodeId))
    ensures InvLocalVersionUpperBoundHeads(ExecTrivialStart(s, nodeId))
  {
  }

  lemma ExecTrivialStartInductive(s: State, nodeId: nat)
    requires Inv(s)
    requires ExecTrivialStartEnabled(s, nodeId)
    ensures Inv(ExecTrivialStart(s, nodeId))
  {
    assert WfCombinerForNodeId(s, nodeId);
    ExecTrivialStartCombinersWf(s, nodeId);
    ExecTrivialStartFrame(s, nodeId);
    ExecTrivialStartVersions(s, nodeId);
    CombinerStepKeepsInv(s, ExecTrivialStart(s, nodeId));
  }

  lemma ExecLoadLocalVersionCombinerWf(s: State, nodeId: nat, n: nat)
    requires CombinerLocalVersionsDomains(s)
    requires ExecLoadLocalVersionEnabled(s, nodeId)
    requires n in s.combiner && WfCombinerForNodeId(s, n)
    ensures WfCombinerForNodeId(ExecLoadLocalVersion(s, nodeId), n)
  {
  }

  lemma ExecLoadLocalVersionCombinersWf(s: State, nodeId: nat)
    requires Inv(s)
    requires ExecLoadLocalVersionEnabled(s, nodeId)
    ensures CombinerLocalVersionsDomains(ExecLoadLocalVersion(s, nodeId))
    ensures CombinerStatesWf(ExecLoadLocalVersion(s, nodeId))
  {
    var t := ExecLoadLocalVersion(s, nodeId);
    forall n | n in t.combiner ensures WfCombinerForNodeId(t, n) {
      assert WfCombinerForNodeId(s, n);
      ExecLoadLocalVersionCombinerWf(s, nodeId, n);
    }
  }

  lemma ExecLoadLocalVersionFrame(s: State, nodeId: nat)
    requires ExecLoadLocalVersionEnabled(s, nodeId)
    ensures CombinerStepFrame(s, ExecLoadLocalVersion(s, nodeId))
  {
  }

  lemma ExecLoadLocalVersionVersions(s: State, nodeId: nat)
    requires CombinerLocalVersionsDomains(s) && InvVersionInRange(s) && InvLocalVersionUpperBoundHeads(s)
    requires ExecLoadLocalVersionEnabled(s, nodeId)
    requires WfCombinerForNodeId(s, nodeId)
    ensures forall n :: n in s.combiner ==>
              CurrentLocalVersion(ExecLoadLocalVersion(s, nodeId), n) >= CurrentLocalVersion(s, n)
    ensures InvVersionInRange(ExecLoadLocalVersion(s, nodeId))
    ensures InvLocalVersionUpperBoundHeads(ExecLoadLocalVersion(s, nodeId))
  {
  }

  lemma ExecLoadLocalVersionInductive(s: State, nodeId: nat)
    requires Inv(s)
    requires ExecLoadLocalVersionEnabled(s, nodeId)
    ensures Inv(ExecLoadLocalVersion(s, nodeId))
  {
    assert WfCombinerForNodeId(s, nodeId);
    ExecLoadLocalVersionCombinersWf(s, nodeId);
    ExecLoadLocalVersionFrame(s, nodeId);
    ExecLoadLocalVersionVersions(s, nodeId);
    CombinerStepKeepsInv(s, ExecLoadLocalVersion(s, nodeId));
  }

  lemma ExecLoadGlobalHeadCombinerWf(s: State, nodeId: nat, n: nat)
    requires CombinerLocalVersionsDomains(s)
    requires ExecLoadGlobalHeadEnabled(s, nodeId)
    requires n in s.combiner && WfCombinerForNodeId(s, n)
    requires s.localVersions[n] <= s.globalTail
    ensures WfCombinerForNodeId(ExecLoadGlobalHead(s, nodeId), n)
  {
  }

  lemma ExecLoadGlobalHeadCombinersWf(s: State, nodeId: nat)
    requires Inv(s)
    requires ExecLoadGlobalHeadEnabled(s, nodeId)
    ensures CombinerLocalVersionsDomains(ExecLoadGlobalHead(s, nodeId))
    ensures CombinerStatesWf(ExecLoadGlobalHead(s, nodeId))
  {
    var t := ExecLoadGlobalHead(s, nodeId);
    forall n | n in t.combiner ensures WfCombinerForNodeId(t, n) {
      assert WfCombinerForNodeId(s, n);
      ExecLoadGlobalHeadCombinerWf(s, nodeId, n);
    }
  }

  lemma ExecLoadGlobalHeadFrame(s: State, nodeId: nat)
    requires ExecLoadGlobalHeadEnabled(s, nodeId)
    ensures CombinerStepFrame(s, ExecLoadGlobalHead(s, nodeId))
  {
  }

  lemma ExecLoadGlobalHeadVersions(s: State, nodeId: nat)
    requires CombinerLocalVersionsDomains(s) && InvVersionInRange(s) && InvLocalVersionUpperBoundHeads(s)
    requires ExecLoadGlobalHeadEnabled(s, nodeId)
    requires WfCombinerForNodeId(s, nodeId)
    ensures forall n :: n in s.combiner ==>
              CurrentLocalVersion(ExecLoadGlobalHead(s, nodeId), n) >= CurrentLocalVersion(s, n)
    ensures InvVersionInRange(ExecLoadGlobalHead(s, nodeId))
    ensures InvLocalVersionUpperBoundHeads(ExecLoadGlobalHead(s, nodeId))
  {
  }

  lemma ExecLoadGlobalHeadInductive(s: State, nodeId: nat)
    requires Inv(s)
    requires ExecLoadGlobalHeadEnabled(s, nodeId)
    ensures Inv(ExecLoadGlobalHead(s, nodeId))
  {
    assert WfCombinerForNodeId(s, nodeId);
    ExecLoadGlobalHeadCombinersWf(s, nodeId);
    ExecLoadGlobalHeadFrame(s, nodeId);
    ExecLoadGlobalHeadVersions(s, nodeId);
    CombinerStepKeepsInv(s, ExecLoadGlobalHead(s, nodeId));
  }

  /** The dispatching combiner moves past its entry and its request. */
  lemma ExecDispatchLocalCombinerWfSelf(s: State, nodeId: nat, ds: Dispatch)
    requires CombinerLocalVersionsDomains(s)
    requires ExecDispatchLocalEnabled(s, nodeId)
    requires WfCombinerForNodeId(s, nodeId)
    ensures WfCombinerForNodeId(ExecDispatchLocal(s, nodeId, ds), nodeId)
  {
    var t := ExecDispatchLocal(s, nodeId, ds);
    var c := s.combiner[nodeId];
    var q := c.queuedOps;
    var rid := q[c.idx];
    LogRangeMatchesQueueUpdateChange(q, s.log, c.idx + 1, c.lversion + 1, c.globalTail, nodeId,
                                    s.localUpdates, t.localUpdates);
    forall j | c.idx + 1 <= j < |q| ensures q[j] in t.localUpdates && t.localUpdates[q[j]].Placed? {
      assert q[j] != rid;
    }
    forall j | 0 <= j < |q| && j < c.idx + 1
      ensures q[j] in t.localUpdates ==> t.localUpdates[q[j]].Applied? || t.localUpdates[q[j]].Done?
    {
      if j < c.idx {
        assert q[j] != rid;
      }
    }
  }

  /** Other combiners do not hold the dispatched request. */
  lemma ExecDispatchLocalCombinerWfOther(s: State, nodeId: nat, ds: Dispatch, n: nat)
    requires CombinerLocalVersionsDomains(s)
    requires ExecDispatchLocalEnabled(s, nodeId)
    requires n in s.combiner && n != nodeId && WfCombinerForNodeId(s, n)
    requires s.combiner[nodeId].queuedOps[s.combiner[nodeId].idx] !in s.combiner[n].QueuedOps()
    requires s.localVersions[n] <= s.globalTail
    ensures WfCombinerForNodeId(ExecDispatchLocal(s, nodeId, ds), n)
  {
    CombinerWfUpdatesChanged(s, ExecDispatchLocal(s, nodeId, ds), n);
  }

  lemma ExecDispatchLocalCombinersWf(s: State, nodeId: nat, ds: Dispatch)
    requires Inv(s)
    requires ExecDispatchLocalEnabled(s, nodeId)
    ensures CombinerLocalVersionsDomains(ExecDispatchLocal(s, nodeId, ds))
    ensures CombinerStatesWf(ExecDispatchLocal(s, nodeId, ds))
  {
    var t := ExecDispatchLocal(s, nodeId, ds);
    var c := s.combiner[nodeId];
    forall n | n in t.combiner ensures WfCombinerForNodeId(t, n) {
      assert WfCombinerForNodeId(s, n);
      if n == nodeId {
        ExecDispatchLocalCombinerWfSelf(s, nodeId, ds);
      } else {
        assert SeqDisjoint(c.queuedOps, s.combiner[n].QueuedOps());
        ExecDispatchLocalCombinerWfOther(s, nodeId, ds, n);
      }
    }
  }

  lemma ExecDispatchLocalUpdates(s: State, nodeId: nat, ds: Dispatch)
    requires InvLocalUpdates(s)
    requires ExecDispatchLocalEnabled(s, nodeId)
    ensures InvLocalUpdates(ExecDispatchLocal(s, nodeId, ds))
  {
    var t := ExecDispatchLocal(s, nodeId, ds);
    var c := s.combiner[nodeId];
    var rid := c.queuedOps[c.idx];
    forall r | r in t.localUpdates ensures InvLocalUpdatesWf(t, t.localUpdates[r]) {
      if r != rid {
        assert InvLocalUpdatesWf(s, s.localUpdates[r]);
      }
    }
  }

  lemma ExecDispatchLocalReads(s: State, nodeId: nat, ds: Dispatch)
    requires CombinerLocalVersionsDomains(s) && InvReadonlyRequestsWf(s)
    requires ExecDispatchLocalEnabled(s, nodeId)
    ensures InvReadonlyRequestsWf(ExecDispatchLocal(s, nodeId, ds))
  {
    ReadStatesKept(s, ExecDispatchLocal(s, nodeId, ds));
  }

  lemma ExecDispatchLocalQueues(s: State, nodeId: nat, ds: Dispatch)
    requires InvCombinerRidsDistinct(s) && InvQueuedOps(s)
    requires ExecDispatchLocalEnabled(s, nodeId)
    ensures InvCombinerRidsDistinct(ExecDispatchLocal(s, nodeId, ds))
    ensures InvQueuedOps(ExecDispatchLocal(s, nodeId, ds))
  {
    QueuesKept(s, ExecDispatchLocal(s, nodeId, ds));
  }

  lemma ExecDispatchLocalInductive(s: State, nodeId: nat, ds: Dispatch)
    requires Inv(s)
    requires ExecDispatchLocalEnabled(s, nodeId)
    ensures Inv(ExecDispatchLocal(s, nodeId, ds))
  {
    ExecDispatchLocalCombinersWf(s, nodeId, ds);
    ExecDispatchLocalUpdates(s, nodeId, ds);
    ExecDispatchLocalReads(s, nodeId, ds);
    ExecDispatchLocalQueues(s, nodeId, ds);
  }

  lemma ExecDispatchRemoteCombinerWf(s: State, nodeId: nat, ds: Dispatch, n: nat)
    requires CombinerLocalVersionsDomains(s)
    requires ExecDispatchRemoteEnabled(s, nodeId)
    requires n in s.combiner && WfCombinerForNodeId(s, n)
    ensures WfCombinerForNodeId(ExecDispatchRemote(s, nodeId, ds), n)
  {
  }

  lemma ExecDispatchRemoteCombinersWf(s: State, nodeId: nat, ds: Dispatch)
    requires Inv(s)
    requires ExecDispatchRemoteEnabled(s, nodeId)
    ensures CombinerLocalVersionsDomains(ExecDispatchRemote(s, nodeId, ds))
    ensures CombinerStatesWf(ExecDispatchRemote(s, nodeId, ds))
  {
    var t := ExecDispatchRemote(s, nodeId, ds);
    forall n | n in t.combiner ensures WfCombinerForNodeId(t, n) {
      assert WfCombinerForNodeId(s, n);
      ExecDispatchRemoteCombinerWf(s, nodeId, ds, n);
    }
  }

  lemma ExecDispatchRemoteFrame(s: State, nodeId: nat, ds: Dispatch)
    requires ExecDispatchRemoteEnabled(s, nodeId)
    ensures CombinerStepFrame(s, ExecDispatchRemote(s, nodeId, ds))
  {
  }

  lemma ExecDispatchRemoteVersions(s: State, nodeId: nat, ds: Dispatch)
    requires CombinerLocalVersionsDomains(s) && InvVersionInRange(s) && InvLocalVersionUpperBoundHeads(s)
    requires ExecDispatchRemoteEnabled(s, nodeId)
    requires WfCombinerForNodeId(s, nodeId)
    ensures forall n :: n in s.combiner ==>
              CurrentLocalVersion(ExecDispatchRemote(s, nodeId, ds), n) >= CurrentLocalVersion(s, n)
    ensures InvVersionInRange(ExecDispatchRemote(s, nodeId, ds))
    ensures InvLocalVersionUpperBoundHeads(ExecDispatchRemote(s, nodeId, ds))
  {
  }

  lemma ExecDispatchRemoteInductive(s: State, nodeId: nat, ds: Dispatch)
    requires Inv(s)
    requires ExecDispatchRemoteEnabled(s, nodeId)
    ensures Inv(ExecDispatchRemote(s, nodeId, ds))
  {
    assert WfCombinerForNodeId(s, nodeId);
    ExecDispatchRemoteCombinersWf(s, nodeId, ds);
    ExecDispatchRemoteFrame(s, nodeId, ds);
    ExecDispatchRemoteVersions(s, nodeId, ds);
    CombinerStepKeepsInv(s, ExecDispatchRemote(s, nodeId, ds));
  }

  lemma ExecUpdateVersionUpperBoundCombinerWf(s: State, nodeId: nat, n: nat)
    requires CombinerLocalVersionsDomains(s)
    requires ExecUpdateVersionUpperBoundEnabled(s, nodeId)
    requires n in s.combiner && WfCombinerForNodeId(s, n)
    requires WfCombinerForNodeId(s, nodeId)
    ensures WfCombinerForNodeId(ExecUpdateVersionUpperBound(s, nodeId), n)
  {
  }

  lemma ExecUpdateVersionUpperBoundCombinersWf(s: State, nodeId: nat)
    requires Inv(s)
    requires ExecUpdateVersionUpperBoundEnabled(s, nodeId)
    ensures CombinerLocalVersionsDomains(ExecUpdateVersionUpperBound(s, nodeId))
    ensures CombinerStatesWf(ExecUpdateVersionUpperBound(s, nodeId))
  {
    var t := ExecUpdateVersionUpperBound(s, nodeId);
    assert WfCombinerForNodeId(s, nodeId);
    forall n | n in t.combiner ensures WfCombinerForNodeId(t, n) {
      assert WfCombinerForNodeId(s, n);
      ExecUpdateVersionUpperBoundCombinerWf(s, nodeId, n);
    }
  }

  lemma ExecUpdateVersionUpperBoundFrame(s: State, nodeId: nat)
    requires ExecUpdateVersionUpperBoundEnabled(s, nodeId)
    ensures CombinerStepFrame(s, ExecUpdateVersionUpperBound(s, nodeId))
  {
  }

  lemma ExecUpdateVersionUpperBoundVersions(s: State, nodeId: nat)
    requires CombinerLocalVersionsDomains(s) && InvVersionInRange(s) && InvLocalVersionUpperBoundHeads(s)
    requires ExecUpdateVersionUpperBoundEnabled(s, nodeId)
    requires WfCombinerForNodeId(s, nodeId)
    ensures forall n :: n in s.combiner ==>
              CurrentLocalVersion(ExecUpdateVersionUpperBound(s, nodeId), n) >= CurrentLocalVersion(s, n)
    ensures InvVersionInRange(ExecUpdateVersionUpperBound(s, nodeId))
    ensures InvLocalVersionUpperBoundHeads(ExecUpdateVersionUpperBound(s, nodeId))
  {
  }

  lemma ExecUpdateVersionUpperBoundInductive(s: State, nodeId: nat)
    requires Inv(s)
    requires ExecUpdateVersionUpperBoundEnabled(s, nodeId)
    ensures Inv(ExecUpdateVersionUpperBound(s, nodeId))
  {
    assert WfCombinerForNodeId(s, nodeId);
    ExecUpdateVersionUpperBoundCombinersWf(s, nodeId);
    ExecUpdateVersionUpperBoundFrame(s, nodeId);
    ExecUpdateVersionUpperBoundVersions(s, nodeId);
    CombinerStepKeepsInv(s, ExecUpdateVersionUpperBound(s, nodeId));
  }

  lemma ExecFinishCombinerWf(s: State, nodeId: nat, n: nat)
    requires CombinerLocalVersionsDomains(s)
    requires ExecFinishEnabled(s, nodeId)
    requires n in s.combiner && WfCombinerForNodeId(s, n)
    ensures WfCombinerForNodeId(ExecFinish(s, nodeId), n)
  {
  }

  lemma ExecFinishCombinersWf(s: State, nodeId: nat)
    requires Inv(s)
    requires ExecFinishEnabled(s, nodeId)
    ensures CombinerLocalVersionsDomains(ExecFinish(s, nodeId))
    ensures CombinerStatesWf(ExecFinish(s, nodeId))
  {
    var t := ExecFinish(s, nodeId);
    forall n | n in t.combiner ensures WfCombinerForNodeId(t, n) {
      assert WfCombinerForNodeId(s, n);
      ExecFinishCombinerWf(s, nodeId, n);
    }
  }

  lemma ExecFinishFrame(s: State, nodeId: nat)
    requires ExecFinishEnabled(s, nodeId)
    ensures CombinerStepFrame(s, ExecFinish(s, nodeId))
  {
  }

  lemma ExecFinishVersions(s: State, nodeId: nat)
    requires CombinerLocalVersionsDomains(s) && InvVersionInRange(s) && InvLocalVersionUpperBoundHeads(s)
    requires ExecFinishEnabled(s, nodeId)
    requires WfCombinerForNodeId(s, nodeId)
    ensures forall n :: n in s.combiner ==>
              CurrentLocalVersion(ExecFinish(s, nodeId), n) >= CurrentLocalVersion(s, n)
    ensures InvVersionInRange(ExecFinish(s, nodeId))
    ensures InvLocalVersionUpperBoundHeads(ExecFinish(s, nodeId))
  {
  }

  lemma ExecFinishInductive(s: State, nodeId: nat)
    requires Inv(s)
    requires ExecFinishEnabled(s, nodeId)
    ensures Inv(ExecFinish(s, nodeId))
  {
    assert WfCombinerForNodeId(s, nodeId);
    ExecFinishCombinersWf(s, nodeId);
    ExecFinishFrame(s, nodeId);
    ExecFinishVersions(s, nodeId);
    CombinerStepKeepsInv(s, ExecFinish(s, nodeId));
  }

  // ---------------------------------------------------------------------------
  // The whole machine
  // ---------------------------------------------------------------------------

  lemma ReadonlyStepPreservesInv(s: State, step: Step, ds: Dispatch)
    requires Inv(s)
    requires StepEnabled(s, step)
    requires step.ReadonlyStartStep? || step.ReadonlyReadCtailStep? || step.ReadonlyReadyToReadStep?
             || step.ReadonlyApplyStep? || step.ReadonlyFinishStep?
    ensures Inv(Next(s, step, ds))
  {
    match step
    case ReadonlyStartStep(op) => ReadonlyStartInductive(s, op);
    case ReadonlyReadCtailStep(rid) => ReadonlyReadCtailInductive(s, rid);
    case ReadonlyReadyToReadStep(rid, nodeId) => ReadonlyReadyToReadInductive(s, rid, nodeId);
    case ReadonlyApplyStep(rid) => ReadonlyApplyInductive(s, rid, ds);
    case ReadonlyFinishStep(rid, op, vub, nodeId, ret) => ReadonlyFinishInductive(s, rid, op, vub, nodeId, ret);
  }

  lemma UpdateStepPreservesInv(s: State, step: Step, ds: Dispatch)
    requires Inv(s)
    requires StepEnabled(s, step)
    requires step.UpdateStartStep? || step.UpdatePlaceOpsInLogOneStep? || step.UpdateDoneStep? || step.UpdateFinishStep?
    ensures Inv(Next(s, step, ds))
  {
    match step
    case UpdateStartStep(op) => UpdateStartInductive(s, op);
    case UpdatePlaceOpsInLogOneStep(nodeId, rid) => UpdatePlaceOpsInLogOneInductive(s, nodeId, rid);
    case UpdateDoneStep(rid) => UpdateDoneInductive(s, rid);
    case UpdateFinishStep(rid) => UpdateFinishInductive(s, rid);
  }

  lemma ExecStepPreservesInv(s: State, step: Step, ds: Dispatch)
    requires Inv(s)
    requires StepEnabled(s, step)
    requires step.ExecTrivialStartStep? || step.ExecLoadLocalVersionStep? || step.ExecLoadGlobalHeadStep?
             || step.ExecDispatchLocalStep? || step.ExecDispatchRemoteStep?
             || step.ExecUpdateVersionUpperBoundStep? || step.ExecFinishStep?
    ensures Inv(Next(s, step, ds))
  {
    if step.ExecTrivialStartStep? || step.ExecLoadLocalVersionStep? || step.ExecLoadGlobalHeadStep? {
      ExecLoadStepPreservesInv(s, step, ds);
    } else {
      ExecApplyStepPreservesInv(s, step, ds);
    }
  }

  lemma ExecLoadStepPreservesInv(s: State, step: Step, ds: Dispatch)
    requires Inv(s)
    requires StepEnabled(s, step)
    requires step.ExecTrivialStartStep? || step.ExecLoadLocalVersionStep? || step.ExecLoadGlobalHeadStep?
    ensures Inv(Next(s, step, ds))
  {
    match step
    case ExecTrivialStartStep(nodeId) => ExecTrivialStartInductive(s, nodeId);
    case ExecLoadLocalVersionStep(nodeId) => ExecLoadLocalVersionInductive(s, nodeId);
    case ExecLoadGlobalHeadStep(nodeId) => ExecLoadGlobalHeadInductive(s, nodeId);
  }

  lemma ExecApplyStepPreservesInv(s: State, step: Step, ds: Dispatch)
    requires Inv(s)
    requires StepEnabled(s, step)
    requires step.ExecDispatchLocalStep? || step.ExecDispatchRemoteStep?
             || step.ExecUpdateVersionUpperBoundStep? || step.ExecFinishStep?
    ensures Inv(Next(s, step, ds))
  {
    match step
    case ExecDispatchLocalStep(nodeId) => ExecDispatchLocalInductive(s, nodeId, ds);
    case ExecDispatchRemoteStep(nodeId) => ExecDispatchRemoteInductive(s, nodeId, ds);
    case ExecUpdateVersionUpperBoundStep(nodeId) => ExecUpdateVersionUpperBoundInductive(s, nodeId);
    case ExecFinishStep(nodeId) => ExecFinishInductive(s, nodeId);
  }

  /** Every enabled step keeps the invariant. */
  lemma NextPreservesInv(s: State, step: Step, ds: Dispatch)
    requires Inv(s)
    requires StepEnabled(s, step)
    ensures Inv(Next(s, step, ds))
  {
    if step.ReadonlyStartStep? || step.ReadonlyReadCtailStep? || step.ReadonlyReadyToReadStep?
       || step.ReadonlyApplyStep? || step.ReadonlyFinishStep? {
      ReadonlyStepPreservesInv(s, step, ds);
    } else if step.UpdateStartStep? || step.UpdatePlaceOpsInLogOneStep? || step.UpdateDoneStep? || step.UpdateFinishStep? {
      UpdateStepPreservesInv(s, step, ds);
    } else {
      ExecStepPreservesInv(s, step, ds);
    }
  }

  // ---------------------------------------------------------------------------
  // The log only grows
  // ---------------------------------------------------------------------------

  /** From `s` to `t` the log keeps every entry, and neither the global tail,
      the version upper bound nor a node's local version goes back. */
  ghost predicate Grows(s: State, t: State)
  {
    && s.globalTail <= t.globalTail
    && s.versionUpperBound <= t.versionUpperBound
    && (forall i :: i in s.log ==> i in t.log && t.log[i] == s.log[i])
    && (forall n :: n in s.localVersions ==> n in t.localVersions && s.localVersions[n] <= t.localVersions[n])
  }

  /** Every enabled step only appends to the log and moves the counters
      forward; of the invariant it needs only that the log ends at the
      global tail and what the combiners know. */
  lemma NextGrows(s: State, step: Step, ds: Dispatch)
    requires InvLogComplete(s)
    requires CombinerLocalVersionsDomains(s) && CombinerStatesWf(s)
    requires StepEnabled(s, step)
    ensures Grows(s, Next(s, step, ds))
  {
    match step
    case UpdatePlaceOpsInLogOneStep(nodeId, rid) =>
      assert s.globalTail !in s.log;
    case ExecFinishStep(nodeId) =>
      assert WfCombinerForNodeId(s, nodeId);
    case _ =>
  }
}
