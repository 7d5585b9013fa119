/** The unbounded-log state machine of node replication.

    Every node keeps a replica of the data structure, a local version (how far
    into the shared log its replica has been brought up to date) and a
    combiner. Combiners place their nodes' update requests into the shared
    log, advance their replica over the log (applying other nodes' entries
    and their own queued requests), and publish the version upper bound.
    Read-only requests wait until the local replica is at least as new as the
    version upper bound they observed.

    Each transition is a guard `XxxEnabled` and a function from the state
    before to the state after; what the source writes as `remove`, `have` and
    `require` is part of the guard. The obligations the source attaches to
    `add` (the key is not yet present) are proved in the induction lemmas. */
module UnboundedLog {
  import opened NRTypes
  import opened UnboundedLogTypes
  import opened LogRange

  /** All shards of the machine; request ids, node ids, log indices and
      versions are naturals. */
  datatype State = State(
    numReplicas: nat,
    log: map<nat, LogEntry>,
    globalTail: nat,
    replicas: map<nat, NRState>,
    localVersions: map<nat, nat>,
    versionUpperBound: nat,
    localReads: map<nat, ReadonlyState>,
    localUpdates: map<nat, UpdateState>,
    combiner: map<nat, CombinerState>)

  // ---------------------------------------------------------------------------
  // Invariant
  // ---------------------------------------------------------------------------

  ghost predicate CombinerLocalVersionsDomains(s: State)
  {
    forall k :: k in s.localVersions <==> k in s.combiner
  }

  ghost predicate CombinerReplicasDomains(s: State)
  {
    forall k :: k in s.replicas <==> k in s.combiner
  }

  /** The version upper bound does not pass the global tail. */
  ghost predicate InvVersionInRange(s: State)
  {
    s.versionUpperBound <= s.globalTail
  }

  /** No local version passes the version upper bound. */
  ghost predicate InvLocalVersionUpperBoundHeads(s: State)
  {
    forall n :: n in s.localVersions ==> s.localVersions[n] <= s.versionUpperBound
  }

  /** The log holds exactly the indices below the global tail. */
  ghost predicate InvLogComplete(s: State)
  {
    && LogContainsEntriesUpToHere(s.log, s.globalTail)
    && LogNoEntriesFromHere(s.log, s.globalTail)
  }

  ghost predicate WfNodeId(s: State, nodeId: nat)
  {
    && nodeId in s.combiner
    && nodeId in s.localVersions
    && nodeId in s.replicas
  }

  /** The version of the node's replica as its combiner sees it. */
  ghost function CurrentLocalVersion(s: State, nodeId: nat): (r: nat)
    requires nodeId in s.combiner && nodeId in s.localVersions
  {
    match s.combiner[nodeId]
    case Ready => s.localVersions[nodeId]
    case Placed(_) => s.localVersions[nodeId]
    case LoadedLocalVersion(_, lversion) => lversion
    case Loop(_, lversion, _, _) => lversion
    case UpdatedVersion(_, globalTail) => globalTail
  }

  /** A read-only request's recorded bound is below the global bound and,
      once it is bound to a node, below that node's replica version. */
  ghost predicate WfReadState(s: State, rs: ReadonlyState)
  {
    match rs
    case Init(_) => true
    case VersionUpperBound(_, vub) => vub <= s.versionUpperBound
    case ReadyToRead(_, nodeId, vub) =>
      && WfNodeId(s, nodeId)
      && vub <= s.versionUpperBound
      && vub <= CurrentLocalVersion(s, nodeId)
    case Done(_, _, nodeId, vub) =>
      && WfNodeId(s, nodeId)
      && vub <= s.versionUpperBound
      && vub <= CurrentLocalVersion(s, nodeId)
  }

  ghost predicate InvReadonlyRequestsWf(s: State)
  {
    forall rid {:trigger WfReadState(s, s.localReads[rid])} :: rid in s.localReads ==> WfReadState(s, s.localReads[rid])
  }

  /** What each combiner phase knows about the log and about its queue. */
  ghost predicate WfCombinerForNodeId(s: State, nodeId: nat)
    requires nodeId in s.combiner && nodeId in s.localVersions
  {
    var lv := s.localVersions[nodeId];
    match s.combiner[nodeId]
    case Ready =>
      LogRangeNoNodeId(s.log, lv, s.globalTail, nodeId)
    case Placed(queuedOps) =>
      && LogRangeMatchesQueue(queuedOps, s.log, 0, lv, s.globalTail, nodeId, s.localUpdates)
      && QueueRidsUpdatePlaced(queuedOps, s.localUpdates, 0)
      && SeqUnique(queuedOps)
    case LoadedLocalVersion(queuedOps, lversion) =>
      && lversion == lv
      && LogRangeMatchesQueue(queuedOps, s.log, 0, lversion, s.globalTail, nodeId, s.localUpdates)
      && QueueRidsUpdatePlaced(queuedOps, s.localUpdates, 0)
      && SeqUnique(queuedOps)
    case Loop(queuedOps, lversion, idx, globalTail) =>
      && globalTail <= s.globalTail
      && lversion >= lv
      && lversion <= globalTail
      && idx <= |queuedOps|
      && LogRangeMatchesQueue(queuedOps, s.log, idx, lversion, globalTail, nodeId, s.localUpdates)
      && LogRangeNoNodeId(s.log, globalTail, s.globalTail, nodeId)
      && QueueRidsUpdatePlaced(queuedOps, s.localUpdates, idx)
      && QueueRidsUpdateDone(queuedOps, s.localUpdates, idx)
      && SeqUnique(queuedOps)
    case UpdatedVersion(queuedOps, globalTail) =>
      && globalTail <= s.versionUpperBound
      && lv <= globalTail
      && LogRangeNoNodeId(s.log, globalTail, s.globalTail, nodeId)
      && QueueRidsUpdateDone(queuedOps, s.localUpdates, |queuedOps|)
      && SeqUnique(queuedOps)
  }

  ghost predicate CombinerStatesWf(s: State)
    requires CombinerLocalVersionsDomains(s)
  {
    forall n {:trigger WfCombinerForNodeId(s, n)} :: n in s.combiner ==> WfCombinerForNodeId(s, n)
  }

  /** No request is queued at two combiners. */
  ghost predicate InvCombinerRidsDistinct(s: State)
  {
    forall n1, n2 :: n1 in s.combiner && n2 in s.combiner && n1 != n2 ==>
      SeqDisjoint(s.combiner[n1].QueuedOps(), s.combiner[n2].QueuedOps())
  }

  /** Every queued request is a known update request. */
  ghost predicate InvQueuedOps(s: State)
  {
    forall n, rid :: n in s.combiner && rid in s.combiner[n].QueuedOps() ==> rid in s.localUpdates
  }

  /** A placed, applied or done update refers to an entry of the log; a done
      one to an entry below the version upper bound. */
  ghost predicate InvLocalUpdatesWf(s: State, update: UpdateState)
  {
    match update
    case Init(_) => true
    case Placed(_, idx) => idx in s.log
    case Applied(_, idx) => idx in s.log
    case Done(_, idx) => idx in s.log && idx < s.versionUpperBound
  }

  ghost predicate InvLocalUpdates(s: State)
  {
    forall rid {:trigger InvLocalUpdatesWf(s, s.localUpdates[rid])} :: rid in s.localUpdates ==> InvLocalUpdatesWf(s, s.localUpdates[rid])
  }

  /** The invariant every reachable state satisfies (the source's finiteness
      of the request maps holds of every Dafny map). */
  ghost predicate Inv(s: State)
  {
    && CombinerLocalVersionsDomains(s)
    && CombinerReplicasDomains(s)
    && InvVersionInRange(s)
    && InvLocalVersionUpperBoundHeads(s)
    && InvLogComplete(s)
    && InvReadonlyRequestsWf(s)
    && CombinerStatesWf(s)
    && InvCombinerRidsDistinct(s)
    && InvQueuedOps(s)
    && InvLocalUpdates(s)
  }

  // ---------------------------------------------------------------------------
  // Initialization
  // ---------------------------------------------------------------------------

  /** Nodes 0 .. numberOfNodes-1 each start with the initial replica, local
      version 0 and a ready combiner; the log and the request maps are empty. */
  ghost function Initialize(numberOfNodes: nat, ds: Dispatch): (s: State)
    ensures Inv(s)
    ensures forall n: nat :: WfNodeId(s, n) <==> n < numberOfNodes
  {
    State(
      numReplicas := numberOfNodes,
      log := map[],
      globalTail := 0,
      replicas := map n | n in NatsBelow(numberOfNodes) :: ds.init,
      localVersions := map n | n in NatsBelow(numberOfNodes) :: 0,
      versionUpperBound := 0,
      localReads := map[],
      localUpdates := map[],
      combiner := map n | n in NatsBelow(numberOfNodes) :: CombinerState.Ready)
  }

  // ---------------------------------------------------------------------------
  // Read-only transitions
  // ---------------------------------------------------------------------------

  /** A read-only request enters under a fresh request id. */
  ghost function ReadonlyStart(s: State, op: ReadonlyOp): (r: State)
  {
    var rid := GetNewNat(s.localReads.Keys);
    s.(localReads := s.localReads[rid := ReadonlyState.Init(op)])
  }

  ghost predicate ReadonlyReadCtailEnabled(s: State, rid: nat)
  {
    rid in s.localReads && s.localReads[rid].Init?
  }

  /** The request records the current version upper bound. */
  ghost function ReadonlyReadCtail(s: State, rid: nat): (r: State)
    requires ReadonlyReadCtailEnabled(s, rid)
  {
    var op := s.localReads[rid].op;
    s.(localReads := s.localReads[rid := ReadonlyState.VersionUpperBound(op, s.versionUpperBound)])
  }

  ghost predicate ReadonlyReadyToReadEnabled(s: State, rid: nat, nodeId: nat)
  {
    && rid in s.localReads
    && s.localReads[rid].VersionUpperBound?
    && nodeId in s.localVersions
    && s.localVersions[nodeId] >= s.localReads[rid].versionUpperBound
  }

  /** The node's local version has reached the recorded bound. */
  ghost function ReadonlyReadyToRead(s: State, rid: nat, nodeId: nat): (r: State)
    requires ReadonlyReadyToReadEnabled(s, rid, nodeId)
  {
    var rs := s.localReads[rid];
    s.(localReads := s.localReads[rid := ReadonlyState.ReadyToRead(rs.op, nodeId, rs.versionUpperBound)])
  }

  ghost predicate ReadonlyApplyEnabled(s: State, rid: nat)
  {
    && rid in s.localReads
    && s.localReads[rid].ReadyToRead?
    && s.localReads[rid].nodeId in s.combiner
    && s.combiner[s.localReads[rid].nodeId] == CombinerState.Ready
    && s.localReads[rid].nodeId in s.replicas
  }

  /** The query runs on the node's replica while its combiner is idle. */
  ghost function ReadonlyApply(s: State, rid: nat, ds: Dispatch): (r: State)
    requires ReadonlyApplyEnabled(s, rid)
  {
    var rs := s.localReads[rid];
    var ret := ds.read(s.replicas[rs.nodeId], rs.op);
    s.(localReads := s.localReads[rid := ReadonlyState.Done(rs.op, ret, rs.nodeId, rs.versionUpperBound)])
  }

  ghost predicate ReadonlyFinishEnabled(s: State, rid: nat, op: ReadonlyOp, vub: nat, nodeId: nat, ret: ReturnType)
  {
    rid in s.localReads && s.localReads[rid] == ReadonlyState.Done(op, ret, nodeId, vub)
  }

  /** A finished read-only request leaves the system. */
  ghost function ReadonlyFinish(s: State, rid: nat, op: ReadonlyOp, vub: nat, nodeId: nat, ret: ReturnType): (r: State)
    requires ReadonlyFinishEnabled(s, rid, op, vub, nodeId, ret)
  {
    s.(localReads := s.localReads - {rid})
  }

  // ---------------------------------------------------------------------------
  // Update transitions
  // ---------------------------------------------------------------------------

  /** An update request enters under a fresh request id. */
  ghost function UpdateStart(s: State, op: UpdateOp): (r: State)
  {
    var rid := GetNewNat(s.localUpdates.Keys);
    s.(localUpdates := s.localUpdates[rid := UpdateState.Init(op)])
  }

  ghost predicate UpdatePlaceOpsInLogOneEnabled(s: State, nodeId: nat, rid: nat)
  {
    && nodeId in s.combiner
    && s.combiner[nodeId].Placed?
    && rid in s.localUpdates
    && s.localUpdates[rid].Init?
  }

  /** The combiner appends one waiting request to the log at the global tail
      and queues it. */
  ghost function UpdatePlaceOpsInLogOne(s: State, nodeId: nat, rid: nat): (r: State)
    requires UpdatePlaceOpsInLogOneEnabled(s, nodeId, rid)
  {
    var queuedOps := s.combiner[nodeId].queuedOps;
    var op := s.localUpdates[rid].op;
    s.(globalTail := s.globalTail + 1,
       log := s.log[s.globalTail := LogEntry(op, nodeId)],
       localUpdates := s.localUpdates[rid := UpdateState.Placed(op, s.globalTail)],
       combiner := s.combiner[nodeId := CombinerState.Placed(queuedOps + [rid])])
  }

  ghost predicate UpdateDoneEnabled(s: State, rid: nat)
  {
    && rid in s.localUpdates
    && s.localUpdates[rid].Applied?
    && s.versionUpperBound > s.localUpdates[rid].idx
  }

  /** An applied update is complete once the version upper bound has passed it. */
  ghost function UpdateDone(s: State, rid: nat): (r: State)
    requires UpdateDoneEnabled(s, rid)
  {
    var u := s.localUpdates[rid];
    s.(localUpdates := s.localUpdates[rid := UpdateState.Done(u.ret, u.idx)])
  }

  /** A done update may leave once no combiner still holds it in its queue. */
  ghost predicate UpdateFinishEnabled(s: State, rid: nat)
  {
    && rid in s.localUpdates
    && s.localUpdates[rid].Done?
    && forall n :: n in s.combiner ==> rid !in s.combiner[n].QueuedOps()
  }

  /** A finished update request leaves the system. */
  ghost function UpdateFinish(s: State, rid: nat): (r: State)
    requires UpdateFinishEnabled(s, rid)
  {
    s.(localUpdates := s.localUpdates - {rid})
  }

  // ---------------------------------------------------------------------------
  // Combiner transitions
  // ---------------------------------------------------------------------------

  ghost predicate ExecTrivialStartEnabled(s: State, nodeId: nat)
  {
    nodeId in s.combiner && s.combiner[nodeId] == CombinerState.Ready
  }

  /** An idle combiner starts a round with an empty queue. */
  ghost function ExecTrivialStart(s: State, nodeId: nat): (r: State)
    requires ExecTrivialStartEnabled(s, nodeId)
  {
    s.(combiner := s.combiner[nodeId := CombinerState.Placed([])])
  }

  ghost predicate ExecLoadLocalVersionEnabled(s: State, nodeId: nat)
  {
    && nodeId in s.combiner
    && s.combiner[nodeId].Placed?
    && nodeId in s.localVersions
  }

  /** The combiner reads its node's local version. */
  ghost function ExecLoadLocalVersion(s: State, nodeId: nat): (r: State)
    requires ExecLoadLocalVersionEnabled(s, nodeId)
  {
    var queuedOps := s.combiner[nodeId].queuedOps;
    s.(combiner := s.combiner[nodeId := CombinerState.LoadedLocalVersion(queuedOps, s.localVersions[nodeId])])
  }

  ghost predicate ExecLoadGlobalHeadEnabled(s: State, nodeId: nat)
  {
    nodeId in s.combiner && s.combiner[nodeId].LoadedLocalVersion?
  }

  /** The combiner reads the global tail and enters its apply loop. */
  ghost function ExecLoadGlobalHead(s: State, nodeId: nat): (r: State)
    requires ExecLoadGlobalHeadEnabled(s, nodeId)
  {
    var c := s.combiner[nodeId];
    s.(combiner := s.combiner[nodeId := CombinerState.Loop(c.queuedOps, c.lversion, 0, s.globalTail)])
  }

  /** The combiner is in its loop, before the tail it read, at an entry of
      its own node. The source's guard indexes the queue at `idx` without a
      bound; `idx` is within the queue in every state satisfying the
      invariant (lemma PreExecDispatchLocal), so the bound is stated here. */
  ghost predicate ExecDispatchLocalEnabled(s: State, nodeId: nat)
  {
    && nodeId in s.combiner
    && s.combiner[nodeId].Loop?
    && nodeId in s.replicas
    && var c := s.combiner[nodeId];
    && c.idx < |c.queuedOps|
    && c.queuedOps[c.idx] in s.localUpdates
    && c.lversion in s.log
    && c.lversion < c.globalTail
    && s.log[c.lversion].nodeId == nodeId
  }

  /** Applies the node's own entry to the replica and records its result for
      the next queued request. */
  ghost function ExecDispatchLocal(s: State, nodeId: nat, ds: Dispatch): (r: State)
    requires ExecDispatchLocalEnabled(s, nodeId)
  {
    var c := s.combiner[nodeId];
    var rid := c.queuedOps[c.idx];
    var (newState, ret) := ds.update(s.replicas[nodeId], s.log[c.lversion].op);
    s.(localUpdates := s.localUpdates[rid := UpdateState.Applied(ret, c.lversion)],
       replicas := s.replicas[nodeId := newState],
       combiner := s.combiner[nodeId := CombinerState.Loop(c.queuedOps, c.lversion + 1, c.idx + 1, c.globalTail)])
  }

  ghost predicate ExecDispatchRemoteEnabled(s: State, nodeId: nat)
  {
    && nodeId in s.combiner
    && s.combiner[nodeId].Loop?
    && nodeId in s.replicas
    && var c := s.combiner[nodeId];
    && c.lversion in s.log
    && c.lversion < c.globalTail
    && s.log[c.lversion].nodeId != nodeId
  }

  /** Applies another node's entry to the replica. */
  ghost function ExecDispatchRemote(s: State, nodeId: nat, ds: Dispatch): (r: State)
    requires ExecDispatchRemoteEnabled(s, nodeId)
  {
    var c := s.combiner[nodeId];
    var (newState, _) := ds.update(s.replicas[nodeId], s.log[c.lversion].op);
    s.(replicas := s.replicas[nodeId := newState],
       combiner := s.combiner[nodeId := CombinerState.Loop(c.queuedOps, c.lversion + 1, c.idx, c.globalTail)])
  }

  ghost predicate ExecUpdateVersionUpperBoundEnabled(s: State, nodeId: nat)
  {
    && nodeId in s.combiner
    && s.combiner[nodeId].Loop?
    && s.combiner[nodeId].lversion == s.combiner[nodeId].globalTail
  }

  /** With the loop at the tail it read, the combiner raises the version upper
      bound to that tail (never lowering it). */
  ghost function ExecUpdateVersionUpperBound(s: State, nodeId: nat): (r: State)
    requires ExecUpdateVersionUpperBoundEnabled(s, nodeId)
  {
    var c := s.combiner[nodeId];
    s.(versionUpperBound := if s.versionUpperBound >= c.globalTail then s.versionUpperBound else c.globalTail,
       combiner := s.combiner[nodeId := CombinerState.UpdatedVersion(c.queuedOps, c.globalTail)])
  }

  ghost predicate ExecFinishEnabled(s: State, nodeId: nat)
  {
    && nodeId in s.combiner
    && s.combiner[nodeId].UpdatedVersion?
    && nodeId in s.localVersions
  }

  /** The combiner publishes the tail as its node's local version and
      becomes idle. */
  ghost function ExecFinish(s: State, nodeId: nat): (r: State)
    requires ExecFinishEnabled(s, nodeId)
  {
    var c := s.combiner[nodeId];
    s.(localVersions := s.localVersions[nodeId := c.globalTail],
       combiner := s.combiner[nodeId := CombinerState.Ready])
  }

  // ---------------------------------------------------------------------------
  // Steps
  // ---------------------------------------------------------------------------

  datatype Step =
    | ReadonlyStartStep(rop: ReadonlyOp)
    | ReadonlyReadCtailStep(rid: nat)
    | ReadonlyReadyToReadStep(rid: nat, nodeId: nat)
    | ReadonlyApplyStep(rid: nat)
    | ReadonlyFinishStep(rid: nat, rop: ReadonlyOp, vub: nat, nodeId: nat, ret: ReturnType)
    | UpdateStartStep(uop: UpdateOp)
    | UpdatePlaceOpsInLogOneStep(nodeId: nat, rid: nat)
    | UpdateDoneStep(rid: nat)
    | UpdateFinishStep(rid: nat)
    | ExecTrivialStartStep(nodeId: nat)
    | ExecLoadLocalVersionStep(nodeId: nat)
    | ExecLoadGlobalHeadStep(nodeId: nat)
    | ExecDispatchLocalStep(nodeId: nat)
    | ExecDispatchRemoteStep(nodeId: nat)
    | ExecUpdateVersionUpperBoundStep(nodeId: nat)
    | ExecFinishStep(nodeId: nat)

  ghost predicate StepEnabled(s: State, step: Step)
  {
    match step
    case ReadonlyStartStep(_) => true
    case ReadonlyReadCtailStep(rid) => ReadonlyReadCtailEnabled(s, rid)
    case ReadonlyReadyToReadStep(rid, nodeId) => ReadonlyReadyToReadEnabled(s, rid, nodeId)
    case ReadonlyApplyStep(rid) => ReadonlyApplyEnabled(s, rid)
    case ReadonlyFinishStep(rid, op, vub, nodeId, ret) => ReadonlyFinishEnabled(s, rid, op, vub, nodeId, ret)
    case UpdateStartStep(_) => true
    case UpdatePlaceOpsInLogOneStep(nodeId, rid) => UpdatePlaceOpsInLogOneEnabled(s, nodeId, rid)
    case UpdateDoneStep(rid) => UpdateDoneEnabled(s, rid)
    case UpdateFinishStep(rid) => UpdateFinishEnabled(s, rid)
    case ExecTrivialStartStep(nodeId) => ExecTrivialStartEnabled(s, nodeId)
    case ExecLoadLocalVersionStep(nodeId) => ExecLoadLocalVersionEnabled(s, nodeId)
    case ExecLoadGlobalHeadStep(nodeId) => ExecLoadGlobalHeadEnabled(s, nodeId)
    case ExecDispatchLocalStep(nodeId) => ExecDispatchLocalEnabled(s, nodeId)
    case ExecDispatchRemoteStep(nodeId) => ExecDispatchRemoteEnabled(s, nodeId)
    case ExecUpdateVersionUpperBoundStep(nodeId) => ExecUpdateVersionUpperBoundEnabled(s, nodeId)
    case ExecFinishStep(nodeId) => ExecFinishEnabled(s, nodeId)
  }

  /** The state after an enabled step. */
  ghost function Next(s: State, step: Step, ds: Dispatch): (r: State)
    requires StepEnabled(s, step)
  {
    match step
    case ReadonlyStartStep(op) => ReadonlyStart(s, op)
    case ReadonlyReadCtailStep(rid) => ReadonlyReadCtail(s, rid)
    case ReadonlyReadyToReadStep(rid, nodeId) => ReadonlyReadyToRead(s, rid, nodeId)
    case ReadonlyApplyStep(rid) => ReadonlyApply(s, rid, ds)
    case ReadonlyFinishStep(rid, op, vub, nodeId, ret) => ReadonlyFinish(s, rid, op, vub, nodeId, ret)
    case UpdateStartStep(op) => UpdateStart(s, op)
    case UpdatePlaceOpsInLogOneStep(nodeId, rid) => UpdatePlaceOpsInLogOne(s, nodeId, rid)
    case UpdateDoneStep(rid) => UpdateDone(s, rid)
    case UpdateFinishStep(rid) => UpdateFinish(s, rid)
    case ExecTrivialStartStep(nodeId) => ExecTrivialStart(s, nodeId)
    case ExecLoadLocalVersionStep(nodeId) => ExecLoadLocalVersion(s, nodeId)
    case ExecLoadGlobalHeadStep(nodeId) => ExecLoadGlobalHead(s, nodeId)
    case ExecDispatchLocalStep(nodeId) => ExecDispatchLocal(s, nodeId, ds)
    case ExecDispatchRemoteStep(nodeId) => ExecDispatchRemote(s, nodeId, ds)
    case ExecUpdateVersionUpperBoundStep(nodeId) => ExecUpdateVersionUpperBound(s, nodeId)
    case ExecFinishStep(nodeId) => ExecFinish(s, nodeId)
  }

  // ---------------------------------------------------------------------------
  // Safety properties
  // ---------------------------------------------------------------------------

  /** A combiner about to apply an entry of its own node has a queued request
      left to match it. */
  lemma PreExecDispatchLocal(s: State, nodeId: nat)
    requires Inv(s)
    requires nodeId in s.combiner && s.combiner[nodeId].Loop?
    requires s.combiner[nodeId].lversion in s.log
    requires s.log[s.combiner[nodeId].lversion].nodeId == nodeId
    requires s.combiner[nodeId].lversion < s.combiner[nodeId].globalTail
    ensures s.combiner[nodeId].idx < |s.combiner[nodeId].queuedOps|
  {
    assert WfCombinerForNodeId(s, nodeId);
  }

  /** A combiner whose loop reached the tail it read has served its whole queue. */
  lemma PreExecUpdateVersionUpperBound(s: State, nodeId: nat)
    requires Inv(s)
    requires nodeId in s.combiner && s.combiner[nodeId].Loop?
    requires s.combiner[nodeId].lversion == s.combiner[nodeId].globalTail
    ensures s.combiner[nodeId].idx == |s.combiner[nodeId].queuedOps|
  {
    assert WfCombinerForNodeId(s, nodeId);
  }
}
