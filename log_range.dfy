/** Predicates relating a segment of the unbounded log to a combiner's queue
    of request ids, and the lemmas that carry them across log appends and
    changes of the update map.

    The recursive predicates below follow the log index by index. The source
    leaves their value unspecified when the lower index exceeds the upper one;
    here they are then vacuously true, and every use of them in the model has
    lower <= upper. */
module LogRange {
  import opened NRTypes
  import opened UnboundedLogTypes

  /** The log holds every index below `end`. */
  ghost predicate LogContainsEntriesUpToHere(log: map<nat, LogEntry>, end: nat)
  {
    forall i: nat :: i < end ==> i in log
  }

  /** The log holds no index at or above `start`. */
  ghost predicate LogNoEntriesFromHere(log: map<nat, LogEntry>, start: nat)
  {
    forall i: nat :: start <= i ==> i !in log
  }

  /** Every index in [start, end) is in the log and was not placed by `nodeId`. */
  ghost predicate LogRangeNoNodeId(log: map<nat, LogEntry>, start: nat, end: nat, nodeId: nat)
    decreases end - start
  {
    start < end ==>
      && start in log
      && log[start].nodeId != nodeId
      && LogRangeNoNodeId(log, start + 1, end, nodeId)
  }

  /** Walking the log over [lower, upper) and the queue from `queueIndex`:
      every entry placed by `nodeId` is matched, in order, by the next queued
      request, which is Placed at exactly that log index; entries of other
      nodes are skipped; and the queue is used up exactly when the log range
      is. */
  ghost predicate LogRangeMatchesQueue(queue: seq<nat>, log: map<nat, LogEntry>, queueIndex: nat,
                                       lower: nat, upper: nat, nodeId: nat,
                                       updates: map<nat, UpdateState>)
    decreases upper - lower
  {
    && (lower == upper ==> queueIndex == |queue|)
    && (lower < upper ==>
          && lower in log
          && (log[lower].nodeId == nodeId ==>
                && queueIndex < |queue|
                && queue[queueIndex] in updates
                && updates[queue[queueIndex]].Placed?
                && updates[queue[queueIndex]].idx == lower
                && LogRangeMatchesQueue(queue, log, queueIndex + 1, lower + 1, upper, nodeId, updates))
          && (log[lower].nodeId != nodeId ==>
                LogRangeMatchesQueue(queue, log, queueIndex, lower + 1, upper, nodeId, updates)))
  }

  /** The queued requests before `bound` that are still known are Applied or
      Done (a request may have left the update map already). */
  ghost predicate QueueRidsUpdateDone(queuedOps: seq<nat>, localUpdates: map<nat, UpdateState>, bound: nat)
  {
    forall j :: 0 <= j < |queuedOps| && j < bound ==>
      queuedOps[j] in localUpdates ==>
        localUpdates[queuedOps[j]].Applied? || localUpdates[queuedOps[j]].Done?
  }

  /** The queued requests from `bound` on are known and Placed. */
  ghost predicate QueueRidsUpdatePlaced(queuedOps: seq<nat>, localUpdates: map<nat, UpdateState>, bound: nat)
  {
    forall j :: bound <= j < |queuedOps| ==>
      queuedOps[j] in localUpdates && localUpdates[queuedOps[j]].Placed?
  }

  /** Changing the update map anywhere but at requests Placed inside the range
      keeps the match. */
  lemma {:induction false} LogRangeMatchesQueueUpdateChange(
    queue: seq<nat>, log: map<nat, LogEntry>, queueIndex: nat, lower: nat, upper: nat,
    nodeId: nat, updates1: map<nat, UpdateState>, updates2: map<nat, UpdateState>)
    requires queueIndex <= |queue|
    requires lower <= upper
    requires LogRangeMatchesQueue(queue, log, queueIndex, lower, upper, nodeId, updates1)
    requires forall rid :: rid in updates1 ==>
               updates1[rid].Placed? && lower <= updates1[rid].idx < upper ==>
                 rid in updates2 && updates2[rid] == updates1[rid]
    ensures LogRangeMatchesQueue(queue, log, queueIndex, lower, upper, nodeId, updates2)
    decreases upper - lower
  {
    if lower < upper {
      if log[lower].nodeId == nodeId {
        LogRangeMatchesQueueUpdateChange(queue, log, queueIndex + 1, lower + 1, upper, nodeId, updates1, updates2);
      } else {
        LogRangeMatchesQueueUpdateChange(queue, log, queueIndex, lower + 1, upper, nodeId, updates1, updates2);
      }
    }
  }

  /** Changing the update map only at requests outside the queue keeps the match. */
  lemma {:induction false} LogRangeMatchesQueueUpdateChange2(
    queue: seq<nat>, log: map<nat, LogEntry>, queueIndex: nat, lower: nat, upper: nat,
    nodeId: nat, updates1: map<nat, UpdateState>, updates2: map<nat, UpdateState>)
    requires queueIndex <= |queue|
    requires lower <= upper
    requires LogRangeMatchesQueue(queue, log, queueIndex, lower, upper, nodeId, updates1)
    requires forall rid :: rid in updates1 ==> rid in queue ==>
               rid in updates2 && updates2[rid] == updates1[rid]
    ensures LogRangeMatchesQueue(queue, log, queueIndex, lower, upper, nodeId, updates2)
    decreases upper - lower
  {
    if lower < upper {
      if log[lower].nodeId == nodeId {
        LogRangeMatchesQueueUpdateChange2(queue, log, queueIndex + 1, lower + 1, upper, nodeId, updates1, updates2);
      } else {
        LogRangeMatchesQueueUpdateChange2(queue, log, queueIndex, lower + 1, upper, nodeId, updates1, updates2);
      }
    }
  }

  /** Appending the node's own entry at `upper` and queueing the new request,
      Placed at `upper`, extends the match by one. */
  lemma {:induction false} LogRangeMatchesQueueAppend(
    queue: seq<nat>, log: map<nat, LogEntry>, newLog: map<nat, LogEntry>,
    queueIndex: nat, lower: nat, upper: nat, nodeId: nat,
    updates: map<nat, UpdateState>, newUpdates: map<nat, UpdateState>,
    newRid: nat, logEntry: LogEntry)
    requires queueIndex <= |queue|
    requires lower <= upper
    requires logEntry.nodeId == nodeId
    requires newRid in newUpdates && newUpdates[newRid] == UpdateState.Placed(logEntry.op, upper)
    requires newRid !in queue
    requires forall rid :: rid in updates && rid != newRid ==>
               rid in newUpdates && newUpdates[rid] == updates[rid]
    requires LogRangeMatchesQueue(queue, log, queueIndex, lower, upper, nodeId, updates)
    requires newLog == log[upper := logEntry]
    ensures LogRangeMatchesQueue(queue + [newRid], newLog, queueIndex, lower, upper + 1, nodeId, newUpdates)
    decreases upper - lower
  {
    var queue' := queue + [newRid];
    if lower == upper {
      assert queue'[queueIndex] == newRid;
      assert LogRangeMatchesQueue(queue', newLog, queueIndex + 1, lower + 1, upper + 1, nodeId, newUpdates);
    } else {
      assert newLog[lower] == log[lower];
      if log[lower].nodeId == nodeId {
        assert queue'[queueIndex] == queue[queueIndex] != newRid;
        LogRangeMatchesQueueAppend(queue, log, newLog, queueIndex + 1, lower + 1, upper,
                                   nodeId, updates, newUpdates, newRid, logEntry);
      } else {
        LogRangeMatchesQueueAppend(queue, log, newLog, queueIndex, lower + 1, upper,
                                   nodeId, updates, newUpdates, newRid, logEntry);
      }
    }
  }

  /** Appending another node's entry at `logLen`, at or beyond the range,
      keeps the match over the same range. */
  lemma {:induction false} LogRangeMatchesQueueAppendOther(
    queue: seq<nat>, log: map<nat, LogEntry>, newLog: map<nat, LogEntry>,
    queueIndex: nat, lower: nat, upper: nat, logLen: nat, nodeId: nat,
    updates: map<nat, UpdateState>, newUpdates: map<nat, UpdateState>,
    newRid: nat, logEntry: LogEntry)
    requires queueIndex <= |queue|
    requires lower <= upper <= logLen
    requires logEntry.nodeId != nodeId
    requires newRid in newUpdates && newUpdates[newRid] == UpdateState.Placed(logEntry.op, logLen)
    requires newRid !in queue
    requires forall rid :: rid in updates && rid != newRid ==>
               rid in newUpdates && newUpdates[rid] == updates[rid]
    requires LogRangeMatchesQueue(queue, log, queueIndex, lower, upper, nodeId, updates)
    requires newLog == log[logLen := logEntry]
    ensures LogRangeMatchesQueue(queue, newLog, queueIndex, lower, upper, nodeId, newUpdates)
    decreases upper - lower
  {
    if lower < upper {
      assert newLog[lower] == log[lower];
      if log[lower].nodeId == nodeId {
        LogRangeMatchesQueueAppendOther(queue, log, newLog, queueIndex + 1, lower + 1, upper, logLen,
                                        nodeId, updates, newUpdates, newRid, logEntry);
      } else {
        LogRangeMatchesQueueAppendOther(queue, log, newLog, queueIndex, lower + 1, upper, logLen,
                                        nodeId, updates, newUpdates, newRid, logEntry);
      }
    }
  }

  /** Appending another node's entry at `upper` extends the match by one
      without consuming the queue. */
  lemma {:induction false} LogRangeMatchesQueueAppendOtherAugment(
    queue: seq<nat>, log: map<nat, LogEntry>, newLog: map<nat, LogEntry>,
    queueIndex: nat, lower: nat, upper: nat, nodeId: nat,
    updates: map<nat, UpdateState>, newUpdates: map<nat, UpdateState>,
    newRid: nat, logEntry: LogEntry)
    requires queueIndex <= |queue|
    requires lower <= upper
    requires logEntry.nodeId != nodeId
    requires newRid in newUpdates && newUpdates[newRid] == UpdateState.Placed(logEntry.op, upper)
    requires newRid !in queue
    requires forall rid :: rid in updates && rid != newRid ==>
               rid in newUpdates && newUpdates[rid] == updates[rid]
    requires LogRangeMatchesQueue(queue, log, queueIndex, lower, upper, nodeId, updates)
    requires newLog == log[upper := logEntry]
    ensures LogRangeMatchesQueue(queue, newLog, queueIndex, lower, upper + 1, nodeId, newUpdates)
    decreases upper - lower
  {
    if lower == upper {
      assert LogRangeMatchesQueue(queue, newLog, queueIndex, lower + 1, upper + 1, nodeId, newUpdates);
    } else {
      assert newLog[lower] == log[lower];
      if log[lower].nodeId == nodeId {
        assert queue[queueIndex] != newRid;
        LogRangeMatchesQueueAppendOtherAugment(queue, log, newLog, queueIndex + 1, lower + 1, upper,
                                               nodeId, updates, newUpdates, newRid, logEntry);
      } else {
        LogRangeMatchesQueueAppendOtherAugment(queue, log, newLog, queueIndex, lower + 1, upper,
                                               nodeId, updates, newUpdates, newRid, logEntry);
      }
    }
  }

  /** Appending another node's entry at `upper` extends a range free of
      `nodeId` by one. */
  lemma {:induction false} LogRangeNoNodeIdAppendOther(
    log: map<nat, LogEntry>, newLog: map<nat, LogEntry>,
    lower: nat, upper: nat, nodeId: nat, logEntry: LogEntry)
    requires lower <= upper
    requires logEntry.nodeId != nodeId
    requires LogRangeNoNodeId(log, lower, upper, nodeId)
    requires newLog == log[upper := logEntry]
    ensures LogRangeNoNodeId(newLog, lower, upper + 1, nodeId)
    decreases upper - lower
  {
    if lower == upper {
      assert LogRangeNoNodeId(newLog, lower + 1, upper + 1, nodeId);
    } else {
      assert newLog[lower] == log[lower];
      LogRangeNoNodeIdAppendOther(log, newLog, lower + 1, upper, nodeId, logEntry);
    }
  }

  /** A range free of `nodeId` followed by a matching range is a matching
      range. */
  lemma {:induction false} ConcatLogRangeNoNodeIdLogRangeMatchesQueue(
    queue: seq<nat>, log: map<nat, LogEntry>, queueIndex: nat, a: nat, b: nat, c: nat,
    nodeId: nat, updates: map<nat, UpdateState>)
    requires a <= b <= c
    requires queueIndex <= |queue|
    requires LogRangeNoNodeId(log, a, b, nodeId)
    requires LogRangeMatchesQueue(queue, log, queueIndex, b, c, nodeId, updates)
    ensures LogRangeMatchesQueue(queue, log, queueIndex, a, c, nodeId, updates)
    decreases b - a
  {
    if a < b {
      ConcatLogRangeNoNodeIdLogRangeMatchesQueue(queue, log, queueIndex, a + 1, b, c, nodeId, updates);
    }
  }
}
