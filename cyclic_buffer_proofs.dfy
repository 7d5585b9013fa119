/** Every step of the cyclic buffer keeps `Inv`, and the invariant's
    consequences: a held entry stays in the buffer, the entries that leave
    the buffer have been consumed by every replica, and a step's withdrawal
    and deposit are possible.

    The proofs are composed of small field updates: a step that changes one
    combiner's state only (`CombinerStepKeepsInv`), a new head, a raised
    local head, a moved tail, and a flipped bit with its deposit. */
module CyclicBufferProofs {
  import opened NRTypes
  import opened CyclicBufferTypes
  import opened CyclicBufferIndex
  import opened CyclicBuffer

  // ---------------------------------------------------------------------------
  // Changing one combiner's state
  // ---------------------------------------------------------------------------

  /** The validity of a combiner state does not depend on the other
      combiners. */
  lemma ValidityIgnoresCombiners(s: State, t: State, m: nat, x: CombinerState)
    requires Sizes(s)
    requires t == s.(combinerState := t.combinerState)
    ensures CombinerStateValid(t, m, x) == CombinerStateValid(s, m, x)
    ensures x.Reading? ==> ReaderStateValid(t, m, x.rs) == ReaderStateValid(s, m, x.rs)
  {
  }

  /** The parts of the invariant about the buffer itself hold in any state
      that differs only in the combiners' states. */
  lemma BufferInvIgnoresCombiners(s: State, t: State)
    requires Inv(s)
    requires t == s.(combinerState := t.combinerState)
    requires t.combinerState.Keys == s.combinerState.Keys
    ensures Sizes(t) && Complete(t) && PointerOrdering(t) && PointerDifferences(t)
    ensures UpcomingBitsAreNotAlive(t) && InvBufferContents(t) && ContentsMeetInv(t)
  {
    PointersIgnoreCombiners(s, t);
    ContentsFrame(s, t);
  }

  lemma PointersIgnoreCombiners(s: State, t: State)
    requires Complete(s) && PointerOrdering(s) && PointerDifferences(s)
    requires t == s.(combinerState := t.combinerState)
    requires t.combinerState.Keys == s.combinerState.Keys
    ensures Complete(t) && PointerOrdering(t) && PointerDifferences(t)
  {
  }

  /** The invariant's statements about the stored entries depend only on
      the constants, the tail, the local heads, the entries and the bits. */
  lemma ContentsFrame(s: State, t: State)
    requires Sizes(s) && Complete(s) && Complete(t)
    requires UpcomingBitsAreNotAlive(s) && InvBufferContents(s) && ContentsMeetInv(s)
    requires t.bufferSize == s.bufferSize && t.numReplicas == s.numReplicas
    requires t.storedInv == s.storedInv && t.tail == s.tail && t.localHeads == s.localHeads
    requires t.contents == s.contents && t.aliveBits == s.aliveBits
    ensures UpcomingBitsAreNotAlive(t) && InvBufferContents(t) && ContentsMeetInv(t)
  {
    assert MinLocalHead(t) == MinLocalHead(s);
  }

  /** Replacing the state of combiner `n` by a valid state `c` that overlaps
      no other combiner's keeps the invariant. */
  lemma CombinerStepKeepsInv(s: State, n: nat, c: CombinerState)
    requires Inv(s)
    requires n in s.combinerState
    requires CombinerStateValid(s, n, c)
    requires c.Reading? ==> ReaderStateValid(s, n, c.rs)
    requires forall j :: j in s.combinerState && j != n ==>
               PairNoOverlap(c, s.combinerState[j]) && PairNoOverlap(s.combinerState[j], c)
    ensures Inv(s.(combinerState := s.combinerState[n := c]))
  {
    var t := s.(combinerState := s.combinerState[n := c]);
    BufferInvIgnoresCombiners(s, t);
    CombinerStepOverlap(s, n, c);
    CombinerStepValid(s, n, c);
  }

  lemma CombinerStepOverlap(s: State, n: nat, c: CombinerState)
    requires RangesNoOverlap(s)
    requires forall j :: j in s.combinerState && j != n ==>
               PairNoOverlap(c, s.combinerState[j]) && PairNoOverlap(s.combinerState[j], c)
    ensures RangesNoOverlap(s.(combinerState := s.combinerState[n := c]))
  {
  }

  lemma CombinerStepValid(s: State, n: nat, c: CombinerState)
    requires Sizes(s) && AllReaderStateValid(s) && AllCombinerStateValid(s)
    requires CombinerStateValid(s, n, c)
    requires c.Reading? ==> ReaderStateValid(s, n, c.rs)
    ensures AllReaderStateValid(s.(combinerState := s.combinerState[n := c]))
    ensures AllCombinerStateValid(s.(combinerState := s.combinerState[n := c]))
  {
    var t := s.(combinerState := s.combinerState[n := c]);
    forall m | m in t.combinerState
      ensures CombinerStateValid(t, m, t.combinerState[m])
      ensures t.combinerState[m].Reading? ==> ReaderStateValid(t, m, t.combinerState[m].rs)
    {
      ValidityIgnoresCombiners(s, t, m, t.combinerState[m]);
      if m != n {
        assert t.combinerState[m] == s.combinerState[m];
      }
    }
  }

  /** A combiner going back to `Idle` keeps the invariant. */
  lemma BecomeIdleKeepsInv(s: State, n: nat)
    requires Inv(s)
    requires n in s.combinerState
    ensures Inv(s.(combinerState := s.combinerState[n := CombinerState.Idle]))
  {
    CombinerStepKeepsInv(s, n, CombinerState.Idle);
  }

  // ---------------------------------------------------------------------------
  // Readers
  // ---------------------------------------------------------------------------

  lemma ReaderDoStartInductive(s: State, nodeId: nat)
    requires Inv(s)
    requires ReaderDoStartEnabled(s, nodeId)
    ensures Inv(ReaderDoStart(s, nodeId))
  {
    CombinerStepKeepsInv(s, nodeId,
      CombinerState.Reading(ReaderState.Starting(s.localHeads[nodeId])));
  }

  lemma ReaderDoEnterInductive(s: State, nodeId: nat)
    requires Inv(s)
    requires ReaderDoEnterEnabled(s, nodeId)
    ensures Inv(ReaderDoEnter(s, nodeId))
  {
    var start := s.combinerState[nodeId].rs.start;
    assert ReaderStateValid(s, nodeId, s.combinerState[nodeId].rs);
    CombinerStepKeepsInv(s, nodeId,
      CombinerState.Reading(ReaderState.Range(start, s.tail, start)));
  }

  /** Under the invariant the entry a reader may hold is stored and meets the
      stored-entry predicate. */
  lemma ReaderDoGuardContentsPresent(s: State, nodeId: nat)
    requires Inv(s)
    requires nodeId in s.combinerState
    requires s.combinerState[nodeId].Reading? && s.combinerState[nodeId].rs.Range?
    requires s.combinerState[nodeId].rs.cur < s.combinerState[nodeId].rs.end
    requires EntryIsAlive(s.aliveBits, s.combinerState[nodeId].rs.cur, s.bufferSize)
    ensures s.combinerState[nodeId].rs.cur in s.contents
    ensures s.storedInv(s.contents[s.combinerState[nodeId].rs.cur], s.combinerState[nodeId].rs.cur)
  {
    assert ReaderStateValid(s, nodeId, s.combinerState[nodeId].rs);
  }

  lemma ReaderDoGuardInductive(s: State, nodeId: nat)
    requires Inv(s)
    requires ReaderDoGuardEnabled(s, nodeId)
    ensures Inv(ReaderDoGuard(s, nodeId))
  {
    var rs := s.combinerState[nodeId].rs;
    assert ReaderStateValid(s, nodeId, rs);
    var c := CombinerState.Reading(ReaderState.Guard(rs.start, rs.end, rs.cur, s.contents[rs.cur]));
    GuardValid(s, nodeId, rs);
    GuardNoOverlap(s, nodeId, c);
    assert ReaderDoGuard(s, nodeId) == s.(combinerState := s.combinerState[nodeId := c]);
    CombinerStepKeepsInv(s, nodeId, c);
  }

  /** Holding the next entry of the range, which is alive and stored. */
  lemma GuardValid(s: State, nodeId: nat, rs: ReaderState)
    requires Sizes(s)
    requires rs.Range? && ReaderStateValid(s, nodeId, rs)
    requires rs.cur < rs.end && rs.cur in s.contents
    requires EntryIsAlive(s.aliveBits, rs.cur, s.bufferSize)
    ensures ReaderStateValid(s, nodeId, ReaderState.Guard(rs.start, rs.end, rs.cur, s.contents[rs.cur]))
  {
  }

  /** An alive entry lies in no appender's reserved range. */
  lemma GuardNoOverlap(s: State, nodeId: nat, c: CombinerState)
    requires Sizes(s) && AllCombinerStateValid(s)
    requires c.Reading? && c.rs.Guard?
    requires EntryIsAlive(s.aliveBits, c.rs.cur, s.bufferSize)
    ensures forall j :: j in s.combinerState && j != nodeId ==>
              PairNoOverlap(c, s.combinerState[j]) && PairNoOverlap(s.combinerState[j], c)
  {
    forall j | j in s.combinerState && j != nodeId
      ensures PairNoOverlap(s.combinerState[j], c)
    {
      assert CombinerStateValid(s, j, s.combinerState[j]);
    }
  }

  lemma ReaderDoUnguardInductive(s: State, nodeId: nat)
    requires Inv(s)
    requires ReaderDoUnguardEnabled(s, nodeId)
    ensures Inv(ReaderDoUnguard(s, nodeId))
  {
    var rs := s.combinerState[nodeId].rs;
    assert ReaderStateValid(s, nodeId, rs);
    UnguardValid(s, nodeId, rs);
    var c := CombinerState.Reading(ReaderState.Range(rs.start, rs.end, rs.cur + 1));
    assert ReaderDoUnguard(s, nodeId) == s.(combinerState := s.combinerState[nodeId := c]);
    CombinerStepKeepsInv(s, nodeId, c);
  }

  /** Releasing a held entry leaves the reader's range read up to and
      including it. */
  lemma UnguardValid(s: State, nodeId: nat, rs: ReaderState)
    requires Sizes(s)
    requires rs.Guard? && ReaderStateValid(s, nodeId, rs)
    ensures ReaderStateValid(s, nodeId, ReaderState.Range(rs.start, rs.end, rs.cur + 1))
  {
  }

  lemma ReaderDoAbortInductive(s: State, nodeId: nat)
    requires Inv(s)
    requires ReaderDoAbortEnabled(s, nodeId)
    ensures Inv(ReaderDoAbort(s, nodeId))
  {
    BecomeIdleKeepsInv(s, nodeId);
  }

  // ---------------------------------------------------------------------------
  // Advancing the head
  // ---------------------------------------------------------------------------

  lemma InitAdvanceHeadInductive(s: State, nodeId: nat)
    requires Inv(s)
    requires InitAdvanceHeadEnabled(s, nodeId)
    ensures Inv(InitAdvanceHead(s, nodeId))
  {
    CombinerStepKeepsInv(s, nodeId, CombinerState.AdvancingHead(1, s.localHeads[0]));
  }

  lemma StepAdvanceHeadInductive(s: State, nodeId: nat)
    requires Inv(s)
    requires StepAdvanceHeadEnabled(s, nodeId)
    ensures Inv(StepAdvanceHead(s, nodeId))
  {
    var c := s.combinerState[nodeId];
    assert CombinerStateValid(s, nodeId, c);
    var c' := CombinerState.AdvancingHead(c.idx + 1, Min(c.minHead, s.localHeads[c.idx]));
    StepAdvanceHeadValid(s, nodeId, c);
    assert StepAdvanceHead(s, nodeId) == s.(combinerState := s.combinerState[nodeId := c']);
    CombinerStepKeepsInv(s, nodeId, c');
  }

  /** Folding the next local head into the minimum keeps it below every
      local head scanned so far. */
  lemma StepAdvanceHeadValid(s: State, nodeId: nat, c: CombinerState)
    requires Sizes(s)
    requires c.AdvancingHead? && CombinerStateValid(s, nodeId, c)
    requires c.idx < s.numReplicas && c.idx in s.localHeads
    ensures CombinerStateValid(s, nodeId,
              CombinerState.AdvancingHead(c.idx + 1, Min(c.minHead, s.localHeads[c.idx])))
  {
  }

  lemma AbandonAdvanceHeadInductive(s: State, nodeId: nat)
    requires Inv(s)
    requires AbandonAdvanceHeadEnabled(s, nodeId)
    ensures Inv(AbandonAdvanceHead(s, nodeId))
  {
    BecomeIdleKeepsInv(s, nodeId);
  }

  // ---------------------------------------------------------------------------
  // Advancing the tail and appending
  // ---------------------------------------------------------------------------

  lemma InitAdvanceTailInductive(s: State, nodeId: nat)
    requires Inv(s)
    requires InitAdvanceTailEnabled(s, nodeId)
    ensures Inv(InitAdvanceTail(s, nodeId))
  {
    CombinerStepKeepsInv(s, nodeId, CombinerState.AdvancingTail(s.head));
  }

  lemma AbandonAdvanceTailInductive(s: State, nodeId: nat)
    requires Inv(s)
    requires AbandonAdvanceTailEnabled(s, nodeId)
    ensures Inv(AbandonAdvanceTail(s, nodeId))
  {
    BecomeIdleKeepsInv(s, nodeId);
  }

  lemma FinishAppendingInductive(s: State, nodeId: nat)
    requires Inv(s)
    requires FinishAppendingEnabled(s, nodeId)
    ensures Inv(FinishAppending(s, nodeId))
  {
    BecomeIdleKeepsInv(s, nodeId);
  }

  // ---------------------------------------------------------------------------
  // A new head
  // ---------------------------------------------------------------------------

  /** Setting the head to a value below the tail and below every local head
      keeps the invariant: nothing else depends on the head. */
  lemma HeadChangeKeepsInv(s: State, h: nat)
    requires Inv(s)
    requires h <= s.tail
    requires forall i :: i in s.localHeads ==> h <= s.localHeads[i]
    ensures Inv(s.(head := h))
  {
    var t := s.(head := h);
    HeadChangePointers(s, h);
    ContentsFrame(s, t);
    HeadChangeCombiners(s, h);
  }

  lemma HeadChangePointers(s: State, h: nat)
    requires Complete(s) && PointerOrdering(s) && PointerDifferences(s)
    requires h <= s.tail
    requires forall i :: i in s.localHeads ==> h <= s.localHeads[i]
    ensures Complete(s.(head := h)) && PointerOrdering(s.(head := h))
    ensures PointerDifferences(s.(head := h))
  {
  }

  lemma HeadChangeCombiners(s: State, h: nat)
    requires Sizes(s) && RangesNoOverlap(s) && AllReaderStateValid(s) && AllCombinerStateValid(s)
    ensures RangesNoOverlap(s.(head := h))
    ensures AllReaderStateValid(s.(head := h)) && AllCombinerStateValid(s.(head := h))
  {
    var t := s.(head := h);
    forall m | m in t.combinerState
      ensures CombinerStateValid(t, m, t.combinerState[m])
      ensures t.combinerState[m].Reading? ==> ReaderStateValid(t, m, t.combinerState[m].rs)
    {
      assert CombinerStateValid(s, m, s.combinerState[m]);
    }
  }

  lemma FinishAdvanceHeadInductive(s: State, nodeId: nat)
    requires Inv(s)
    requires FinishAdvanceHeadEnabled(s, nodeId)
    ensures Inv(FinishAdvanceHead(s, nodeId))
  {
    var minHead := s.combinerState[nodeId].minHead;
    assert CombinerStateValid(s, nodeId, s.combinerState[nodeId]);
    var u := s.(combinerState := s.combinerState[nodeId := CombinerState.Idle]);
    BecomeIdleKeepsInv(s, nodeId);
    assert FinishAdvanceHead(s, nodeId) == u.(head := minHead);
    HeadChangeKeepsInv(u, minHead);
  }

  // ---------------------------------------------------------------------------
  // A raised local head
  // ---------------------------------------------------------------------------

  /** An idle replica may raise its local head over entries that are alive
      and stored. */
  lemma LocalHeadAdvanceKeepsInv(s: State, n: nat, v: nat)
    requires Inv(s)
    requires n in s.localHeads && s.localHeads[n] <= v <= s.tail
    requires n in s.combinerState && s.combinerState[n].Idle?
    requires forall i :: s.localHeads[n] <= i < v ==>
               EntryIsAlive(s.aliveBits, i, s.bufferSize) && i in s.contents
    ensures Inv(s.(localHeads := s.localHeads[n := v]))
  {
    LocalHeadPointers(s, n, v);
    LocalHeadUpcoming(s, n, v);
    LocalHeadContents(s, n, v);
    LocalHeadCombiners(s, n, v);
  }

  lemma LocalHeadPointers(s: State, n: nat, v: nat)
    requires Complete(s) && PointerOrdering(s) && PointerDifferences(s)
    requires n in s.localHeads && s.localHeads[n] <= v <= s.tail
    ensures Complete(s.(localHeads := s.localHeads[n := v]))
    ensures PointerOrdering(s.(localHeads := s.localHeads[n := v]))
    ensures PointerDifferences(s.(localHeads := s.localHeads[n := v]))
  {
  }

  /** The entries that become upcoming when the minimum local head rises lie
      one lap after entries the replica has read alive. */
  lemma LocalHeadUpcoming(s: State, n: nat, v: nat)
    requires Sizes(s) && Complete(s) && UpcomingBitsAreNotAlive(s)
    requires n in s.localHeads && s.localHeads[n] <= v
    requires Complete(s.(localHeads := s.localHeads[n := v]))
    requires forall i :: s.localHeads[n] <= i < v ==> EntryIsAlive(s.aliveBits, i, s.bufferSize)
    ensures UpcomingBitsAreNotAlive(s.(localHeads := s.localHeads[n := v]))
  {
    var t := s.(localHeads := s.localHeads[n := v]);
    var m, m' := MinLocalHead(s), MinLocalHead(t);
    forall i | t.tail <= i < m' + t.bufferSize
      ensures !EntryIsAlive(t.aliveBits, i, t.bufferSize)
    {
      if i >= m + s.bufferSize {
        var j := i - s.bufferSize;
        MapMinValueRaised(s.localHeads, s.numReplicas - 1, n, v, j);
        EntryIsAliveNextLap(s.aliveBits, j, s.bufferSize);
      }
    }
  }

  lemma LocalHeadContents(s: State, n: nat, v: nat)
    requires Sizes(s) && Complete(s) && InvBufferContents(s) && ContentsMeetInv(s)
    requires n in s.localHeads && s.localHeads[n] <= v
    requires Complete(s.(localHeads := s.localHeads[n := v]))
    requires forall i :: s.localHeads[n] <= i < v ==> i in s.contents
    ensures InvBufferContents(s.(localHeads := s.localHeads[n := v]))
    ensures ContentsMeetInv(s.(localHeads := s.localHeads[n := v]))
  {
    var t := s.(localHeads := s.localHeads[n := v]);
    forall i | t.tail - t.bufferSize <= i < t.tail
      ensures (EntryIsAlive(t.aliveBits, i, t.bufferSize) || i < MinLocalHead(t)) <==> i in t.contents
    {
      LocalHeadContentsAt(s, n, v, i);
    }
  }

  /** An entry that falls below the raised minimum local head was below the
      replica's new local head, so it is stored. */
  lemma LocalHeadContentsAt(s: State, n: nat, v: nat, i: int)
    requires Sizes(s)
    requires forall k: nat :: k < s.numReplicas ==> k in s.localHeads
    requires n in s.localHeads && s.localHeads[n] <= v
    requires s.localHeads[n] <= i < v ==> i in s.contents
    requires (EntryIsAlive(s.aliveBits, i, s.bufferSize) || i < MinLocalHead(s)) <==> i in s.contents
    ensures (EntryIsAlive(s.aliveBits, i, s.bufferSize)
             || i < MinLocalHead(s.(localHeads := s.localHeads[n := v])))
            <==> i in s.contents
  {
    var t := s.(localHeads := s.localHeads[n := v]);
    MapMinValueMonotone(s.localHeads, s.numReplicas - 1, n, v);
    if MinLocalHead(s) <= i < MinLocalHead(t) {
      MapMinValueRaised(s.localHeads, s.numReplicas - 1, n, v, i);
    }
  }

  lemma LocalHeadCombiners(s: State, n: nat, v: nat)
    requires Sizes(s) && RangesNoOverlap(s) && AllReaderStateValid(s) && AllCombinerStateValid(s)
    requires n in s.localHeads && s.localHeads[n] <= v
    requires n in s.combinerState && s.combinerState[n].Idle?
    ensures RangesNoOverlap(s.(localHeads := s.localHeads[n := v]))
    ensures AllReaderStateValid(s.(localHeads := s.localHeads[n := v]))
    ensures AllCombinerStateValid(s.(localHeads := s.localHeads[n := v]))
  {
    var t := s.(localHeads := s.localHeads[n := v]);
    forall m | m in t.combinerState
      ensures CombinerStateValid(t, m, t.combinerState[m])
      ensures t.combinerState[m].Reading? ==> ReaderStateValid(t, m, t.combinerState[m].rs)
    {
      assert CombinerStateValid(s, m, s.combinerState[m]);
    }
  }

  lemma ReaderDoFinishInductive(s: State, nodeId: nat)
    requires Inv(s)
    requires ReaderDoFinishEnabled(s, nodeId)
    ensures Inv(ReaderDoFinish(s, nodeId))
  {
    var rs := s.combinerState[nodeId].rs;
    assert ReaderStateValid(s, nodeId, rs);
    var u := s.(combinerState := s.combinerState[nodeId := CombinerState.Idle]);
    BecomeIdleKeepsInv(s, nodeId);
    assert ReaderDoFinish(s, nodeId) == u.(localHeads := u.localHeads[nodeId := rs.end]);
    LocalHeadAdvanceKeepsInv(u, nodeId, rs.end);
  }

  // ---------------------------------------------------------------------------
  // A moved tail
  // ---------------------------------------------------------------------------

  /** The minimum local head lies between any common lower bound of the
      local heads and replica 0's local head. */
  lemma MinLocalHeadBetween(s: State, low: nat)
    requires Sizes(s) && Complete(s)
    requires forall m: nat :: m < s.numReplicas ==> low <= s.localHeads[m]
    ensures low <= MinLocalHead(s) <= s.localHeads[0]
  {
    MapMinValueIsMin(s.localHeads, s.numReplicas - 1);
  }

  /** The buffer after the tail moves to `newTail`, before the mover's own
      state changes. */
  ghost function TailMoved(s: State, newTail: nat): (r: State)
  {
    s.(tail := newTail, contents := Remaining(s.contents, s.bufferSize, s.tail, newTail))
  }

  /** Moving the tail by at most one lap beyond every local head keeps the
      invariant. */
  lemma TailMoveKeepsInv(s: State, newTail: nat, low: nat)
    requires Inv(s)
    requires s.tail <= newTail <= low + s.bufferSize
    requires forall m: nat :: m < s.numReplicas ==> low <= s.localHeads[m]
    ensures Inv(TailMoved(s, newTail))
  {
    MinLocalHeadBetween(s, low);
    TailMovePointers(s, newTail);
    TailMoveUpcoming(s, newTail);
    TailMoveContents(s, newTail);
    TailMoveCombiners(s, newTail);
  }

  lemma TailMovePointers(s: State, newTail: nat)
    requires Complete(s) && PointerOrdering(s) && PointerDifferences(s)
    requires s.tail <= newTail
    requires forall m :: m in s.localHeads ==> newTail <= s.localHeads[m] + s.bufferSize
    ensures Complete(TailMoved(s, newTail)) && PointerOrdering(TailMoved(s, newTail))
    ensures PointerDifferences(TailMoved(s, newTail))
  {
  }

  lemma TailMoveUpcoming(s: State, newTail: nat)
    requires Sizes(s) && Complete(s) && UpcomingBitsAreNotAlive(s)
    requires Complete(TailMoved(s, newTail))
    requires s.tail <= newTail
    ensures UpcomingBitsAreNotAlive(TailMoved(s, newTail))
  {
    assert MinLocalHead(TailMoved(s, newTail)) == MinLocalHead(s);
  }

  /** The entries newly inside the last lap are the reserved ones: neither
      stored nor alive nor below the minimum local head. */
  lemma TailMoveContents(s: State, newTail: nat)
    requires Sizes(s) && Complete(s) && UpcomingBitsAreNotAlive(s)
    requires InvBufferContents(s) && ContentsMeetInv(s)
    requires Complete(TailMoved(s, newTail))
    requires MinLocalHead(s) <= s.tail <= newTail <= MinLocalHead(s) + s.bufferSize
    ensures InvBufferContents(TailMoved(s, newTail)) && ContentsMeetInv(TailMoved(s, newTail))
  {
    var t := TailMoved(s, newTail);
    assert MinLocalHead(t) == MinLocalHead(s);
  }

  lemma TailMoveCombiners(s: State, newTail: nat)
    requires Sizes(s) && RangesNoOverlap(s) && AllReaderStateValid(s) && AllCombinerStateValid(s)
    requires s.tail <= newTail
    requires forall m :: m in s.localHeads ==> newTail <= s.localHeads[m] + s.bufferSize
    ensures RangesNoOverlap(TailMoved(s, newTail))
    ensures AllReaderStateValid(TailMoved(s, newTail))
    ensures AllCombinerStateValid(TailMoved(s, newTail))
  {
    var t := TailMoved(s, newTail);
    forall m | m in t.combinerState
      ensures CombinerStateValid(t, m, t.combinerState[m])
      ensures t.combinerState[m].Reading? ==> ReaderStateValid(t, m, t.combinerState[m].rs)
    {
      assert CombinerStateValid(s, m, s.combinerState[m]);
      if s.combinerState[m].Reading? {
        assert ReaderStateValid(s, m, s.combinerState[m].rs);
      }
    }
  }

  /** The reclamation barrier: every entry the tail move withdraws is stored
      and lies below every replica's local head, so every replica has
      consumed it. */
  lemma WithdrawnAreConsumed(s: State, newTail: nat, low: nat)
    requires Inv(s)
    requires s.tail <= newTail <= low + s.bufferSize
    requires forall m: nat :: m < s.numReplicas ==> low <= s.localHeads[m]
    ensures forall i :: Withdrawn(s.bufferSize, s.tail, newTail, i) ==> i in s.contents && s.storedInv(s.contents[i], i)
    ensures forall i, m :: Withdrawn(s.bufferSize, s.tail, newTail, i) && m in s.localHeads ==> i < s.localHeads[m]
  {
    MinLocalHeadBetween(s, low);
  }

  /** The range the mover reserves is not alive. */
  lemma ReservedNotAlive(s: State, newTail: nat)
    requires Sizes(s) && Complete(s) && UpcomingBitsAreNotAlive(s)
    requires newTail <= MinLocalHead(s) + s.bufferSize
    ensures forall i: nat :: s.tail <= i < newTail ==> !EntryIsAlive(s.aliveBits, i, s.bufferSize)
  {
  }

  lemma FinishAdvanceTailInductive(s: State, nodeId: nat, newTail: nat)
    requires Inv(s)
    requires FinishAdvanceTailEnabled(s, nodeId, newTail)
    ensures forall i :: Withdrawn(s.bufferSize, s.tail, newTail, i) ==> i in s.contents && s.storedInv(s.contents[i], i)
    ensures Inv(FinishAdvanceTail(s, nodeId, newTail))
  {
    var low := s.combinerState[nodeId].observedHead;
    assert CombinerStateValid(s, nodeId, s.combinerState[nodeId]);
    WithdrawnAreConsumed(s, newTail, low);
    var w := TailMoved(s, newTail);
    TailMoveKeepsInv(s, newTail, low);
    var c := CombinerState.Appending(s.tail, newTail);
    FinishAdvanceTailValid(s, nodeId, newTail, low);
    FinishAdvanceTailNoOverlap(s, nodeId, newTail);
    assert FinishAdvanceTail(s, nodeId, newTail) == w.(combinerState := w.combinerState[nodeId := c]);
    CombinerStepKeepsInv(w, nodeId, c);
  }

  /** The mover's new appending state is valid after the move. */
  lemma FinishAdvanceTailValid(s: State, nodeId: nat, newTail: nat, low: nat)
    requires Sizes(s) && Complete(s) && PointerOrdering(s) && UpcomingBitsAreNotAlive(s)
    requires nodeId in s.localHeads
    requires s.tail <= newTail <= low + s.bufferSize
    requires forall m: nat :: m < s.numReplicas ==> low <= s.localHeads[m]
    ensures CombinerStateValid(TailMoved(s, newTail), nodeId, CombinerState.Appending(s.tail, newTail))
  {
    MinLocalHeadBetween(s, low);
    ReservedNotAlive(s, newTail);
  }

  /** The range the mover reserves starts at the old tail, after every held
      entry and every other appender's range. */
  lemma FinishAdvanceTailNoOverlap(s: State, nodeId: nat, newTail: nat)
    requires Sizes(s) && AllReaderStateValid(s) && AllCombinerStateValid(s)
    requires s.tail <= newTail
    ensures var w := TailMoved(s, newTail);
            forall j :: j in w.combinerState && j != nodeId ==>
              && PairNoOverlap(CombinerState.Appending(s.tail, newTail), w.combinerState[j])
              && PairNoOverlap(w.combinerState[j], CombinerState.Appending(s.tail, newTail))
  {
    var c := CombinerState.Appending(s.tail, newTail);
    forall j | j in s.combinerState && j != nodeId
      ensures PairNoOverlap(c, s.combinerState[j]) && PairNoOverlap(s.combinerState[j], c)
    {
      assert CombinerStateValid(s, j, s.combinerState[j]);
      if s.combinerState[j].Reading? {
        assert ReaderStateValid(s, j, s.combinerState[j].rs);
      }
    }
  }

  // ---------------------------------------------------------------------------
  // A deposited entry
  // ---------------------------------------------------------------------------

  /** The buffer after entry `c` is stored with content `d` and its bit is
      set to the alive value. */
  ghost function Flipped(s: State, c: nat, d: StoredType): (r: State)
    requires s.bufferSize > 0
  {
    s.(aliveBits := s.aliveBits[c % s.bufferSize := AliveWhen(c, s.bufferSize)],
       contents := s.contents[c := d])
  }

  /** No appender's remaining range contains entry `c`. */
  ghost predicate NoAppenderCovers(s: State, c: nat)
  {
    forall j :: j in s.combinerState && s.combinerState[j].Appending? ==>
      c < s.combinerState[j].curIdx || s.combinerState[j].tail <= c
  }

  /** An entry of the last lap that is not alive is above the minimum local
      head: otherwise the entry one lap later would be alive although it is
      upcoming. So it is not stored. */
  lemma NotAliveNotStored(s: State, c: nat)
    requires Sizes(s) && Complete(s) && UpcomingBitsAreNotAlive(s) && InvBufferContents(s)
    requires s.tail - s.bufferSize <= c < s.tail
    requires !EntryIsAlive(s.aliveBits, c, s.bufferSize)
    ensures MinLocalHead(s) <= c
    ensures c !in s.contents
  {
    var b := s.bufferSize;
    assert c % b in s.aliveBits;
    EntryIsAliveNextLap(s.aliveBits, c, b);
    assert EntryIsAlive(s.aliveBits, c + b, b);
    assert !(s.tail <= c + b < MinLocalHead(s) + b);
  }

  /** Storing a reserved entry that no appender still reserves, with content
      meeting the stored-entry predicate, keeps the invariant. */
  lemma FlipKeepsInv(s: State, c: nat, d: StoredType)
    requires Inv(s)
    requires s.tail - s.bufferSize <= c < s.tail
    requires !EntryIsAlive(s.aliveBits, c, s.bufferSize)
    requires s.storedInv(d, c)
    requires NoAppenderCovers(s, c)
    ensures c !in s.contents
    ensures Inv(Flipped(s, c, d))
  {
    NotAliveNotStored(s, c);
    FlipPointers(s, c, d);
    FlipUpcoming(s, c, d);
    FlipContents(s, c, d);
    FlipCombiners(s, c, d);
  }

  lemma FlipPointers(s: State, c: nat, d: StoredType)
    requires Sizes(s) && Complete(s) && PointerOrdering(s) && PointerDifferences(s)
    requires c < s.tail
    ensures Complete(Flipped(s, c, d)) && PointerOrdering(Flipped(s, c, d))
    ensures PointerDifferences(Flipped(s, c, d))
  {
    assert c % s.bufferSize in s.aliveBits;
  }

  lemma FlipUpcoming(s: State, c: nat, d: StoredType)
    requires Sizes(s) && Complete(s) && UpcomingBitsAreNotAlive(s)
    requires Complete(Flipped(s, c, d))
    requires MinLocalHead(s) <= c < s.tail
    ensures UpcomingBitsAreNotAlive(Flipped(s, c, d))
  {
    var t := Flipped(s, c, d);
    assert MinLocalHead(t) == MinLocalHead(s);
    forall i | t.tail <= i < MinLocalHead(t) + t.bufferSize
      ensures !EntryIsAlive(t.aliveBits, i, t.bufferSize)
    {
      FlipBit(s.aliveBits, c, s.bufferSize, i);
    }
  }

  lemma FlipContents(s: State, c: nat, d: StoredType)
    requires Sizes(s) && Complete(s) && InvBufferContents(s) && ContentsMeetInv(s)
    requires Complete(Flipped(s, c, d))
    requires s.tail - s.bufferSize <= c < s.tail
    requires s.storedInv(d, c)
    ensures InvBufferContents(Flipped(s, c, d)) && ContentsMeetInv(Flipped(s, c, d))
  {
    var t := Flipped(s, c, d);
    assert MinLocalHead(t) == MinLocalHead(s);
    forall i | t.tail - t.bufferSize <= i < t.tail
      ensures (EntryIsAlive(t.aliveBits, i, t.bufferSize) || i < MinLocalHead(t)) <==> i in t.contents
    {
      FlipBit(s.aliveBits, c, s.bufferSize, i);
    }
  }

  /** Readers hold alive, stored entries, which stay alive and keep their
      content; appenders keep their ranges clear of `c`. */
  lemma FlipCombiners(s: State, c: nat, d: StoredType)
    requires Sizes(s) && PointerOrdering(s) && RangesNoOverlap(s)
    requires AllReaderStateValid(s) && AllCombinerStateValid(s)
    requires s.tail - s.bufferSize <= c < s.tail && c !in s.contents
    requires NoAppenderCovers(s, c)
    ensures RangesNoOverlap(Flipped(s, c, d))
    ensures AllReaderStateValid(Flipped(s, c, d)) && AllCombinerStateValid(Flipped(s, c, d))
  {
    var t := Flipped(s, c, d);
    forall m | m in t.combinerState
      ensures CombinerStateValid(t, m, t.combinerState[m])
      ensures t.combinerState[m].Reading? ==> ReaderStateValid(t, m, t.combinerState[m].rs)
    {
      FlipCombinerAt(s, c, d, m);
    }
  }

  lemma FlipCombinerAt(s: State, c: nat, d: StoredType, m: nat)
    requires Sizes(s) && PointerOrdering(s)
    requires AllReaderStateValid(s) && AllCombinerStateValid(s)
    requires s.tail - s.bufferSize <= c < s.tail && c !in s.contents
    requires NoAppenderCovers(s, c)
    requires m in s.combinerState
    ensures CombinerStateValid(Flipped(s, c, d), m, s.combinerState[m])
    ensures s.combinerState[m].Reading? ==> ReaderStateValid(Flipped(s, c, d), m, s.combinerState[m].rs)
  {
    var x := s.combinerState[m];
    if x.Reading? {
      assert ReaderStateValid(s, m, x.rs);
      FlipReaderAt(s, c, d, m, x.rs);
    } else if x.Appending? {
      assert CombinerStateValid(s, m, x);
      FlipAppenderAt(s, c, d, m, x);
    }
  }

  lemma FlipReaderAt(s: State, c: nat, d: StoredType, m: nat, rs: ReaderState)
    requires Sizes(s) && PointerOrdering(s)
    requires s.tail - s.bufferSize <= c < s.tail && c !in s.contents
    requires ReaderStateValid(s, m, rs)
    ensures ReaderStateValid(Flipped(s, c, d), m, rs)
  {
    var t := Flipped(s, c, d);
    forall i | rs.Range? && rs.start <= i < rs.cur
      ensures EntryIsAlive(t.aliveBits, i, t.bufferSize)
    {
      FlipBit(s.aliveBits, c, s.bufferSize, i);
    }
    forall i | rs.Guard? && rs.start <= i <= rs.cur
      ensures EntryIsAlive(t.aliveBits, i, t.bufferSize)
    {
      FlipBit(s.aliveBits, c, s.bufferSize, i);
    }
  }

  lemma FlipAppenderAt(s: State, c: nat, d: StoredType, m: nat, x: CombinerState)
    requires Sizes(s)
    requires s.tail - s.bufferSize <= c < s.tail
    requires x.Appending? && CombinerStateValid(s, m, x)
    requires c < x.curIdx || x.tail <= c
    ensures CombinerStateValid(Flipped(s, c, d), m, x)
  {
    var t := Flipped(s, c, d);
    forall i: nat | x.curIdx <= i < x.tail
      ensures !EntryIsAlive(t.aliveBits, i, t.bufferSize)
    {
      FlipBit(s.aliveBits, c, s.bufferSize, i);
    }
  }

  /** The appender's range without its first entry. */
  lemma ShrinkValid(s: State, nodeId: nat, x: CombinerState)
    requires Sizes(s)
    requires x.Appending? && x.curIdx < x.tail && CombinerStateValid(s, nodeId, x)
    ensures CombinerStateValid(s, nodeId, CombinerState.Appending(x.curIdx + 1, x.tail))
  {
  }

  /** Shrinking an appender's range keeps it disjoint from the others. */
  lemma ShrinkNoOverlap(s: State, nodeId: nat, x': CombinerState)
    requires RangesNoOverlap(s)
    requires nodeId in s.combinerState && s.combinerState[nodeId].Appending?
    requires x' == CombinerState.Appending(s.combinerState[nodeId].curIdx + 1, s.combinerState[nodeId].tail)
    ensures forall j :: j in s.combinerState && j != nodeId ==>
              PairNoOverlap(x', s.combinerState[j]) && PairNoOverlap(s.combinerState[j], x')
  {
    var x := s.combinerState[nodeId];
    forall j | j in s.combinerState && j != nodeId
      ensures PairNoOverlap(x', s.combinerState[j]) && PairNoOverlap(s.combinerState[j], x')
    {
      assert PairNoOverlap(x, s.combinerState[j]) && PairNoOverlap(s.combinerState[j], x);
    }
  }

  /** Once an appender has shrunk its range, the entry it gave up lies in
      no appender's range. */
  lemma ShrinkUncovers(s: State, nodeId: nat, x': CombinerState)
    requires RangesNoOverlap(s)
    requires nodeId in s.combinerState && s.combinerState[nodeId].Appending?
    requires s.combinerState[nodeId].curIdx < s.combinerState[nodeId].tail
    requires x' == CombinerState.Appending(s.combinerState[nodeId].curIdx + 1, s.combinerState[nodeId].tail)
    ensures NoAppenderCovers(s.(combinerState := s.combinerState[nodeId := x']), s.combinerState[nodeId].curIdx)
  {
    var x := s.combinerState[nodeId];
    forall j | j in s.combinerState && j != nodeId && s.combinerState[j].Appending?
      ensures x.curIdx < s.combinerState[j].curIdx || s.combinerState[j].tail <= x.curIdx
    {
      assert PairNoOverlap(x, s.combinerState[j]);
    }
  }

  /** The appender gives up the first entry of its range. */
  lemma AppendShrunk(s: State, nodeId: nat, x': CombinerState)
    requires Inv(s)
    requires nodeId in s.combinerState && s.combinerState[nodeId].Appending?
    requires s.combinerState[nodeId].curIdx < s.combinerState[nodeId].tail
    requires x' == CombinerState.Appending(s.combinerState[nodeId].curIdx + 1, s.combinerState[nodeId].tail)
    ensures Inv(s.(combinerState := s.combinerState[nodeId := x']))
  {
    var x := s.combinerState[nodeId];
    assert CombinerStateValid(s, nodeId, x);
    ShrinkValid(s, nodeId, x);
    ShrinkNoOverlap(s, nodeId, x');
    CombinerStepKeepsInv(s, nodeId, x');
  }

  /** What an appender's validity says about the next entry of its range. */
  lemma AppendingNext(s: State, nodeId: nat)
    requires Sizes(s) && AllCombinerStateValid(s)
    requires nodeId in s.combinerState && s.combinerState[nodeId].Appending?
    requires s.combinerState[nodeId].curIdx < s.combinerState[nodeId].tail
    ensures s.tail - s.bufferSize <= s.combinerState[nodeId].curIdx < s.tail
    ensures !EntryIsAlive(s.aliveBits, s.combinerState[nodeId].curIdx, s.bufferSize)
  {
    assert CombinerStateValid(s, nodeId, s.combinerState[nodeId]);
  }

  /** Filling the next reserved entry: the entry was not stored before (the
      deposit is possible), and the invariant is kept. */
  lemma AppendFlipBitInductive(s: State, nodeId: nat, deposited: StoredType)
    requires Inv(s)
    requires AppendFlipBitEnabled(s, nodeId, deposited)
    ensures s.combinerState[nodeId].curIdx !in s.contents
    ensures Inv(AppendFlipBit(s, nodeId, deposited))
  {
    var x := s.combinerState[nodeId];
    var c := x.curIdx;
    AppendingNext(s, nodeId);
    var x' := CombinerState.Appending(c + 1, x.tail);
    var w := s.(combinerState := s.combinerState[nodeId := x']);
    AppendShrunk(s, nodeId, x');
    ShrinkUncovers(s, nodeId, x');
    FlipShrunk(s, nodeId, deposited, x', w);
  }

  /** The second half of filling an entry: once the appender's range has
      shrunk, setting the entry's bit and storing the deposit keep the
      invariant. */
  lemma FlipShrunk(s: State, nodeId: nat, deposited: StoredType, x': CombinerState, w: State)
    requires AppendFlipBitEnabled(s, nodeId, deposited)
    requires x' == CombinerState.Appending(s.combinerState[nodeId].curIdx + 1, s.combinerState[nodeId].tail)
    requires w == s.(combinerState := s.combinerState[nodeId := x'])
    requires Inv(w)
    requires s.tail - s.bufferSize <= s.combinerState[nodeId].curIdx < s.tail
    requires !EntryIsAlive(s.aliveBits, s.combinerState[nodeId].curIdx, s.bufferSize)
    requires NoAppenderCovers(w, s.combinerState[nodeId].curIdx)
    ensures s.combinerState[nodeId].curIdx !in s.contents
    ensures Inv(AppendFlipBit(s, nodeId, deposited))
  {
    var c := s.combinerState[nodeId].curIdx;
    assert AppendFlipBit(s, nodeId, deposited) == Flipped(w, c, deposited);
    FlipKeepsInv(w, c, deposited);
  }

  // ---------------------------------------------------------------------------
  // Initialization, the guard property and the whole machine
  // ---------------------------------------------------------------------------

  /** The initial state satisfies the invariant: every entry of the first
      lap is upcoming and not alive, and the initial fill lies below the
      local heads. */
  lemma InitializeInductive(bufferSize: nat, numReplicas: nat,
                            storedInv: (StoredType, int) -> bool,
                            contents: map<int, StoredType>)
    requires InitializeEnabled(bufferSize, numReplicas, storedInv, contents)
    ensures Inv(Initialize(bufferSize, numReplicas, storedInv, contents))
  {
    var s := Initialize(bufferSize, numReplicas, storedInv, contents);
    assert Complete(s);
    MapMinValueIsMin(s.localHeads, numReplicas - 1);
    assert MinLocalHead(s) == 0;
    forall i | 0 <= i < bufferSize
      ensures !EntryIsAlive(s.aliveBits, i, bufferSize)
    {
      assert i / bufferSize == 0;
    }
  }

  /** A reader holding entry `cur` with content `val` may rely on the buffer
      storing exactly `val` at `cur`. */
  lemma GuardGuards(s: State, nodeId: nat)
    requires Inv(s)
    requires nodeId in s.combinerState
    requires s.combinerState[nodeId].Reading? && s.combinerState[nodeId].rs.Guard?
    ensures s.combinerState[nodeId].rs.cur in s.contents
    ensures s.contents[s.combinerState[nodeId].rs.cur] == s.combinerState[nodeId].rs.val
  {
    assert ReaderStateValid(s, nodeId, s.combinerState[nodeId].rs);
  }

  lemma ReaderStepPreservesInv(s: State, step: Step)
    requires Inv(s)
    requires StepEnabled(s, step)
    requires step.ReaderDoStartStep? || step.ReaderDoEnterStep? || step.ReaderDoGuardStep?
             || step.ReaderDoUnguardStep? || step.ReaderDoFinishStep? || step.ReaderDoAbortStep?
    ensures Inv(Next(s, step))
  {
    match step
    case ReaderDoStartStep(n) => ReaderDoStartInductive(s, n);
    case ReaderDoEnterStep(n) => ReaderDoEnterInductive(s, n);
    case ReaderDoGuardStep(n) => ReaderDoGuardInductive(s, n);
    case ReaderDoUnguardStep(n) => ReaderDoUnguardInductive(s, n);
    case ReaderDoFinishStep(n) => ReaderDoFinishInductive(s, n);
    case ReaderDoAbortStep(n) => ReaderDoAbortInductive(s, n);
  }

  lemma HeadStepPreservesInv(s: State, step: Step)
    requires Inv(s)
    requires StepEnabled(s, step)
    requires step.InitAdvanceHeadStep? || step.StepAdvanceHeadStep?
             || step.AbandonAdvanceHeadStep? || step.FinishAdvanceHeadStep?
    ensures Inv(Next(s, step))
  {
    match step
    case InitAdvanceHeadStep(n) => InitAdvanceHeadInductive(s, n);
    case StepAdvanceHeadStep(n) => StepAdvanceHeadInductive(s, n);
    case AbandonAdvanceHeadStep(n) => AbandonAdvanceHeadInductive(s, n);
    case FinishAdvanceHeadStep(n) => FinishAdvanceHeadInductive(s, n);
  }

  lemma TailStepPreservesInv(s: State, step: Step)
    requires Inv(s)
    requires StepEnabled(s, step)
    requires step.InitAdvanceTailStep? || step.AbandonAdvanceTailStep? || step.FinishAdvanceTailStep?
             || step.AppendFlipBitStep? || step.FinishAppendingStep?
    ensures Inv(Next(s, step))
  {
    match step
    case InitAdvanceTailStep(n) => InitAdvanceTailInductive(s, n);
    case AbandonAdvanceTailStep(n) => AbandonAdvanceTailInductive(s, n);
    case FinishAdvanceTailStep(n, newTail) => FinishAdvanceTailInductive(s, n, newTail);
    case AppendFlipBitStep(n, d) => AppendFlipBitInductive(s, n, d);
    case FinishAppendingStep(n) => FinishAppendingInductive(s, n);
  }

  /** Every enabled step keeps the invariant. */
  lemma NextPreservesInv(s: State, step: Step)
    requires Inv(s)
    requires StepEnabled(s, step)
    ensures Inv(Next(s, step))
  {
    if step.ReaderDoStartStep? || step.ReaderDoEnterStep? || step.ReaderDoGuardStep?
       || step.ReaderDoUnguardStep? || step.ReaderDoFinishStep? || step.ReaderDoAbortStep? {
      ReaderStepPreservesInv(s, step);
    } else if step.InitAdvanceHeadStep? || step.StepAdvanceHeadStep?
              || step.AbandonAdvanceHeadStep? || step.FinishAdvanceHeadStep? {
      HeadStepPreservesInv(s, step);
    } else {
      TailStepPreservesInv(s, step);
    }
  }

  /** Every state reached from a state satisfying the invariant satisfies
      it. */
  lemma {:induction false} LeadsPreservesInv(s: State, steps: seq<Step>, t: State)
    requires Inv(s)
    requires Leads(s, steps, t)
    ensures Inv(t)
    decreases |steps|
  {
    if steps != [] {
      NextPreservesInv(s, steps[0]);
      LeadsPreservesInv(Next(s, steps[0]), steps[1..], t);
    }
  }

  /** Every reachable state satisfies the invariant. */
  lemma ReachableInv(bufferSize: nat, numReplicas: nat,
                     storedInv: (StoredType, int) -> bool,
                     contents: map<int, StoredType>, steps: seq<Step>, t: State)
    requires InitializeEnabled(bufferSize, numReplicas, storedInv, contents)
    requires Leads(Initialize(bufferSize, numReplicas, storedInv, contents), steps, t)
    ensures Inv(t)
  {
    InitializeInductive(bufferSize, numReplicas, storedInv, contents);
    LeadsPreservesInv(Initialize(bufferSize, numReplicas, storedInv, contents), steps, t);
  }

  // ---------------------------------------------------------------------------
  // The tail and the local heads only move forward
  // ---------------------------------------------------------------------------

  /** From `s` to `t` neither the tail nor any local head goes back. */
  ghost predicate Advances(s: State, t: State)
  {
    && s.tail <= t.tail
    && forall n :: n in s.localHeads ==> n in t.localHeads && s.localHeads[n] <= t.localHeads[n]
  }

  /** Every enabled step keeps the tail and the local heads where they are
      or moves them forward. */
  lemma NextAdvances(s: State, step: Step)
    requires Inv(s)
    requires StepEnabled(s, step)
    ensures Advances(s, Next(s, step))
  {
    match step
    case ReaderDoFinishStep(nodeId) =>
      assert ReaderStateValid(s, nodeId, s.combinerState[nodeId].rs);
    case _ =>
  }
}
