/** Six places where the source's cyclic-buffer machine, as written, does
    not keep its own invariant, each shown on a state reached from the
    initial fill by enabled steps of the corrected machine.

    The corrections in `CyclicBuffer`: a reader holds an entry only before
    the end of its range and finishes only at that end; the scan over the
    local heads starts with replica 0's; an appender fills an entry only
    while its range is not empty; two appenders' remaining ranges are
    disjoint; and the initial fill meets the stored-entry predicate. */
module CyclicBufferFindings {
  import opened NRTypes
  import opened CyclicBufferTypes
  import opened CyclicBufferIndex
  import opened CyclicBuffer
  import opened CyclicBufferProofs

  // ---------------------------------------------------------------------------
  // The source's definitions, as written
  // ---------------------------------------------------------------------------

  /** The source's guard of `reader_do_guard`: the reader is inside its range
      and its current entry is alive; nothing bounds the entry by the end of
      the range. */
  ghost predicate ReaderDoGuardEnabledAsWritten(s: State, nodeId: nat)
  {
    && s.bufferSize > 0
    && nodeId in s.combinerState
    && s.combinerState[nodeId].Reading?
    && s.combinerState[nodeId].rs.Range?
    && EntryIsAlive(s.aliveBits, s.combinerState[nodeId].rs.cur, s.bufferSize)
    && s.combinerState[nodeId].rs.cur in s.contents
  }

  ghost function ReaderDoGuardAsWritten(s: State, nodeId: nat): (r: State)
    requires ReaderDoGuardEnabledAsWritten(s, nodeId)
  {
    var rs := s.combinerState[nodeId].rs;
    s.(combinerState := s.combinerState[nodeId :=
         CombinerState.Reading(ReaderState.Guard(rs.start, rs.end, rs.cur, s.contents[rs.cur]))])
  }

  /** The source's guard of `reader_do_finish`: any reader inside its range
      may finish, however far it has read. */
  ghost predicate ReaderDoFinishEnabledAsWritten(s: State, nodeId: nat)
  {
    && nodeId in s.combinerState
    && s.combinerState[nodeId].Reading?
    && s.combinerState[nodeId].rs.Range?
    && nodeId in s.localHeads
  }

  ghost function ReaderDoFinishAsWritten(s: State, nodeId: nat): (r: State)
    requires ReaderDoFinishEnabledAsWritten(s, nodeId)
  {
    s.(combinerState := s.combinerState[nodeId := CombinerState.Idle],
       localHeads := s.localHeads[nodeId := s.combinerState[nodeId].rs.end])
  }

  /** The source's `init_advance_head`: the scan starts at replica 1 with the
      caller's own local head as the minimum. */
  ghost predicate InitAdvanceHeadEnabledAsWritten(s: State, nodeId: nat)
  {
    && nodeId in s.localHeads
    && nodeId in s.combinerState && s.combinerState[nodeId].Idle?
  }

  ghost function InitAdvanceHeadAsWritten(s: State, nodeId: nat): (r: State)
    requires InitAdvanceHeadEnabledAsWritten(s, nodeId)
  {
    s.(combinerState := s.combinerState[nodeId :=
         CombinerState.AdvancingHead(1, s.localHeads[nodeId])])
  }

  /** The source's guard of `append_flip_bit`: any appender may fill its
      current entry, also once its range is used up. */
  ghost predicate AppendFlipBitEnabledAsWritten(s: State, nodeId: nat, deposited: StoredType)
  {
    && s.bufferSize > 0
    && nodeId in s.combinerState
    && s.combinerState[nodeId].Appending?
    && s.combinerState[nodeId].curIdx % s.bufferSize in s.aliveBits
    && s.storedInv(deposited, s.combinerState[nodeId].curIdx)
  }

  ghost function AppendFlipBitAsWritten(s: State, nodeId: nat, deposited: StoredType): (r: State)
    requires AppendFlipBitEnabledAsWritten(s, nodeId, deposited)
  {
    var c := s.combinerState[nodeId];
    s.(combinerState := s.combinerState[nodeId := CombinerState.Appending(c.curIdx + 1, c.tail)],
       aliveBits := s.aliveBits[c.curIdx % s.bufferSize := AliveWhen(c.curIdx, s.bufferSize)],
       contents := s.contents[c.curIdx := deposited])
  }

  /** The source's overlap condition between two appenders: the first one's
      current entry is at most the second one's tail, or the first one's
      tail is at most the second one's current entry. */
  ghost predicate PairNoOverlapAsWritten(a: CombinerState, b: CombinerState)
  {
    match a
    case Appending(curIdx, tail) =>
      (match b
       case Reading(Guard(_, _, cur, _)) => curIdx > cur || tail <= cur
       case Appending(curIdx2, tail2) => curIdx <= tail2 || tail <= curIdx2
       case _ => true)
    case _ => true
  }

  ghost predicate RangesNoOverlapAsWritten(s: State)
  {
    forall i, j :: i in s.combinerState && j in s.combinerState && i != j ==>
      PairNoOverlapAsWritten(s.combinerState[i], s.combinerState[j])
  }

  /** The source's invariant: the model's, with the source's overlap
      condition. */
  ghost predicate InvAsWritten(s: State)
  {
    && Sizes(s)
    && Complete(s)
    && PointerOrdering(s)
    && PointerDifferences(s)
    && RangesNoOverlapAsWritten(s)
    && UpcomingBitsAreNotAlive(s)
    && InvBufferContents(s)
    && ContentsMeetInv(s)
    && AllReaderStateValid(s)
    && AllCombinerStateValid(s)
  }

  /** The source's `initialize`: the initial fill covers -bufferSize .. -1,
      and nothing is asked of its contents. */
  ghost predicate InitializeEnabledAsWritten(bufferSize: nat, numReplicas: nat,
                                             storedInv: (StoredType, int) -> bool,
                                             contents: map<int, StoredType>)
  {
    && bufferSize > 0 && numReplicas > 0
    && (forall i :: -(bufferSize as int) <= i < 0 <==> i in contents)
  }

  ghost function InitializeAsWritten(bufferSize: nat, numReplicas: nat,
                                     storedInv: (StoredType, int) -> bool,
                                     contents: map<int, StoredType>): (r: State)
    requires InitializeEnabledAsWritten(bufferSize, numReplicas, storedInv, contents)
  {
    State(
      bufferSize := bufferSize,
      numReplicas := numReplicas,
      storedInv := storedInv,
      head := 0,
      tail := 0,
      localHeads := map i | i in NatsBelow(numReplicas) :: 0,
      contents := contents,
      aliveBits := map i | i in NatsBelow(bufferSize) :: false,
      combinerState := map i | i in NatsBelow(numReplicas) :: CombinerState.Idle)
  }

  // ---------------------------------------------------------------------------
  // Two replicas
  // ---------------------------------------------------------------------------

  /** Every entry is acceptable. */
  ghost const AcceptAll: (StoredType, int) -> bool := (x: StoredType, i: int) => true

  /** Entries -k .. -1 all hold `d`. */
  ghost function InitialFill(k: nat, d: StoredType): (r: map<int, StoredType>)
    ensures forall i :: -(k as int) <= i < 0 <==> i in r
    ensures forall i :: i in r ==> r[i] == d
  {
    if k == 0 then map[] else InitialFill(k - 1, d)[-(k as int) := d]
  }

  /** A state of two replicas. */
  ghost function TwoReplicas(bufferSize: nat, head: nat, tail: nat, localHead0: nat, localHead1: nat,
                             contents: map<int, StoredType>, aliveBits: map<nat, bool>,
                             combiner0: CombinerState, combiner1: CombinerState): (r: State)
  {
    State(bufferSize, 2, AcceptAll, head, tail, map[0 := localHead0, 1 := localHead1],
          contents, aliveBits, map[0 := combiner0, 1 := combiner1])
  }

  /** The initial state of two replicas with the given buffer size. */
  ghost function Start(bufferSize: nat, d: StoredType): (r: State)
    requires bufferSize > 0
  {
    Initialize(bufferSize, 2, AcceptAll, InitialFill(bufferSize, d))
  }

  lemma StartInv(bufferSize: nat, d: StoredType)
    requires bufferSize > 0
    ensures Inv(Start(bufferSize, d))
  {
    InitializeInductive(bufferSize, 2, AcceptAll, InitialFill(bufferSize, d));
  }

  /** A map over the node ids of two replicas, written out. */
  lemma TwoNodeMap<T>(v: T)
    ensures (map i | i in NatsBelow(2) :: v) == map[0 := v, 1 := v]
  {
    assert NatsBelow(2) == {0, 1};
  }

  /** The initial state, written out. */
  lemma StartIs(bufferSize: nat, d: StoredType, aliveBits: map<nat, bool>)
    requires bufferSize > 0
    requires aliveBits == map i | i in NatsBelow(bufferSize) :: false
    ensures Start(bufferSize, d)
            == TwoReplicas(bufferSize, 0, 0, 0, 0, InitialFill(bufferSize, d), aliveBits,
                           CombinerState.Idle, CombinerState.Idle)
  {
    TwoNodeMap(0);
    TwoNodeMap(CombinerState.Idle);
  }

  /** The initial state of one slot and of three slots, written out. */
  lemma StartOneSlot(d: StoredType)
    ensures Start(1, d)
            == TwoReplicas(1, 0, 0, 0, 0, map[-1 := d], map[0 := false], CombinerState.Idle, CombinerState.Idle)
  {
    assert NatsBelow(1) == {0};
    assert InitialFill(1, d) == map[-1 := d];
    StartIs(1, d, map[0 := false]);
  }

  lemma StartThreeSlots(d: StoredType)
    ensures Start(3, d)
            == TwoReplicas(3, 0, 0, 0, 0, map[-3 := d, -2 := d, -1 := d], map[0 := false, 1 := false, 2 := false],
                           CombinerState.Idle, CombinerState.Idle)
  {
    assert NatsBelow(3) == {0, 1, 2};
    assert (map i | i in NatsBelow(3) :: false) == map[0 := false, 1 := false, 2 := false];
    assert InitialFill(3, d) == map[-3 := d, -2 := d, -1 := d];
    StartIs(3, d, map[0 := false, 1 := false, 2 := false]);
  }

  // ---------------------------------------------------------------------------
  // A reader and an appender, one slot
  // ---------------------------------------------------------------------------

  /** Replica 0 has entered a read of the empty range 0 .. 0. */
  ghost function Entered(d: StoredType): (r: State)
  {
    TwoReplicas(1, 0, 0, 0, 0, map[-1 := d], map[0 := false],
                CombinerState.Reading(ReaderState.Range(0, 0, 0)), CombinerState.Idle)
  }

  /** Replica 1 has then reserved entry 0. */
  ghost function Reserved(d: StoredType): (r: State)
  {
    TwoReplicas(1, 0, 1, 0, 0, map[], map[0 := false],
                CombinerState.Reading(ReaderState.Range(0, 0, 0)), CombinerState.Appending(0, 1))
  }

  /** Replica 1 has then filled entry 0 with `d`. */
  ghost function Filled(d: StoredType): (r: State)
  {
    TwoReplicas(1, 0, 1, 0, 0, map[0 := d], map[0 := true],
                CombinerState.Reading(ReaderState.Range(0, 0, 0)), CombinerState.Appending(1, 1))
  }

  lemma EnteredSteps(d: StoredType)
    ensures ReaderDoStartEnabled(Start(1, d), 0)
    ensures ReaderDoEnterEnabled(ReaderDoStart(Start(1, d), 0), 0)
    ensures ReaderDoEnter(ReaderDoStart(Start(1, d), 0), 0) == Entered(d)
  {
    StartOneSlot(d);
    var s1 := TwoReplicas(1, 0, 0, 0, 0, map[-1 := d], map[0 := false],
                          CombinerState.Reading(ReaderState.Starting(0)), CombinerState.Idle);
    assert ReaderDoStart(Start(1, d), 0) == s1;
  }

  lemma EnteredInv(d: StoredType)
    ensures Inv(Entered(d))
  {
    StartInv(1, d);
    EnteredSteps(d);
    ReaderDoStartInductive(Start(1, d), 0);
    ReaderDoEnterInductive(ReaderDoStart(Start(1, d), 0), 0);
  }

  lemma ReservedSteps(d: StoredType)
    ensures InitAdvanceTailEnabled(Entered(d), 1)
    ensures FinishAdvanceTailEnabled(InitAdvanceTail(Entered(d), 1), 1, 1)
    ensures FinishAdvanceTail(InitAdvanceTail(Entered(d), 1), 1, 1) == Reserved(d)
  {
    var s3 := TwoReplicas(1, 0, 0, 0, 0, map[-1 := d], map[0 := false],
                          CombinerState.Reading(ReaderState.Range(0, 0, 0)), CombinerState.AdvancingTail(0));
    assert InitAdvanceTail(Entered(d), 1) == s3;
    assert Remaining(s3.contents, 1, 0, 1) == map[];
  }

  lemma ReservedInv(d: StoredType)
    ensures Inv(Reserved(d))
  {
    EnteredInv(d);
    ReservedSteps(d);
    InitAdvanceTailInductive(Entered(d), 1);
    FinishAdvanceTailInductive(InitAdvanceTail(Entered(d), 1), 1, 1);
  }

  lemma FilledSteps(d: StoredType)
    ensures AppendFlipBitEnabled(Reserved(d), 1, d)
    ensures AppendFlipBit(Reserved(d), 1, d) == Filled(d)
  {
  }

  lemma FilledInv(d: StoredType)
    ensures Inv(Filled(d))
  {
    ReservedInv(d);
    FilledSteps(d);
    AppendFlipBitInductive(Reserved(d), 1, d);
  }

  // ---------------------------------------------------------------------------
  // The discrepancies
  // ---------------------------------------------------------------------------

  /** Replica 0 read the tail before replica 1 filled entry 0, so entry 0 is
      alive but at the end of replica 0's range. The source lets replica 0
      hold it, and the held entry then lies outside the range; the
      corrected guard refuses the step. */
  lemma GuardBeyondEndBreaksInv(d: StoredType)
    ensures Inv(Filled(d))
    ensures ReaderDoGuardEnabledAsWritten(Filled(d), 0)
    ensures !ReaderDoGuardEnabled(Filled(d), 0)
    ensures !AllReaderStateValid(ReaderDoGuardAsWritten(Filled(d), 0))
  {
    FilledInv(d);
    var t := ReaderDoGuardAsWritten(Filled(d), 0);
    assert t.combinerState[0] == CombinerState.Reading(ReaderState.Guard(0, 0, 0, d));
    assert !ReaderStateValid(t, 0, t.combinerState[0].rs);
  }

  /** Replica 1 has used up its range 0 .. 1. The source lets it fill entry
      1 anyway, which stores an entry at the tail; the corrected guard
      refuses the step. */
  lemma FillBeyondRangeBreaksInv(d: StoredType)
    ensures Inv(Filled(d))
    ensures AppendFlipBitEnabledAsWritten(Filled(d), 1, d)
    ensures !AppendFlipBitEnabled(Filled(d), 1, d)
    ensures !Complete(AppendFlipBitAsWritten(Filled(d), 1, d))
  {
    FilledInv(d);
    var t := AppendFlipBitAsWritten(Filled(d), 1, d);
    assert 1 in t.contents;
  }

  /** Replica 0 has left its read and entered a new one after the tail
      moved: its range is 0 .. 1, and entry 0 is still reserved. */
  ghost function Rejoined(d: StoredType): (r: State)
  {
    TwoReplicas(1, 0, 1, 0, 0, map[], map[0 := false],
                CombinerState.Reading(ReaderState.Range(0, 1, 0)), CombinerState.Appending(0, 1))
  }

  lemma RejoinedSteps(d: StoredType)
    ensures ReaderDoAbortEnabled(Reserved(d), 0)
    ensures ReaderDoStartEnabled(ReaderDoAbort(Reserved(d), 0), 0)
    ensures ReaderDoEnterEnabled(ReaderDoStart(ReaderDoAbort(Reserved(d), 0), 0), 0)
    ensures ReaderDoEnter(ReaderDoStart(ReaderDoAbort(Reserved(d), 0), 0), 0) == Rejoined(d)
  {
    var a := TwoReplicas(1, 0, 1, 0, 0, map[], map[0 := false],
                         CombinerState.Idle, CombinerState.Appending(0, 1));
    var b := TwoReplicas(1, 0, 1, 0, 0, map[], map[0 := false],
                         CombinerState.Reading(ReaderState.Starting(0)), CombinerState.Appending(0, 1));
    assert ReaderDoAbort(Reserved(d), 0) == a;
    assert ReaderDoStart(a, 0) == b;
  }

  lemma RejoinedInv(d: StoredType)
    ensures Inv(Rejoined(d))
  {
    ReservedInv(d);
    RejoinedSteps(d);
    var s := Reserved(d);
    ReaderDoAbortInductive(s, 0);
    ReaderDoStartInductive(ReaderDoAbort(s, 0), 0);
    ReaderDoEnterInductive(ReaderDoStart(ReaderDoAbort(s, 0), 0), 0);
  }

  /** The source lets replica 0 finish a read it has not done: its local
      head passes entry 0, which is reserved and not stored, so the minimum
      local head is above an entry the buffer does not hold. The corrected
      guard refuses the step. */
  lemma FinishBeforeEndBreaksInv(d: StoredType)
    ensures Inv(Rejoined(d))
    ensures ReaderDoFinishEnabledAsWritten(Rejoined(d), 0)
    ensures !ReaderDoFinishEnabled(Rejoined(d), 0)
    ensures Sizes(ReaderDoFinishAsWritten(Rejoined(d), 0))
    ensures Complete(ReaderDoFinishAsWritten(Rejoined(d), 0))
    ensures !InvBufferContents(ReaderDoFinishAsWritten(Rejoined(d), 0))
  {
    RejoinedInv(d);
    FinishBeforeEndState(d);
  }

  lemma FinishBeforeEndState(d: StoredType)
    ensures ReaderDoFinishEnabledAsWritten(Rejoined(d), 0)
    ensures !ReaderDoFinishEnabled(Rejoined(d), 0)
    ensures Sizes(ReaderDoFinishAsWritten(Rejoined(d), 0))
    ensures Complete(ReaderDoFinishAsWritten(Rejoined(d), 0))
    ensures !InvBufferContents(ReaderDoFinishAsWritten(Rejoined(d), 0))
  {
    var t := ReaderDoFinishAsWritten(Rejoined(d), 0);
    assert t == TwoReplicas(1, 0, 1, 1, 0, map[], map[0 := false],
                            CombinerState.Idle, CombinerState.Appending(0, 1));
    assert MinLocalHead(t) == 1;
    assert !EntryIsAlive(t.aliveBits, 0, t.bufferSize) && 0 !in t.contents;
  }


  /** Replica 1 has finished appending and holds entry 0 in a read. */
  ghost function Guarded(d: StoredType): (r: State)
  {
    TwoReplicas(1, 0, 1, 0, 0, map[0 := d], map[0 := true],
                CombinerState.Reading(ReaderState.Range(0, 0, 0)),
                CombinerState.Reading(ReaderState.Guard(0, 1, 0, d)))
  }

  /** Replica 1 has then finished its read: its local head is 1 while
      replica 0's is still 0. */
  ghost function Consumed(d: StoredType): (r: State)
  {
    TwoReplicas(1, 0, 1, 0, 1, map[0 := d], map[0 := true],
                CombinerState.Reading(ReaderState.Range(0, 0, 0)), CombinerState.Idle)
  }

  lemma GuardedSteps(d: StoredType)
    ensures FinishAppendingEnabled(Filled(d), 1)
    ensures ReaderDoStartEnabled(FinishAppending(Filled(d), 1), 1)
    ensures ReaderDoEnterEnabled(ReaderDoStart(FinishAppending(Filled(d), 1), 1), 1)
    ensures ReaderDoGuardEnabled(ReaderDoEnter(ReaderDoStart(FinishAppending(Filled(d), 1), 1), 1), 1)
    ensures ReaderDoGuard(ReaderDoEnter(ReaderDoStart(FinishAppending(Filled(d), 1), 1), 1), 1) == Guarded(d)
  {
    var r0 := CombinerState.Reading(ReaderState.Range(0, 0, 0));
    var a := TwoReplicas(1, 0, 1, 0, 0, map[0 := d], map[0 := true], r0, CombinerState.Idle);
    var b := TwoReplicas(1, 0, 1, 0, 0, map[0 := d], map[0 := true], r0,
                         CombinerState.Reading(ReaderState.Starting(0)));
    var c := TwoReplicas(1, 0, 1, 0, 0, map[0 := d], map[0 := true], r0,
                         CombinerState.Reading(ReaderState.Range(0, 1, 0)));
    assert FinishAppending(Filled(d), 1) == a;
    assert ReaderDoStart(a, 1) == b;
    assert ReaderDoEnter(b, 1) == c;
  }

  lemma GuardedInv(d: StoredType)
    ensures Inv(Guarded(d))
  {
    FilledInv(d);
    GuardedSteps(d);
    var s := Filled(d);
    FinishAppendingInductive(s, 1);
    ReaderDoStartInductive(FinishAppending(s, 1), 1);
    ReaderDoEnterInductive(ReaderDoStart(FinishAppending(s, 1), 1), 1);
    ReaderDoGuardInductive(ReaderDoEnter(ReaderDoStart(FinishAppending(s, 1), 1), 1), 1);
  }

  lemma ConsumedSteps(d: StoredType)
    ensures ReaderDoUnguardEnabled(Guarded(d), 1)
    ensures ReaderDoFinishEnabled(ReaderDoUnguard(Guarded(d), 1), 1)
    ensures ReaderDoFinish(ReaderDoUnguard(Guarded(d), 1), 1) == Consumed(d)
  {
    var a := TwoReplicas(1, 0, 1, 0, 0, map[0 := d], map[0 := true],
                         CombinerState.Reading(ReaderState.Range(0, 0, 0)),
                         CombinerState.Reading(ReaderState.Range(0, 1, 1)));
    assert ReaderDoUnguard(Guarded(d), 1) == a;
  }

  lemma ConsumedInv(d: StoredType)
    ensures Inv(Consumed(d))
  {
    GuardedInv(d);
    ConsumedSteps(d);
    ReaderDoUnguardInductive(Guarded(d), 1);
    ReaderDoFinishInductive(ReaderDoUnguard(Guarded(d), 1), 1);
  }

  /** The source's scan over the local heads starts from replica 1's local
      head 1 and never looks at replica 0's, which is 0: the scan state is
      invalid at once, and finishing the scan sets the head above replica
      0's local head. The corrected scan starts from replica 0's. */
  lemma ScanFromOwnHeadBreaksInv(d: StoredType)
    ensures Inv(Consumed(d))
    ensures InitAdvanceHeadEnabledAsWritten(Consumed(d), 1)
    ensures !AllCombinerStateValid(InitAdvanceHeadAsWritten(Consumed(d), 1))
    ensures StepAdvanceHeadEnabled(InitAdvanceHeadAsWritten(Consumed(d), 1), 1)
    ensures FinishAdvanceHeadEnabled(StepAdvanceHead(InitAdvanceHeadAsWritten(Consumed(d), 1), 1), 1)
    ensures !PointerOrdering(FinishAdvanceHead(StepAdvanceHead(InitAdvanceHeadAsWritten(Consumed(d), 1), 1), 1))
  {
    ConsumedInv(d);
    var s := Consumed(d);
    var t1 := InitAdvanceHeadAsWritten(s, 1);
    assert t1.combinerState[1] == CombinerState.AdvancingHead(1, 1);
    assert !CombinerStateValid(t1, 1, t1.combinerState[1]);
    var t2 := StepAdvanceHead(t1, 1);
    assert t2.combinerState[1] == CombinerState.AdvancingHead(2, 1);
    var t3 := FinishAdvanceHead(t2, 1);
    assert t3.head == 1 && t3.localHeads[0] == 0;
  }

  // ---------------------------------------------------------------------------
  // Two appenders, three slots
  // ---------------------------------------------------------------------------

  /** Replica 1 has reserved entry 0, then replica 0 entries 1 and 2. */
  ghost function TwoReserved(d: StoredType): (r: State)
  {
    TwoReplicas(3, 0, 3, 0, 0, map[], map[0 := false, 1 := false, 2 := false],
                CombinerState.Appending(1, 3), CombinerState.Appending(0, 1))
  }

  /** Replica 1 has reserved entry 0. */
  ghost function OneReserved(d: StoredType): (r: State)
  {
    TwoReplicas(3, 0, 1, 0, 0, map[-2 := d, -1 := d], map[0 := false, 1 := false, 2 := false],
                CombinerState.Idle, CombinerState.Appending(0, 1))
  }

  lemma OneReservedSteps(d: StoredType)
    ensures InitAdvanceTailEnabled(Start(3, d), 1)
    ensures FinishAdvanceTailEnabled(InitAdvanceTail(Start(3, d), 1), 1, 1)
    ensures FinishAdvanceTail(InitAdvanceTail(Start(3, d), 1), 1, 1) == OneReserved(d)
  {
    StartThreeSlots(d);
    var fill := map[-3 := d, -2 := d, -1 := d];
    var a := TwoReplicas(3, 0, 0, 0, 0, fill, map[0 := false, 1 := false, 2 := false],
                         CombinerState.Idle, CombinerState.AdvancingTail(0));
    assert InitAdvanceTail(Start(3, d), 1) == a;
    assert Remaining(fill, 3, 0, 1) == map[-2 := d, -1 := d];
  }

  lemma TwoReservedSteps(d: StoredType)
    ensures InitAdvanceTailEnabled(OneReserved(d), 0)
    ensures FinishAdvanceTailEnabled(InitAdvanceTail(OneReserved(d), 0), 0, 3)
    ensures FinishAdvanceTail(InitAdvanceTail(OneReserved(d), 0), 0, 3) == TwoReserved(d)
  {
    var c := TwoReplicas(3, 0, 1, 0, 0, map[-2 := d, -1 := d], map[0 := false, 1 := false, 2 := false],
                         CombinerState.AdvancingTail(0), CombinerState.Appending(0, 1));
    assert InitAdvanceTail(OneReserved(d), 0) == c;
    assert Remaining(map[-2 := d, -1 := d], 3, 1, 3) == map[];
  }

  lemma TwoReservedInv(d: StoredType)
    ensures Inv(TwoReserved(d))
  {
    StartInv(3, d);
    OneReservedSteps(d);
    InitAdvanceTailInductive(Start(3, d), 1);
    FinishAdvanceTailInductive(InitAdvanceTail(Start(3, d), 1), 1, 1);
    TwoReservedSteps(d);
    InitAdvanceTailInductive(OneReserved(d), 0);
    FinishAdvanceTailInductive(InitAdvanceTail(OneReserved(d), 0), 0, 3);
  }

  /** The source's overlap condition is not kept by filling an entry: once
      replica 0, whose range 1 .. 3 follows replica 1's range 0 .. 1, fills
      entry 1, replica 0's current entry is past replica 1's tail and its
      tail is past replica 1's current entry. The corrected invariant, that
      the ranges are disjoint, is kept by the same step. */
  lemma FillBreaksOverlapAsWritten(d: StoredType)
    ensures InvAsWritten(TwoReserved(d))
    ensures AppendFlipBitEnabled(TwoReserved(d), 0, d)
    ensures !RangesNoOverlapAsWritten(AppendFlipBit(TwoReserved(d), 0, d))
    ensures Inv(AppendFlipBit(TwoReserved(d), 0, d))
  {
    TwoReservedInv(d);
    FillOverlapState(d);
    AppendFlipBitInductive(TwoReserved(d), 0, d);
  }

  lemma FillOverlapState(d: StoredType)
    ensures RangesNoOverlapAsWritten(TwoReserved(d))
    ensures AppendFlipBitEnabled(TwoReserved(d), 0, d)
    ensures !RangesNoOverlapAsWritten(AppendFlipBit(TwoReserved(d), 0, d))
  {
    var t := AppendFlipBit(TwoReserved(d), 0, d);
    assert t.combinerState[0] == CombinerState.Appending(2, 3);
    assert !PairNoOverlapAsWritten(t.combinerState[0], t.combinerState[1]);
  }


  // ---------------------------------------------------------------------------
  // The initial fill
  // ---------------------------------------------------------------------------

  /** The source starts from any initial fill, also one whose entries do
      not meet the stored-entry predicate; the invariant then fails in the
      initial state. The corrected initialization asks for the predicate. */
  lemma InitialFillBreaksInv(d: StoredType)
    ensures InitializeEnabledAsWritten(1, 1, (x: StoredType, i: int) => false, InitialFill(1, d))
    ensures !InitializeEnabled(1, 1, (x: StoredType, i: int) => false, InitialFill(1, d))
    ensures !ContentsMeetInv(InitializeAsWritten(1, 1, (x: StoredType, i: int) => false, InitialFill(1, d)))
  {
    assert -1 in InitialFill(1, d);
  }
}
