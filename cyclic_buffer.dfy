/** The cyclic buffer as a state machine: the bounded ring that physically
    stores the log.

    Entries have logical indices; the initial fill occupies -bufferSize ..
    -1. A replica has consumed the entries below its local head. The tail is
    where new entries go; an entry is re-filled only between the tail and
    the minimum local head plus the buffer size (the reclamation barrier),
    and a reader takes hold of an entry only while its alive bit says so.

    Each transition is a guard (`XxxEnabled`) and a step function; taking a
    state's entry out and putting it back is a map update. The invariant
    `Inv` is the source's, with the overlap of two appenders stated as the
    two ranges being disjoint. Where the source's guards let a step break
    the invariant, the guard here carries the missing condition; the source's
    versions are in `CyclicBufferFindings`. */
module CyclicBuffer {
  import opened NRTypes
  import opened CyclicBufferTypes
  import opened CyclicBufferIndex

  datatype State = State(
    /** the number of slots; constant */
    bufferSize: nat,
    /** the number of replicas; constant */
    numReplicas: nat,
    /** what an entry stored at a logical index must satisfy; constant */
    storedInv: (StoredType, int) -> bool,
    /** below every local head; not necessarily monotone */
    head: nat,
    /** where the next entry is appended */
    tail: nat,
    localHeads: map<nat, nat>,
    /** the stored entries, by logical index */
    contents: map<int, StoredType>,
    /** one bit per slot; its meaning flips on every lap */
    aliveBits: map<nat, bool>,
    combinerState: map<nat, CombinerState>)

  // ---------------------------------------------------------------------------
  // Invariant
  // ---------------------------------------------------------------------------

  /** The constants the arithmetic needs: at least one slot and one replica. */
  ghost predicate Sizes(s: State)
  {
    s.bufferSize > 0 && s.numReplicas > 0
  }

  /** Every replica and every slot has its entry, and stored entries lie
      between the initial fill and the tail. */
  ghost predicate Complete(s: State)
  {
    && (forall i: nat :: i < s.numReplicas <==> i in s.localHeads)
    && (forall i: nat :: i < s.bufferSize <==> i in s.aliveBits)
    && (forall i: nat :: i < s.numReplicas <==> i in s.combinerState)
    && (forall i :: i in s.contents ==> -(s.bufferSize as int) <= i < s.tail)
  }

  ghost predicate PointerOrdering(s: State)
  {
    && s.head <= s.tail
    && (forall i :: i in s.localHeads ==> s.head <= s.localHeads[i] <= s.tail)
    && (forall i :: i in s.localHeads ==> s.tail - s.bufferSize <= s.localHeads[i])
  }

  ghost predicate PointerDifferences(s: State)
  {
    forall i :: i in s.localHeads ==>
      s.localHeads[i] <= s.tail <= s.localHeads[i] + s.bufferSize
  }

  /** An appender's remaining range holds no entry a reader holds, and two
      appenders' remaining ranges are disjoint. */
  ghost predicate PairNoOverlap(a: CombinerState, b: CombinerState)
  {
    match a
    case Appending(curIdx, tail) =>
      (match b
       case Reading(Guard(_, _, cur, _)) => curIdx > cur || tail <= cur
       case Appending(curIdx2, tail2) => tail <= curIdx2 || tail2 <= curIdx
       case _ => true)
    case _ => true
  }

  ghost predicate RangesNoOverlap(s: State)
  {
    forall i, j :: i in s.combinerState && j in s.combinerState && i != j ==>
      PairNoOverlap(s.combinerState[i], s.combinerState[j])
  }

  /** The minimum local head as the source computes it: over the replicas
      0 .. numReplicas - 2. */
  ghost function MinLocalHead(s: State): (r: nat)
    requires Sizes(s)
    requires forall i: nat :: i < s.numReplicas ==> i in s.localHeads
  {
    MapMinValue(s.localHeads, s.numReplicas - 1)
  }

  /** The entries that may be appended next are not alive. */
  ghost predicate UpcomingBitsAreNotAlive(s: State)
    requires Sizes(s) && Complete(s)
  {
    var minLocalHead := MinLocalHead(s);
    forall i :: s.tail <= i < minLocalHead + s.bufferSize ==>
      !EntryIsAlive(s.aliveBits, i, s.bufferSize)
  }

  /** Within the last lap before the tail an entry is stored exactly when it
      is alive or below the minimum local head; nothing is stored at or
      beyond the tail. */
  ghost predicate InvBufferContents(s: State)
    requires Sizes(s) && Complete(s)
  {
    var minLocalHead := MinLocalHead(s);
    && (forall i :: s.tail - s.bufferSize <= i < s.tail ==>
          ((EntryIsAlive(s.aliveBits, i, s.bufferSize) || i < minLocalHead)
           <==> i in s.contents))
    && (forall i :: s.tail <= i ==> i !in s.contents)
  }

  ghost predicate ContentsMeetInv(s: State)
  {
    forall i :: i in s.contents ==> s.storedInv(s.contents[i], i)
  }

  ghost predicate ReaderStateValid(s: State, nodeId: nat, rs: ReaderState)
    requires Sizes(s)
  {
    match rs
    case Starting(start) =>
      nodeId in s.localHeads && start == s.localHeads[nodeId]
    case Range(start, end, cur) =>
      && nodeId in s.localHeads && s.localHeads[nodeId] == start
      && start <= end
      && s.tail - s.bufferSize <= end <= s.tail
      && start <= cur <= end
      && (forall i :: start <= i < cur ==> EntryIsAlive(s.aliveBits, i, s.bufferSize))
      && (forall i :: start <= i < cur ==> i in s.contents)
    case Guard(start, end, cur, val) =>
      && nodeId in s.localHeads && s.localHeads[nodeId] == start
      && start <= end
      && s.tail - s.bufferSize <= end <= s.tail
      && start <= cur < end
      && (forall i :: start <= i <= cur ==> EntryIsAlive(s.aliveBits, i, s.bufferSize))
      && (forall i :: start <= i <= cur ==> i in s.contents)
      && cur in s.contents
      && s.contents[cur] == val
  }

  ghost predicate AllReaderStateValid(s: State)
    requires Sizes(s)
  {
    forall n :: n in s.combinerState && s.combinerState[n].Reading? ==>
      ReaderStateValid(s, n, s.combinerState[n].rs)
  }

  ghost predicate CombinerStateValid(s: State, nodeId: nat, cs: CombinerState)
    requires Sizes(s)
  {
    match cs
    case Idle => true
    case Reading(_) => true
    case AdvancingHead(idx, minHead) =>
      && idx <= s.numReplicas
      && (forall n: nat :: n < idx ==> n in s.localHeads && minHead <= s.localHeads[n])
    case AdvancingTail(observedHead) =>
      forall n: nat :: n < s.numReplicas ==> n in s.localHeads && observedHead <= s.localHeads[n]
    case Appending(curIdx, tail) =>
      && nodeId in s.localHeads && s.localHeads[nodeId] <= curIdx <= tail
      && tail <= s.tail
      && s.tail - s.bufferSize <= curIdx <= s.tail
      && (forall i: nat :: curIdx <= i < tail ==> !EntryIsAlive(s.aliveBits, i, s.bufferSize))
  }

  ghost predicate AllCombinerStateValid(s: State)
    requires Sizes(s)
  {
    forall n :: n in s.combinerState ==> CombinerStateValid(s, n, s.combinerState[n])
  }

  ghost predicate Inv(s: State)
  {
    && Sizes(s)
    && Complete(s)
    && PointerOrdering(s)
    && PointerDifferences(s)
    && RangesNoOverlap(s)
    && UpcomingBitsAreNotAlive(s)
    && InvBufferContents(s)
    && ContentsMeetInv(s)
    && AllReaderStateValid(s)
    && AllCombinerStateValid(s)
  }

  // ---------------------------------------------------------------------------
  // Initialization
  // ---------------------------------------------------------------------------

  /** The caller supplies the initial fill: exactly the entries
      -bufferSize .. -1, each meeting the stored-entry predicate. */
  ghost predicate InitializeEnabled(bufferSize: nat, numReplicas: nat,
                                    storedInv: (StoredType, int) -> bool,
                                    contents: map<int, StoredType>)
  {
    && bufferSize > 0 && numReplicas > 0
    && (forall i :: -(bufferSize as int) <= i < 0 <==> i in contents)
    && (forall i :: i in contents ==> storedInv(contents[i], i))
  }

  ghost function Initialize(bufferSize: nat, numReplicas: nat,
                            storedInv: (StoredType, int) -> bool,
                            contents: map<int, StoredType>): (r: State)
    requires InitializeEnabled(bufferSize, numReplicas, storedInv, contents)
  {
    State(
      bufferSize := bufferSize,
      numReplicas := numReplicas,
      storedInv := storedInv,
      head := 0,
      tail := 0,
      localHeads := map i | i in NatsBelow(numReplicas) :: 0,
      contents := contents,
      aliveBits := map i | i in NatsBelow(bufferSize) :: false,
      combinerState := map i | i in NatsBelow(numReplicas) :: CombinerState.Idle)
  }

  // ---------------------------------------------------------------------------
  // Readers
  // ---------------------------------------------------------------------------

  ghost predicate ReaderDoStartEnabled(s: State, nodeId: nat)
  {
    && nodeId in s.localHeads
    && nodeId in s.combinerState && s.combinerState[nodeId].Idle?
  }

  ghost function ReaderDoStart(s: State, nodeId: nat): (r: State)
    requires ReaderDoStartEnabled(s, nodeId)
  {
    s.(combinerState := s.combinerState[nodeId :=
         CombinerState.Reading(ReaderState.Starting(s.localHeads[nodeId]))])
  }

  ghost predicate ReaderDoEnterEnabled(s: State, nodeId: nat)
  {
    && nodeId in s.combinerState
    && s.combinerState[nodeId].Reading?
    && s.combinerState[nodeId].rs.Starting?
  }

  /** The reader takes a snapshot of the tail as the end of its range. */
  ghost function ReaderDoEnter(s: State, nodeId: nat): (r: State)
    requires ReaderDoEnterEnabled(s, nodeId)
  {
    var start := s.combinerState[nodeId].rs.start;
    s.(combinerState := s.combinerState[nodeId :=
         CombinerState.Reading(ReaderState.Range(start, s.tail, start))])
  }

  /** The reader may hold entry `cur` when it lies before the end of its
      range and is alive. The entry is present under `Inv`
      (`CyclicBufferProofs.ReaderDoGuardContentsPresent`); the guard names
      it so that the step can read it. */
  ghost predicate ReaderDoGuardEnabled(s: State, nodeId: nat)
  {
    && s.bufferSize > 0
    && nodeId in s.combinerState
    && s.combinerState[nodeId].Reading?
    && s.combinerState[nodeId].rs.Range?
    && s.combinerState[nodeId].rs.cur < s.combinerState[nodeId].rs.end
    && EntryIsAlive(s.aliveBits, s.combinerState[nodeId].rs.cur, s.bufferSize)
    && s.combinerState[nodeId].rs.cur in s.contents
  }

  ghost function ReaderDoGuard(s: State, nodeId: nat): (r: State)
    requires ReaderDoGuardEnabled(s, nodeId)
  {
    var rs := s.combinerState[nodeId].rs;
    s.(combinerState := s.combinerState[nodeId :=
         CombinerState.Reading(ReaderState.Guard(rs.start, rs.end, rs.cur, s.contents[rs.cur]))])
  }

  ghost predicate ReaderDoUnguardEnabled(s: State, nodeId: nat)
  {
    && nodeId in s.combinerState
    && s.combinerState[nodeId].Reading?
    && s.combinerState[nodeId].rs.Guard?
  }

  ghost function ReaderDoUnguard(s: State, nodeId: nat): (r: State)
    requires ReaderDoUnguardEnabled(s, nodeId)
  {
    var rs := s.combinerState[nodeId].rs;
    s.(combinerState := s.combinerState[nodeId :=
         CombinerState.Reading(ReaderState.Range(rs.start, rs.end, rs.cur + 1))])
  }

  /** The reader has read its whole range and moves its local head to the
      range's end. */
  ghost predicate ReaderDoFinishEnabled(s: State, nodeId: nat)
  {
    && nodeId in s.combinerState
    && s.combinerState[nodeId].Reading?
    && s.combinerState[nodeId].rs.Range?
    && s.combinerState[nodeId].rs.cur == s.combinerState[nodeId].rs.end
    && nodeId in s.localHeads
  }

  ghost function ReaderDoFinish(s: State, nodeId: nat): (r: State)
    requires ReaderDoFinishEnabled(s, nodeId)
  {
    s.(combinerState := s.combinerState[nodeId := CombinerState.Idle],
       localHeads := s.localHeads[nodeId := s.combinerState[nodeId].rs.end])
  }

  ghost predicate ReaderDoAbortEnabled(s: State, nodeId: nat)
  {
    && nodeId in s.combinerState
    && s.combinerState[nodeId].Reading?
    && (s.combinerState[nodeId].rs.Starting? || s.combinerState[nodeId].rs.Range?)
  }

  ghost function ReaderDoAbort(s: State, nodeId: nat): (r: State)
    requires ReaderDoAbortEnabled(s, nodeId)
  {
    s.(combinerState := s.combinerState[nodeId := CombinerState.Idle])
  }

  // ---------------------------------------------------------------------------
  // Advancing the head
  // ---------------------------------------------------------------------------

  /** The scan over the local heads starts with replica 0's. */
  ghost predicate InitAdvanceHeadEnabled(s: State, nodeId: nat)
  {
    && 0 in s.localHeads
    && nodeId in s.combinerState && s.combinerState[nodeId].Idle?
  }

  ghost function InitAdvanceHead(s: State, nodeId: nat): (r: State)
    requires InitAdvanceHeadEnabled(s, nodeId)
  {
    s.(combinerState := s.combinerState[nodeId :=
         CombinerState.AdvancingHead(1, s.localHeads[0])])
  }

  ghost predicate StepAdvanceHeadEnabled(s: State, nodeId: nat)
  {
    && nodeId in s.combinerState
    && s.combinerState[nodeId].AdvancingHead?
    && s.combinerState[nodeId].idx < s.numReplicas
    && s.combinerState[nodeId].idx in s.localHeads
  }

  ghost function StepAdvanceHead(s: State, nodeId: nat): (r: State)
    requires StepAdvanceHeadEnabled(s, nodeId)
  {
    var c := s.combinerState[nodeId];
    s.(combinerState := s.combinerState[nodeId :=
         CombinerState.AdvancingHead(c.idx + 1, Min(c.minHead, s.localHeads[c.idx]))])
  }

  ghost predicate AbandonAdvanceHeadEnabled(s: State, nodeId: nat)
  {
    nodeId in s.combinerState && s.combinerState[nodeId].AdvancingHead?
  }

  ghost function AbandonAdvanceHead(s: State, nodeId: nat): (r: State)
    requires AbandonAdvanceHeadEnabled(s, nodeId)
  {
    s.(combinerState := s.combinerState[nodeId := CombinerState.Idle])
  }

  ghost predicate FinishAdvanceHeadEnabled(s: State, nodeId: nat)
  {
    && nodeId in s.combinerState
    && s.combinerState[nodeId].AdvancingHead?
    && s.combinerState[nodeId].idx == s.numReplicas
  }

  ghost function FinishAdvanceHead(s: State, nodeId: nat): (r: State)
    requires FinishAdvanceHeadEnabled(s, nodeId)
  {
    s.(combinerState := s.combinerState[nodeId := CombinerState.Idle],
       head := s.combinerState[nodeId].minHead)
  }

  // ---------------------------------------------------------------------------
  // Advancing the tail and appending
  // ---------------------------------------------------------------------------

  ghost predicate InitAdvanceTailEnabled(s: State, nodeId: nat)
  {
    && 0 in s.localHeads
    && nodeId in s.combinerState && s.combinerState[nodeId].Idle?
  }

  ghost function InitAdvanceTail(s: State, nodeId: nat): (r: State)
    requires InitAdvanceTailEnabled(s, nodeId)
  {
    s.(combinerState := s.combinerState[nodeId := CombinerState.AdvancingTail(s.head)])
  }

  ghost predicate AbandonAdvanceTailEnabled(s: State, nodeId: nat)
  {
    nodeId in s.combinerState && s.combinerState[nodeId].AdvancingTail?
  }

  ghost function AbandonAdvanceTail(s: State, nodeId: nat): (r: State)
    requires AbandonAdvanceTailEnabled(s, nodeId)
  {
    s.(combinerState := s.combinerState[nodeId := CombinerState.Idle])
  }

  /** The tail may move at most one lap beyond the observed head. */
  ghost predicate FinishAdvanceTailEnabled(s: State, nodeId: nat, newTail: nat)
  {
    && nodeId in s.combinerState
    && s.combinerState[nodeId].AdvancingTail?
    && s.tail <= newTail <= s.combinerState[nodeId].observedHead + s.bufferSize
  }

  /** The entries one lap behind the reserved range, which leave the buffer
      when the tail moves to `newTail`. */
  ghost predicate Withdrawn(bufferSize: nat, tail: nat, newTail: nat, i: int)
  {
    tail - bufferSize <= i < newTail - bufferSize
  }

  /** The stored entries without those withdrawn. */
  ghost function Remaining(contents: map<int, StoredType>, bufferSize: nat, tail: nat, newTail: nat)
    : (r: map<int, StoredType>)
  {
    map i | i in contents && !Withdrawn(bufferSize, tail, newTail, i) :: contents[i]
  }

  /** The tail moves to `newTail`, the entries one lap behind the reserved
      range leave the buffer, and the combiner appends from the old tail. */
  ghost function FinishAdvanceTail(s: State, nodeId: nat, newTail: nat): (r: State)
    requires FinishAdvanceTailEnabled(s, nodeId, newTail)
  {
    s.(combinerState := s.combinerState[nodeId := CombinerState.Appending(s.tail, newTail)],
       tail := newTail,
       contents := Remaining(s.contents, s.bufferSize, s.tail, newTail))
  }

  /** The combiner fills the next reserved entry with `deposited`, which must
      meet the stored-entry predicate, and sets the entry's alive bit. */
  ghost predicate AppendFlipBitEnabled(s: State, nodeId: nat, deposited: StoredType)
  {
    && s.bufferSize > 0
    && nodeId in s.combinerState
    && s.combinerState[nodeId].Appending?
    && s.combinerState[nodeId].curIdx < s.combinerState[nodeId].tail
    && s.combinerState[nodeId].curIdx % s.bufferSize in s.aliveBits
    && s.storedInv(deposited, s.combinerState[nodeId].curIdx)
  }

  ghost function AppendFlipBit(s: State, nodeId: nat, deposited: StoredType): (r: State)
    requires AppendFlipBitEnabled(s, nodeId, deposited)
  {
    var c := s.combinerState[nodeId];
    s.(combinerState := s.combinerState[nodeId := CombinerState.Appending(c.curIdx + 1, c.tail)],
       aliveBits := s.aliveBits[c.curIdx % s.bufferSize := AliveWhen(c.curIdx, s.bufferSize)],
       contents := s.contents[c.curIdx := deposited])
  }

  ghost predicate FinishAppendingEnabled(s: State, nodeId: nat)
  {
    && nodeId in s.combinerState
    && s.combinerState[nodeId].Appending?
    && s.combinerState[nodeId].curIdx == s.combinerState[nodeId].tail
  }

  ghost function FinishAppending(s: State, nodeId: nat): (r: State)
    requires FinishAppendingEnabled(s, nodeId)
  {
    s.(combinerState := s.combinerState[nodeId := CombinerState.Idle])
  }

  // ---------------------------------------------------------------------------
  // The machine
  // ---------------------------------------------------------------------------

  datatype Step =
      ReaderDoStartStep(nodeId: nat)
    | ReaderDoEnterStep(nodeId: nat)
    | ReaderDoGuardStep(nodeId: nat)
    | ReaderDoUnguardStep(nodeId: nat)
    | ReaderDoFinishStep(nodeId: nat)
    | ReaderDoAbortStep(nodeId: nat)
    | InitAdvanceHeadStep(nodeId: nat)
    | StepAdvanceHeadStep(nodeId: nat)
    | AbandonAdvanceHeadStep(nodeId: nat)
    | FinishAdvanceHeadStep(nodeId: nat)
    | InitAdvanceTailStep(nodeId: nat)
    | AbandonAdvanceTailStep(nodeId: nat)
    | FinishAdvanceTailStep(nodeId: nat, newTail: nat)
    | AppendFlipBitStep(nodeId: nat, deposited: StoredType)
    | FinishAppendingStep(nodeId: nat)

  ghost predicate StepEnabled(s: State, step: Step)
  {
    match step
    case ReaderDoStartStep(n) => ReaderDoStartEnabled(s, n)
    case ReaderDoEnterStep(n) => ReaderDoEnterEnabled(s, n)
    case ReaderDoGuardStep(n) => ReaderDoGuardEnabled(s, n)
    case ReaderDoUnguardStep(n) => ReaderDoUnguardEnabled(s, n)
    case ReaderDoFinishStep(n) => ReaderDoFinishEnabled(s, n)
    case ReaderDoAbortStep(n) => ReaderDoAbortEnabled(s, n)
    case InitAdvanceHeadStep(n) => InitAdvanceHeadEnabled(s, n)
    case StepAdvanceHeadStep(n) => StepAdvanceHeadEnabled(s, n)
    case AbandonAdvanceHeadStep(n) => AbandonAdvanceHeadEnabled(s, n)
    case FinishAdvanceHeadStep(n) => FinishAdvanceHeadEnabled(s, n)
    case InitAdvanceTailStep(n) => InitAdvanceTailEnabled(s, n)
    case AbandonAdvanceTailStep(n) => AbandonAdvanceTailEnabled(s, n)
    case FinishAdvanceTailStep(n, newTail) => FinishAdvanceTailEnabled(s, n, newTail)
    case AppendFlipBitStep(n, d) => AppendFlipBitEnabled(s, n, d)
    case FinishAppendingStep(n) => FinishAppendingEnabled(s, n)
  }

  ghost function Next(s: State, step: Step): (r: State)
    requires StepEnabled(s, step)
  {
    match step
    case ReaderDoStartStep(n) => ReaderDoStart(s, n)
    case ReaderDoEnterStep(n) => ReaderDoEnter(s, n)
    case ReaderDoGuardStep(n) => ReaderDoGuard(s, n)
    case ReaderDoUnguardStep(n) => ReaderDoUnguard(s, n)
    case ReaderDoFinishStep(n) => ReaderDoFinish(s, n)
    case ReaderDoAbortStep(n) => ReaderDoAbort(s, n)
    case InitAdvanceHeadStep(n) => InitAdvanceHead(s, n)
    case StepAdvanceHeadStep(n) => StepAdvanceHead(s, n)
    case AbandonAdvanceHeadStep(n) => AbandonAdvanceHead(s, n)
    case FinishAdvanceHeadStep(n) => FinishAdvanceHead(s, n)
    case InitAdvanceTailStep(n) => InitAdvanceTail(s, n)
    case AbandonAdvanceTailStep(n) => AbandonAdvanceTail(s, n)
    case FinishAdvanceTailStep(n, newTail) => FinishAdvanceTail(s, n, newTail)
    case AppendFlipBitStep(n, d) => AppendFlipBit(s, n, d)
    case FinishAppendingStep(n) => FinishAppending(s, n)
  }

  /** `t` is reached from `s` by taking `steps` in order, each enabled when
      it is taken. */
  ghost predicate Leads(s: State, steps: seq<Step>, t: State)
    decreases |steps|
  {
    if steps == [] then s == t
    else StepEnabled(s, steps[0]) && Leads(Next(s, steps[0]), steps[1..], t)
  }
}
