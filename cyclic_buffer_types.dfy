/** The entities of the cyclic buffer that physically stores the log: what
    a reader and what a combiner are doing. Logical log indices are
    naturals; the buffer holds the entry with logical index `i` in slot
    `i % bufferSize`. */
module CyclicBufferTypes {

  /** What the buffer stores per entry; its content is external to the
      buffer. */
  type StoredType(==)

  /** A reader copying the entries from its replica's local head up to a
      snapshot of the tail. */
  datatype ReaderState =
      /** `start` is the replica's local head */
      Starting(start: nat)
      /** the reader has read the tail into `end` and has read up to `cur` */
    | Range(start: nat, end: nat, cur: nat)
      /** the reader holds entry `cur`, whose content is `val` */
    | Guard(start: nat, end: nat, cur: nat, val: StoredType)

  /** A combiner's progress through reading, advancing the head, advancing
      the tail and appending. */
  datatype CombinerState =
      Idle
    | Reading(rs: ReaderState)
      /** scanning the local heads: `minHead` is the minimum of those below
          `idx` */
    | AdvancingHead(idx: nat, minHead: nat)
      /** `observedHead` is the head read before moving the tail */
    | AdvancingTail(observedHead: nat)
      /** filling the reserved entries `curIdx` .. `tail` - 1 */
    | Appending(curIdx: nat, tail: nat)
}
