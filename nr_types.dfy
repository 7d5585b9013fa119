/** Shared vocabulary of the node-replication state machines.

    The replicated data structure and its operations are external to the
    engine: their types are abstract here, and the sequential semantics of the
    data structure (its initial state, its read-only and its mutating
    operation) is a value of type `Dispatch`, so that nothing is assumed about
    it beyond determinism. */
module NRTypes {

  /** State of the replicated sequential data structure. */
  type NRState(==)
  /** A mutating operation. */
  type UpdateOp(==)
  /** A read-only operation. */
  type ReadonlyOp(==)
  /** The result of applying an operation. */
  type ReturnType(==)

  /** The data structure's sequential semantics: `init()`, a deterministic
      `read(op) -> ret` and a deterministic `update(op) -> (state, ret)`. */
  datatype Dispatch = Dispatch(
    init: NRState,
    read: (NRState, ReadonlyOp) -> ReturnType,
    update: (NRState, UpdateOp) -> (NRState, ReturnType))

  /** One entry of the operation log: the operation and the node that placed it. */
  datatype LogEntry = LogEntry(op: UpdateOp, nodeId: nat)

  /** A strict upper bound of a finite set of naturals. */
  ghost function UpperBound(s: set<nat>): (r: nat)
    ensures forall x :: x in s ==> x < r
    decreases |s|
  {
    if s == {} then 0
    else
      var x :| x in s;
      var b := UpperBound(s - {x});
      assert forall y :: y in s ==> y == x || y in s - {x};
      if b > x then b else x + 1
  }

  /** A natural number that is not in the given finite set: the source uses
      it to pick a fresh request id. */
  ghost function GetNewNat(s: set<nat>): (r: nat)
    ensures r !in s
  {
    UpperBound(s)
  }

  /** The naturals 0 .. k-1: the node ids of k replicas, or the slots of a
      buffer of size k. */
  ghost function NatsBelow(k: nat): (r: set<nat>)
    ensures forall i: nat :: i in r <==> i < k
  {
    if k == 0 then {} else NatsBelow(k - 1) + {k - 1}
  }

  /** No element occurs twice in `q`. */
  ghost predicate SeqUnique(q: seq<nat>)
  {
    forall i, j :: 0 <= i < |q| && 0 <= j < |q| && i != j ==> q[i] != q[j]
  }

  /** No element of `a` occurs in `b`. */
  ghost predicate SeqDisjoint(a: seq<nat>, b: seq<nat>)
  {
    forall i, j :: 0 <= i < |a| && 0 <= j < |b| ==> a[i] != b[j]
  }
}
