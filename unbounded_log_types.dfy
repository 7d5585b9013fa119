/** The request and combiner lifecycles of the unbounded log. */
module UnboundedLogTypes {
  import opened NRTypes

  /** Progress of a read-only request:
      Init -> VersionUpperBound -> ReadyToRead -> Done. */
  datatype ReadonlyState =
    | Init(op: ReadonlyOp)
      /** has read the global version upper bound */
    | VersionUpperBound(op: ReadonlyOp, versionUpperBound: nat)
      /** the node's replica has caught up with the recorded bound */
    | ReadyToRead(op: ReadonlyOp, nodeId: nat, versionUpperBound: nat)
      /** the query ran against the node's replica */
    | Done(op: ReadonlyOp, ret: ReturnType, nodeId: nat, versionUpperBound: nat)

  /** Progress of an update request: Init -> Placed -> Applied -> Done. */
  datatype UpdateState =
    | Init(op: UpdateOp)
      /** placed into the log at index `idx` */
    | Placed(op: UpdateOp, idx: nat)
      /** applied to the local replica by the combiner */
    | Applied(ret: ReturnType, idx: nat)
      /** ready to be returned to the client */
    | Done(ret: ReturnType, idx: nat)

  /** The per-node combiner cycle:
      Ready -> Placed -> LoadedLocalVersion -> Loop -> UpdatedVersion -> Ready. */
  datatype CombinerState =
    | Ready
    | Placed(queuedOps: seq<nat>)
    | LoadedLocalVersion(queuedOps: seq<nat>, lversion: nat)
      /** `lversion` and `idx` are the cursors in the log and in the queue;
          `globalTail` is the global tail read when the loop started */
    | Loop(queuedOps: seq<nat>, lversion: nat, idx: nat, globalTail: nat)
    | UpdatedVersion(queuedOps: seq<nat>, globalTail: nat)
  {
    /** The request ids this combiner is serving (none when Ready). */
    function QueuedOps(): (r: seq<nat>)
    {
      if Ready? then [] else queuedOps
    }
  }
}
