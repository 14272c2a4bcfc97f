/** JSON values as `serde_json::Value`: integers and floats are different numbers. */
module Json {

  datatype Num = Integer(i: int) | Float(r: real)

  datatype Json =
    | Null
    | Bool(b: bool)
    | Number(n: Num)
    | Str(s: string)
    | Array(items: seq<Json>)
    | Object(fields: map<string, Json>)
}

/** The checkpoint records that the savers store and recovery rebuilds. */
module Checkpoints {
  import opened Wrappers
  import opened Json
  import opened Namespaces

  datatype CheckpointError = Storage(reason: string) | Deserialize(reason: string)

  datatype DeltaCounters = DeltaCounters(updates: nat, supersteps: nat)

  datatype Checkpoint = Checkpoint(
    id: string,
    channelValues: Json,
    channelVersions: map<string, nat>,
    versionsSeen: map<string, map<string, nat>>,
    schemaVersion: nat,
    createdAt: string,
    v: nat,
    newVersions: map<string, nat>,
    countersSinceDeltaSnapshot: map<string, DeltaCounters>)

  datatype CheckpointSource = Input | Loop | Update | Fork | Interrupt(node: string)

  datatype CheckpointMetadata = CheckpointMetadata(
    source: CheckpointSource,
    step: int,
    writes: map<string, Json>,
    parents: map<string, string>,
    runId: string,
    returnValue: Option<Json>)

  datatype PendingWrite = PendingWrite(taskId: string, channel: string, value: Json)

  datatype RunnableConfig = RunnableConfig(
    threadId: Option<string>,
    checkpointNs: Option<CheckpointNamespace>,
    checkpointId: Option<string>)
  {
    /** The namespace part of the storage key; the root when unset. */
    function NsKey(): string {
      match checkpointNs
      case None => ""
      case Some(ns) => ns.AsStr()
    }
  }

  datatype CheckpointTuple = CheckpointTuple(
    config: RunnableConfig,
    checkpoint: Checkpoint,
    metadata: CheckpointMetadata,
    pendingWrites: seq<PendingWrite>,
    parentConfig: Option<RunnableConfig>)

  datatype CheckpointFilter = CheckpointFilter(
    source: Option<CheckpointSource>,
    stepGte: Option<int>,
    stepLte: Option<int>,
    before: Option<string>,
    after: Option<string>,
    limit: Option<nat>)
}
