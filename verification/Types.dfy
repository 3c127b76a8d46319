/** The values nodes exchange and store. */
module Types {

  const MAX64: nat := 0xFFFF_FFFF_FFFF_FFFF

  type Uint64 = x: nat | x <= MAX64

  /** Number of tokens: the modulus of every key hash, and the largest EndOfKeyRange. */
  const TOTAL_SLOTS: Uint64 := MAX64

  datatype Option<+T> = None | Some(value: T)

  datatype Error =
    | NoNodeWithRequiredEndOfKeyRange
    | NotEnoughNodes
    | InvalidQuorum
    | NodeExists
    | NodeNotFound
    | FirstNodeMustEndRing

  datatype Result<+T> = Ok(value: T) | Err(error: Error)

  /** A decoded JSON payload; `Null` is also what a read of a missing key yields. */
  datatype Json =
    | Null
    | Bool(b: bool)
    | Number(n: real)
    | Text(s: string)
    | Array(items: seq<Json>)
    | Object(fields: map<string, Json>)

  /** `Unset` is the zero value of the state field: a node nobody gave a state. */
  datatype NodeState = Unset | Joining | Bootstrapping | Available

  function Rank(s: NodeState): nat {
    match s
    case Unset => 0
    case Joining => 1
    case Bootstrapping => 2
    case Available => 3
  }

  /** Two nodes are the same party when everything but their clock and state agrees. */
  datatype NodeGossip = NodeGossip(
    id: string, host: string, endOfKeyRange: Uint64,
    lastUpdate: nat, state: NodeState, replicaCount: int)

  datatype StorageNode = StorageNode(id: string, host: string, endOfKeyRange: Uint64, state: NodeState)

  datatype StoreEntry = StoreEntry(value: Json, version: Uint64, isReplica: bool)

  /** What travels on a bootstrap stream. */
  datatype Event =
    | SnapshotEvent(key: string, values: seq<StoreEntry>)
    | SnapshotComplete
    | LiveEvent(key: string, value: Json, version: Uint64)
    | LiveComplete
}
