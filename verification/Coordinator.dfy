/** The coordinator's sorted array of nodes: insertion, removal, and who owns a token afterwards. */
module Coordinator {
  import opened Types
  import opened Ring

  type Nodes = seq<StorageNode>

  /** `Panicked`: removing the only node truncates the array and then indexes before its start. */
  datatype Outcome = Done | Failed(error: Error) | Panicked

  /** Strictly increasing ends, the last one the end of the ring. */
  ghost predicate WholeRing(nodes: Nodes) {
    && Ascending(nodes, StorageSlot)
    && (nodes != [] ==> nodes[|nodes| - 1].endOfKeyRange == TOTAL_SLOTS)
  }

  /** First position whose end is at or above `token`, or the length. */
  function FirstAtOrAbove(nodes: Nodes, token: Uint64): (i: nat)
    ensures i <= |nodes|
    ensures i < |nodes| ==> token <= nodes[i].endOfKeyRange
    ensures forall j :: 0 <= j < i ==> nodes[j].endOfKeyRange < token
  {
    if nodes == [] || token <= nodes[0].endOfKeyRange then 0 else 1 + FirstAtOrAbove(nodes[1..], token)
  }

  function InsertIndex(nodes: Nodes, token: Uint64): Result<nat> {
    var i := FirstAtOrAbove(nodes, token);
    if nodes == [] then Ok(0)
    else if i == |nodes| then Err(NoNodeWithRequiredEndOfKeyRange)
    else if nodes[i].endOfKeyRange == token then Err(NodeExists)
    else Ok(i)
  }

  method FindInsertIndex(nodes: Nodes, token: Uint64) returns (r: Result<nat>)
    ensures r == InsertIndex(nodes, token)
  {
    if |nodes| == 0 {
      return Ok(0);
    }
    for i := 0 to |nodes|
      invariant forall j :: 0 <= j < i ==> nodes[j].endOfKeyRange < token
    {
      if token == nodes[i].endOfKeyRange {
        return Err(NodeExists);
      }
      if token < nodes[i].endOfKeyRange {
        return Ok(i);
      }
    }
    r := Err(NoNodeWithRequiredEndOfKeyRange);
  }

  // What the two operations do to the array

  function AddOutcome(nodes: Nodes, node: StorageNode): Outcome {
    if nodes == [] then
      if node.endOfKeyRange != TOTAL_SLOTS then Failed(FirstNodeMustEndRing) else Done
    else
      match InsertIndex(nodes, node.endOfKeyRange)
      case Ok(_) => Done
      case Err(e) => Failed(e)
  }

  function InsertAt(nodes: Nodes, i: nat, node: StorageNode): (r: Nodes)
    requires i <= |nodes|
    ensures |r| == |nodes| + 1 && r[i] == node
    ensures forall j :: 0 <= j < i ==> r[j] == nodes[j]
    ensures forall j :: i < j < |r| ==> r[j] == nodes[j - 1]
  {
    nodes[..i] + [node] + nodes[i..]
  }

  function DropAt(nodes: Nodes, i: nat): (r: Nodes)
    requires i < |nodes|
    ensures |r| == |nodes| - 1
    ensures forall j :: 0 <= j < i ==> r[j] == nodes[j]
    ensures forall j :: i <= j < |r| ==> r[j] == nodes[j + 1]
  {
    nodes[..i] + nodes[i + 1..]
  }

  function Added(nodes: Nodes, node: StorageNode): Nodes {
    if AddOutcome(nodes, node) != Done then nodes
    else if nodes == [] then [node]
    else InsertAt(nodes, FirstAtOrAbove(nodes, node.endOfKeyRange), node)
  }

  /** First node with this end and host, or the length. */
  function Position(nodes: Nodes, node: StorageNode): (i: nat)
    ensures i <= |nodes|
    ensures i < |nodes| ==> nodes[i].endOfKeyRange == node.endOfKeyRange && nodes[i].host == node.host
    ensures forall j :: 0 <= j < i ==> nodes[j].endOfKeyRange != node.endOfKeyRange || nodes[j].host != node.host
  {
    if nodes == [] || (nodes[0].endOfKeyRange == node.endOfKeyRange && nodes[0].host == node.host) then 0
    else 1 + Position(nodes[1..], node)
  }

  function RemoveOutcome(nodes: Nodes, node: StorageNode): Outcome {
    if Position(nodes, node) == |nodes| then Failed(NodeNotFound)
    else if |nodes| == 1 then Panicked
    else Done
  }

  /** Removing the last node stretches the one before it to the removed end. */
  function Removed(nodes: Nodes, node: StorageNode): Nodes {
    var i := Position(nodes, node);
    if i == |nodes| then nodes
    else if i < |nodes| - 1 || i == 0 then DropAt(nodes, i)
    else DropAt(nodes, i)[i - 1 := nodes[i - 1].(endOfKeyRange := node.endOfKeyRange)]
  }

  class Cluster {
    var nodes: Nodes

    constructor ()
      ensures nodes == []
    {
      nodes := [];
    }

    method AddNode(node: StorageNode) returns (outcome: Outcome)
      modifies this
      ensures nodes == Added(old(nodes), node) && outcome == AddOutcome(old(nodes), node)
      ensures outcome != Done ==> outcome.Failed? && nodes == old(nodes)
    {
      if |nodes| == 0 {
        if node.endOfKeyRange != TOTAL_SLOTS {
          return Failed(FirstNodeMustEndRing);
        }
        nodes := nodes + [node];
      } else {
        var found := FindInsertIndex(nodes, node.endOfKeyRange);
        if found.Err? {
          return Failed(found.error);
        }
        var index := found.value;
        nodes := nodes + [StorageNode("", "", 0, Unset)];
        nodes := nodes[..index + 1] + nodes[index..|nodes| - 1];
        nodes := nodes[index := node];
      }
      outcome := Done;
    }

    method RemoveNode(node: StorageNode) returns (outcome: Outcome)
      modifies this
      ensures nodes == Removed(old(nodes), node) && outcome == RemoveOutcome(old(nodes), node)
      ensures outcome.Failed? ==> nodes == old(nodes)
      ensures outcome == Panicked ==> |old(nodes)| == 1 && nodes == []
    {
      var index := -1;
      for i := 0 to |nodes|
        invariant index == -1 && nodes == old(nodes)
        invariant forall j :: 0 <= j < i ==> nodes[j].endOfKeyRange != node.endOfKeyRange || nodes[j].host != node.host
      {
        if nodes[i].endOfKeyRange == node.endOfKeyRange && nodes[i].host == node.host {
          index := i;
          break;
        }
      }
      if index == -1 {
        return Failed(NodeNotFound);
      }
      if index == |nodes| - 1 {
        nodes := nodes[..index];
        if index == 0 {
          return Panicked;
        }
        nodes := nodes[index - 1 := nodes[index - 1].(endOfKeyRange := node.endOfKeyRange)];
        return Done;
      }
      nodes := nodes[..index] + nodes[index + 1..];
      outcome := Done;
    }

    method LookUp(key: Uint64) returns (r: Result<StorageNode>)
      ensures r == Picked(nodes, OwnerIndex(nodes, StorageSlot, key))
    {
      r := GetNode(nodes, StorageSlot, key);
    }
  }

  /** On a whole ring a node is added exactly when no node has its end, an empty ring taking only the largest end; a
      taken end is reported as such. */
  lemma AddOutcomeIff(nodes: Nodes, node: StorageNode)
    requires WholeRing(nodes)
    ensures var taken := exists i :: 0 <= i < |nodes| && nodes[i].endOfKeyRange == node.endOfKeyRange;
      && (AddOutcome(nodes, node) == Done <==> if nodes == [] then node.endOfKeyRange == TOTAL_SLOTS else !taken)
      && (AddOutcome(nodes, node) == Failed(NodeExists) <==> taken)
      && (AddOutcome(nodes, node) == Failed(FirstNodeMustEndRing) <==> nodes == [] && node.endOfKeyRange != TOTAL_SLOTS)
  {
  }

  /** A removal fails exactly when no node has this end and host, and panics exactly when it is the only node's. */
  lemma RemoveOutcomeIff(nodes: Nodes, node: StorageNode)
    ensures var found := exists i ::
        0 <= i < |nodes| && nodes[i].endOfKeyRange == node.endOfKeyRange && nodes[i].host == node.host;
      && (RemoveOutcome(nodes, node) == Failed(NodeNotFound) <==> !found)
      && (RemoveOutcome(nodes, node) == Panicked <==> found && |nodes| == 1)
      && (RemoveOutcome(nodes, node) == Done <==> found && |nodes| > 1)
  {
  }

  // Whole runs

  datatype Op = Add(node: StorageNode) | Remove(node: StorageNode)

  function Apply(nodes: Nodes, op: Op): Nodes {
    match op
    case Add(node) => Added(nodes, node)
    case Remove(node) => Removed(nodes, node)
  }

  function ApplyAll(nodes: Nodes, ops: seq<Op>): Nodes {
    if ops == [] then nodes else Apply(ApplyAll(nodes, ops[..|ops| - 1]), ops[|ops| - 1])
  }

  lemma InsertKeepsRing(nodes: Nodes, i: nat, node: StorageNode)
    requires WholeRing(nodes) && i < |nodes| && node.endOfKeyRange < nodes[i].endOfKeyRange
    requires forall j :: 0 <= j < i ==> nodes[j].endOfKeyRange < node.endOfKeyRange
    ensures WholeRing(InsertAt(nodes, i, node))
  {
  }

  lemma AddKeepsRing(nodes: Nodes, node: StorageNode)
    requires WholeRing(nodes)
    ensures WholeRing(Added(nodes, node))
    ensures AddOutcome(nodes, node) != Failed(NoNodeWithRequiredEndOfKeyRange)
  {
    if nodes != [] {
      var i := FirstAtOrAbove(nodes, node.endOfKeyRange);
      assert i < |nodes|;
      if nodes[i].endOfKeyRange != node.endOfKeyRange {
        InsertKeepsRing(nodes, i, node);
      }
    }
  }

  lemma RemoveKeepsRing(nodes: Nodes, node: StorageNode)
    requires WholeRing(nodes)
    ensures WholeRing(Removed(nodes, node))
  {
  }

  /** From an empty cluster every sequence of operations leaves a whole ring, in which insertion always finds its place. */
  lemma {:induction false} RunsKeepRing(ops: seq<Op>, node: StorageNode)
    ensures WholeRing(ApplyAll([], ops))
    ensures AddOutcome(ApplyAll([], ops), node) != Failed(NoNodeWithRequiredEndOfKeyRange)
  {
    if ops != [] {
      var nodes := ApplyAll([], ops[..|ops| - 1]);
      RunsKeepRing(ops[..|ops| - 1], node);
      match ops[|ops| - 1]
      case Add(n) => AddKeepsRing(nodes, n);
      case Remove(n) => RemoveKeepsRing(nodes, n);
    }
    AddKeepsRing(ApplyAll([], ops), node);
  }

  // Ownership

  ghost predicate AllAvailable(nodes: Nodes) {
    forall i :: 0 <= i < |nodes| ==> nodes[i].state == Available
  }

  ghost predicate Owns(nodes: Nodes, token: Uint64, i: nat) {
    i < |nodes| && token < nodes[i].endOfKeyRange && (i > 0 ==> nodes[i - 1].endOfKeyRange <= token)
  }

  /** The owner of a token is the one node whose range, from the end before it to its own, covers the token. */
  lemma OwnerCoversToken(nodes: Nodes, token: Uint64, i: nat)
    requires Ascending(nodes, StorageSlot) && AllAvailable(nodes)
    ensures Owns(nodes, token, i) <==> i == OwnerIndex(nodes, StorageSlot, token) < |nodes|
  {
  }

  ghost function Owner(nodes: Nodes, token: Uint64): Result<StorageNode> {
    Picked(nodes, OwnerIndex(nodes, StorageSlot, token))
  }

  lemma OwnedBy(nodes: Nodes, token: Uint64, i: nat)
    requires WholeRing(nodes) && AllAvailable(nodes) && Owns(nodes, token, i)
    ensures Owner(nodes, token) == Ok(nodes[i])
  {
  }

  lemma SomeoneOwns(nodes: Nodes, token: Uint64) returns (i: nat)
    requires WholeRing(nodes) && AllAvailable(nodes) && nodes != [] && token < TOTAL_SLOTS
    ensures Owns(nodes, token, i) && Owner(nodes, token) == Ok(nodes[i])
  {
    i := OwnerIndex(nodes, StorageSlot, token);
    assert Above(StorageSlot(nodes[|nodes| - 1]), token);
    OwnerCoversToken(nodes, token, i);
  }

  lemma DistinctNodes(nodes: Nodes, i: nat, j: nat)
    requires Ascending(nodes, StorageSlot) && i < |nodes| && j < |nodes|
    ensures nodes[i] == nodes[j] <==> i == j
  {
  }

  lemma AddKeepsAvailable(nodes: Nodes, node: StorageNode)
    requires AllAvailable(nodes) && node.state == Available
    ensures AllAvailable(Added(nodes, node))
  {
  }

  lemma TakenOver(nodes: Nodes, node: StorageNode, token: Uint64, was: nat)
    requires WholeRing(nodes) && nodes != [] && AddOutcome(nodes, node) == Done && Owns(nodes, token, was)
    ensures var i := FirstAtOrAbove(nodes, node.endOfKeyRange);
      Owns(Added(nodes, node), token, if was < i || (was == i && token < node.endOfKeyRange) then was else was + 1)
  {
  }

  /** A new node takes exactly the tokens below its end that its successor owned. */
  lemma AddTakesOver(nodes: Nodes, node: StorageNode, token: Uint64)
    requires WholeRing(nodes) && AllAvailable(nodes) && nodes != [] && token < TOTAL_SLOTS
    requires node.state == Available && AddOutcome(nodes, node) == Done
    ensures FirstAtOrAbove(nodes, node.endOfKeyRange) < |nodes|
    ensures Owner(Added(nodes, node), token) ==
      if Owner(nodes, token) == Ok(nodes[FirstAtOrAbove(nodes, node.endOfKeyRange)]) && token < node.endOfKeyRange
      then Ok(node) else Owner(nodes, token)
  {
    var i := FirstAtOrAbove(nodes, node.endOfKeyRange);
    var after := Added(nodes, node);
    AddKeepsRing(nodes, node);
    AddKeepsAvailable(nodes, node);
    var was := SomeoneOwns(nodes, token);
    DistinctNodes(nodes, was, i);
    var now := if was < i || (was == i && token < node.endOfKeyRange) then was else was + 1;
    TakenOver(nodes, node, token, was);
    assert after[now] == if was == i && token < node.endOfKeyRange then node else nodes[was];
    OwnedBy(after, token, now);
  }

  lemma RemoveKeepsAvailable(nodes: Nodes, node: StorageNode)
    requires AllAvailable(nodes)
    ensures AllAvailable(Removed(nodes, node))
  {
  }

  /** Removing a node that is not the last hands its tokens, and no others, to its successor. */
  lemma RemoveHandsToSuccessor(nodes: Nodes, node: StorageNode, token: Uint64)
    requires WholeRing(nodes) && AllAvailable(nodes) && token < TOTAL_SLOTS
    requires Position(nodes, node) < |nodes| - 1
    ensures Owner(Removed(nodes, node), token) ==
      if Owner(nodes, token) == Ok(nodes[Position(nodes, node)]) then Ok(nodes[Position(nodes, node) + 1])
      else Owner(nodes, token)
  {
    var i := Position(nodes, node);
    var after := Removed(nodes, node);
    RemoveKeepsRing(nodes, node);
    RemoveKeepsAvailable(nodes, node);
    var was := SomeoneOwns(nodes, token);
    var now := if was <= i then was else was - 1;
    assert Owns(after, token, now);
    OwnedBy(after, token, now);
  }

  /** Removing the last node hands its tokens, and no others, to its predecessor, stretched to the end of the ring. */
  lemma RemoveHandsToPredecessor(nodes: Nodes, node: StorageNode, token: Uint64)
    requires WholeRing(nodes) && AllAvailable(nodes) && token < TOTAL_SLOTS
    requires |nodes| >= 2 && Position(nodes, node) == |nodes| - 1
    ensures var last := |nodes| - 1;
      Owner(Removed(nodes, node), token) ==
      if Owner(nodes, token) in {Ok(nodes[last]), Ok(nodes[last - 1])}
      then Ok(nodes[last - 1].(endOfKeyRange := TOTAL_SLOTS))
      else Owner(nodes, token)
  {
    var i := |nodes| - 1;
    var after := Removed(nodes, node);
    RemoveKeepsRing(nodes, node);
    RemoveKeepsAvailable(nodes, node);
    var was := SomeoneOwns(nodes, token);
    var now := if was < i then was else i - 1;
    assert Owns(after, token, now);
    OwnedBy(after, token, now);
  }

  /** Every lookup fails exactly when no AVAILABLE node has a token to own, as where nobody gave the nodes a state. */
  lemma NothingOwnedIff(nodes: Nodes)
    ensures (forall token: Uint64 :: Owner(nodes, token) == Err(NoNodeWithRequiredEndOfKeyRange)) <==>
            (forall i :: 0 <= i < |nodes| ==> nodes[i].state != Available || nodes[i].endOfKeyRange == 0)
  {
    if i :| 0 <= i < |nodes| && nodes[i].state == Available && nodes[i].endOfKeyRange > 0 {
      LookupSucceedsIff(nodes, StorageSlot, 0);
      assert Above(StorageSlot(nodes[i]), 0);
      assert Owner(nodes, 0) != Err(NoNodeWithRequiredEndOfKeyRange);
    }
  }

  // Undoing

  /** Adding a node and removing it again restores the array exactly. */
  lemma AddThenRemove(nodes: Nodes, node: StorageNode)
    requires WholeRing(nodes) && nodes != [] && AddOutcome(nodes, node) == Done
    ensures RemoveOutcome(Added(nodes, node), node) == Done && Removed(Added(nodes, node), node) == nodes
  {
  }
}
