/** Looking up owners and replicas on the ring of nodes ordered by the end of their key range. */
module Ring {
  import opened Types
  import opened Sets
  import opened Sorting

  /** What lookups read of a node, whatever its type. */
  datatype Slot = Slot(end: Uint64, state: NodeState)

  function GossipSlot(g: NodeGossip): Slot { Slot(g.endOfKeyRange, g.state) }

  function StorageSlot(n: StorageNode): Slot { Slot(n.endOfKeyRange, n.state) }

  function EndOf(g: NodeGossip): nat { g.endOfKeyRange }

  /** A key's token; `sum` is the leading 64 bits of the key's digest. */
  function HashKey(sum: string -> Uint64, key: string, mod: Uint64): (token: Uint64)
    requires mod > 0
    ensures token < mod
  {
    sum(key) % mod
  }

  /** A key's token is its digest, but for the largest digest, which wraps to 0. */
  lemma TokenOfDigest(sum: string -> Uint64, key: string)
    ensures HashKey(sum, key, TOTAL_SLOTS) == if sum(key) == MAX64 then 0 else sum(key)
  {
  }

  predicate Above(s: Slot, bound: int) {
    s.state == Available && bound < s.end
  }

  /** Position of the first AVAILABLE node ending above `bound`, or the length when there is none. */
  function FirstAbove<T>(nodes: seq<T>, slotOf: T -> Slot, bound: int): (i: nat)
    ensures i <= |nodes|
    ensures i < |nodes| ==> Above(slotOf(nodes[i]), bound)
    ensures forall j :: 0 <= j < i ==> !Above(slotOf(nodes[j]), bound)
  {
    if nodes == [] || Above(slotOf(nodes[0]), bound) then 0
    else 1 + FirstAbove(nodes[1..], slotOf, bound)
  }

  function OwnerIndex<T>(nodes: seq<T>, slotOf: T -> Slot, token: Uint64): nat {
    FirstAbove(nodes, slotOf, token)
  }

  /** Where `GetNodeByToken`, which also accepts an end equal to the token, finds its node. */
  function TakerIndex<T>(nodes: seq<T>, slotOf: T -> Slot, token: Uint64): nat {
    FirstAbove(nodes, slotOf, token - 1)
  }

  function Picked<T>(nodes: seq<T>, i: nat): Result<T> {
    if i < |nodes| then Ok(nodes[i]) else Err(NoNodeWithRequiredEndOfKeyRange)
  }

  method GetNode<T>(nodes: seq<T>, slotOf: T -> Slot, token: Uint64) returns (r: Result<T>)
    ensures r == Picked(nodes, OwnerIndex(nodes, slotOf, token))
  {
    for i := 0 to |nodes|
      invariant forall j :: 0 <= j < i ==> !Above(slotOf(nodes[j]), token)
    {
      if slotOf(nodes[i]).state == Available && token < slotOf(nodes[i]).end {
        return Ok(nodes[i]);
      }
    }
    r := Err(NoNodeWithRequiredEndOfKeyRange);
  }

  method GetNodeByToken<T>(nodes: seq<T>, slotOf: T -> Slot, token: Uint64) returns (r: Result<T>)
    ensures r == Picked(nodes, TakerIndex(nodes, slotOf, token))
  {
    for i := 0 to |nodes|
      invariant forall j :: 0 <= j < i ==> !Above(slotOf(nodes[j]), token - 1)
    {
      if slotOf(nodes[i]).state == Available && token <= slotOf(nodes[i]).end {
        return Ok(nodes[i]);
      }
    }
    r := Err(NoNodeWithRequiredEndOfKeyRange);
  }

  /** The owner and the nodes after it, wrapping round. A negative count would panic. */
  method GetNNode<T>(nodes: seq<T>, slotOf: T -> Slot, token: Uint64, count: nat) returns (r: Result<seq<T>>)
    ensures r ==
      if count > |nodes| then Err(NotEnoughNodes)
      else if OwnerIndex(nodes, slotOf, token) == |nodes| then Err(NoNodeWithRequiredEndOfKeyRange)
      else Ok(Window(nodes, OwnerIndex(nodes, slotOf, token), count))
  {
    if count > |nodes| {
      return Err(NotEnoughNodes);
    }
    var start := -1;
    for i := 0 to |nodes|
      invariant start == -1
      invariant forall j :: 0 <= j < i ==> !Above(slotOf(nodes[j]), token)
    {
      if slotOf(nodes[i]).state == Available && token < slotOf(nodes[i]).end {
        start := i;
        break;
      }
    }
    if start == -1 {
      return Err(NoNodeWithRequiredEndOfKeyRange);
    }
    var picked := [];
    while |picked| < count
      invariant |picked| <= count
      invariant picked == Window(nodes, start, |picked|)
    {
      var currIdx := (start + |picked|) % |nodes|;
      picked := picked + [nodes[currIdx]];
    }
    r := Ok(picked);
  }

  /** `i` places after `start` on a ring of `n`. */
  function RingIndex(start: nat, i: nat, n: nat): (p: nat)
    requires n > 0
    ensures p < n
  {
    (start + i) % n
  }

  function Window<T>(nodes: seq<T>, start: nat, count: nat): (w: seq<T>)
    requires start < |nodes|
    ensures |w| == count
    ensures forall i :: 0 <= i < count ==> w[i] == nodes[RingIndex(start, i, |nodes|)]
  {
    if count == 0 then [] else Window(nodes, start, count - 1) + [nodes[RingIndex(start, count - 1, |nodes|)]]
  }

  ghost predicate Ascending<T>(nodes: seq<T>, slotOf: T -> Slot) {
    forall i, j :: 0 <= i < j < |nodes| ==> slotOf(nodes[i]).end < slotOf(nodes[j]).end
  }

  /** Ends never fall along the list; nodes may share one. */
  ghost predicate Ordered<T>(nodes: seq<T>, slotOf: T -> Slot) {
    forall i, j :: 0 <= i < j < |nodes| ==> slotOf(nodes[i]).end <= slotOf(nodes[j]).end
  }

  /** No two AVAILABLE nodes share an end. */
  ghost predicate AvailableApart<T>(nodes: seq<T>, slotOf: T -> Slot) {
    forall i, j :: 0 <= i < j < |nodes| && slotOf(nodes[i]).state == slotOf(nodes[j]).state == Available ==>
      slotOf(nodes[i]).end != slotOf(nodes[j]).end
  }

  lemma RingPosition(start: nat, i: nat, n: nat)
    requires start < n && i < n
    ensures RingIndex(start, i, n) == if start + i < n then start + i else start + i - n
  {
  }

  lemma PositionsApart(start: nat, i: nat, j: nat, n: nat)
    requires start < n && i < j < n
    ensures RingIndex(start, i, n) != RingIndex(start, j, n)
  {
    RingPosition(start, i, n);
    RingPosition(start, j, n);
  }

  /** `b` follows `a` on the ring. */
  ghost predicate Successive<T>(nodes: seq<T>, a: T, b: T) {
    exists p :: 0 <= p < |nodes| && a == nodes[p] && b == nodes[if p == |nodes| - 1 then 0 else p + 1]
  }

  lemma WindowSuccessive<T>(nodes: seq<T>, start: nat, count: nat, i: nat)
    requires start < |nodes| && i + 1 < count <= |nodes|
    ensures Successive(nodes, Window(nodes, start, count)[i], Window(nodes, start, count)[i + 1])
  {
    RingPosition(start, i, |nodes|);
    RingPosition(start, i + 1, |nodes|);
    var p := RingIndex(start, i, |nodes|);
    assert RingIndex(start, i + 1, |nodes|) == if p == |nodes| - 1 then 0 else p + 1;
  }

  lemma WindowDistinct<T>(nodes: seq<T>, start: nat, count: nat)
    requires Distinct(nodes) && start < |nodes| && count <= |nodes|
    ensures Distinct(Window(nodes, start, count))
  {
    var w := Window(nodes, start, count);
    forall i, j | 0 <= i < j < count ensures w[i] != w[j] {
      PositionsApart(start, i, j, |nodes|);
    }
  }

  /** Replica window: headed by the owner `GetNode` returns, then each node's ring successor, no position of the list
      twice, so no node twice where the list repeats none. */
  lemma ReplicaWindow<T>(nodes: seq<T>, slotOf: T -> Slot, token: Uint64, count: nat)
    requires 1 <= count <= |nodes| && OwnerIndex(nodes, slotOf, token) < |nodes|
    ensures var start := OwnerIndex(nodes, slotOf, token); var w := Window(nodes, start, count);
      && Picked(nodes, start) == Ok(w[0])
      && (forall i :: 0 <= i < count ==> w[i] == nodes[RingIndex(start, i, |nodes|)])
      && (forall i, j :: 0 <= i < j < count ==> RingIndex(start, i, |nodes|) != RingIndex(start, j, |nodes|))
      && (forall i :: 0 <= i < count - 1 ==> Successive(nodes, w[i], w[i + 1]))
      && (Distinct(nodes) ==> Distinct(w))
  {
    var start := OwnerIndex(nodes, slotOf, token);
    RingPosition(start, 0, |nodes|);
    forall i, j | 0 <= i < j < count ensures RingIndex(start, i, |nodes|) != RingIndex(start, j, |nodes|) {
      PositionsApart(start, i, j, |nodes|);
    }
    var w := Window(nodes, start, count);
    forall i | 0 <= i < count - 1 ensures Successive(nodes, w[i], w[i + 1]) {
      WindowSuccessive(nodes, start, count, i);
    }
    if Distinct(nodes) {
      WindowDistinct(nodes, start, count);
    }
  }

  /** A token has an owner exactly when some AVAILABLE node ends above it. */
  lemma LookupSucceedsIff<T>(nodes: seq<T>, slotOf: T -> Slot, token: Uint64)
    ensures OwnerIndex(nodes, slotOf, token) < |nodes| <==>
            exists i :: 0 <= i < |nodes| && Above(slotOf(nodes[i]), token)
  {
  }

  /** Every token a key can have is owned exactly when some AVAILABLE node ends at the largest end. */
  lemma RingCoveredIff<T>(nodes: seq<T>, slotOf: T -> Slot)
    ensures (forall token: Uint64 :: token < TOTAL_SLOTS ==> OwnerIndex(nodes, slotOf, token) < |nodes|) <==>
            (exists i :: 0 <= i < |nodes| && slotOf(nodes[i]) == Slot(TOTAL_SLOTS, Available))
  {
    if i :| 0 <= i < |nodes| && slotOf(nodes[i]) == Slot(TOTAL_SLOTS, Available) {
      forall token: Uint64 | token < TOTAL_SLOTS ensures OwnerIndex(nodes, slotOf, token) < |nodes| {
        assert Above(slotOf(nodes[i]), token);
      }
    } else {
      var last: Uint64 := TOTAL_SLOTS - 1;
      var i := OwnerIndex(nodes, slotOf, last);
      assert i < |nodes| ==> slotOf(nodes[i]) == Slot(TOTAL_SLOTS, Available);
    }
  }

  /** With such a node no key's lookup fails, whatever the digest. */
  lemma CoveredRingOwnsEveryKey<T>(nodes: seq<T>, slotOf: T -> Slot, sum: string -> Uint64, key: string)
    requires exists i :: 0 <= i < |nodes| && slotOf(nodes[i]) == Slot(TOTAL_SLOTS, Available)
    ensures OwnerIndex(nodes, slotOf, HashKey(sum, key, TOTAL_SLOTS)) < |nodes|
  {
  }

  // Handing tokens to a node that becomes AVAILABLE

  /** Some AVAILABLE node ends above `token` and at or below `b`. */
  ghost predicate EndsBetween<T>(nodes: seq<T>, slotOf: T -> Slot, token: int, b: int) {
    exists j :: 0 <= j < |nodes| && Above(slotOf(nodes[j]), token) && slotOf(nodes[j]).end <= b
  }

  /** `after` is `before` with the node at `at` made AVAILABLE. */
  ghost predicate BecomesAvailable<T>(before: seq<T>, after: seq<T>, slotOf: T -> Slot, at: nat) {
    && |before| == |after| && at < |before|
    && (forall j :: 0 <= j < |before| && j != at ==> after[j] == before[j])
    && slotOf(before[at]).state != Available
    && slotOf(after[at]) == Slot(slotOf(before[at]).end, Available)
  }

  /** Minimal handoff: exactly the tokens below the new end with no AVAILABLE end in between change owner; they go
      from the node the newcomer asked for its snapshot to the newcomer, and they pass its snapshot filter. */
  lemma MinimalHandoff<T>(before: seq<T>, after: seq<T>, slotOf: T -> Slot, at: nat, token: Uint64)
    requires Ordered(before, slotOf) && BecomesAvailable(before, after, slotOf, at)
    requires AvailableApart(after, slotOf) && slotOf(before[at]).end < TOTAL_SLOTS
    ensures var b := slotOf(before[at]).end;
      && (OwnerIndex(after, slotOf, token) != OwnerIndex(before, slotOf, token) <==>
            token < b && !EndsBetween(before, slotOf, token, b))
      && (OwnerIndex(after, slotOf, token) != OwnerIndex(before, slotOf, token) ==>
            && OwnerIndex(after, slotOf, token) == at
            && OwnerIndex(before, slotOf, token) == TakerIndex(before, slotOf, b + 1)
            && token <= b)
  {
  }

  /** A newcomer with the largest end asks for token 0: whichever AVAILABLE node comes first. */
  lemma WrappedRequestAsksFirstAvailable<T>(nodes: seq<T>, slotOf: T -> Slot)
    ensures var i := TakerIndex(nodes, slotOf, (TOTAL_SLOTS + 1) % 0x1_0000_0000_0000_0000);
      && (i < |nodes| ==> slotOf(nodes[i]).state == Available)
      && (forall j :: 0 <= j < i ==> slotOf(nodes[j]).state != Available)
  {
  }

  // The snapshot source is looked up in whatever order the gossip map was enumerated

  ghost predicate FindsNearest<T>(nodes: seq<T>, slotOf: T -> Slot, bound: int) {
    forall j :: 0 <= j < |nodes| && Above(slotOf(nodes[j]), bound) ==>
      slotOf(Nearest(nodes, slotOf, bound, j)).end <= slotOf(nodes[j]).end
  }

  ghost function Nearest<T>(nodes: seq<T>, slotOf: T -> Slot, bound: int, j: nat): T
    requires j < |nodes| && Above(slotOf(nodes[j]), bound)
  {
    nodes[FirstAbove(nodes, slotOf, bound)]
  }

  lemma SortedFindsNearest<T>(nodes: seq<T>, slotOf: T -> Slot, bound: int)
    requires Ordered(nodes, slotOf)
    ensures FindsNearest(nodes, slotOf, bound)
  {
  }

  lemma NearestIsLeast<T>(sorted: seq<T>, slotOf: T -> Slot, bound: int, x: T)
    requires Ordered(sorted, slotOf) && x in sorted && Above(slotOf(x), bound)
    ensures FirstAbove(sorted, slotOf, bound) < |sorted|
    ensures slotOf(sorted[FirstAbove(sorted, slotOf, bound)]).end <= slotOf(x).end
  {
  }

  lemma EqualEndsSame<T>(sorted: seq<T>, slotOf: T -> Slot, x: T, y: T)
    requires AvailableApart(sorted, slotOf) && x in sorted && y in sorted
    requires slotOf(x) == slotOf(y) && slotOf(x).state == Available
    ensures x == y
  {
  }

  lemma AnyOrderFinds<T>(order: seq<T>, slotOf: T -> Slot, bound: int, x: T) returns (i: nat)
    requires x in order && Above(slotOf(x), bound)
    ensures i < |order| && order[i] == x && FirstAbove(order, slotOf, bound) <= i
  {
    i :| 0 <= i < |order| && order[i] == x;
  }

  /** A lookup in some other order finds the node the sorted list gives exactly when it finds the nearest one. */
  lemma AskedIsNearestIff<T>(order: seq<T>, sorted: seq<T>, slotOf: T -> Slot, bound: int)
    requires Ordered(sorted, slotOf) && AvailableApart(sorted, slotOf) && multiset(order) == multiset(sorted)
    requires FirstAbove(sorted, slotOf, bound) < |sorted|
    ensures FirstAbove(order, slotOf, bound) < |order|
    ensures order[FirstAbove(order, slotOf, bound)] == sorted[FirstAbove(sorted, slotOf, bound)] <==>
            FindsNearest(order, slotOf, bound)
  {
    SameElements(order, sorted);
    var nearest := sorted[FirstAbove(sorted, slotOf, bound)];
    var i := AnyOrderFinds(order, slotOf, bound, nearest);
    var found := order[FirstAbove(order, slotOf, bound)];
    assert found in order;
    NearestIsLeast(sorted, slotOf, bound, found);
    if FindsNearest(order, slotOf, bound) {
      assert slotOf(Nearest(order, slotOf, bound, i)).end <= slotOf(order[i]).end;
      EqualEndsSame(sorted, slotOf, found, nearest);
    } else if found == nearest {
      var k :| 0 <= k < |order| && Above(slotOf(order[k]), bound) && slotOf(found).end > slotOf(order[k]).end;
      NearestIsLeast(sorted, slotOf, bound, order[k]);
      assert false;
    }
  }

  lemma MovedToFront<T>(nodes: seq<T>, i: nat) returns (moved: seq<T>)
    requires i < |nodes|
    ensures |moved| > 0 && moved[0] == nodes[i] && multiset(moved) == multiset(nodes)
  {
    moved := [nodes[i]] + nodes[..i] + nodes[i + 1..];
    assert nodes == nodes[..i] + [nodes[i]] + nodes[i + 1..];
  }

  /** Every enumeration order finds the nearest AVAILABLE node above `bound` exactly when all those nodes end alike. */
  lemma AnyOrderFindsNearestIff<T>(nodes: seq<T>, slotOf: T -> Slot, bound: int)
    ensures (forall order: seq<T> :: multiset(order) == multiset(nodes) ==> FindsNearest(order, slotOf, bound)) <==>
            (forall x, y :: x in nodes && y in nodes && Above(slotOf(x), bound) && Above(slotOf(y), bound) ==>
              slotOf(x).end == slotOf(y).end)
  {
    if x, y :| x in nodes && y in nodes && Above(slotOf(x), bound) && Above(slotOf(y), bound)
               && slotOf(x).end > slotOf(y).end {
      var i :| 0 <= i < |nodes| && nodes[i] == x;
      var order := MovedToFront(nodes, i);
      SameElements(order, nodes);
      var j :| 0 <= j < |order| && order[j] == y;
      assert slotOf(Nearest(order, slotOf, bound, j)).end > slotOf(order[j]).end;
      assert !FindsNearest(order, slotOf, bound);
    } else {
      forall order: seq<T> | multiset(order) == multiset(nodes) ensures FindsNearest(order, slotOf, bound) {
        SameElements(order, nodes);
        forall j | 0 <= j < |order| && Above(slotOf(order[j]), bound)
          ensures slotOf(Nearest(order, slotOf, bound, j)).end <= slotOf(order[j]).end
        {
          assert order[FirstAbove(order, slotOf, bound)] in order && order[j] in order;
        }
      }
    }
  }
}
