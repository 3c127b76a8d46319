/** Where a request goes, as a function of the receiving node's view alone. */
module Routing {
  import opened Types
  import opened Sets
  import opened Sorting
  import opened Gossips
  import opened Ring

  /** `arr` lists the values of `m` in the order `keys` of its keys. */
  ghost predicate Enumerates<K, V>(m: map<K, V>, keys: seq<K>, arr: seq<V>) {
    && |arr| == |keys| == |m| && Distinct(keys)
    && forall i :: 0 <= i < |keys| ==> keys[i] in m && arr[i] == m[keys[i]]
  }

  /** The values of a map in whatever order it is enumerated. */
  method MapToArr<K(!new), V>(m: map<K, V>) returns (arr: seq<V>)
    ensures exists keys :: Enumerates(m, keys, arr)
  {
    arr := [];
    ghost var keys: seq<K> := [];
    var left := m.Keys;
    while left != {}
      invariant left <= m.Keys && |arr| == |keys| == |m| - |left|
      invariant forall i :: 0 <= i < |keys| ==> keys[i] in m && keys[i] !in left && arr[i] == m[keys[i]]
      invariant Distinct(keys)
      decreases left
    {
      var k :| k in left;
      arr, keys := arr + [m[k]], keys + [k];
      left := left - {k};
    }
    assert Enumerates(m, keys, arr);
  }

  lemma {:induction false} DistinctBag<T>(s: seq<T>)
    requires Distinct(s)
    ensures forall x :: multiset(s)[x] == if x in s then 1 else 0
  {
    if s != [] {
      var front := s[..|s| - 1];
      assert s == front + [s[|s| - 1]];
      DistinctBag(front);
    }
  }

  /** `order` holds the records of a view, each once, in some order. */
  ghost predicate Lists(order: seq<NodeGossip>, v: View) {
    multiset(order) == multiset(v.Values)
  }

  lemma EnumerationBag(v: View, arr: seq<NodeGossip>)
    requires Keyed(v) && exists keys :: Enumerates(v, keys, arr)
    ensures Lists(arr, v)
  {
    var keys :| Enumerates(v, keys, arr);
    DistinctBag(arr);
    DistinctBag(keys);
    DistinctSize(keys);
    assert Elements(keys) <= v.Keys;
    SubsetSize(Elements(keys), v.Keys);
    forall r ensures r in arr <==> r in v.Values {
      if r in v.Values {
        var k :| k in v && v[k] == r;
        assert k in Elements(keys);
        var i :| 0 <= i < |keys| && keys[i] == k;
        assert arr[i] == r;
      }
    }
  }

  method SortNodeInPlace(ar: array<NodeGossip>)
    modifies ar
    ensures Sorts(old(ar[..]), ar[..], EndOf)
  {
    assert ar[..ar.Length] == ar[..];
    SortSlice(ar, ar.Length, EndOf);
    assert ar[..ar.Length] == ar[..];
  }

  /** The ring order every handler looks nodes up in. */
  ghost predicate SortedView(ar: seq<NodeGossip>, v: View) {
    SortedBy(ar, EndOf) && Lists(ar, v)
  }

  ghost predicate DistinctEnds(v: View) {
    forall a, b :: a in v.Values && b in v.Values && a.endOfKeyRange == b.endOfKeyRange ==> a == b
  }

  method RingOrder(v: View) returns (ar: seq<NodeGossip>)
    requires Keyed(v)
    ensures SortedView(ar, v)
  {
    ar := MapToArr(v);
    EnumerationBag(v, ar);
    var cells := new NodeGossip[|ar|](i requires 0 <= i < |ar| => ar[i]);
    assert cells[..] == ar;
    SortNodeInPlace(cells);
    ar := cells[..];
  }

  /** With distinct ends every enumeration of a view sorts to the same sequence. */
  lemma SortedViewUnique(ar: seq<NodeGossip>, ar': seq<NodeGossip>, v: View)
    requires DistinctEnds(v) && SortedView(ar, v) && SortedView(ar', v)
    ensures ar == ar'
  {
    forall x | x in ar ensures x in v.Values {
      assert x in multiset(ar);
    }
    SortedUnique(ar, ar', EndOf);
  }

  lemma {:induction false} SomeListing(records: set<NodeGossip>) returns (ar: seq<NodeGossip>)
    ensures SortedBy(ar, EndOf) && multiset(ar) == multiset(records)
  {
    if records == {} {
      ar := [];
    } else {
      var x :| x in records;
      var rest := SomeListing(records - {x});
      InsertKeepsOrder(rest, x, EndOf);
      ar := InsertBy(rest, x, EndOf);
      assert multiset(records) == multiset(records - {x}) + multiset{x};
    }
  }

  /** Two records that share an end may stand in either order. */
  lemma SwappedListing(ar: seq<NodeGossip>, v: View, p: nat, q: nat)
    requires SortedView(ar, v) && p < |ar| && q < |ar| && EndOf(ar[p]) == EndOf(ar[q])
    ensures SortedView(ar[p := ar[q]][q := ar[p]], v)
  {
    var swapped := ar[p := ar[q]][q := ar[p]];
    assert multiset(swapped) == multiset(ar);
    assert forall i :: 0 <= i < |ar| ==> EndOf(swapped[i]) == EndOf(ar[i]);
  }

  lemma TwoListings(v: View, a: NodeGossip, b: NodeGossip) returns (ar: seq<NodeGossip>, ar': seq<NodeGossip>)
    requires a in v.Values && b in v.Values && a.endOfKeyRange == b.endOfKeyRange && a != b
    ensures SortedView(ar, v) && SortedView(ar', v) && ar != ar'
  {
    ar := SomeListing(v.Values);
    assert a in multiset(ar) && b in multiset(ar);
    var p :| 0 <= p < |ar| && ar[p] == a;
    var q :| 0 <= q < |ar| && ar[q] == b;
    SwappedListing(ar, v, p, q);
    ar' := ar[p := b][q := a];
    assert ar'[p] == b;
  }

  /** All sorted listings of a view agree exactly when no two of its records share an end. */
  lemma SortedViewUniqueIff(v: View)
    ensures (forall ar, ar' :: SortedView(ar, v) && SortedView(ar', v) ==> ar == ar') <==> DistinctEnds(v)
  {
    if DistinctEnds(v) {
      forall ar, ar' | SortedView(ar, v) && SortedView(ar', v) ensures ar == ar' {
        SortedViewUnique(ar, ar', v);
      }
    } else {
      var a, b :| a in v.Values && b in v.Values && a.endOfKeyRange == b.endOfKeyRange && a != b;
      var ar, ar' := TwoListings(v, a, b);
    }
  }

  lemma RepeatsCount<T>(s: seq<T>, i: nat, j: nat)
    requires i < j < |s|
    ensures s[i] == s[j] ==> multiset(s)[s[i]] >= 2
  {
    assert s == s[..j] + [s[j]] + s[j + 1..];
    assert s[i] in s[..j];
  }

  lemma ListedOnce(ar: seq<NodeGossip>, v: View)
    requires Lists(ar, v)
    ensures Distinct(ar)
  {
    forall i, j | 0 <= i < j < |ar| ensures ar[i] != ar[j] {
      assert ar[i] in multiset(ar);
      RepeatsCount(ar, i, j);
    }
  }

  ghost predicate DistinctAvailableEnds(v: View) {
    forall a, b :: a in v.Values && b in v.Values && a.state == b.state == Available && a.endOfKeyRange == b.endOfKeyRange
      ==> a == b
  }

  lemma ListedApart(ar: seq<NodeGossip>, v: View)
    requires Lists(ar, v) && DistinctAvailableEnds(v)
    ensures AvailableApart(ar, GossipSlot)
  {
    ListedOnce(ar, v);
    forall i | 0 <= i < |ar| ensures ar[i] in v.Values {
      assert ar[i] in multiset(ar);
    }
  }

  /** Where AVAILABLE nodes have ends of their own, every sorted listing of a view gives the same owner. */
  lemma OwnersAgree(ar: seq<NodeGossip>, ar': seq<NodeGossip>, v: View, token: Uint64)
    requires DistinctAvailableEnds(v) && SortedView(ar, v) && SortedView(ar', v)
    requires OwnerIndex(ar, GossipSlot, token) < |ar|
    ensures Picked(ar', OwnerIndex(ar', GossipSlot, token)) == Picked(ar, OwnerIndex(ar, GossipSlot, token))
  {
    ListedApart(ar, v);
    assert forall i, j :: 0 <= i < j < |ar| ==> EndOf(ar[i]) <= EndOf(ar[j]);
    assert forall i, j :: 0 <= i < j < |ar'| ==> EndOf(ar'[i]) <= EndOf(ar'[j]);
    SortedFindsNearest(ar', GossipSlot, token);
    AskedIsNearestIff(ar', ar, GossipSlot, token);
  }

  // Writing

  datatype PostDecision =
    | RejectPost(error: Error)
    | RedirectPost(owner: NodeGossip)
    | StoreAndReplicate(replicas: seq<NodeGossip>)
    | StoreThenFail(error: Error)

  /** How many replicas must confirm: all of them for a negative quorum. */
  function Confirmations(writequorum: int, replicaCount: nat): int {
    if writequorum < 0 then replicaCount else writequorum
  }

  function DecidePost(
      ar: seq<NodeGossip>, self: string, available: int, replicaCount: nat, writequorum: int, token: Uint64): PostDecision
  {
    var owner := OwnerIndex(ar, GossipSlot, token);
    if Confirmations(writequorum, replicaCount) > replicaCount then RejectPost(InvalidQuorum)
    else if owner == |ar| then RejectPost(NoNodeWithRequiredEndOfKeyRange)
    else if ar[owner].id != self then RedirectPost(ar[owner])
    else if available < replicaCount then RejectPost(NotEnoughNodes)
    else if replicaCount + 1 > |ar| then StoreThenFail(NotEnoughNodes)
    else StoreAndReplicate(Window(ar, owner, replicaCount + 1)[1..])
  }

  ghost predicate OwnedBy(ar: seq<NodeGossip>, token: Uint64, self: string) {
    OwnerIndex(ar, GossipSlot, token) < |ar| && ar[OwnerIndex(ar, GossipSlot, token)].id == self
  }

  /** Some AVAILABLE node of the view ends above the token. */
  ghost predicate HasOwner(v: View, token: Uint64) {
    exists r :: r in v.Values && r.state == Available && token < r.endOfKeyRange
  }

  lemma HasOwnerIff(ar: seq<NodeGossip>, v: View, token: Uint64)
    requires Lists(ar, v)
    ensures OwnerIndex(ar, GossipSlot, token) < |ar| <==> HasOwner(v, token)
  {
    LookupSucceedsIff(ar, GossipSlot, token);
    if i :| 0 <= i < |ar| && Above(GossipSlot(ar[i]), token) {
      assert ar[i] in multiset(ar);
    }
    if r :| r in v.Values && r.state == Available && token < r.endOfKeyRange {
      assert r in multiset(ar);
      var i :| 0 <= i < |ar| && ar[i] == r;
      assert Above(GossipSlot(ar[i]), token);
    }
  }

  lemma ListedSize(ar: seq<NodeGossip>, v: View)
    requires Keyed(v) && Lists(ar, v)
    ensures |ar| == |v|
  {
    assert |ar| == |multiset(ar)| == |v.Values|;
    KeyedSize(v);
  }

  /** What becomes of a write, case by case: an invalid quorum, a token nobody owns, another owner, too few AVAILABLE
      nodes, or a value stored. Each is an equivalence; a write is stored exactly at the token's owner, with a valid
      quorum and as many AVAILABLE nodes as there are replicas. */
  lemma PostOutcomeIff(
      v: View, ar: seq<NodeGossip>, self: string, replicaCount: nat, writequorum: int, token: Uint64)
    requires Keyed(v) && SortedView(ar, v)
    ensures var available := |InState(v, Available)|;
      var d := DecidePost(ar, self, available, replicaCount, writequorum, token);
      var valid := writequorum <= replicaCount;
      && (d == RejectPost(InvalidQuorum) <==> !valid)
      && (d == RejectPost(NoNodeWithRequiredEndOfKeyRange) <==> valid && !HasOwner(v, token))
      && (d.RedirectPost? <==> valid && HasOwner(v, token) && !OwnedBy(ar, token, self))
      && (d.RedirectPost? ==> OwnedBy(ar, token, d.owner.id) && d.owner in ar)
      && (d == RejectPost(NotEnoughNodes) <==> valid && OwnedBy(ar, token, self) && available < replicaCount)
      && (d.StoreAndReplicate? || d.StoreThenFail? <==>
            valid && OwnedBy(ar, token, self) && available >= replicaCount)
      && (d.StoreThenFail? ==> d.error == NotEnoughNodes)
  {
    HasOwnerIff(ar, v, token);
  }

  /** Two nodes with equal views agree on the owner, and the node a request is redirected to keeps it. */
  lemma RedirectReachesOwner(
      v: View, ar: seq<NodeGossip>, ar': seq<NodeGossip>, self: string, available: int, available': int,
      replicaCount: nat, writequorum: int, token: Uint64)
    requires DistinctAvailableEnds(v) && SortedView(ar, v) && SortedView(ar', v)
    requires DecidePost(ar, self, available, replicaCount, writequorum, token).RedirectPost?
    ensures var owner := DecidePost(ar, self, available, replicaCount, writequorum, token).owner;
      && Picked(ar', OwnerIndex(ar', GossipSlot, token)) == Ok(owner)
      && var decision := DecidePost(ar', owner.id, available', replicaCount, writequorum, token);
      && !decision.RedirectPost? && decision != RejectPost(NoNodeWithRequiredEndOfKeyRange)
  {
    OwnersAgree(ar, ar', v, token);
  }

  /** A write is stored and yet answered with an error exactly when the owner knows just as many nodes as there are
      replicas to be had, all of them AVAILABLE. */
  lemma StoredButFailedIff(
      v: View, ar: seq<NodeGossip>, self: string, replicaCount: nat, writequorum: int, token: Uint64)
    requires Keyed(v) && SortedView(ar, v)
    ensures DecidePost(ar, self, |InState(v, Available)|, replicaCount, writequorum, token).StoreThenFail? <==>
      && writequorum <= replicaCount
      && (exists r :: Picked(ar, OwnerIndex(ar, GossipSlot, token)) == Ok(r) && r.id == self)
      && |InState(v, Available)| == replicaCount == |v|
  {
    var owner := OwnerIndex(ar, GossipSlot, token);
    ListedSize(ar, v);
    assert InState(v, Available) <= v.Keys;
    SubsetSize(InState(v, Available), v.Keys);
    if owner < |ar| {
      assert Picked(ar, owner) == Ok(ar[owner]);
    }
  }

  lemma {:induction false} KeyedSize(v: View)
    requires Keyed(v)
    ensures |v.Values| == |v|
  {
    if v.Keys != {} {
      var k :| k in v.Keys;
      var rest := v - {k};
      KeyedSize(rest);
      assert v == rest[k := v[k]];
      assert v[k] !in rest.Values;
      assert v.Values == rest.Values + {v[k]};
      assert |v| == |rest| + 1;
    } else {
      assert v.Values == {};
    }
  }

  // Reading

  datatype GetDecision =
    | RejectGet(error: Error)
    | ServeLocally(owner: NodeGossip)
    | AskOwner(owner: NodeGossip)
    | AskReplicas(replicas: seq<NodeGossip>)

  function DecideGet(ar: seq<NodeGossip>, self: string, replicaCount: nat, readquorum: int, token: Uint64): GetDecision {
    var owner := OwnerIndex(ar, GossipSlot, token);
    if readquorum < -1 || readquorum > replicaCount then RejectGet(InvalidQuorum)
    else if replicaCount + 1 > |ar| then RejectGet(NotEnoughNodes)
    else if owner == |ar| then RejectGet(NoNodeWithRequiredEndOfKeyRange)
    else if self == ar[owner].id || readquorum == 0 then ServeLocally(ar[owner])
    else if readquorum < 0 then AskOwner(ar[owner])
    else AskReplicas(Window(ar, owner, replicaCount + 1)[1..])
  }

  /** What becomes of a read, case by case, each an equivalence: an invalid quorum, too few known nodes, a token nobody
      owns, the node's own store (at the owner or for quorum 0), the owner (quorum -1), or replicas. */
  lemma GetOutcomeIff(v: View, ar: seq<NodeGossip>, self: string, replicaCount: nat, readquorum: int, token: Uint64)
    requires Keyed(v) && SortedView(ar, v)
    ensures var d := DecideGet(ar, self, replicaCount, readquorum, token);
      var valid := -1 <= readquorum <= replicaCount;
      var served := valid && replicaCount < |v| && HasOwner(v, token);
      && (d == RejectGet(InvalidQuorum) <==> !valid)
      && (d == RejectGet(NotEnoughNodes) <==> valid && replicaCount >= |v|)
      && (d == RejectGet(NoNodeWithRequiredEndOfKeyRange) <==> valid && replicaCount < |v| && !HasOwner(v, token))
      && (d.ServeLocally? <==> served && (OwnedBy(ar, token, self) || readquorum == 0))
      && (d.AskOwner? <==> served && !OwnedBy(ar, token, self) && readquorum == -1)
      && (d.AskOwner? ==> OwnedBy(ar, token, d.owner.id) && d.owner in ar)
      && (d.AskReplicas? <==> served && !OwnedBy(ar, token, self) && readquorum >= 1)
  {
    HasOwnerIff(ar, v, token);
    ListedSize(ar, v);
  }

  /** An owner asked by a node with the same view serves the read itself. */
  lemma AskedOwnerServes(
      v: View, ar: seq<NodeGossip>, ar': seq<NodeGossip>, self: string, replicaCount: nat, readquorum: int, token: Uint64)
    requires Keyed(v) && DistinctAvailableEnds(v) && SortedView(ar, v) && SortedView(ar', v)
    requires DecideGet(ar, self, replicaCount, readquorum, token).AskOwner?
    ensures var owner := DecideGet(ar, self, replicaCount, readquorum, token).owner;
      DecideGet(ar', owner.id, replicaCount, readquorum, token) == ServeLocally(owner)
  {
    OwnersAgree(ar, ar', v, token);
    ListedSize(ar, v);
    ListedSize(ar', v);
  }

  /** Reads ask the very replicas that writes of the same key go to: distinct nodes, the owner not among them. */
  lemma ReadsAskWrittenReplicas(
      v: View, ar: seq<NodeGossip>, ar': seq<NodeGossip>, self: string, self': string, available: int,
      replicaCount: nat, writequorum: int, readquorum: int, token: Uint64)
    requires DistinctEnds(v) && SortedView(ar, v) && SortedView(ar', v)
    requires DecidePost(ar, self, available, replicaCount, writequorum, token).StoreAndReplicate?
    requires DecideGet(ar', self', replicaCount, readquorum, token).AskReplicas?
    ensures var replicas := DecidePost(ar, self, available, replicaCount, writequorum, token).replicas;
      && DecideGet(ar', self', replicaCount, readquorum, token).replicas == replicas
      && |replicas| == replicaCount
      && Distinct(replicas)
      && (forall i :: 0 <= i < |replicas| ==> Ok(replicas[i]) != Picked(ar, OwnerIndex(ar, GossipSlot, token)))
  {
    SortedViewUnique(ar, ar', v);
    ListedOnce(ar, v);
    ReplicaWindow(ar, GossipSlot, token, replicaCount + 1);
  }

  /** The first `n` elements in the order of a random permutation. */
  method PickNRandom<T>(arr: seq<T>, n: nat, perm: seq<nat>) returns (result: seq<T>)
    requires |perm| == |arr| && forall i :: 0 <= i < |perm| ==> perm[i] < |arr|
    requires n <= |arr|
    ensures |result| == n && forall i :: 0 <= i < n ==> result[i] == arr[perm[i]]
  {
    result := [];
    for i := 0 to n
      invariant |result| == i && forall j :: 0 <= j < i ==> result[j] == arr[perm[j]]
    {
      result := result + [arr[perm[i]]];
    }
  }
}
