/** A node's view of the cluster: the newest record per node, with a running count per state. */
module Gossips {
  import opened Types

  type View = map<string, NodeGossip>

  ghost predicate Keyed(v: View) {
    forall k :: k in v ==> v[k].id == k
  }

  // Merging received records

  /** What `postGossip` does with one record: a known node takes only a strictly newer record's clock and state. */
  function MergeOne(v: View, g: NodeGossip): View {
    if g.id in v then
      if g.lastUpdate > v[g.id].lastUpdate then v[g.id := v[g.id].(lastUpdate := g.lastUpdate, state := g.state)]
      else v
    else v[g.id := g]
  }

  function Merge(v: View, gs: seq<NodeGossip>): View {
    if gs == [] then v else MergeOne(Merge(v, gs[..|gs| - 1]), gs[|gs| - 1])
  }

  ghost function Pool(v: View, gs: seq<NodeGossip>): set<NodeGossip> {
    v.Values + set g | g in gs
  }

  /** (Id, LastUpdate) determines the state, and Id everything else. */
  ghost predicate Consistent(records: set<NodeGossip>) {
    forall a, b :: a in records && b in records && a.id == b.id ==>
      && a.host == b.host && a.endOfKeyRange == b.endOfKeyRange && a.replicaCount == b.replicaCount
      && (a.lastUpdate == b.lastUpdate ==> a.state == b.state)
  }

  /** For every node some record speaks of, the view holds one of those records, and none of them is newer. */
  ghost predicate HoldsNewest(v: View, records: set<NodeGossip>) {
    && Keyed(v)
    && (forall k :: k in v ==> v[k] in records)
    && (forall r :: r in records ==> r.id in v && r.lastUpdate <= v[r.id].lastUpdate)
  }

  lemma MergeOneNewest(v: View, g: NodeGossip, records: set<NodeGossip>)
    requires HoldsNewest(v, records) && Consistent(records + {g})
    ensures HoldsNewest(MergeOne(v, g), records + {g})
  {
    if g.id in v && g.lastUpdate > v[g.id].lastUpdate {
      assert v[g.id] in records + {g};
      assert v[g.id].(lastUpdate := g.lastUpdate, state := g.state) == g;
    }
  }

  lemma {:induction false} MergeNewest(v: View, gs: seq<NodeGossip>)
    requires Keyed(v) && Consistent(Pool(v, gs))
    ensures HoldsNewest(Merge(v, gs), Pool(v, gs))
  {
    if gs == [] {
      assert Pool(v, gs) == v.Values;
    } else {
      var last := gs[|gs| - 1];
      var front := gs[..|gs| - 1];
      assert gs == front + [last];
      assert Pool(v, gs) == Pool(v, front) + {last};
      MergeNewest(v, front);
      MergeOneNewest(Merge(v, front), last, Pool(v, front));
    }
  }

  lemma NewestUnique(a: View, b: View, records: set<NodeGossip>)
    requires HoldsNewest(a, records) && HoldsNewest(b, records) && Consistent(records)
    ensures a == b
  {
  }

  /** Merging is a join: two ways of delivering the same records, in any order, batching or number of copies, agree. */
  lemma MergeIsJoin(v: View, gs: seq<NodeGossip>, gs': seq<NodeGossip>)
    requires Keyed(v) && Consistent(Pool(v, gs))
    requires forall g :: g in gs <==> g in gs'
    ensures Merge(v, gs) == Merge(v, gs')
  {
    assert Pool(v, gs) == Pool(v, gs');
    MergeNewest(v, gs);
    MergeNewest(v, gs');
    NewestUnique(Merge(v, gs), Merge(v, gs'), Pool(v, gs));
  }

  /** Two batches one after the other are one batch. */
  lemma {:induction false} MergeBatches(v: View, gs: seq<NodeGossip>, gs': seq<NodeGossip>)
    ensures Merge(v, gs + gs') == Merge(Merge(v, gs), gs')
  {
    if gs' == [] {
      assert gs + gs' == gs;
    } else {
      MergeBatches(v, gs, gs'[..|gs'| - 1]);
      assert (gs + gs')[..|gs + gs'| - 1] == gs + gs'[..|gs'| - 1];
    }
  }

  lemma MergeTwo(v: View, a: NodeGossip, b: NodeGossip)
    ensures Merge(v, [a, b]) == MergeOne(MergeOne(v, a), b)
  {
    assert [a, b][..1] == [a] && [a][..0] == [];
    assert Merge(v, [a]) == MergeOne(Merge(v, []), a);
  }

  /** Two records of one unknown node commute exactly when Id fixes the static fields and (Id, LastUpdate) the state. */
  lemma MergesCommuteIff(v: View, a: NodeGossip, b: NodeGossip)
    requires a.id == b.id && a.id !in v
    ensures Merge(v, [a, b]) == Merge(v, [b, a]) <==> Consistent({a, b})
  {
    MergeTwo(v, a, b);
    MergeTwo(v, b, a);
    var ab := Merge(v, [a, b]);
    var ba := Merge(v, [b, a]);
    assert ab == v[a.id := ab[a.id]] && ba == v[a.id := ba[a.id]];
  }

  // The per-state counters

  function InState(v: View, s: NodeState): set<string> {
    set k | k in v && v[k].state == s
  }

  lemma CountsCoverView(v: View)
    ensures |InState(v, Unset)| + |InState(v, Joining)| + |InState(v, Bootstrapping)| + |InState(v, Available)| == |v|
  {
    var u, j, b, a := InState(v, Unset), InState(v, Joining), InState(v, Bootstrapping), InState(v, Available);
    assert v.Keys == u + j + b + a;
    assert |u + j| == |u| + |j| && |u + j + b| == |u + j| + |b| && |u + j + b + a| == |u + j + b| + |a|;
  }

  lemma InStateUpserted(v: View, key: string, g: NodeGossip, s: NodeState)
    ensures |InState(v[key := g], s)| ==
      |InState(v, s)| - (if key in v && v[key].state == s then 1 else 0) + (if g.state == s then 1 else 0)
  {
    var was := InState(v, s) - {key};
    assert InState(v[key := g], s) == if g.state == s then was + {key} else was;
    assert InState(v, s) == if key in v && v[key].state == s then was + {key} else was;
  }

  /** A missing counter reads as zero. */
  function CountOf(stateCount: map<NodeState, int>, s: NodeState): int {
    if s in stateCount then stateCount[s] else 0
  }

  class Gossip {
    var store: View
    var stateCount: map<NodeState, int>

    function Count(s: NodeState): int
      reads this
    {
      CountOf(stateCount, s)
    }

    /** The counters agree with a recount of the stored records. */
    ghost predicate Valid()
      reads this
    {
      forall s: NodeState :: Count(s) == |InState(store, s)|
    }

    constructor ()
      ensures Valid() && store == map[]
    {
      store := map[];
      stateCount := map[];
      new;
      forall s: NodeState ensures InState(store, s) == {} {
      }
    }

    method Get(key: string) returns (r: Option<NodeGossip>)
      ensures r == if key in store then Some(store[key]) else None
    {
      r := if key in store then Some(store[key]) else None;
    }

    method Read() returns (c: View)
      ensures c == store
    {
      c := map[];
      var left := store.Keys;
      while left != {}
        invariant left <= store.Keys
        invariant c.Keys == store.Keys - left
        invariant forall k :: k in c ==> c[k] == store[k]
        decreases left
      {
        var k :| k in left;
        c := c[k := store[k]];
        left := left - {k};
      }
    }

    method Upsert(key: string, val: NodeGossip)
      requires Valid()
      modifies this
      ensures Valid() && store == old(store)[key := val]
    {
      ghost var was, counts := store, stateCount;
      var exist := key in store;
      var oldState := if exist then store[key].state else Unset;
      store := store[key := val];
      if exist {
        stateCount := stateCount[oldState := Count(oldState) - 1];
      }
      stateCount := stateCount[val.state := Count(val.state) + 1];
      forall s: NodeState ensures Count(s) == |InState(store, s)| {
        assert CountOf(counts, s) == |InState(was, s)|;
        InStateUpserted(was, key, val, s);
      }
    }

    method Size() returns (n: nat)
      requires Valid()
      ensures n == |store|
      ensures n == Count(Unset) + Count(Joining) + Count(Bootstrapping) + Count(Available)
    {
      CountsCoverView(store);
      n := |store|;
    }

    method NumNodeInState(s: NodeState) returns (n: int)
      requires Valid()
      ensures n == |set k | k in store && store[k].state == s|
    {
      n := 0;
      if s in stateCount {
        n := stateCount[s];
      }
      assert n == Count(s) == |InState(store, s)|;
    }
  }
}
