/** A storage node's handlers, without the HTTP around them. */
module Nodes {
  import opened Types
  import opened StoreLog
  import opened DataStores
  import opened Gossips
  import opened Ring
  import opened Routing
  import opened Membership
  import opened Replicas
  import opened Bootstrap
  import opened Streams

  /** What a handler answers, or whom it asks next. */
  datatype PostOutcome =
    | PostRejected(error: Error)
    | PostRedirected(owner: NodeGossip)
    | PostStored(version: Uint64, replicas: seq<NodeGossip>, confirmations: int)
    | PostStoredThenFailed(version: Uint64, error: Error)

  datatype GetOutcome =
    | GetRejected(error: Error)
    | GetServed(value: Json, version: Uint64)
    | GetFromOwner(owner: NodeGossip)
    | GetFromReplicas(asked: seq<NodeGossip>)

  /** The outcome and the store change a decision about a write stands for. */
  ghost predicate Answers(d: PostDecision, put: WriteOp, confirmations: int, was: Store, now: Store, outcome: PostOutcome) {
    match d
    case RejectPost(e) => outcome == PostRejected(e) && now == was
    case RedirectPost(owner) => outcome == PostRedirected(owner) && now == was
    case StoreAndReplicate(replicas) =>
      outcome == PostStored(NextVersion(was, put), replicas, confirmations) && Commits(was, put, now)
    case StoreThenFail(e) =>
      outcome == PostStoredThenFailed(NextVersion(was, put), e) && Commits(was, put, now)
  }

  /** The outcome a decision about a read stands for; `seen` is what the node's own store shows. */
  ghost predicate Reads(d: GetDecision, seen: (Json, Uint64), readquorum: int, perm: seq<nat>, outcome: GetOutcome) {
    match d
    case RejectGet(e) => outcome == GetRejected(e)
    case ServeLocally(_) => outcome == GetServed(seen.0, seen.1)
    case AskOwner(owner) => outcome == GetFromOwner(owner)
    case AskReplicas(replicas) =>
      && |replicas| == |perm| && (forall i :: 0 <= i < |perm| ==> perm[i] < |replicas|)
      && outcome.GetFromReplicas? && |outcome.asked| == readquorum <= |perm|
      && forall i :: 0 <= i < readquorum ==> outcome.asked[i] == replicas[perm[i]]
  }

  /** Every key the node held has gained just what the first `n` events brought; every other holds just that, the
      first entry as version 1. */
  ghost predicate Caught(before: Store, now: Store, events: seq<Event>, n: nat)
    requires n <= |events|
  {
    forall k ::
      if k in before then multiset(LogOf(now, k)) == multiset(before[k]) + multiset(Arrived(events, k, n))
      else Replays(LogOf(now, k), Arrived(events, k, n))
  }

  lemma CaughtNext(before: Store, was: Joiner, events: seq<Event>, i: nat, now: Joiner)
    requires i < |events| && WellFormed(before) && WellFormed(was.store)
    requires Caught(before, was.store, events, i) && Applies(was, events[i], now)
    ensures Caught(before, now.store, events, i + 1)
  {
    forall k ensures
      if k in before then multiset(LogOf(now.store, k)) == multiset(before[k]) + multiset(Arrived(events, k, i + 1))
      else Replays(LogOf(now.store, k), Arrived(events, k, i + 1))
    {
      if k in before {
        HeldOn(before[k], was.store, k, multiset(Arrived(events, k, i)));
        AppliesAdds(was, events[i], now, k);
      } else {
        AppliesReplays(was, events[i], now, k, Arrived(events, k, i));
      }
    }
  }

  lemma HeldOn(log: Log, s: Store, k: string, gained: multiset<StoreEntry>)
    requires log != [] && multiset(LogOf(s, k)) == multiset(log) + gained
    ensures k in s
  {
  }

  /** The answer given before anything is stored, if the decision has one. */
  function EarlyAnswer(d: PostDecision): Option<PostOutcome> {
    match d
    case RejectPost(e) => Some(PostRejected(e))
    case RedirectPost(owner) => Some(PostRedirected(owner))
    case _ => None
  }

  lemma StoredAnswers(
      nodes: seq<NodeGossip>, self: string, available: int, replicaCount: nat, writequorum: int, token: Uint64,
      put: WriteOp, was: Store, now: Store, outcome: PostOutcome)
    requires EarlyAnswer(DecidePost(nodes, self, available, replicaCount, writequorum, token)).None?
    requires Commits(was, put, now) && OwnerIndex(nodes, GossipSlot, token) < |nodes|
    requires outcome ==
      if replicaCount + 1 > |nodes| then PostStoredThenFailed(NextVersion(was, put), NotEnoughNodes)
      else PostStored(NextVersion(was, put), Window(nodes, OwnerIndex(nodes, GossipSlot, token), replicaCount + 1)[1..],
                      Confirmations(writequorum, replicaCount))
    ensures Answers(DecidePost(nodes, self, available, replicaCount, writequorum, token),
                    put, Confirmations(writequorum, replicaCount), was, now, outcome)
  {
  }

  lemma EarlyAnswers(d: PostDecision, put: WriteOp, confirmations: int, was: Store, outcome: PostOutcome)
    requires EarlyAnswer(d) == Some(outcome)
    ensures Answers(d, put, confirmations, was, was, outcome)
  {
  }

  lemma NoSeedsNoView(members: Members, seeds: set<string>)
    requires Askable(members, seeds)
    ensures SeedView(members, seeds) == map[] <==> seeds == {}
  {
    assert SeedView(members, seeds).Keys == seeds;
  }

  class Node {
    const id: string
    const host: string
    const endOfKeyRange: Uint64
    /** When the node was created; never moved on. */
    const lastUpdate: nat
    const replicaCount: nat
    const gossip: Gossip
    const storage: DataStore
    var state: NodeState
    var gossipMeta: seq<nat>

    /** `gossip` holds what the seeds answered; `created` and `now` are two readings of the clock. */
    constructor (id: string, host: string, endOfKeyRange: Uint64, replicaCount: nat,
                 gossip: Gossip, storage: DataStore, created: nat, now: nat)
      requires gossip.Valid() && Keyed(gossip.store) && storage.Valid()
      modifies gossip
      ensures Valid() && this.gossip == gossip && this.storage == storage && gossipMeta == []
      ensures state == if old(gossip.store) == map[] then Available else Joining
      ensures gossip.store == old(gossip.store)[id := NodeGossip(id, host, endOfKeyRange, now, state, replicaCount)]
      ensures this.id == id && this.host == host && this.endOfKeyRange == endOfKeyRange
      ensures this.replicaCount == replicaCount && lastUpdate == created
      ensures forall members: Members, seeds: set<string> ::
        Askable(members, seeds) && old(gossip.store) == SeedView(members, seeds) ==>
          Mirrors(Newcomer(members, NodeGossip(id, host, endOfKeyRange, created, Unset, replicaCount), seeds, now))
    {
      this.id, this.host, this.endOfKeyRange, this.replicaCount := id, host, endOfKeyRange, replicaCount;
      lastUpdate := created;
      this.gossip, this.storage := gossip, storage;
      gossipMeta := [];
      state := if gossip.store == map[] then Available else Joining;
      new;
      gossip.Upsert(id, NodeGossip(id, host, endOfKeyRange, now, state, replicaCount));
      forall members: Members, seeds: set<string> |
        Askable(members, seeds) && old(gossip.store) == SeedView(members, seeds)
        ensures Mirrors(Newcomer(members, NodeGossip(id, host, endOfKeyRange, created, Unset, replicaCount), seeds, now))
      {
        NoSeedsNoView(members, seeds);
      }
    }

    ghost predicate Valid()
      reads gossip, storage`store, storage.Buffers()
    {
      gossip.Valid() && Keyed(gossip.store) && storage.Valid()
    }

    /** The node is in the situation the cluster machine calls `m`. */
    ghost predicate Mirrors(m: Member)
      reads this, gossip
    {
      && m.state == state && m.view == gossip.store && m.meta == gossipMeta
      && m.history != []
      && var born := m.history[0];
         born == NodeGossip(id, host, endOfKeyRange, lastUpdate, born.state, replicaCount)
    }

    /** What a newcomer learns from its seed. */
    method GetMetaDataNode() returns (g: NodeGossip)
      ensures g == NodeGossip(id, host, endOfKeyRange, lastUpdate, state, replicaCount)
      ensures forall m :: Mirrors(m) ==> g == Metadata(m)
    {
      g := NodeGossip(id, host, endOfKeyRange, lastUpdate, state, replicaCount);
    }

    // Gossip

    method ChangeStateToBootstrappingIfReady() returns (changed: bool)
      requires Valid()
      modifies `state, `gossipMeta
      ensures Valid()
      ensures old(state) != Joining ==> !changed && state == old(state) && gossipMeta == old(gossipMeta)
      ensures old(state) == Joining ==>
        && gossipMeta == old(gossipMeta) + [|gossip.store|]
        && changed == IsStable(gossipMeta)
        && state == if changed then Bootstrapping else Joining
      ensures forall m :: old(Mirrors(m)) ==> Mirrors(AfterCheck(m))
    {
      if state != Joining {
        return false;
      }
      var numNodes := gossip.Size();
      gossipMeta := gossipMeta + [numNodes];
      changed := IsStable(gossipMeta);
      if changed {
        state := Bootstrapping;
      }
    }

    /** Get, compare, upsert. */
    method MergeRecord(g: NodeGossip)
      requires gossip.Valid() && Keyed(gossip.store)
      modifies gossip
      ensures gossip.Valid() && Keyed(gossip.store) && gossip.store == MergeOne(old(gossip.store), g)
      ensures forall m :: old(Mirrors(m)) ==> Mirrors(m.(view := MergeOne(m.view, g)))
    {
      var known := gossip.Get(g.id);
      if known.Some? {
        if g.lastUpdate > known.value.lastUpdate {
          gossip.Upsert(g.id, known.value.(lastUpdate := g.lastUpdate, state := g.state));
        }
      } else {
        gossip.Upsert(g.id, g);
      }
    }

    method MergeAll(body: seq<NodeGossip>)
      requires Valid()
      modifies gossip
      ensures Valid() && gossip.store == Merge(old(gossip.store), body)
    {
      for i := 0 to |body|
        invariant gossip.Valid() && Keyed(gossip.store)
        invariant gossip.store == Merge(old(gossip.store), body[..i])
      {
        assert body[..i + 1] == body[..i] + [body[i]];
        MergeRecord(body[i]);
      }
      assert body[..|body|] == body;
    }

    /** Merges a batch of records, then checks for readiness. */
    method PostGossip(body: seq<NodeGossip>) returns (changed: bool)
      requires Valid()
      modifies gossip, `state, `gossipMeta
      ensures Valid() && gossip.store == Merge(old(gossip.store), body)
      ensures changed <==> old(state) == Joining && IsStable(gossipMeta)
      ensures state == if changed then Bootstrapping else old(state)
      ensures gossipMeta == old(gossipMeta) + if old(state) == Joining then [|gossip.store|] else []
    {
      MergeAll(body);
      changed := ChangeStateToBootstrappingIfReady();
    }

    method PublishSelf(now: nat)
      requires Valid()
      modifies gossip
      ensures Valid()
      ensures gossip.store == old(gossip.store)[id := NodeGossip(id, host, endOfKeyRange, now, state, replicaCount)]
      ensures forall m :: old(Mirrors(m)) ==> Mirrors(AfterPublish(m, id, now))
    {
      gossip.Upsert(id, NodeGossip(id, host, endOfKeyRange, now, state, replicaCount));
    }

    /** Publishes the node's own record and returns, per other known node, its host and the records sent to it. */
    method BroadcastGossip(now: nat) returns (messages: map<string, (string, seq<NodeGossip>)>)
      requires Valid()
      modifies gossip
      ensures Valid()
      ensures id == "" ==> messages == map[] && gossip.store == old(gossip.store)
      ensures id != "" ==>
        && gossip.store == old(gossip.store)[id := NodeGossip(id, host, endOfKeyRange, now, state, replicaCount)]
        && messages.Keys == gossip.store.Keys - {id}
        && forall k :: k in messages ==>
             && messages[k].0 == gossip.store[k].host
             && Lists(messages[k].1, gossip.store)
      ensures id != "" ==> forall m :: old(Mirrors(m)) ==> Mirrors(AfterPublish(m, id, now))
    {
      messages := map[];
      if id == "" {
        return;
      }
      PublishSelf(now);
      var gossipMap := gossip.Read();
      var gossipArr := MapToArr(gossipMap);
      EnumerationBag(gossipMap, gossipArr);
      messages := map k | k in gossipMap && k != id :: (gossipMap[k].host, gossipArr);
    }

    // Bootstrapping

    /** The node asked for a snapshot: the lookup runs over the gossip map in whatever order it was enumerated. */
    method FindSnapshotSource() returns (r: Result<NodeGossip>)
      requires Valid()
      ensures exists order ::
        && Lists(order, gossip.store)
        && r == Picked(order, TakerIndex(order, GossipSlot, (endOfKeyRange + 1) % 0x1_0000_0000_0000_0000))
    {
      var gossipMap := gossip.Read();
      var gossipNodes := MapToArr(gossipMap);
      EnumerationBag(gossipMap, gossipNodes);
      r := GetNodeByToken(gossipNodes, GossipSlot, (endOfKeyRange + 1) % 0x1_0000_0000_0000_0000);
    }

    method ApplyEntry(key: string, e: StoreEntry, ghost before: Store, ghost done: seq<StoreEntry>)
      requires Valid() && PutsAll(before, key, done, storage.Contents())
      modifies storage, storage.Buffers(), storage.Hooks()
      ensures Valid() && storage.postWriteHook == old(storage.postWriteHook)
      ensures fresh(storage.Buffers() - old(storage.Buffers()))
      ensures PutsAll(before, key, done + [e], storage.Contents())
    {
      ghost var mid := storage.Contents();
      var _ := storage.PutRaw(key, e.value, Some(e.version), false);
      PutsOneMore(before, key, done, mid, e, storage.Contents());
    }

    method ApplySnapshot(key: string, values: seq<StoreEntry>)
      requires Valid()
      modifies storage, storage.Buffers(), storage.Hooks()
      ensures Valid() && storage.postWriteHook == old(storage.postWriteHook)
      ensures fresh(storage.Buffers() - old(storage.Buffers()))
      ensures PutsAll(old(storage.Contents()), key, values, storage.Contents())
    {
      ghost var before := storage.Contents();
      PutsNone(before, key);
      for i := 0 to |values|
        invariant Valid() && storage.postWriteHook == old(storage.postWriteHook)
        invariant fresh(storage.Buffers() - old(storage.Buffers()))
        invariant PutsAll(before, key, values[..i], storage.Contents())
      {
        ApplyEntry(key, values[i], before, values[..i]);
        assert values[..i + 1] == values[..i] + [values[i]];
      }
      assert values[..|values|] == values;
    }

    /** One turn of the consuming loop is one consuming step of the session machine. */
    method HandleEvent(e: Event, ghost consumed: nat)
      requires Valid()
      modifies `state, storage, storage.Buffers(), storage.Hooks()
      ensures Valid() && storage.postWriteHook == old(storage.postWriteHook)
      ensures fresh(storage.Buffers() - old(storage.Buffers()))
      ensures Applies(Joiner(old(storage.Contents()), old(state), consumed), e,
                      Joiner(storage.Contents(), state, consumed + 1))
      ensures forall m :: old(Mirrors(m)) ==> Mirrors(if e.SnapshotComplete? then AfterServe(m) else m)
    {
      match e
      case SnapshotEvent(key, values) => ApplySnapshot(key, values);
      case SnapshotComplete => state := Available;
      case LiveEvent(key, value, version) => var _ := storage.PutRaw(key, value, Some(version), false);
      case LiveComplete =>
    }

    method ConsumeNext(events: seq<Event>, i: nat, ghost before: Store)
      requires i < |events|
      requires Valid() && WellFormed(before) && Caught(before, storage.Contents(), events, i)
      modifies `state, storage, storage.Buffers(), storage.Hooks()
      ensures Valid() && storage.postWriteHook == old(storage.postWriteHook)
      ensures fresh(storage.Buffers() - old(storage.Buffers()))
      ensures state == if events[i].SnapshotComplete? then Available else old(state)
      ensures Caught(before, storage.Contents(), events, i + 1)
    {
      ghost var was := Joiner(storage.Contents(), state, i);
      HandleEvent(events[i], i);
      ghost var now := Joiner(storage.Contents(), state, i + 1);
      CaughtNext(before, was, events, i, now);
    }

    /** The consuming loop: every key ends up with what arrived added to it, and the node serves once told the snapshot
        is complete. */
    method ConsumeStream(events: seq<Event>)
      requires Valid()
      modifies `state, storage, storage.Buffers(), storage.Hooks()
      ensures Valid()
      ensures state == if SnapshotComplete in events then Available else old(state)
      ensures Caught(old(storage.Contents()), storage.Contents(), events, |events|)
    {
      ghost var before := storage.Contents();
      for i := 0 to |events|
        invariant Valid() && storage.postWriteHook == old(storage.postWriteHook)
        invariant fresh(storage.Buffers() - old(storage.Buffers()))
        invariant state == if SnapshotComplete in events[..i] then Available else old(state)
        invariant Caught(before, storage.Contents(), events, i)
      {
        ConsumeNext(events, i, before);
        assert events[..i + 1] == events[..i] + [events[i]];
      }
      assert events[..|events|] == events;
    }

    // Data

    /** A write a replica is sent: stored as is. */
    method PostReplicaData(key: string, value: Json, version: Uint64)
      requires Valid()
      modifies storage, storage.Buffers(), storage.Hooks()
      ensures Valid() && Commits(old(storage.Contents()), WriteOp(key, value, Some(version), true), storage.Contents())
    {
      var _ := storage.PutRaw(key, value, Some(version), true);
    }

    /** A client write: stored exactly when the decision is to store, under the version reported. */
    method PostData(sum: string -> Uint64, key: string, value: Json, writequorum: int)
      returns (outcome: PostOutcome)
      requires Valid()
      modifies storage, storage.Buffers(), storage.Hooks()
      ensures Valid()
      ensures exists ar :: SortedView(ar, gossip.store) && Answers(
        DecidePost(ar, id, |InState(gossip.store, Available)|, replicaCount, writequorum, HashKey(sum, key, TOTAL_SLOTS)),
        WriteOp(key, value, None, false), Confirmations(writequorum, replicaCount),
        old(storage.Contents()), storage.Contents(), outcome)
    {
      var view := gossip.Read();
      var ar := RingOrder(view);
      outcome := PostInOrder(ar, HashKey(sum, key, TOTAL_SLOTS), key, value, writequorum);
    }

    method PostInOrder(nodes: seq<NodeGossip>, token: Uint64, key: string, value: Json, writequorum: int)
      returns (outcome: PostOutcome)
      requires Valid()
      modifies storage, storage.Buffers(), storage.Hooks()
      ensures Valid()
      ensures Answers(
        DecidePost(nodes, id, |InState(gossip.store, Available)|, replicaCount, writequorum, token),
        WriteOp(key, value, None, false), Confirmations(writequorum, replicaCount),
        old(storage.Contents()), storage.Contents(), outcome)
    {
      ghost var was := storage.Contents();
      ghost var decision := DecidePost(nodes, id, |InState(gossip.store, Available)|, replicaCount, writequorum, token);
      var early := RoutePost(nodes, token, writequorum);
      if early.Some? {
        EarlyAnswers(decision, WriteOp(key, value, None, false), Confirmations(writequorum, replicaCount), was, early.value);
        return early.value;
      }
      outcome := StoreAtOwner(nodes, token, key, value, if writequorum < 0 then replicaCount else writequorum);
      StoredAnswers(nodes, id, |InState(gossip.store, Available)|, replicaCount, writequorum, token,
                    WriteOp(key, value, None, false), was, storage.Contents(), outcome);
    }

    /** The checks before anything is stored; no answer means the node handles the write itself. */
    method RoutePost(nodes: seq<NodeGossip>, token: Uint64, writequorum: int) returns (early: Option<PostOutcome>)
      requires gossip.Valid()
      ensures early == EarlyAnswer(
        DecidePost(nodes, id, |InState(gossip.store, Available)|, replicaCount, writequorum, token))
    {
      var confirmations := if writequorum < 0 then replicaCount else writequorum;
      if confirmations < -1 || confirmations > replicaCount {
        return Some(PostRejected(InvalidQuorum));
      }
      var owner := GetNode(nodes, GossipSlot, token);
      if owner.Err? {
        return Some(PostRejected(owner.error));
      }
      if owner.value.id != id {
        return Some(PostRedirected(owner.value));
      }
      var available := gossip.NumNodeInState(Available);
      if available < replicaCount {
        return Some(PostRejected(NotEnoughNodes));
      }
      early := None;
    }

    /** The owner's part of a write: the store comes first, the replicas are looked up after it. */
    method StoreAtOwner(nodes: seq<NodeGossip>, token: Uint64, key: string, value: Json, confirmations: int)
      returns (outcome: PostOutcome)
      requires Valid() && OwnerIndex(nodes, GossipSlot, token) < |nodes|
      modifies storage, storage.Buffers(), storage.Hooks()
      ensures Valid()
      ensures Commits(old(storage.Contents()), WriteOp(key, value, None, false), storage.Contents())
      ensures var version := NextVersion(old(storage.Contents()), WriteOp(key, value, None, false));
        outcome ==
        if replicaCount + 1 > |nodes| then PostStoredThenFailed(version, NotEnoughNodes)
        else PostStored(version, Window(nodes, OwnerIndex(nodes, GossipSlot, token), replicaCount + 1)[1..], confirmations)
    {
      var newVersion := storage.Put(key, value);
      var ownerAndReplicas := GetNNode(nodes, GossipSlot, token, replicaCount + 1);
      if ownerAndReplicas.Err? {
        return PostStoredThenFailed(newVersion, ownerAndReplicas.error);
      }
      outcome := PostStored(newVersion, ownerAndReplicas.value[1..], confirmations);
    }

    /** A client read; `perm` is the random order replicas are picked in. */
    method GetData(sum: string -> Uint64, key: string, readquorum: int, perm: seq<nat>)
      returns (outcome: GetOutcome)
      requires Valid()
      requires |perm| == replicaCount && forall i :: 0 <= i < |perm| ==> perm[i] < replicaCount
      ensures exists ar :: SortedView(ar, gossip.store) && Reads(
        DecideGet(ar, id, replicaCount, readquorum, HashKey(sum, key, TOTAL_SLOTS)),
        Visible(storage.Contents(), key), readquorum, perm, outcome)
    {
      var view := gossip.Read();
      var nodes := RingOrder(view);
      if readquorum < -1 || readquorum > replicaCount {
        return GetRejected(InvalidQuorum);
      }
      var token := HashKey(sum, key, TOTAL_SLOTS);
      var ownerAndReplicas := GetNNode(nodes, GossipSlot, token, replicaCount + 1);
      if ownerAndReplicas.Err? {
        return GetRejected(ownerAndReplicas.error);
      }
      var ownerNode := ownerAndReplicas.value[0];
      var replicas := ownerAndReplicas.value[1..];
      RingPosition(OwnerIndex(nodes, GossipSlot, token), 0, |nodes|);
      if id == ownerNode.id || readquorum == 0 {
        var value, version := storage.GetValAndVersion(key);
        return GetServed(value, version);
      }
      if readquorum < 0 {
        return GetFromOwner(ownerNode);
      }
      var asked := PickNRandom(replicas, readquorum, perm);
      outcome := GetFromReplicas(asked);
    }
  }
}
