/** What clients rely on, across routing, replication and bootstrapping together. */
module Guarantees {
  import opened Types
  import opened Sets
  import opened StoreLog
  import opened Gossips
  import opened Ring
  import opened Routing
  import F = FanOut
  import Q = Quorum
  import S = Streams
  import T = SessionSteps
  import B = Bootstrap

  /** The keys a source streams to a node ending at `end`. */
  function SnapshotFilter(sum: string -> Uint64, end: Uint64): string -> bool {
    key => HashKey(sum, key, TOTAL_SLOTS) <= end
  }

  /** The filter lets through every key that changes hands. */
  lemma MovedKeysPass(before: seq<NodeGossip>, after: seq<NodeGossip>, at: nat, sum: string -> Uint64, key: string)
    requires Ordered(before, GossipSlot) && AvailableApart(after, GossipSlot)
    requires BecomesAvailable(before, after, GossipSlot, at) && before[at].endOfKeyRange < TOTAL_SLOTS
    requires OwnerIndex(after, GossipSlot, HashKey(sum, key, TOTAL_SLOTS)) !=
             OwnerIndex(before, GossipSlot, HashKey(sum, key, TOTAL_SLOTS))
    ensures SnapshotFilter(sum, before[at].endOfKeyRange)(key)
  {
    MinimalHandoff(before, after, GossipSlot, at, HashKey(sum, key, TOTAL_SLOTS));
  }

  /** Nothing of a key whose token lies above the joiner's end is streamed to it. */
  lemma ForeignKeysStay(
      sum: string -> Uint64, end: Uint64, ss: seq<S.Session>, steps: seq<S.Step>, n: nat, e: Event)
    requires S.SessionRun(SnapshotFilter(sum, end), ss, steps) && n <= |steps| && e in ss[n].sent
    ensures e.SnapshotEvent? || e.LiveEvent? ==> HashKey(sum, e.key, TOTAL_SLOTS) <= end
  {
    T.RefusedNeverSent(SnapshotFilter(sum, end), ss, steps, n);
  }

  /** The node asked for the snapshot is the owner of every token that changes hands exactly when the enumeration the
      lookup ran over led it to the nearest AVAILABLE node. */
  lemma AskedIsOldOwnerIff(
      before: seq<NodeGossip>, after: seq<NodeGossip>, order: seq<NodeGossip>, at: nat, token: Uint64)
    requires Ordered(before, GossipSlot) && AvailableApart(after, GossipSlot) && multiset(order) == multiset(before)
    requires BecomesAvailable(before, after, GossipSlot, at) && before[at].endOfKeyRange < TOTAL_SLOTS
    requires OwnerIndex(after, GossipSlot, token) != OwnerIndex(before, GossipSlot, token)
    requires OwnerIndex(before, GossipSlot, token) < |before|
    ensures Picked(order, TakerIndex(order, GossipSlot, before[at].endOfKeyRange + 1)) ==
            Picked(before, OwnerIndex(before, GossipSlot, token)) <==>
            FindsNearest(order, GossipSlot, before[at].endOfKeyRange)
  {
    MinimalHandoff(before, after, GossipSlot, at, token);
    AskedIsNearestIff(order, before, GossipSlot, before[at].endOfKeyRange);
  }

  /** Hand-off end to end. `before` and `after` are the ring as a node in `at` turns AVAILABLE, `order` the enumeration
      it looked its source up in, `stores` what each node holds. When the lookup led to the nearest AVAILABLE node and
      the session with that source has drained in the expected order, a key whose owner changes reads the same at its
      new owner as at its old one. */
  lemma HandoffKeepsData(
      before: seq<NodeGossip>, after: seq<NodeGossip>, order: seq<NodeGossip>, at: nat, stores: map<string, Store>,
      sum: string -> Uint64, key: string, ss: seq<S.Session>, steps: seq<S.Step>, n: nat)
    requires Ordered(before, GossipSlot) && AvailableApart(after, GossipSlot) && multiset(order) == multiset(before)
    requires BecomesAvailable(before, after, GossipSlot, at) && after[at].id == before[at].id
    requires before[at].endOfKeyRange < TOTAL_SLOTS
    requires forall g :: g in before ==> g.id in stores
    requires FindsNearest(order, GossipSlot, before[at].endOfKeyRange)
    requires B.PutsOnly(SnapshotFilter(sum, before[at].endOfKeyRange), ss, steps, n, key) && B.Ready(ss[0])
    requires B.Drained(ss[n], key) && B.InOrder(ss[n], key)
    requires forall asked :: Picked(order, TakerIndex(order, GossipSlot, before[at].endOfKeyRange + 1)) == Ok(asked) ==>
      asked.id in stores && stores[asked.id] == ss[n].source.store
    requires stores[before[at].id] == ss[n].joiner.store
    requires var token := HashKey(sum, key, TOTAL_SLOTS);
      && OwnerIndex(after, GossipSlot, token) != OwnerIndex(before, GossipSlot, token)
      && OwnerIndex(before, GossipSlot, token) < |before|
    ensures var token := HashKey(sum, key, TOTAL_SLOTS);
      var was, now := before[OwnerIndex(before, GossipSlot, token)], after[OwnerIndex(after, GossipSlot, token)];
      && now.id == before[at].id
      && Visible(stores[now.id], key) == Visible(stores[was.id], key)
  {
    var token := HashKey(sum, key, TOTAL_SLOTS);
    MinimalHandoff(before, after, GossipSlot, at, token);
    AskedIsOldOwnerIff(before, after, order, at, token);
    MovedKeysPass(before, after, at, sum, key);
    B.BootstrapConverges(SnapshotFilter(sum, before[at].endOfKeyRange), ss, steps, n, key);
  }

  /** When neither timeout nor disconnect ends the wait, a stored write is answered with every replica's result, or with
      as many acknowledgements as its quorum asks for; a negative quorum waits for every replica. */
  lemma WriteAwaitsQuorum(replicaCount: nat, writequorum: int, ss: seq<F.State>, steps: seq<F.Step>)
    requires replicaCount < 0x8000_0000 && writequorum <= replicaCount
    requires F.FanOutRun(replicaCount, Confirmations(writequorum, replicaCount), ss, steps)
    requires ss[|steps|].closed && !ss[|steps|].external
    ensures |ss[|steps|].chan| == replicaCount || (writequorum >= 0 && F.Successes(ss[|steps|].chan) >= writequorum)
  {
    var confirmations := Confirmations(writequorum, replicaCount);
    F.AllResultsOrEnough(replicaCount, confirmations, ss, steps);
    F.ChannelFits(replicaCount, confirmations, ss, steps, |steps|);
  }

  /** Overlapping quorums, with the readers given as the first places of a permutation of the replicas. */
  lemma FirstPicksOverlap(
      lives: seq<Q.History>, op: WriteOp, minSuccess: int, ss: seq<F.State>, steps: seq<F.Step>, ackAt: seq<nat>,
      perm: seq<nat>, readquorum: nat, readAt: seq<nat>, replies: seq<Option<Q.Reply>>) returns (acker: nat, shower: nat)
    requires |lives| == |ackAt| == |readAt| == |perm| && readquorum <= |perm| && op.version.Some?
    requires Distinct(perm) && forall i :: 0 <= i < |perm| ==> perm[i] < |lives|
    requires F.FanOutRun(|lives|, minSuccess, ss, steps)
    requires forall i :: 0 <= i < |lives| && F.Sent(i, true) in ss[|steps|].chan ==>
      Q.Acked(lives[i], ackAt[i], op) && ackAt[i] < readAt[i]
    requires |replies| == readquorum && forall i :: 0 <= i < readquorum ==>
      Q.Answered(lives[perm[i]], readAt[perm[i]], op.key, replies[i])
    requires F.Successes(ss[|steps|].chan) + readquorum > |lives|
    ensures Q.Fold(replies, |replies|).Seen? && Q.Fold(replies, |replies|).version >= op.version.value
    ensures acker < readquorum && F.Sent(perm[acker], true) in ss[|steps|].chan
    ensures shower < readquorum && Q.Shows(lives[perm[shower]], readAt[perm[shower]], op.key, Q.Fold(replies, |replies|))
  {
    var picked := perm[..readquorum];
    assert forall i :: 0 <= i < readquorum ==> picked[i] == perm[i];
    Q.QuorumOverlap(lives, op, minSuccess, ss, steps, ackAt, picked, readAt, replies);
    acker :| 0 <= acker < |picked| && F.Sent(picked[acker], true) in ss[|steps|].chan;
    shower :| 0 <= shower < |picked| &&
              Q.Shows(lives[picked[shower]], readAt[picked[shower]], op.key, Q.Fold(replies, |replies|));
  }

  /** A write the owner fanned out and a later read by any node with the same view: when acknowledgements and readers
      together outnumber the replicas, a replica that acknowledged is among those asked, and the read returns the
      written version or a newer one. `lives` are the histories of the replicas, in ring order after the owner. */
  lemma QuorumReadSeesWrite(
      v: View, ar: seq<NodeGossip>, ar': seq<NodeGossip>, owner: string, reader: string, available: int,
      replicaCount: nat, writequorum: int, readquorum: int, token: Uint64, perm: seq<nat>,
      lives: seq<Q.History>, op: WriteOp, ss: seq<F.State>, steps: seq<F.Step>,
      ackAt: seq<nat>, readAt: seq<nat>, replies: seq<Option<Q.Reply>>)
    requires DistinctEnds(v) && SortedView(ar, v) && SortedView(ar', v)
    requires DecidePost(ar, owner, available, replicaCount, writequorum, token).StoreAndReplicate?
    requires DecideGet(ar', reader, replicaCount, readquorum, token).AskReplicas?
    requires |lives| == |ackAt| == |readAt| == |perm| == replicaCount && op.version.Some?
    requires Distinct(perm) && forall i :: 0 <= i < |perm| ==> perm[i] < replicaCount
    requires F.FanOutRun(replicaCount, Confirmations(writequorum, replicaCount), ss, steps)
    requires forall i :: 0 <= i < replicaCount && F.Sent(i, true) in ss[|steps|].chan ==>
      Q.Acked(lives[i], ackAt[i], op) && ackAt[i] < readAt[i]
    requires |replies| == readquorum && forall i :: 0 <= i < |replies| && i < |perm| ==>
      Q.Answered(lives[perm[i]], readAt[perm[i]], op.key, replies[i])
    requires F.Successes(ss[|steps|].chan) + readquorum > replicaCount
    ensures exists i ::
      && 0 <= i < readquorum <= replicaCount && F.Sent(perm[i], true) in ss[|steps|].chan
      && DecideGet(ar', reader, replicaCount, readquorum, token).replicas[perm[i]] ==
         DecidePost(ar, owner, available, replicaCount, writequorum, token).replicas[perm[i]]
    ensures Q.Fold(replies, |replies|).Seen? && Q.Fold(replies, |replies|).version >= op.version.value
    ensures exists i ::
      && 0 <= i < readquorum <= replicaCount
      && Q.Shows(lives[perm[i]], readAt[perm[i]], op.key, Q.Fold(replies, |replies|))
  {
    ReadsAskWrittenReplicas(v, ar, ar', owner, reader, available, replicaCount, writequorum, readquorum, token);
    var acker, shower := FirstPicksOverlap(
      lives, op, Confirmations(writequorum, replicaCount), ss, steps, ackAt, perm, readquorum, readAt, replies);
  }
}
