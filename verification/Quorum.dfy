/** Reading the newest of several replies, and why overlapping quorums see the write. */
module Quorum {
  import opened Types
  import opened Sets
  import opened StoreLog
  import opened FanOut

  // Versions are compared as float64

  /** Spacing of float64 values around `v`. */
  function Ulp(v: nat): (u: nat)
    ensures u > 0 && (v < 0x20_0000_0000_0000 ==> u == 1)
    ensures v < 0x20_0000_0000_0000 * u && (u > 1 ==> 0x10_0000_0000_0000 * u <= v)
  {
    if v < 0x20_0000_0000_0000 then 1 else 2 * Ulp(v / 2)
  }

  /** The multiple of `u` nearest to `v`, the even one of two. */
  function RoundTo(v: nat, u: nat): nat
    requires u > 0
  {
    var q, r := v / u, v % u;
    if 2 * r < u || (2 * r == u && q % 2 == 0) then q * u else (q + 1) * u
  }

  /** Conversion of an unsigned integer to float64: nearest value, ties to even. */
  function Float64(v: nat): nat {
    RoundTo(v, Ulp(v))
  }

  lemma RoundedToNearest(v: nat, u: nat) returns (q: nat)
    requires u > 0
    ensures RoundTo(v, u) == q * u
    ensures 2 * RoundTo(v, u) <= 2 * v + u && 2 * v <= 2 * RoundTo(v, u) + u
    ensures 2 * RoundTo(v, u) == 2 * v + u || 2 * v == 2 * RoundTo(v, u) + u ==> q % 2 == 0
  {
    var low, r := v / u, v % u;
    assert v == low * u + r;
    if 2 * r < u || (2 * r == u && low % 2 == 0) {
      q := low;
    } else {
      q := low + 1;
      assert q * u == low * u + u;
    }
  }

  /** The conversion gives a multiple of the spacing no other multiple is nearer than, an even one between two. */
  lemma Float64Nearest(v: nat) returns (q: nat)
    ensures Float64(v) == q * Ulp(v)
    ensures 2 * Float64(v) <= 2 * v + Ulp(v) && 2 * v <= 2 * Float64(v) + Ulp(v)
    ensures 2 * Float64(v) == 2 * v + Ulp(v) || 2 * v == 2 * Float64(v) + Ulp(v) ==> q % 2 == 0
  {
    q := RoundedToNearest(v, Ulp(v));
  }

  /** The largest bound up to which the conversion changes nothing. */
  const EXACT64: Uint64 := 0x20_0000_0000_0000

  lemma Float64Exact(v: nat)
    requires v <= EXACT64
    ensures Float64(v) == v
  {
    if v == EXACT64 {
      assert Ulp(0x10_0000_0000_0000) == 1 && Ulp(v) == 2;
    }
  }

  /** The first version that is rounded: it reads as the one before it. */
  lemma Float64Rounds()
    ensures Float64(EXACT64 + 1) == EXACT64
  {
  }

  // Folding replies

  datatype Reply = Reply(value: Json, version: Uint64)

  datatype Latest = Nothing | Seen(value: Json, version: nat)

  function Newer(best: Latest, r: Option<Reply>): Latest {
    if r.Some? && (best.Nothing? || Float64(r.value.version) > best.version)
    then Seen(r.value.value, Float64(r.value.version))
    else best
  }

  function Fold(replies: seq<Option<Reply>>, n: nat): Latest
    requires n <= |replies|
  {
    if n == 0 then Nothing else Newer(Fold(replies, n - 1), replies[n - 1])
  }

  /** The loop of the read handler; replicas that failed left no reply. */
  method LatestReply(replies: seq<Option<Reply>>) returns (latest: Latest)
    ensures latest == Fold(replies, |replies|)
  {
    latest := Nothing;
    for i := 0 to |replies|
      invariant latest == Fold(replies, i)
    {
      var r := replies[i];
      if r.Some? {
        if latest.Nothing? || Float64(r.value.version) > latest.version {
          latest := Seen(r.value.value, Float64(r.value.version));
        }
      }
    }
  }

  ghost predicate WithinBound(replies: seq<Option<Reply>>, bound: nat) {
    forall i :: 0 <= i < |replies| && replies[i].Some? ==> replies[i].value.version <= bound
  }

  /** `best` carries the largest version replied, with the value of the first reply carrying it. */
  ghost predicate IsNewest(replies: seq<Option<Reply>>, n: nat, best: Latest)
    requires n <= |replies|
  {
    match best
    case Nothing => forall i :: 0 <= i < n ==> replies[i].None?
    case Seen(value, version) =>
      && (forall i :: 0 <= i < n && replies[i].Some? ==> replies[i].value.version <= version)
      && exists i ::
           && 0 <= i < n && replies[i].Some? && replies[i].value.value == value && replies[i].value.version == version
           && forall j :: 0 <= j < i && replies[j].Some? ==> replies[j].value.version < version
  }

  /** Up to 2^53 the answer is the first reply carrying the largest version, and there is one unless nobody replied. */
  lemma {:induction false} FoldIsNewest(replies: seq<Option<Reply>>, n: nat)
    requires n <= |replies| && WithinBound(replies, EXACT64)
    ensures IsNewest(replies, n, Fold(replies, n))
  {
    if n > 0 {
      FoldIsNewest(replies, n - 1);
      if replies[n - 1].Some? {
        Float64Exact(replies[n - 1].value.version);
      }
    }
  }

  /** Two replies, the newer one second, of which the older is returned. */
  lemma OlderReplyWins(older: Json, newer: Json)
    ensures Fold([Some(Reply(older, EXACT64)), Some(Reply(newer, EXACT64 + 1))], 2) == Seen(older, EXACT64)
  {
    var replies := [Some(Reply(older, EXACT64)), Some(Reply(newer, EXACT64 + 1))];
    Float64Exact(EXACT64);
    Float64Rounds();
    assert Fold(replies, 1) == Seen(older, EXACT64);
  }

  /** Every read of versions up to `bound` returns the newest reply exactly when `bound` is at most 2^53. */
  lemma FoldNewestIff(bound: Uint64)
    ensures (forall replies :: WithinBound(replies, bound) ==> IsNewest(replies, |replies|, Fold(replies, |replies|))) <==>
            bound <= EXACT64
  {
    if bound <= EXACT64 {
      forall replies | WithinBound(replies, bound) ensures IsNewest(replies, |replies|, Fold(replies, |replies|)) {
        FoldIsNewest(replies, |replies|);
      }
    } else {
      var replies := [Some(Reply(Null, EXACT64)), Some(Reply(Null, EXACT64 + 1))];
      OlderReplyWins(Null, Null);
      assert WithinBound(replies, bound) && replies[1].value.version == EXACT64 + 1;
      assert !IsNewest(replies, |replies|, Fold(replies, |replies|));
    }
  }

  // Acknowledged writes

  /** A replica that acknowledged version `w` shows at least `w` exactly when it held the key or `w` is at most 1. */
  lemma AckKeepsVersionIff(s: Store, op: WriteOp, s': Store)
    requires WellFormed(s) && Commits(s, op, s') && op.version.Some?
    ensures TopVersion(s', op.key) >= op.version.value <==> LogOf(s, op.key) != [] || op.version.value <= 1
  {
    CommitRaises(s, op, s');
    CommitAdds(s, op, s');
    assert Top(s'[op.key]) in s'[op.key];
  }

  /** A replica's whole life: one state per write it took. */
  datatype History = History(ss: seq<Store>, ops: seq<WriteOp>)

  /** The replica took the write as its `at`-th, already holding the key or taking its first version. */
  ghost predicate Acked(h: History, at: nat, op: WriteOp) {
    && at < |h.ops| && |h.ss| == |h.ops| + 1
    && h.ops[at] == op && op.version.Some?
    && (LogOf(h.ss[at], op.key) != [] || op.version.value == 1)
  }

  lemma AckedStaysVisible(h: History, at: nat, now: nat, op: WriteOp)
    requires Run(h.ss, h.ops) && Acked(h, at, op) && at < now <= |h.ops|
    ensures TopVersion(h.ss[now], op.key) >= op.version.value
  {
    ReturnedStaysVisible(h.ss, h.ops, at, now);
  }

  lemma Overlap(a: set<nat>, b: set<nat>, n: nat)
    requires (forall i :: i in a ==> i < n) && (forall i :: i in b ==> i < n) && |a| + |b| > n
    ensures exists i :: i in a && i in b
  {
    assert a + b <= Below(n);
    SubsetSize(a + b, Below(n));
    assert |a * b| == |a| + |b| - |a + b|;
    var i :| i in a * b;
  }

  /** Any `a` acknowledging and any `r` asked replicas out of `n` share one exactly when a + r > n. */
  lemma OverlapIff(n: nat, a: nat, r: nat)
    requires a <= n && r <= n
    ensures (forall acked: set<nat>, asked: set<nat> ::
              acked <= Below(n) && asked <= Below(n) && |acked| == a && |asked| == r ==> acked * asked != {}) <==>
            a + r > n
  {
    if a + r > n {
      forall acked: set<nat>, asked: set<nat> | acked <= Below(n) && asked <= Below(n) && |acked| == a && |asked| == r
        ensures acked * asked != {}
      {
        Overlap(acked, asked, n);
      }
    } else {
      var asked := Below(a + r) - Below(a);
      assert Below(a) <= Below(a + r);
      assert |asked| == r && Below(a) * asked == {};
    }
  }

  const DEFAULT_READ_QUORUM: nat := 1

  function DefaultWriteQuorum(replicaCount: nat): (w: nat)
    ensures 2 * w <= replicaCount <= 2 * w + 1
  {
    replicaCount / 2
  }

  /** The default quorums leave room for a read to miss every replica that acknowledged the write. */
  lemma DefaultQuorumsMayMiss(replicaCount: nat)
    requires replicaCount >= DEFAULT_READ_QUORUM
    ensures exists acked: set<nat>, asked: set<nat> ::
      && acked <= Below(replicaCount) && asked <= Below(replicaCount)
      && |acked| == DefaultWriteQuorum(replicaCount) && |asked| == DEFAULT_READ_QUORUM
      && acked * asked == {}
  {
    OverlapIff(replicaCount, DefaultWriteQuorum(replicaCount), DEFAULT_READ_QUORUM);
  }

  /** What a replica answers a read served from its own store. */
  function ReplyOf(s: Store, key: string): Reply {
    Reply(Visible(s, key).0, Visible(s, key).1)
  }

  ghost predicate Lived(h: History, now: nat) {
    Run(h.ss, h.ops) && now <= |h.ops|
  }

  /** The replica answered from the state it was in at `now`, with a version of at most 2^53. */
  ghost predicate Answered(h: History, now: nat, key: string, r: Option<Reply>) {
    Lived(h, now) && r == Some(ReplyOf(h.ss[now], key)) && r.value.version <= EXACT64
  }

  /** The replica showed this value and version at `now`. */
  ghost predicate Shows(h: History, now: nat, key: string, latest: Latest) {
    && Lived(h, now) && latest.Seen?
    && Visible(h.ss[now], key).0 == latest.value && Visible(h.ss[now], key).1 == latest.version
  }

  lemma OverlapReader(acks: seq<Sent>, picked: seq<nat>, n: nat) returns (i: nat)
    requires OncePerWorker(acks) && forall e :: e in acks ==> e.worker < n
    requires Distinct(picked)
    requires forall i :: 0 <= i < |picked| ==> picked[i] < n
    requires Successes(acks) + |picked| > n
    ensures i < |picked| && Sent(picked[i], true) in acks
  {
    DistinctCounts(acks);
    DistinctSize(picked);
    Overlap(Succeeded(acks), Elements(picked), n);
    var p :| p in Succeeded(acks) && p in Elements(picked);
    i :| 0 <= i < |picked| && picked[i] == p;
    var e :| e in acks && e.ok && e.worker == p;
    assert e == Sent(p, true);
  }

  /** Quorum overlap: a write's fan-out over the replicas, however it was scheduled, ended with the results `acks`;
      later reads of replicas `picked` all answered. When acknowledgements and readers together outnumber the replicas,
      some reader acknowledged the write and the read returns the written version or a newer one. */
  lemma QuorumOverlap(
      replicas: seq<History>, op: WriteOp, minSuccess: int, ss: seq<State>, steps: seq<Step>, ackAt: seq<nat>,
      picked: seq<nat>, readAt: seq<nat>, replies: seq<Option<Reply>>)
    requires |ackAt| == |readAt| == |replicas| && op.version.Some?
    requires FanOutRun(|replicas|, minSuccess, ss, steps)
    requires forall i :: 0 <= i < |replicas| && Sent(i, true) in ss[|steps|].chan ==>
      Acked(replicas[i], ackAt[i], op) && ackAt[i] < readAt[i]
    requires Distinct(picked)
    requires |replies| == |picked| && forall i :: 0 <= i < |picked| ==>
      picked[i] < |replicas| && Answered(replicas[picked[i]], readAt[picked[i]], op.key, replies[i])
    requires Successes(ss[|steps|].chan) + |picked| > |replicas|
    ensures exists i :: 0 <= i < |picked| && Sent(picked[i], true) in ss[|steps|].chan
    ensures Fold(replies, |replies|).Seen? && Fold(replies, |replies|).version >= op.version.value
    ensures exists i ::
      0 <= i < |picked| && Shows(replicas[picked[i]], readAt[picked[i]], op.key, Fold(replies, |replies|))
  {
    SelfCancelMeansEnough(|replicas|, minSuccess, ss, steps, |steps|);
    var i := OverlapReader(ss[|steps|].chan, picked, |replicas|);
    var p := picked[i];
    assert Answered(replicas[p], readAt[p], op.key, replies[i]);
    AckedStaysVisible(replicas[p], ackAt[p], readAt[p], op);
    FoldIsNewest(replies, |replies|);
    var j :| 0 <= j < |replies| && replies[j].Some? && replies[j].value.value == Fold(replies, |replies|).value
             && replies[j].value.version == Fold(replies, |replies|).version;
    assert Answered(replicas[picked[j]], readAt[picked[j]], op.key, replies[j]);
    assert Shows(replicas[picked[j]], readAt[picked[j]], op.key, Fold(replies, |replies|));
  }
}
