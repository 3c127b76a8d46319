/** What a replica shows after versioned writes reach it in any order, any number of times. */
module Replicas {
  import opened Types
  import opened Sorting
  import opened StoreLog

  /** The entries supplied by the first `n` writes to `key`. */
  function Delivered(ops: seq<WriteOp>, key: string, n: nat): seq<StoreEntry>
    requires n <= |ops|
    requires forall i :: 0 <= i < n && ops[i].key == key ==> ops[i].version.Some?
  {
    if n == 0 then []
    else
      var op := ops[n - 1];
      Delivered(ops, key, n - 1) +
      if op.key == key then [StoreEntry(op.value, op.version.value, op.isReplica)] else []
  }

  /** A key the replica lacks takes its first delivery as version 1, whatever version was supplied. */
  function StoredAs(ds: seq<StoreEntry>, i: nat): StoreEntry
    requires i < |ds|
  {
    if i == 0 then ds[0].(version := 1) else ds[i]
  }

  ghost predicate Replays(log: Log, ds: seq<StoreEntry>) {
    && |log| == |ds|
    && (forall i :: 0 <= i < |ds| ==> StoredAs(ds, i) in log)
    && (forall e :: e in log ==> exists i :: 0 <= i < |ds| && e == StoredAs(ds, i))
  }

  lemma ReplayStep(s: Store, d: StoreEntry, key: string, s': Store, ds: seq<StoreEntry>)
    requires WellFormed(s) && Commits(s, WriteOp(key, d.value, Some(d.version), d.isReplica), s')
    requires Replays(LogOf(s, key), ds)
    ensures WellFormed(s') && Replays(LogOf(s', key), ds + [d])
  {
    var op := WriteOp(key, d.value, Some(d.version), d.isReplica);
    CommitAdds(s, op, s');
    var ds' := ds + [d];
    assert StoredAs(ds', |ds|) == Entry(s, op);
    forall i | 0 <= i < |ds'| ensures StoredAs(ds', i) in LogOf(s', key) {
      if i < |ds| {
        assert StoredAs(ds', i) == StoredAs(ds, i);
      }
    }
    forall e | e in LogOf(s', key) ensures exists i :: 0 <= i < |ds'| && e == StoredAs(ds', i) {
      if e in LogOf(s, key) {
        var i :| 0 <= i < |ds| && e == StoredAs(ds, i);
        assert e == StoredAs(ds', i);
      }
    }
  }

  lemma ReplayAny(s: Store, op: WriteOp, s': Store, key: string, ds: seq<StoreEntry>)
    requires WellFormed(s) && Commits(s, op, s')
    requires op.key == key ==> op.version.Some?
    requires Replays(LogOf(s, key), ds)
    ensures Replays(LogOf(s', key),
                    ds + if op.key == key then [StoreEntry(op.value, op.version.value, op.isReplica)] else [])
  {
    if op.key == key {
      ReplayStep(s, StoreEntry(op.value, op.version.value, op.isReplica), key, s', ds);
    } else {
      CommitAdds(s, op, s');
      assert ds + [] == ds;
    }
  }

  lemma {:induction false} ReplayRun(ss: seq<Store>, ops: seq<WriteOp>, key: string, n: nat)
    requires Run(ss, ops) && n <= |ops|
    requires key !in ss[0]
    requires forall i :: 0 <= i < n && ops[i].key == key ==> ops[i].version.Some?
    ensures Replays(LogOf(ss[n], key), Delivered(ops, key, n))
  {
    if n > 0 {
      ReplayRun(ss, ops, key, n - 1);
      RunWellFormed(ss, ops, n - 1);
      assert Takes(ss, ops, n - 1);
      ReplayAny(ss[n - 1], ops[n - 1], ss[n], key, Delivered(ops, key, n - 1));
    }
  }

  // Convergence against the owner's history: `history[v - 1]` is the value of version v.

  ghost predicate Truthful(es: seq<StoreEntry>, history: seq<Json>) {
    forall e :: e in es ==> 1 <= e.version <= |history| && e.value == history[e.version - 1]
  }

  /** The newest version arrived, and not as the very first delivery of several versions. */
  ghost predicate NewestCounted(ds: seq<StoreEntry>, n: nat) {
    n == 1 || exists i :: 0 < i < |ds| && ds[i].version == n
  }

  lemma ShowsNewestIff(s: Store, key: string, ds: seq<StoreEntry>, history: seq<Json>)
    requires WellFormed(s) && ds != [] && Replays(LogOf(s, key), ds) && Truthful(ds, history)
    ensures history != []
    ensures Visible(s, key) == (history[|history| - 1], |history|) <==> NewestCounted(ds, |history|)
  {
    var n := |history|;
    var log := LogOf(s, key);
    assert StoredAs(ds, 0) in log;
    var top := Top(log);
    assert top in log;
    var j :| 0 <= j < |ds| && top == StoredAs(ds, j);
    assert ds[j] in ds && ds[0] in ds;
    if NewestCounted(ds, n) {
      if n > 1 {
        var i :| 0 < i < |ds| && ds[i].version == n;
        assert StoredAs(ds, i) in log;
        LastIsTop(log, StoredAs(ds, i), VersionOf);
      }
    }
  }

  /** A key absent at the replica: it ends up showing the newest write exactly when version n arrived
      at a later place than the first, or there is only one version. */
  lemma ReplicaConvergesIff(ss: seq<Store>, ops: seq<WriteOp>, key: string, n: nat, history: seq<Json>)
    requires Run(ss, ops) && n <= |ops|
    requires key !in ss[0]
    requires forall i :: 0 <= i < n && ops[i].key == key ==> ops[i].version.Some?
    requires Delivered(ops, key, n) != [] && Truthful(Delivered(ops, key, n), history)
    ensures history != []
    ensures Visible(ss[n], key) == (history[|history| - 1], |history|) <==>
            NewestCounted(Delivered(ops, key, n), |history|)
  {
    ReplayRun(ss, ops, key, n);
    RunWellFormed(ss, ops, n);
    ShowsNewestIff(ss[n], key, Delivered(ops, key, n), history);
  }

  // A key the replica already held

  lemma {:induction false} HeldLogIsUnion(ss: seq<Store>, ops: seq<WriteOp>, key: string, n: nat)
    requires Run(ss, ops) && n <= |ops| && key in ss[0]
    requires forall i :: 0 <= i < n && ops[i].key == key ==> ops[i].version.Some?
    ensures WellFormed(ss[n]) && key in ss[n]
    ensures forall e :: e in ss[n][key] <==> e in ss[0][key] || e in Delivered(ops, key, n)
  {
    if n > 0 {
      HeldLogIsUnion(ss, ops, key, n - 1);
      assert Takes(ss, ops, n - 1);
      CommitAdds(ss[n - 1], ops[n - 1], ss[n]);
    }
  }

  lemma SameEntriesSameTop(s: Store, t: Store, key: string, history: seq<Json>)
    requires WellFormed(s) && WellFormed(t) && key in s && key in t
    requires Truthful(s[key], history)
    requires forall e :: e in s[key] <==> e in t[key]
    ensures Visible(s, key) == Visible(t, key)
  {
    assert Top(s[key]) in s[key] && Top(t[key]) in t[key];
    LastIsTop(s[key], Top(t[key]), VersionOf);
    LastIsTop(t[key], Top(s[key]), VersionOf);
  }

  /** A key already held: order and repetition of deliveries do not matter, only which ones arrived. */
  lemma HeldKeyShowsSetDelivered(
      ss: seq<Store>, ops: seq<WriteOp>, n: nat, tt: seq<Store>, ops': seq<WriteOp>, m: nat,
      key: string, history: seq<Json>)
    requires Run(ss, ops) && n <= |ops| && Run(tt, ops') && m <= |ops'|
    requires key in ss[0] && key in tt[0] && ss[0][key] == tt[0][key] && Truthful(ss[0][key], history)
    requires forall i :: 0 <= i < n && ops[i].key == key ==> ops[i].version.Some?
    requires forall i :: 0 <= i < m && ops'[i].key == key ==> ops'[i].version.Some?
    requires Truthful(Delivered(ops, key, n), history)
    requires forall e :: e in Delivered(ops, key, n) <==> e in Delivered(ops', key, m)
    ensures Visible(ss[n], key) == Visible(tt[m], key)
  {
    HeldLogIsUnion(ss, ops, key, n);
    HeldLogIsUnion(tt, ops', key, m);
    SameEntriesSameTop(ss[n], tt[m], key, history);
  }
}
