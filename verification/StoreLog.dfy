/** What one write does to the versioned store, as a relation: `sort.Slice` may leave equal versions in any order. */
module StoreLog {
  import opened Types
  import opened Sorting

  type Log = seq<StoreEntry>
  type Store = map<string, Log>

  /** `version` is what the caller supplied; `Put` supplies none. */
  datatype WriteOp = WriteOp(key: string, value: Json, version: Option<Uint64>, isReplica: bool)

  function VersionOf(e: StoreEntry): nat { e.version }

  function LogOf(s: Store, key: string): Log {
    if key in s then s[key] else []
  }

  function Top(log: Log): StoreEntry
    requires log != []
  {
    log[|log| - 1]
  }

  /** The version a write is stored under. A key's first write is version 1 whatever was
      supplied, and an unsupplied version wraps past the largest one. */
  function NextVersion(s: Store, op: WriteOp): Uint64 {
    if LogOf(s, op.key) == [] then 1
    else if op.version.Some? then op.version.value
    else (Top(s[op.key]).version + 1) % 0x1_0000_0000_0000_0000
  }

  function Entry(s: Store, op: WriteOp): StoreEntry {
    StoreEntry(op.value, NextVersion(s, op), op.isReplica)
  }

  ghost predicate Commits(s: Store, op: WriteOp, s': Store) {
    && op.key in s'
    && s' == s[op.key := s'[op.key]]
    && Sorts(LogOf(s, op.key) + [Entry(s, op)], s'[op.key], VersionOf)
  }

  ghost predicate WellFormed(s: Store) {
    forall k :: k in s ==> s[k] != [] && SortedBy(s[k], VersionOf)
  }

  /** What a reader sees of a key: `Null` and 0 when it was never written. */
  function Visible(s: Store, key: string): (Json, Uint64) {
    if LogOf(s, key) == [] then (Null, 0)
    else (Top(s[key]).value, Top(s[key]).version)
  }

  function TopVersion(s: Store, key: string): Uint64 { Visible(s, key).1 }

  function FilterStore(s: Store, filter: string -> bool): Store {
    map k | k in s && filter(k) :: s[k]
  }

  // One write

  lemma CommitAdds(s: Store, op: WriteOp, s': Store)
    requires WellFormed(s) && Commits(s, op, s')
    ensures WellFormed(s')
    ensures forall k :: k != op.key ==> LogOf(s', k) == LogOf(s, k)
    ensures multiset(LogOf(s', op.key)) == multiset(LogOf(s, op.key)) + multiset{Entry(s, op)}
    ensures |LogOf(s', op.key)| == |LogOf(s, op.key)| + 1
    ensures forall e :: e in LogOf(s', op.key) <==> e in LogOf(s, op.key) || e == Entry(s, op)
  {
    SameElements(s'[op.key], LogOf(s, op.key) + [Entry(s, op)]);
  }

  /** The visible version is the largest in the log, so no write lowers it and every write is below it. */
  lemma CommitRaises(s: Store, op: WriteOp, s': Store)
    requires WellFormed(s) && Commits(s, op, s')
    ensures TopVersion(s, op.key) <= TopVersion(s', op.key)
    ensures NextVersion(s, op) <= TopVersion(s', op.key)
  {
    CommitAdds(s, op, s');
    LastIsTop(s'[op.key], Entry(s, op), VersionOf);
    if LogOf(s, op.key) != [] {
      LastIsTop(s'[op.key], Top(s[op.key]), VersionOf);
    }
  }

  /** `Put` returns a version above every stored one exactly when the top version is not the largest there is. */
  lemma PutVersionIsNew(s: Store, op: WriteOp)
    requires WellFormed(s) && op.version.None?
    ensures (forall e :: e in LogOf(s, op.key) ==> e.version < NextVersion(s, op)) <==> TopVersion(s, op.key) < MAX64
  {
  }

  /** A `Put` past the largest version is stored under 0, below what the key shows. */
  lemma PutPastLargest(s: Store, op: WriteOp, s': Store)
    requires WellFormed(s) && Commits(s, op, s') && op.version.None? && TopVersion(s, op.key) == MAX64
    ensures NextVersion(s, op) == 0 && TopVersion(s', op.key) == MAX64
    ensures Top(s'[op.key]) in s[op.key]
  {
    CommitAdds(s, op, s');
    CommitRaises(s, op, s');
    assert Top(s'[op.key]) in s'[op.key];
  }

  // Put-only logs

  /** Versions are exactly 1, 2, ..., in storage order. */
  ghost predicate Consecutive(log: Log) {
    forall j :: 0 <= j < |log| ==> log[j].version == j + 1
  }

  lemma PutExtends(s: Store, op: WriteOp, s': Store)
    requires Commits(s, op, s') && op.version.None?
    requires Consecutive(LogOf(s, op.key)) && |LogOf(s, op.key)| < MAX64
    ensures s'[op.key] == LogOf(s, op.key) + [Entry(s, op)]
    ensures Consecutive(s'[op.key])
  {
    var log := LogOf(s, op.key) + [Entry(s, op)];
    assert Consecutive(log);
    SortedUnique(log, s'[op.key], VersionOf);
  }

  // Whole runs, one state per write

  /** Write `i` takes the store to its next state. */
  ghost predicate Takes(ss: seq<Store>, ops: seq<WriteOp>, i: nat)
    requires i < |ops| < |ss|
  {
    Commits(ss[i], ops[i], ss[i + 1])
  }

  ghost predicate Run(ss: seq<Store>, ops: seq<WriteOp>) {
    && |ss| == |ops| + 1
    && WellFormed(ss[0])
    && forall i :: 0 <= i < |ops| ==> Takes(ss, ops, i)
  }

  /** How many of the writes from `i` up to `j` went to `key`. */
  function Writes(ops: seq<WriteOp>, key: string, i: nat, j: nat): nat
    requires i <= j <= |ops|
  {
    if i == j then 0
    else Writes(ops, key, i, j - 1) + if ops[j - 1].key == key then 1 else 0
  }

  /** Those of the first `n` writes that went to `key`, in write order. */
  function Puts(ops: seq<WriteOp>, key: string, n: nat): seq<WriteOp>
    requires n <= |ops|
  {
    if n == 0 then []
    else Puts(ops, key, n - 1) + if ops[n - 1].key == key then [ops[n - 1]] else []
  }

  /** The log holds exactly what these writes wrote, numbered from 1. */
  ghost predicate Numbers(log: Log, puts: seq<WriteOp>) {
    && |log| == |puts|
    && forall j :: 0 <= j < |log| ==>
         log[j].version == j + 1 && log[j].value == puts[j].value && log[j].isReplica == puts[j].isReplica
  }

  lemma {:induction false} RunWellFormed(ss: seq<Store>, ops: seq<WriteOp>, i: nat)
    requires Run(ss, ops) && i <= |ops|
    ensures WellFormed(ss[i])
  {
    if i > 0 {
      RunWellFormed(ss, ops, i - 1);
      assert Takes(ss, ops, i - 1);
      CommitAdds(ss[i - 1], ops[i - 1], ss[i]);
    }
  }

  lemma RunStepGrows(ss: seq<Store>, ops: seq<WriteOp>, key: string, j: nat)
    requires Run(ss, ops) && 0 < j <= |ops|
    ensures |LogOf(ss[j], key)| == |LogOf(ss[j - 1], key)| + if ops[j - 1].key == key then 1 else 0
    ensures multiset(LogOf(ss[j - 1], key)) <= multiset(LogOf(ss[j], key))
    ensures TopVersion(ss[j - 1], key) <= TopVersion(ss[j], key)
  {
    RunWellFormed(ss, ops, j - 1);
    assert Takes(ss, ops, j - 1);
    CommitAdds(ss[j - 1], ops[j - 1], ss[j]);
    CommitRaises(ss[j - 1], ops[j - 1], ss[j]);
  }

  /** Over any run logs stay non-empty and sorted, gain one entry per write, lose none, and never show an older version. */
  lemma {:induction false} RunGrows(ss: seq<Store>, ops: seq<WriteOp>, key: string, i: nat, j: nat)
    requires Run(ss, ops) && i <= j <= |ops|
    ensures WellFormed(ss[i]) && WellFormed(ss[j])
    ensures |LogOf(ss[j], key)| == |LogOf(ss[i], key)| + Writes(ops, key, i, j)
    ensures multiset(LogOf(ss[i], key)) <= multiset(LogOf(ss[j], key))
    ensures TopVersion(ss[i], key) <= TopVersion(ss[j], key)
    decreases j
  {
    RunWellFormed(ss, ops, j);
    if i < j {
      RunGrows(ss, ops, key, i, j - 1);
      RunStepGrows(ss, ops, key, j);
    }
  }

  lemma WrittenIsVisible(ss: seq<Store>, ops: seq<WriteOp>, j: nat)
    requires Run(ss, ops) && 0 < j <= |ops|
    ensures |LogOf(ss[j], ops[j - 1].key)| > 0
    ensures NextVersion(ss[j - 1], ops[j - 1]) <= TopVersion(ss[j], ops[j - 1].key)
  {
    RunWellFormed(ss, ops, j - 1);
    assert Takes(ss, ops, j - 1);
    CommitAdds(ss[j - 1], ops[j - 1], ss[j]);
    CommitRaises(ss[j - 1], ops[j - 1], ss[j]);
  }

  /** A version once returned is never above what the key shows later. */
  lemma ReturnedStaysVisible(ss: seq<Store>, ops: seq<WriteOp>, i: nat, j: nat)
    requires Run(ss, ops) && i < j <= |ops|
    ensures |LogOf(ss[j], ops[i].key)| > 0
    ensures NextVersion(ss[i], ops[i]) <= TopVersion(ss[j], ops[i].key)
  {
    WrittenIsVisible(ss, ops, i + 1);
    RunGrows(ss, ops, ops[i].key, i + 1, j);
  }

  /** The version a `Put` returns exceeds the one any earlier write to the key returned, unless versions ran out. */
  lemma PutReturnsAboveEarlier(ss: seq<Store>, ops: seq<WriteOp>, i: nat, j: nat)
    requires Run(ss, ops) && i < j < |ops|
    requires ops[i].key == ops[j].key && ops[j].version.None?
    requires TopVersion(ss[j], ops[j].key) < MAX64
    ensures NextVersion(ss[i], ops[i]) < NextVersion(ss[j], ops[j])
  {
    ReturnedStaysVisible(ss, ops, i, j);
  }

  lemma PutOnlyStep(s: Store, op: WriteOp, s': Store, puts: seq<WriteOp>)
    requires Commits(s, op, s') && op.version.None?
    requires Numbers(LogOf(s, op.key), puts) && |puts| < MAX64
    ensures Numbers(LogOf(s', op.key), puts + [op])
  {
    PutExtends(s, op, s');
  }

  /** A key only ever `Put` holds what was put numbered 1..n in write order. */
  lemma {:induction false} PutOnlyRun(ss: seq<Store>, ops: seq<WriteOp>, key: string, n: nat)
    requires Run(ss, ops) && ss[0] == map[] && n <= |ops|
    requires forall i :: 0 <= i < n && ops[i].key == key ==> ops[i].version.None?
    requires |LogOf(ss[n], key)| <= MAX64
    ensures Numbers(LogOf(ss[n], key), Puts(ops, key, n))
  {
    if n > 0 {
      RunStepGrows(ss, ops, key, n);
      RunWellFormed(ss, ops, n - 1);
      PutOnlyRun(ss, ops, key, n - 1);
      assert Takes(ss, ops, n - 1);
      CommitAdds(ss[n - 1], ops[n - 1], ss[n]);
      if ops[n - 1].key == key {
        PutOnlyStep(ss[n - 1], ops[n - 1], ss[n], Puts(ops, key, n - 1));
      }
    }
  }
}
