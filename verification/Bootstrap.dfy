/** When a bootstrapped node ends up showing what its source shows. */
module Bootstrap {
  import opened Types
  import opened StoreLog
  import opened Replicas
  import opened Streams
  import opened StreamOrder
  import opened NoLostWrite

  // What reached the joiner, per key

  function Plain(values: seq<StoreEntry>): (r: seq<StoreEntry>)
    ensures |r| == |values|
    ensures forall i :: 0 <= i < |values| ==> r[i] == values[i].(isReplica := false)
  {
    if values == [] then [] else [values[0].(isReplica := false)] + Plain(values[1..])
  }

  function Payload(e: Event, key: string): seq<StoreEntry> {
    match e
    case SnapshotEvent(k, values) => if k == key then Plain(values) else []
    case LiveEvent(k, value, version) => if k == key then [StoreEntry(value, version, false)] else []
    case _ => []
  }

  /** The versions of `key` that the first `n` events carry, in order. */
  function Arrived(sent: seq<Event>, key: string, n: nat): seq<StoreEntry>
    requires n <= |sent|
  {
    if n == 0 then [] else Arrived(sent, key, n - 1) + Payload(sent[n - 1], key)
  }

  lemma {:induction false} ArrivedPrefix(sent: seq<Event>, sent': seq<Event>, key: string, n: nat)
    requires sent <= sent' && n <= |sent|
    ensures Arrived(sent', key, n) == Arrived(sent, key, n)
  {
    if n > 0 {
      ArrivedPrefix(sent, sent', key, n - 1);
    }
  }

  lemma InSum<T>(a: seq<T>, b: seq<T>, x: T)
    ensures x in a + b <==> x in a || x in b
  {
  }

  lemma {:induction false} ArrivedHas(sent: seq<Event>, key: string, n: nat, i: nat, d: StoreEntry)
    requires i < n <= |sent| && d in Payload(sent[i], key)
    ensures d in Arrived(sent, key, n)
  {
    InSum(Arrived(sent, key, n - 1), Payload(sent[n - 1], key), d);
    if i < n - 1 {
      ArrivedHas(sent, key, n - 1, i, d);
    }
  }

  lemma {:induction false} ArrivedFrom(sent: seq<Event>, key: string, n: nat, d: StoreEntry) returns (i: nat)
    requires n <= |sent| && d in Arrived(sent, key, n)
    ensures i < n && d in Payload(sent[i], key)
  {
    var before, last := Arrived(sent, key, n - 1), Payload(sent[n - 1], key);
    assert d in before + last;
    i := n - 1;
    if d !in last {
      i := ArrivedFrom(sent, key, n - 1, d);
    }
  }

  // The joiner replays what arrived

  ghost predicate Replaying(s: Session, key: string) {
    && s.joiner.consumed <= |s.sent|
    && WellFormed(s.joiner.store)
    && Replays(LogOf(s.joiner.store, key), Arrived(s.sent, key, s.joiner.consumed))
  }

  function ForKey(k: string, key: string, ds: seq<StoreEntry>): seq<StoreEntry> {
    if k == key then ds else []
  }

  lemma PutReplays(s: Store, k: string, e: StoreEntry, s': Store, key: string, ds: seq<StoreEntry>)
    requires WellFormed(s) && Commits(s, RawWrite(k, e), s') && Replays(LogOf(s, key), ds)
    ensures WellFormed(s')
    ensures Replays(LogOf(s', key), ds + ForKey(k, key, [e.(isReplica := false)]))
  {
    CommitAdds(s, RawWrite(k, e), s');
    ReplayAny(s, RawWrite(k, e), s', key, ds);
  }

  lemma TakeOneMore<T>(ds: seq<T>, added: seq<T>, n: nat)
    requires n < |added|
    ensures ds + added[..n + 1] == ds + added[..n] + [added[n]]
  {
  }

  lemma PlainPrefix(k: string, key: string, values: seq<StoreEntry>, n: nat, ds: seq<StoreEntry>)
    requires n < |values|
    ensures ds + ForKey(k, key, Plain(values)[..n + 1]) ==
            ds + ForKey(k, key, Plain(values)[..n]) + ForKey(k, key, [values[n].(isReplica := false)])
  {
    if k == key {
      TakeOneMore(ds, Plain(values), n);
    } else {
      assert ds + [] == ds;
    }
  }

  lemma {:induction false} TraceReplays(
      trace: seq<Store>, k: string, values: seq<StoreEntry>, n: nat, key: string, ds: seq<StoreEntry>)
    requires PutTrace(trace, k, values) && n <= |values|
    requires WellFormed(trace[0]) && Replays(LogOf(trace[0], key), ds)
    ensures WellFormed(trace[n])
    ensures Replays(LogOf(trace[n], key), ds + ForKey(k, key, Plain(values)[..n]))
  {
    if n == 0 {
      assert Plain(values)[..0] == [];
      NothingAdded(k, key, ds);
    } else {
      TraceReplays(trace, k, values, n - 1, key, ds);
      PutReplays(trace[n - 1], k, values[n - 1], trace[n], key, ds + ForKey(k, key, Plain(values)[..n - 1]));
      PlainPrefix(k, key, values, n - 1, ds);
    }
  }

  lemma NothingAdded(k: string, key: string, ds: seq<StoreEntry>)
    ensures ds + ForKey(k, key, []) == ds
  {
  }

  lemma PutsAllReplays(s: Store, k: string, values: seq<StoreEntry>, s': Store, key: string, ds: seq<StoreEntry>)
    requires WellFormed(s) && PutsAll(s, k, values, s') && Replays(LogOf(s, key), ds)
    ensures WellFormed(s')
    ensures Replays(LogOf(s', key), ds + ForKey(k, key, Plain(values)))
  {
    var trace :| PutTrace(trace, k, values) && trace[0] == s && trace[|values|] == s';
    TraceReplays(trace, k, values, |values|, key, ds);
    assert Plain(values)[..|values|] == Plain(values);
  }

  lemma PutsNone(s: Store, k: string)
    ensures PutsAll(s, k, [], s)
  {
    assert PutTrace([s], k, []);
  }

  lemma PutsOneMore(s: Store, k: string, values: seq<StoreEntry>, mid: Store, e: StoreEntry, s': Store)
    requires PutsAll(s, k, values, mid) && Commits(mid, RawWrite(k, e), s')
    ensures PutsAll(s, k, values + [e], s')
  {
    var trace :| PutTrace(trace, k, values) && trace[0] == s && trace[|values|] == mid;
    var trace' := trace + [s'];
    forall i | 0 <= i <= |values| ensures Commits(trace'[i], RawWrite(k, (values + [e])[i]), trace'[i + 1]) {
      if i < |values| {
        assert Commits(trace[i], RawWrite(k, values[i]), trace[i + 1]);
      }
    }
    assert PutTrace(trace', k, values + [e]);
  }

  lemma AppliesReplays(j: Joiner, e: Event, j': Joiner, key: string, ds: seq<StoreEntry>)
    requires WellFormed(j.store) && Applies(j, e, j') && Replays(LogOf(j.store, key), ds)
    ensures WellFormed(j'.store) && Replays(LogOf(j'.store, key), ds + Payload(e, key))
  {
    match e
    case SnapshotEvent(k, values) => PutsAllReplays(j.store, k, values, j'.store, key, ds);
    case LiveEvent(k, value, version) => PutReplays(j.store, k, StoreEntry(value, version, false), j'.store, key, ds);
    case _ => assert ds + [] == ds;
  }

  // A key the joiner already held gains what arrived, and nothing else

  lemma PutAdds(s: Store, k: string, e: StoreEntry, s': Store, key: string, ds: seq<StoreEntry>)
    requires WellFormed(s) && Commits(s, RawWrite(k, e), s') && key in s
    ensures WellFormed(s') && key in s'
    ensures multiset(s'[key]) + multiset(ds) == multiset(s[key]) + multiset(ds + ForKey(k, key, [e.(isReplica := false)]))
  {
    CommitAdds(s, RawWrite(k, e), s');
    if k != key {
      NothingAdded(k, key, ds);
    }
  }

  lemma {:induction false} TraceAdds(trace: seq<Store>, k: string, values: seq<StoreEntry>, n: nat, key: string)
    requires PutTrace(trace, k, values) && n <= |values| && WellFormed(trace[0]) && key in trace[0]
    ensures WellFormed(trace[n]) && key in trace[n]
    ensures multiset(trace[n][key]) == multiset(trace[0][key]) + multiset(ForKey(k, key, Plain(values)[..n]))
  {
    if n == 0 {
      assert Plain(values)[..0] == [];
    } else {
      TraceAdds(trace, k, values, n - 1, key);
      PutAdds(trace[n - 1], k, values[n - 1], trace[n], key, []);
      PlainPrefix(k, key, values, n - 1, []);
      assert forall ds: seq<StoreEntry> :: [] + ds == ds;
    }
  }

  lemma AppliesAdds(j: Joiner, e: Event, j': Joiner, key: string)
    requires WellFormed(j.store) && Applies(j, e, j') && key in j.store
    ensures WellFormed(j'.store) && key in j'.store
    ensures multiset(j'.store[key]) == multiset(j.store[key]) + multiset(Payload(e, key))
  {
    match e
    case SnapshotEvent(k, values) =>
      var trace :| PutTrace(trace, k, values) && trace[0] == j.store && trace[|values|] == j'.store;
      TraceAdds(trace, k, values, |values|, key);
      assert Plain(values)[..|values|] == Plain(values);
    case LiveEvent(k, value, version) =>
      PutAdds(j.store, k, StoreEntry(value, version, false), j'.store, key, []);
      assert [] + Payload(e, key) == Payload(e, key);
    case _ =>
  }

  lemma ReplayingConsume(s: Session, s': Session, key: string)
    requires Replaying(s, key) && JoinerNext(s, Consume, s')
    ensures Replaying(s', key)
  {
    AppliesReplays(s.joiner, s.sent[s.joiner.consumed], s'.joiner, key, Arrived(s.sent, key, s.joiner.consumed));
  }

  lemma ReplayingStep(filter: string -> bool, s: Session, step: Step, s': Session, key: string)
    requires Replaying(s, key) && Next(filter, s, step, s')
    ensures Replaying(s', key)
  {
    if step == JoinerActs(Consume) {
      ReplayingConsume(s, s', key);
    } else {
      assert s.sent <= s'.sent && s'.joiner == s.joiner;
      ArrivedPrefix(s.sent, s'.sent, key, s.joiner.consumed);
    }
  }

  // The source's history of a key it only ever Put

  ghost predicate PutOnly(src: Source, key: string) {
    && |LogOf(src.store, key)| <= MAX64
    && forall i :: 0 <= i < |src.commits| && src.commits[i].op.key == key ==> src.commits[i].op.version.None?
  }

  ghost predicate Carries(c: Commit, key: string, e: StoreEntry) {
    c.op.key == key && EntryOf(c) == e
  }

  ghost predicate CarriedAfter(commits: seq<Commit>, from: nat, key: string, e: StoreEntry) {
    exists i :: from <= i < |commits| && Carries(commits[i], key, e)
  }

  /** The log is numbered 1..n; the copy holds its beginning and writes since the copy hold the rest. */
  ghost predicate Numbered(s: Session, key: string) {
    var log := LogOf(s.source.store, key);
    && Consecutive(log)
    && (s.producer.copied ==>
          && LogOf(s.producer.copy, key) <= log
          && forall j :: |LogOf(s.producer.copy, key)| <= j < |log| ==>
               CarriedAfter(s.source.commits, s.producer.atCopy, key, log[j]))
  }

  lemma NumberedWrite(filter: string -> bool, s: Session, op: WriteOp, s': Session, key: string)
    requires Kept(s.source) && Covered(filter, s) && Numbered(s, key)
    requires WriterNext(filter, s, Write(op), s') && PutOnly(s'.source, key)
    ensures Numbered(s', key)
  {
    var src, src' := s.source, s'.source;
    CommitAdds(src.store, op, src'.store);
    var last := src'.commits[|src.commits|];
    if op.key == key {
      assert last.op.version.None?;
      PutExtends(src.store, op, src'.store);
      assert Carries(last, key, Entry(src.store, op));
    }
    if s.producer.copied {
      var log' := LogOf(src'.store, key);
      forall j | |LogOf(s.producer.copy, key)| <= j < |log'|
        ensures CarriedAfter(src'.commits, s.producer.atCopy, key, log'[j])
      {
        if j < |LogOf(src.store, key)| {
          assert CarriedAfter(src.commits, s.producer.atCopy, key, LogOf(src.store, key)[j]);
          var i :| s.producer.atCopy <= i < |src.commits| && Carries(src.commits[i], key, log'[j]);
          assert src'.commits[i] == src.commits[i];
        }
      }
    }
  }

  ghost predicate SameWrites(commits: seq<Commit>, commits': seq<Commit>) {
    && |commits| == |commits'|
    && forall i :: 0 <= i < |commits| ==> commits'[i].op == commits[i].op && commits'[i].version == commits[i].version
  }

  lemma NumberedKeeps(s: Session, s': Session, key: string)
    requires Numbered(s, key) && SameWrites(s.source.commits, s'.source.commits)
    requires s'.source.store == s.source.store && s'.producer.copied == s.producer.copied
    requires s'.producer.copy == s.producer.copy && s'.producer.atCopy == s.producer.atCopy
    ensures Numbered(s', key)
  {
  }

  lemma NumberedCopy(filter: string -> bool, s: Session, s': Session, key: string)
    requires filter(key) && Numbered(s, key) && ProducerNext(filter, s, CopyStore, s')
    ensures Numbered(s', key)
  {
  }

  lemma NumberedWriter(filter: string -> bool, s: Session, w: WriterStep, s': Session, key: string)
    requires Kept(s.source) && Covered(filter, s) && Numbered(s, key)
    requires WriterNext(filter, s, w, s') && PutOnly(s'.source, key)
    ensures Numbered(s', key)
  {
    match w
    case Write(op) => NumberedWrite(filter, s, op, s', key);
    case EnterHook(_) => NumberedKeeps(s, s', key);
  }

  lemma NumberedProducer(filter: string -> bool, s: Session, p: ProducerStep, s': Session, key: string)
    requires filter(key) && Numbered(s, key) && ProducerNext(filter, s, p, s')
    ensures Numbered(s', key)
  {
    match p
    case CopyStore => NumberedCopy(filter, s, s', key);
    case _ => NumberedKeeps(s, s', key);
  }

  lemma NumberedLoop(s: Session, l: LoopStep, s': Session, key: string)
    requires Numbered(s, key) && LoopNext(s, l, s')
    ensures Numbered(s', key)
  {
    NumberedKeeps(s, s', key);
  }

  lemma NumberedStep(filter: string -> bool, s: Session, step: Step, s': Session, key: string)
    requires filter(key) && Kept(s.source) && Covered(filter, s) && Numbered(s, key)
    requires Next(filter, s, step, s') && PutOnly(s'.source, key)
    ensures Numbered(s', key)
  {
    match step
    case WriterActs(w) => NumberedWriter(filter, s, w, s', key);
    case ProducerActs(p) => NumberedProducer(filter, s, p, s', key);
    case LoopActs(l) => NumberedLoop(s, l, s', key);
    case _ => NumberedKeeps(s, s', key);
  }

  /** A source that holds data and knows the joiner does not close its snapshot channel without copying. */
  ghost predicate Started(s: Session) {
    s.source.store != map[] && s.view.Some? && (s.producer.phase == Closed ==> s.producer.copied)
  }

  lemma StartedStep(filter: string -> bool, s: Session, step: Step, s': Session)
    requires Phases(s.producer, s.flags) && Started(s) && Next(filter, s, step, s')
    ensures Started(s')
  {
  }

  // Whole sessions

  lemma PutOnlyBeforeWrite(filter: string -> bool, s: Session, w: WriterStep, s': Session, key: string)
    requires Kept(s.source) && WriterNext(filter, s, w, s') && PutOnly(s'.source, key)
    ensures PutOnly(s.source, key)
  {
    if w.Write? {
      CommitAdds(s.source.store, w.op, s'.source.store);
    }
    assert forall i :: 0 <= i < |s.source.commits| ==> s'.source.commits[i].op == s.source.commits[i].op;
  }

  lemma PutOnlyBefore(filter: string -> bool, s: Session, step: Step, s': Session, key: string)
    requires Kept(s.source) && Next(filter, s, step, s') && PutOnly(s'.source, key)
    ensures PutOnly(s.source, key)
  {
    match step
    case WriterActs(w) => PutOnlyBeforeWrite(filter, s, w, s', key);
    case ProducerActs(p) => assert s'.source.store == s.source.store && s'.source.commits == s.source.commits;
    case _ => assert forall i :: 0 <= i < |s.source.commits| ==> s'.source.commits[i].op == s.source.commits[i].op;
  }

  lemma {:induction false} RunNumbered(filter: string -> bool, ss: seq<Session>, steps: seq<Step>, n: nat, key: string)
    requires SessionRun(filter, ss, steps) && n <= |steps| && filter(key)
    requires Consecutive(LogOf(ss[0].source.store, key)) && PutOnly(ss[n].source, key)
    ensures Numbered(ss[n], key)
  {
    if n > 0 {
      RunCovered(filter, ss, steps, n - 1);
      PutOnlyBefore(filter, ss[n - 1], steps[n - 1], ss[n], key);
      RunNumbered(filter, ss, steps, n - 1, key);
      NumberedStep(filter, ss[n - 1], steps[n - 1], ss[n], key);
    }
  }

  lemma {:induction false} RunReplaying(filter: string -> bool, ss: seq<Session>, steps: seq<Step>, n: nat, key: string)
    requires SessionRun(filter, ss, steps) && n <= |steps|
    requires key !in ss[0].joiner.store
    ensures Replaying(ss[n], key)
  {
    if n > 0 {
      RunReplaying(filter, ss, steps, n - 1, key);
      ReplayingStep(filter, ss[n - 1], steps[n - 1], ss[n], key);
    }
  }

  lemma {:induction false} RunStarted(filter: string -> bool, ss: seq<Session>, steps: seq<Step>, n: nat)
    requires SessionRun(filter, ss, steps) && n <= |steps|
    requires ss[0].source.store != map[] && ss[0].view.Some?
    ensures Started(ss[n])
  {
    if n > 0 {
      RunStarted(filter, ss, steps, n - 1);
      RunOrdered(filter, ss, steps, n - 1);
      StartedStep(filter, ss[n - 1], steps[n - 1], ss[n]);
    }
  }

  // What reached the joiner is true of the source

  function ValuesOf(log: Log): (values: seq<Json>)
    ensures |values| == |log|
    ensures forall j :: 0 <= j < |log| ==> values[j] == log[j].value
  {
    if log == [] then [] else [log[0].value] + ValuesOf(log[1..])
  }

  lemma SnapshotTruthful(s: Session, key: string, e: Event, d: StoreEntry)
    requires Phases(s.producer, s.flags) && Fed(s.producer, s.sent) && Numbered(s, key)
    requires e in s.sent && e.SnapshotEvent? && d in Payload(e, key)
    ensures exists j :: 0 <= j < |LogOf(s.source.store, key)| &&
              d.version == j + 1 && d.value == LogOf(s.source.store, key)[j].value
  {
  }

  lemma LiveTruthful(s: Session, key: string, e: Event, d: StoreEntry)
    requires Sourced(s) && Kept(s.source) && Consecutive(LogOf(s.source.store, key))
    requires e in s.sent && e.LiveEvent? && d in Payload(e, key)
    ensures exists j :: 0 <= j < |LogOf(s.source.store, key)| &&
              d.version == j + 1 && d.value == LogOf(s.source.store, key)[j].value
  {
  }

  lemma ArrivedTruthful(s: Session, key: string, n: nat)
    requires Sourced(s) && Kept(s.source) && Phases(s.producer, s.flags) && Fed(s.producer, s.sent)
    requires Numbered(s, key) && n <= |s.sent|
    ensures Truthful(Arrived(s.sent, key, n), ValuesOf(LogOf(s.source.store, key)))
  {
    var log := LogOf(s.source.store, key);
    forall d | d in Arrived(s.sent, key, n) ensures 1 <= d.version <= |log| && d.value == ValuesOf(log)[d.version - 1] {
      var i := ArrivedFrom(s.sent, key, n, d);
      if s.sent[i].SnapshotEvent? {
        SnapshotTruthful(s, key, s.sent[i], d);
      } else {
        LiveTruthful(s, key, s.sent[i], d);
      }
    }
  }

  /** What the joiner was told of `key`, all of it true of the source, and what it made of it. */
  ghost predicate Told(s: Session, key: string, ds: seq<StoreEntry>) {
    var log := LogOf(s.source.store, key);
    && WellFormed(s.joiner.store) && Replays(LogOf(s.joiner.store, key), ds)
    && Consecutive(log) && Truthful(ds, ValuesOf(log))
  }

  /** A session in which the source writes `key` by `Put` alone, and the joiner lacked it. */
  ghost predicate PutsOnly(filter: string -> bool, ss: seq<Session>, steps: seq<Step>, n: nat, key: string) {
    && SessionRun(filter, ss, steps) && n <= |steps|
    && key !in ss[0].joiner.store
    && Consecutive(LogOf(ss[0].source.store, key)) && PutOnly(ss[n].source, key)
  }

  /** The sessions convergence is claimed for. */
  ghost predicate Bootstraps(filter: string -> bool, ss: seq<Session>, steps: seq<Step>, n: nat, key: string) {
    PutsOnly(filter, ss, steps, n, key) && filter(key)
  }

  lemma RunTold(filter: string -> bool, ss: seq<Session>, steps: seq<Step>, n: nat, key: string)
    requires Bootstraps(filter, ss, steps, n, key)
    ensures ss[n].joiner.consumed <= |ss[n].sent|
    ensures Told(ss[n], key, Arrived(ss[n].sent, key, ss[n].joiner.consumed))
    ensures Numbered(ss[n], key)
  {
    RunOrdered(filter, ss, steps, n);
    RunCovered(filter, ss, steps, n);
    RunNumbered(filter, ss, steps, n, key);
    RunReplaying(filter, ss, steps, n, key);
    ArrivedTruthful(ss[n], key, ss[n].joiner.consumed);
  }

  /** Of `n` versions the newest has been taken at a place where it counts; there is nothing to take of none. */
  ghost predicate CaughtUp(ds: seq<StoreEntry>, n: nat) {
    n == 0 || (ds != [] && NewestCounted(ds, n))
  }

  lemma ToldShowsIff(s: Session, key: string, ds: seq<StoreEntry>)
    requires Told(s, key, ds)
    ensures Visible(s.joiner.store, key) == Visible(s.source.store, key) <==> CaughtUp(ds, |LogOf(s.source.store, key)|)
  {
    if ds != [] {
      assert ds[0] in ds;
      ShowsNewestIff(s.joiner.store, key, ds, ValuesOf(LogOf(s.source.store, key)));
    }
  }

  /** Convergence, exactly, at every point of every session: joiner and source show the same for `key` if and only if
      the source has none of it, or what the joiner has read of it holds the only version or holds the newest at a
      place other than the first. */
  lemma BootstrapConvergesIff(filter: string -> bool, ss: seq<Session>, steps: seq<Step>, n: nat, key: string)
    requires Bootstraps(filter, ss, steps, n, key)
    ensures ss[n].joiner.consumed <= |ss[n].sent|
    ensures Visible(ss[n].joiner.store, key) == Visible(ss[n].source.store, key) <==>
            CaughtUp(Arrived(ss[n].sent, key, ss[n].joiner.consumed), |LogOf(ss[n].source.store, key)|)
  {
    RunTold(filter, ss, steps, n, key);
    ToldShowsIff(ss[n], key, Arrived(ss[n].sent, key, ss[n].joiner.consumed));
  }

  // Drained sessions

  /** The joiner has read everything, the snapshot is through, and no write of `key` is under way, has
      failed or came too late. */
  ghost predicate Drained(s: Session, key: string) {
    && s.flags.snapshotDone && s.joiner.consumed == |s.sent|
    && forall i :: 0 <= i < |s.source.commits| && s.source.commits[i].op.key == key ==>
         var c := s.source.commits[i]; !Pending(c) && c.call !in {Stuck, Panicked} && !c.late
  }

  ghost predicate Has(ds: seq<StoreEntry>, version: nat) {
    exists d :: d in ds && d.version == version
  }

  lemma ArrivedVersion(sent: seq<Event>, key: string, i: nat, p: nat, version: nat)
    requires i < |sent| && p < |Payload(sent[i], key)| && Payload(sent[i], key)[p].version == version
    ensures Has(Arrived(sent, key, |sent|), version)
  {
    ArrivedHas(sent, key, |sent|, i, Payload(sent[i], key)[p]);
  }

  /** Every version of a drained key reached the joiner. */
  lemma EveryVersionArrived(filter: string -> bool, s: Session, key: string, version: nat)
    requires filter(key) && s.producer.copied && s.producer.unsent == {}
    requires Fed(s.producer, s.sent) && Covered(filter, s) && Answered(filter, s) && Numbered(s, key)
    requires Drained(s, key) && 1 <= version <= |LogOf(s.source.store, key)|
    ensures Has(Arrived(s.sent, key, |s.sent|), version)
  {
    var log := LogOf(s.source.store, key);
    var copied := LogOf(s.producer.copy, key);
    if version <= |copied| {
      var i :| 0 <= i < |s.sent| && s.sent[i] == SnapshotEvent(key, copied);
      assert copied[version - 1] == log[version - 1];
      ArrivedVersion(s.sent, key, i, version - 1, version);
    } else {
      assert CarriedAfter(s.source.commits, s.producer.atCopy, key, log[version - 1]);
      var c :| s.producer.atCopy <= c < |s.source.commits| && Carries(s.source.commits[c], key, log[version - 1]);
      var i :| 0 <= i < |s.sent| && s.sent[i] == LiveOf(s.source.commits[c]);
      ArrivedVersion(s.sent, key, i, 0, version);
    }
  }

  ghost predicate Concerns(e: Event, key: string) {
    (e.SnapshotEvent? || e.LiveEvent?) && e.key == key
  }

  /** Event `i` is the first one that carries a version of `key`. */
  ghost predicate FirstFor(sent: seq<Event>, key: string, i: nat) {
    && i < |sent| && Concerns(sent[i], key)
    && forall j :: 0 <= j < i ==> !Concerns(sent[j], key)
  }

  /** A copied key's first event is its snapshot event; any other key's first event is its version 1. */
  ghost predicate InOrder(s: Session, key: string) {
    forall i: nat :: FirstFor(s.sent, key, i) ==>
      if key in s.producer.copy then s.sent[i].SnapshotEvent?
      else s.sent[i].LiveEvent? && s.sent[i].version == 1
  }

  lemma {:induction false} NothingBefore(sent: seq<Event>, key: string, n: nat)
    requires n <= |sent| && Arrived(sent, key, n) == []
    ensures forall j :: 0 <= j < n ==> Payload(sent[j], key) == []
  {
    if n > 0 {
      NothingBefore(sent, key, n - 1);
    }
  }

  lemma HeadOfSum<T>(a: seq<T>, b: seq<T>)
    requires a + b != []
    ensures (a + b)[0] == if a == [] then b[0] else a[0]
  {
  }

  lemma {:induction false} FirstArrival(sent: seq<Event>, key: string, n: nat) returns (i: nat)
    requires n <= |sent| && Arrived(sent, key, n) != []
    ensures i < n && Payload(sent[i], key) != [] && Arrived(sent, key, n)[0] == Payload(sent[i], key)[0]
    ensures Arrived(sent, key, i) == []
  {
    HeadOfSum(Arrived(sent, key, n - 1), Payload(sent[n - 1], key));
    if Arrived(sent, key, n - 1) == [] {
      i := n - 1;
    } else {
      i := FirstArrival(sent, key, n - 1);
    }
  }

  lemma ConcernedPays(s: Session, e: Event, key: string)
    requires Fed(s.producer, s.sent) && WellFormed(s.producer.copy) && e in s.sent && Concerns(e, key)
    ensures Payload(e, key) != []
  {
  }

  lemma FirstIsVersionOne(s: Session, key: string)
    requires Fed(s.producer, s.sent) && s.producer.copied && Numbered(s, key) && InOrder(s, key)
    requires WellFormed(s.producer.copy) && Arrived(s.sent, key, |s.sent|) != []
    ensures Arrived(s.sent, key, |s.sent|)[0].version == 1
  {
    var i := FirstArrival(s.sent, key, |s.sent|);
    NothingBefore(s.sent, key, i);
    forall j | 0 <= j < i && Concerns(s.sent[j], key) ensures false {
      ConcernedPays(s, s.sent[j], key);
    }
    assert FirstFor(s.sent, key, i);
  }

  lemma NewestCountedInOrder(ds: seq<StoreEntry>, n: nat)
    requires ds != [] && ds[0].version == 1 && Has(ds, n)
    ensures NewestCounted(ds, n)
  {
  }

  /** The source held data and knew the joiner when the session began. */
  ghost predicate Ready(s: Session) {
    s.source.store != map[] && s.view.Some?
  }

  lemma AllVersionsArrived(filter: string -> bool, ss: seq<Session>, steps: seq<Step>, n: nat, key: string)
    requires Bootstraps(filter, ss, steps, n, key) && Ready(ss[0]) && Drained(ss[n], key)
    ensures ss[n].producer.copied
    ensures forall v :: 1 <= v <= |LogOf(ss[n].source.store, key)| ==> Has(Arrived(ss[n].sent, key, |ss[n].sent|), v)
  {
    RunOrdered(filter, ss, steps, n);
    RunCovered(filter, ss, steps, n);
    RunNumbered(filter, ss, steps, n, key);
    RunStarted(filter, ss, steps, n);
    forall v | 1 <= v <= |LogOf(ss[n].source.store, key)| ensures Has(Arrived(ss[n].sent, key, |ss[n].sent|), v) {
      EveryVersionArrived(filter, ss[n], key, v);
    }
  }

  /** Convergence in the expected arrival order: once drained, the joiner shows what the source shows. */
  lemma BootstrapConverges(filter: string -> bool, ss: seq<Session>, steps: seq<Step>, n: nat, key: string)
    requires Bootstraps(filter, ss, steps, n, key) && Ready(ss[0])
    requires Drained(ss[n], key) && InOrder(ss[n], key)
    ensures Visible(ss[n].joiner.store, key) == Visible(ss[n].source.store, key)
  {
    BootstrapConvergesIff(filter, ss, steps, n, key);
    var size := |LogOf(ss[n].source.store, key)|;
    if size > 0 {
      var ds := Arrived(ss[n].sent, key, |ss[n].sent|);
      AllVersionsArrived(filter, ss, steps, n, key);
      assert Has(ds, size) && ds != [];
      RunOrdered(filter, ss, steps, n);
      RunCovered(filter, ss, steps, n);
      RunTold(filter, ss, steps, n, key);
      FirstIsVersionOne(ss[n], key);
      NewestCountedInOrder(ds, size);
    }
  }
}
