/** Where every committed write is, in every interleaving of two-phase writes with the two-phase snapshot. */
module NoLostWrite {
  import opened Types
  import opened StoreLog
  import opened Streams
  import opened StreamOrder

  function EntryOf(c: Commit): StoreEntry {
    StoreEntry(c.op.value, c.version, c.op.isReplica)
  }

  /** The hook is set exactly from its installation to its cancellation. */
  ghost predicate HookSet(s: Session) {
    && (s.producer.copied <==> s.flags.reset == ClearHook)
    && (s.source.hook <==> (s.producer.phase == Copy || s.producer.copied) && !s.flags.cancelled)
  }

  lemma HookSetProducer(filter: string -> bool, s: Session, p: ProducerStep, s': Session)
    requires Phases(s.producer, s.flags) && HookSet(s) && ProducerNext(filter, s, p, s')
    ensures HookSet(s')
  {
  }

  lemma HookSetTicker(s: Session, t: TickerStep, s': Session)
    requires Phases(s.producer, s.flags) && HookSet(s) && TickerNext(s, t, s')
    ensures HookSet(s')
  {
  }

  lemma HookSetStep(filter: string -> bool, s: Session, step: Step, s': Session)
    requires Phases(s.producer, s.flags) && HookSet(s) && Next(filter, s, step, s')
    ensures HookSet(s')
  {
    match step
    case ProducerActs(p) => HookSetProducer(filter, s, p, s');
    case TickerActs(t) => HookSetTicker(s, t, s');
    case _ => assert s'.source.hook == s.source.hook;
  }

  /** No entry ever leaves a log. */
  ghost predicate Kept(src: Source) {
    && WellFormed(src.store)
    && forall i :: 0 <= i < |src.commits| ==> EntryOf(src.commits[i]) in LogOf(src.store, src.commits[i].op.key)
  }

  lemma KeptWrite(src: Source, op: WriteOp, store': Store, cancelled: bool)
    requires Kept(src) && Commits(src.store, op, store')
    ensures Kept(Source(store', src.hook, Recorded(src, op, cancelled)))
  {
    CommitAdds(src.store, op, store');
    var commits := Recorded(src, op, cancelled);
    forall i | 0 <= i < |commits| ensures EntryOf(commits[i]) in LogOf(store', commits[i].op.key) {
      if i < |src.commits| {
        assert EntryOf(src.commits[i]) in LogOf(src.store, src.commits[i].op.key);
      } else {
        assert EntryOf(commits[i]) == Entry(src.store, op);
      }
    }
  }

  lemma KeptSame(src: Source, src': Source)
    requires Kept(src) && src'.store == src.store && |src'.commits| == |src.commits|
    requires forall i :: 0 <= i < |src.commits| ==> EntryOf(src'.commits[i]) == EntryOf(src.commits[i])
    requires forall i :: 0 <= i < |src.commits| ==> src'.commits[i].op.key == src.commits[i].op.key
    ensures Kept(src')
  {
  }

  lemma KeptWriter(filter: string -> bool, s: Session, w: WriterStep, s': Session)
    requires Kept(s.source) && WriterNext(filter, s, w, s')
    ensures Kept(s'.source)
  {
    match w
    case Write(op) => KeptWrite(s.source, op, s'.source.store, s.flags.cancelled);
    case EnterHook(_) => KeptSame(s.source, s'.source);
  }

  lemma KeptStep(filter: string -> bool, s: Session, step: Step, s': Session)
    requires Kept(s.source) && Next(filter, s, step, s')
    ensures Kept(s'.source)
  {
    match step
    case WriterActs(w) => KeptWriter(filter, s, w, s');
    case _ => KeptSame(s.source, s'.source);
  }

  /** Writes committed before the copy are in it; later ones met the hook unless it was already cancelled. */
  ghost predicate Covered(filter: string -> bool, s: Session) {
    && s.producer.atCopy <= |s.source.commits|
    && WellFormed(s.producer.copy)
    && (s.producer.copied ==> forall i :: 0 <= i < s.producer.atCopy && filter(s.source.commits[i].op.key) ==>
          EntryOf(s.source.commits[i]) in LogOf(s.producer.copy, s.source.commits[i].op.key))
    && (s.producer.copied ==> forall i :: s.producer.atCopy <= i < |s.source.commits| ==>
          s.source.commits[i].late || s.source.commits[i].call != NoHook)
  }

  /** Steps that leave the copy alone and forget no committed write keep every write covered. */
  lemma CoveredKeeps(filter: string -> bool, s: Session, s': Session)
    requires Covered(filter, s) && s'.producer.copied == s.producer.copied
    requires s'.producer.copy == s.producer.copy && s'.producer.atCopy == s.producer.atCopy
    requires |s.source.commits| <= |s'.source.commits|
    requires forall i :: 0 <= i < |s.source.commits| ==>
      && s'.source.commits[i].op == s.source.commits[i].op
      && s'.source.commits[i].version == s.source.commits[i].version
      && (s.source.commits[i].late || s.source.commits[i].call != NoHook ==>
            s'.source.commits[i].late || s'.source.commits[i].call != NoHook)
    requires s.producer.copied ==> forall i :: |s.source.commits| <= i < |s'.source.commits| ==>
      s'.source.commits[i].late || s'.source.commits[i].call != NoHook
    ensures Covered(filter, s')
  {
  }

  lemma CoveredCopy(filter: string -> bool, s: Session, s': Session)
    requires Kept(s.source) && ProducerNext(filter, s, CopyStore, s')
    ensures Covered(filter, s')
  {
  }

  lemma CoveredWriter(filter: string -> bool, s: Session, w: WriterStep, s': Session)
    requires Phases(s.producer, s.flags) && HookSet(s) && Covered(filter, s) && WriterNext(filter, s, w, s')
    ensures Covered(filter, s')
  {
    CoveredKeeps(filter, s, s');
  }

  lemma CoveredStep(filter: string -> bool, s: Session, step: Step, s': Session)
    requires Phases(s.producer, s.flags) && HookSet(s) && Kept(s.source) && Covered(filter, s)
    requires Next(filter, s, step, s')
    ensures Covered(filter, s')
  {
    match step
    case WriterActs(w) => CoveredWriter(filter, s, w, s');
    case ProducerActs(CopyStore) => CoveredCopy(filter, s, s');
    case LoopActs(l) => CoveredKeeps(filter, s, s');
    case _ => CoveredKeeps(filter, s, s');
  }

  /** A finished hook call either put its write on the stream or had a key the filter refuses. */
  ghost predicate Answered(filter: string -> bool, s: Session) {
    forall i :: 0 <= i < |s.source.commits| ==>
      && (s.source.commits[i].call == Sent ==> LiveOf(s.source.commits[i]) in s.sent)
      && (s.source.commits[i].call == Filtered ==> !filter(s.source.commits[i].op.key))
  }

  lemma AnsweredWriter(filter: string -> bool, s: Session, w: WriterStep, s': Session)
    requires Answered(filter, s) && WriterNext(filter, s, w, s')
    ensures Answered(filter, s')
  {
  }

  lemma AnsweredLoop(filter: string -> bool, s: Session, l: LoopStep, s': Session)
    requires Answered(filter, s) && LoopNext(s, l, s')
    ensures Answered(filter, s')
  {
  }

  lemma AnsweredTicker(filter: string -> bool, s: Session, t: TickerStep, s': Session)
    requires Answered(filter, s) && TickerNext(s, t, s')
    ensures Answered(filter, s')
  {
  }

  lemma AnsweredStep(filter: string -> bool, s: Session, step: Step, s': Session)
    requires Answered(filter, s) && Next(filter, s, step, s')
    ensures Answered(filter, s')
  {
    match step
    case WriterActs(w) => AnsweredWriter(filter, s, w, s');
    case LoopActs(l) => AnsweredLoop(filter, s, l, s');
    case TickerActs(t) => AnsweredTicker(filter, s, t, s');
    case _ => assert s'.source.commits == s.source.commits && s'.sent == s.sent;
  }

  /** Every live event was put on the stream by some committed write. */
  ghost predicate Sourced(s: Session) {
    forall e :: e in s.sent && e.LiveEvent? ==>
      exists i :: 0 <= i < |s.source.commits| && LiveOf(s.source.commits[i]) == e && s.source.commits[i].call == Sent
  }

  lemma SourcedReceive(s: Session, i: nat, s': Session)
    requires Sourced(s) && LoopNext(s, ReceiveLive(i), s')
    ensures Sourced(s')
  {
    assert LiveOf(s'.source.commits[i]) == LiveOf(s.source.commits[i]) && s'.source.commits[i].call == Sent;
    SourcedKeeps(s, s', LiveOf(s.source.commits[i]));
  }

  /** What was sourced stays so while calls that were sent stay sent, whatever sourced event `added` joins the stream. */
  lemma SourcedKeeps(s: Session, s': Session, added: Event)
    requires Sourced(s) && |s.source.commits| <= |s'.source.commits|
    requires forall i :: 0 <= i < |s.source.commits| ==>
      && LiveOf(s'.source.commits[i]) == LiveOf(s.source.commits[i])
      && (s.source.commits[i].call == Sent ==> s'.source.commits[i].call == Sent)
    requires forall e :: e in s'.sent && e.LiveEvent? ==> e in s.sent || e == added
    requires added.LiveEvent? ==> exists i ::
      0 <= i < |s'.source.commits| && LiveOf(s'.source.commits[i]) == added && s'.source.commits[i].call == Sent
    ensures Sourced(s')
  {
  }

  lemma SourcedLoop(s: Session, l: LoopStep, s': Session)
    requires Sourced(s) && LoopNext(s, l, s')
    ensures Sourced(s')
  {
    match l
    case ReceiveLive(i) => SourcedReceive(s, i, s');
    case _ => SourcedKeeps(s, s', LiveComplete);
  }

  lemma SourcedStep(filter: string -> bool, s: Session, step: Step, s': Session)
    requires Sourced(s) && Next(filter, s, step, s')
    ensures Sourced(s')
  {
    match step
    case WriterActs(w) => SourcedKeeps(s, s', LiveComplete);
    case LoopActs(l) => SourcedLoop(s, l, s');
    case _ => SourcedKeeps(s, s', LiveComplete);
  }

  /** A call that found the hook set can enter it until the cancellation, and none fails before the channel's close. */
  ghost predicate Entering(s: Session) {
    forall i :: 0 <= i < |s.source.commits| ==>
      && (s.source.commits[i].call == Captured && !s.flags.cancelled ==> s.source.hook)
      && (s.source.commits[i].call in {Stuck, Panicked} ==> s.flags.liveClosed)
  }

  lemma EnteringWriter(filter: string -> bool, s: Session, w: WriterStep, s': Session)
    requires Phases(s.producer, s.flags) && Entering(s) && WriterNext(filter, s, w, s')
    ensures Entering(s')
  {
  }

  lemma EnteringTicker(s: Session, t: TickerStep, s': Session)
    requires Phases(s.producer, s.flags) && Entering(s) && TickerNext(s, t, s')
    ensures Entering(s')
  {
  }

  lemma EnteringLoop(s: Session, l: LoopStep, s': Session)
    requires Entering(s) && LoopNext(s, l, s')
    ensures Entering(s')
  {
  }

  lemma EnteringStep(filter: string -> bool, s: Session, step: Step, s': Session)
    requires Phases(s.producer, s.flags) && Entering(s) && Next(filter, s, step, s')
    ensures Entering(s')
  {
    match step
    case WriterActs(w) => EnteringWriter(filter, s, w, s');
    case LoopActs(l) => EnteringLoop(s, l, s');
    case TickerActs(t) => EnteringTicker(s, t, s');
    case _ => assert s'.source.commits == s.source.commits;
  }

  lemma {:induction false} RunEntering(filter: string -> bool, ss: seq<Session>, steps: seq<Step>, n: nat)
    requires SessionRun(filter, ss, steps) && n <= |steps|
    ensures Entering(ss[n])
  {
    if n > 0 {
      RunEntering(filter, ss, steps, n - 1);
      RunOrdered(filter, ss, steps, n - 1);
      EnteringStep(filter, ss[n - 1], steps[n - 1], ss[n]);
    }
  }

  lemma {:induction false} RunCovered(filter: string -> bool, ss: seq<Session>, steps: seq<Step>, n: nat)
    requires SessionRun(filter, ss, steps) && n <= |steps|
    ensures HookSet(ss[n]) && Kept(ss[n].source) && Covered(filter, ss[n]) && Answered(filter, ss[n]) && Sourced(ss[n])
  {
    if n > 0 {
      RunCovered(filter, ss, steps, n - 1);
      RunOrdered(filter, ss, steps, n - 1);
      HookSetStep(filter, ss[n - 1], steps[n - 1], ss[n]);
      KeptStep(filter, ss[n - 1], steps[n - 1], ss[n]);
      CoveredStep(filter, ss[n - 1], steps[n - 1], ss[n]);
      AnsweredStep(filter, ss[n - 1], steps[n - 1], ss[n]);
      SourcedStep(filter, ss[n - 1], steps[n - 1], ss[n]);
    }
  }

  /** The hook call has not ended. */
  predicate Pending(c: Commit) {
    c.call in {Captured, Sending}
  }

  /** No lost write until the live channel closes. Before the copy, every committed write is in the store the copy will
      be taken from. After it, every write that passes the filter and was committed before the hook's cancellation is
      in the copy, on the stream, or held by a hook call that has not ended; only once the channel is closed can the
      call have failed instead. A write committed before the copy is in the copy. */
  lemma EveryWriteIsSomewhere(filter: string -> bool, ss: seq<Session>, steps: seq<Step>, n: nat, i: nat)
    requires SessionRun(filter, ss, steps) && n <= |steps|
    requires i < |ss[n].source.commits| && filter(ss[n].source.commits[i].op.key)
    ensures var s := ss[n]; var c := s.source.commits[i];
      && EntryOf(c) in LogOf(s.source.store, c.op.key)
      && (s.producer.copied && i < s.producer.atCopy ==> EntryOf(c) in LogOf(s.producer.copy, c.op.key))
      && (s.producer.copied && i >= s.producer.atCopy && !c.late ==>
            LiveOf(c) in s.sent || Pending(c) || (s.flags.liveClosed && c.call in {Stuck, Panicked}))
  {
    RunCovered(filter, ss, steps, n);
    RunEntering(filter, ss, steps, n);
  }

  lemma HeldEntryStep(filter: string -> bool, s: Session, step: Step, s': Session, key: string, e: StoreEntry)
    requires Kept(s.source) && Next(filter, s, step, s') && filter(key) && e in LogOf(s.source.store, key)
    requires s.producer.copied ==> e in LogOf(s.producer.copy, key)
    ensures e in LogOf(s'.source.store, key)
    ensures s'.producer.copied ==> e in LogOf(s'.producer.copy, key)
  {
    match step
    case WriterActs(Write(op)) => CommitAdds(s.source.store, op, s'.source.store);
    case ProducerActs(CopyStore) => assert LogOf(s'.producer.copy, key) == LogOf(s.source.store, key);
    case _ => assert s'.producer.copy == s.producer.copy && s'.source.store == s.source.store;
  }

  /** What the source held when the session began is never lost either, and is in the copy. */
  lemma {:induction false} HeldEntryCopied(
      filter: string -> bool, ss: seq<Session>, steps: seq<Step>, n: nat, key: string, e: StoreEntry)
    requires SessionRun(filter, ss, steps) && n <= |steps|
    requires e in LogOf(ss[0].source.store, key) && filter(key)
    ensures e in LogOf(ss[n].source.store, key)
    ensures ss[n].producer.copied ==> e in LogOf(ss[n].producer.copy, key)
  {
    if n > 0 {
      HeldEntryCopied(filter, ss, steps, n - 1, key, e);
      RunCovered(filter, ss, steps, n - 1);
      HeldEntryStep(filter, ss[n - 1], steps[n - 1], ss[n], key, e);
    }
  }

  /** Until the hook is installed, and for good when the producer stops before that. */
  ghost predicate Unhooked(s: Session) {
    s.producer.phase in {Begin, Lookup, Install} || (s.producer.phase == Closed && !s.producer.copied)
  }

  ghost predicate Silent(s: Session) {
    Unhooked(s) ==>
      && !s.source.hook
      && (forall i :: 0 <= i < |s.source.commits| ==> s.source.commits[i].call == NoHook)
      && (forall e :: e in s.sent ==> e.SnapshotComplete? || e.LiveComplete?)
  }

  lemma SilentWriter(filter: string -> bool, s: Session, w: WriterStep, s': Session)
    requires Silent(s) && WriterNext(filter, s, w, s')
    ensures Silent(s')
  {
  }

  lemma SilentLoop(s: Session, l: LoopStep, s': Session)
    requires Phases(s.producer, s.flags) && Silent(s) && LoopNext(s, l, s')
    ensures Silent(s')
  {
  }

  lemma SilentStep(filter: string -> bool, s: Session, step: Step, s': Session)
    requires Phases(s.producer, s.flags) && Silent(s) && Next(filter, s, step, s')
    ensures Silent(s')
  {
    match step
    case WriterActs(w) => SilentWriter(filter, s, w, s');
    case LoopActs(l) => SilentLoop(s, l, s');
    case _ =>
  }

  /** A source that is empty, or does not know the joiner, when its producer looks installs no hook: however long
      the session lasts, its stream carries no data and none of the writes it takes is streamed. */
  lemma {:induction false} NoCopyNoData(filter: string -> bool, ss: seq<Session>, steps: seq<Step>, n: nat)
    requires SessionRun(filter, ss, steps) && n <= |steps|
    ensures Silent(ss[n])
  {
    if n > 0 {
      RunOrdered(filter, ss, steps, n - 1);
      NoCopyNoData(filter, ss, steps, n - 1);
      SilentStep(filter, ss[n - 1], steps[n - 1], ss[n]);
    }
  }
}
