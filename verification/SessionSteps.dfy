/** What a session's state records of its steps. */
module SessionSteps {
  import opened StoreLog
  import opened Streams
  import opened StreamOrder
  import opened NoLostWrite

  ghost predicate Happened(steps: seq<Step>, n: nat, step: Step)
    requires n <= |steps|
  {
    exists k :: 0 <= k < n && steps[k] == step
  }

  lemma HappenedNext(steps: seq<Step>, n: nat, step: Step)
    requires 0 < n <= |steps|
    ensures Happened(steps, n, step) <==> Happened(steps, n - 1, step) || steps[n - 1] == step
  {
  }

  lemma HappenedNone(steps: seq<Step>)
    ensures forall step :: !Happened(steps, 0, step)
  {
  }

  // Flags

  /** Every flag is up exactly when the step that raises it has been taken. */
  ghost predicate Flagged(f: Flags, steps: seq<Step>, n: nat)
    requires n <= |steps|
  {
    && (f.snapshotDone <==> Happened(steps, n, LoopActs(ReceiveClosedSnapshots)))
    && (f.liveClosed <==> Happened(steps, n, TickerActs(CloseLive)))
    && (f.cancelled <==> Happened(steps, n, TickerActs(CancelHook)))
    && (f.liveDone <==> Happened(steps, n, LoopActs(ReceiveClosedLive)))
    && (f.ended <==> Happened(steps, n, LoopActs(Finish)) || Happened(steps, n, LoopActs(Disconnect)))
    && (f.dropped <==> Happened(steps, n, LoopActs(Disconnect)))
  }

  lemma FlagsWriter(filter: string -> bool, s: Session, w: WriterStep, s': Session)
    requires WriterNext(filter, s, w, s')
    ensures s'.flags == s.flags
  {
  }

  lemma FlagsProducer(filter: string -> bool, s: Session, p: ProducerStep, s': Session)
    requires ProducerNext(filter, s, p, s')
    ensures s'.flags == s.flags.(reset := s'.flags.reset)
  {
    match p
    case CheckSize =>
    case FindJoiner => assert s'.flags == s.flags;
    case InstallHook => assert s'.flags == s.flags;
    case CopyStore => assert s'.flags == s.flags.(reset := ClearHook);
    case CloseSnapshots => assert s'.flags == s.flags;
  }

  lemma FlagsLoop(s: Session, l: LoopStep, s': Session)
    requires LoopNext(s, l, s')
    ensures s'.flags.snapshotDone == (s.flags.snapshotDone || l == ReceiveClosedSnapshots)
    ensures s'.flags.liveDone == (s.flags.liveDone || l == ReceiveClosedLive)
    ensures s'.flags.ended == (s.flags.ended || l == Finish || l == Disconnect)
    ensures s'.flags.dropped == (s.flags.dropped || l == Disconnect)
    ensures s'.flags.liveClosed == s.flags.liveClosed && s'.flags.cancelled == s.flags.cancelled
  {
  }

  lemma FlagsTicker(s: Session, t: TickerStep, s': Session)
    requires TickerNext(s, t, s')
    ensures s'.flags.liveClosed == (s.flags.liveClosed || t == CloseLive)
    ensures s'.flags.cancelled == (s.flags.cancelled || t == CancelHook)
    ensures s'.flags == s.flags.(liveClosed := s'.flags.liveClosed, cancelled := s'.flags.cancelled)
  {
  }

  lemma FlagsStep(filter: string -> bool, s: Session, step: Step, s': Session)
    requires Next(filter, s, step, s')
    ensures s'.flags.snapshotDone == (s.flags.snapshotDone || step == LoopActs(ReceiveClosedSnapshots))
    ensures s'.flags.liveClosed == (s.flags.liveClosed || step == TickerActs(CloseLive))
    ensures s'.flags.cancelled == (s.flags.cancelled || step == TickerActs(CancelHook))
    ensures s'.flags.liveDone == (s.flags.liveDone || step == LoopActs(ReceiveClosedLive))
    ensures s'.flags.ended == (s.flags.ended || step == LoopActs(Finish) || step == LoopActs(Disconnect))
    ensures s'.flags.dropped == (s.flags.dropped || step == LoopActs(Disconnect))
  {
    match step
    case WriterActs(w) => FlagsWriter(filter, s, w, s');
    case ProducerActs(p) => FlagsProducer(filter, s, p, s');
    case LoopActs(l) => FlagsLoop(s, l, s');
    case TickerActs(t) => FlagsTicker(s, t, s');
    case JoinerActs(_) => assert s'.flags == s.flags;
  }

  lemma {:induction false} FlagsIff(filter: string -> bool, ss: seq<Session>, steps: seq<Step>, n: nat)
    requires SessionRun(filter, ss, steps) && n <= |steps|
    ensures Flagged(ss[n].flags, steps, n)
  {
    if n == 0 {
      HappenedNone(steps);
    } else {
      FlagsIff(filter, ss, steps, n - 1);
      FlagsStep(filter, ss[n - 1], steps[n - 1], ss[n]);
      forall step ensures Happened(steps, n, step) <==> Happened(steps, n - 1, step) || steps[n - 1] == step {
        HappenedNext(steps, n, step);
      }
    }
  }

  /** The markers are sent, the channel closed, the hook cancelled and the stream finished at most once. */
  lemma TakenOnce(filter: string -> bool, ss: seq<Session>, steps: seq<Step>, j: nat, k: nat)
    requires SessionRun(filter, ss, steps) && j < k < |steps| && steps[j] == steps[k]
    ensures steps[k] !in {TickerActs(CloseLive), TickerActs(CancelHook), LoopActs(ReceiveClosedSnapshots),
                          LoopActs(ReceiveClosedLive), LoopActs(Finish)}
  {
    FlagsIff(filter, ss, steps, k);
    assert Happened(steps, k, steps[k]);
    assert Next(filter, ss[k], steps[k], ss[k + 1]);
  }

  // The producer

  /** The producer found the source without a key. */
  ghost predicate MetEmpty(ss: seq<Session>, steps: seq<Step>, n: nat)
    requires n <= |steps| && n <= |ss|
  {
    exists k :: 0 <= k < n && steps[k] == ProducerActs(CheckSize) && ss[k].source.store == map[]
  }

  /** The producer did not find the joiner in the source's gossip. */
  ghost predicate MetUnknown(ss: seq<Session>, steps: seq<Step>, n: nat)
    requires n <= |steps| && n <= |ss|
  {
    exists k :: 0 <= k < n && steps[k] == ProducerActs(FindJoiner) && ss[k].view.None?
  }

  ghost predicate Produced(s: Session, empty: bool, unknown: bool) {
    && (s.flags.reset == DoNothing <==> empty)
    && (s.producer.copied <==> s.flags.reset == ClearHook)
    && (empty || unknown <==> s.producer.phase == Closed && !s.producer.copied)
    && !(empty && unknown)
    && (s.flags.cancelled && unknown ==> s.crashed)
  }

  lemma ProducedProducer(
      filter: string -> bool, s: Session, p: ProducerStep, s': Session, empty: bool, unknown: bool)
    requires Phases(s.producer, s.flags) && Produced(s, empty, unknown) && ProducerNext(filter, s, p, s')
    ensures Produced(s', empty || (p == CheckSize && s.source.store == map[]),
                     unknown || (p == FindJoiner && s.view.None?))
  {
  }

  lemma ProducedTicker(s: Session, t: TickerStep, s': Session, empty: bool, unknown: bool)
    requires Phases(s.producer, s.flags) && Produced(s, empty, unknown) && TickerNext(s, t, s')
    ensures Produced(s', empty, unknown)
  {
  }

  lemma ProducedStep(filter: string -> bool, s: Session, step: Step, s': Session, empty: bool, unknown: bool)
    requires Phases(s.producer, s.flags) && Produced(s, empty, unknown) && Next(filter, s, step, s')
    ensures Produced(s', empty || (step == ProducerActs(CheckSize) && s.source.store == map[]),
                     unknown || (step == ProducerActs(FindJoiner) && s.view.None?))
  {
    match step
    case ProducerActs(p) => ProducedProducer(filter, s, p, s', empty, unknown);
    case TickerActs(t) => ProducedTicker(s, t, s', empty, unknown);
    case _ =>
  }

  lemma {:induction false} RunProduced(filter: string -> bool, ss: seq<Session>, steps: seq<Step>, n: nat)
    requires SessionRun(filter, ss, steps) && n <= |steps|
    ensures Produced(ss[n], MetEmpty(ss, steps, n), MetUnknown(ss, steps, n))
  {
    if n > 0 {
      RunProduced(filter, ss, steps, n - 1);
      RunOrdered(filter, ss, steps, n - 1);
      ProducedStep(filter, ss[n - 1], steps[n - 1], ss[n], MetEmpty(ss, steps, n - 1), MetUnknown(ss, steps, n - 1));
      assert MetEmpty(ss, steps, n) <==>
        MetEmpty(ss, steps, n - 1) || (steps[n - 1] == ProducerActs(CheckSize) && ss[n - 1].source.store == map[]);
      assert MetUnknown(ss, steps, n) <==>
        MetUnknown(ss, steps, n - 1) || (steps[n - 1] == ProducerActs(FindJoiner) && ss[n - 1].view.None?);
    }
  }

  /** A producer that is through has copied the store exactly when it found keys in it and the joiner in its gossip.
      Otherwise the stream carries markers alone and no write meets a hook; and without the joiner the ticker's cancel
      has no function to call and ends the process. */
  lemma CopiedIff(filter: string -> bool, ss: seq<Session>, steps: seq<Step>, n: nat)
    requires SessionRun(filter, ss, steps) && n <= |steps|
    ensures ss[n].producer.phase == Closed ==>
      (ss[n].producer.copied <==> !MetEmpty(ss, steps, n) && !MetUnknown(ss, steps, n))
    ensures MetEmpty(ss, steps, n) || MetUnknown(ss, steps, n) ==>
      && !ss[n].source.hook
      && (forall e :: e in ss[n].sent ==> e.SnapshotComplete? || e.LiveComplete?)
      && (forall i :: 0 <= i < |ss[n].source.commits| ==> ss[n].source.commits[i].call == NoHook)
    ensures MetUnknown(ss, steps, n) && ss[n].flags.cancelled ==> ss[n].crashed
  {
    RunProduced(filter, ss, steps, n);
    NoCopyNoData(filter, ss, steps, n);
  }

  // Writes

  /** Commit `i` is the write of step `k`, made under the next version, that met the hook as it then was. */
  ghost predicate MadeAt(c: Commit, i: nat, ss: seq<Session>, steps: seq<Step>, k: nat)
    requires k < |steps| && k < |ss|
  {
    && steps[k] == WriterActs(Write(c.op)) && |ss[k].source.commits| == i
    && c.version == NextVersion(ss[k].source.store, c.op)
    && (c.call == NoHook <==> !ss[k].source.hook)
    && (c.late <==> Happened(steps, k, TickerActs(CancelHook)))
  }

  lemma CommitsKept(filter: string -> bool, s: Session, step: Step, s': Session, i: nat)
    requires Next(filter, s, step, s') && i < |s.source.commits|
    ensures i < |s'.source.commits|
    ensures var c, c' := s.source.commits[i], s'.source.commits[i];
      c'.op == c.op && c'.version == c.version && c'.late == c.late && (c'.call == NoHook <==> c.call == NoHook)
  {
  }

  lemma NewCommit(filter: string -> bool, s: Session, step: Step, s': Session)
    requires Next(filter, s, step, s') && |s'.source.commits| > |s.source.commits|
    ensures var i := |s.source.commits|; var c := s'.source.commits[i];
      && |s'.source.commits| == i + 1 && step == WriterActs(Write(c.op))
      && c.version == NextVersion(s.source.store, c.op)
      && (c.call == NoHook <==> !s.source.hook) && (c.late <==> s.flags.cancelled)
  {
  }

  /** Every commit is some write step's, and says of it what was so at that step: a write is late exactly when it came
      after the hook's cancellation. */
  lemma {:induction false} CommitMadeAt(filter: string -> bool, ss: seq<Session>, steps: seq<Step>, n: nat, i: nat)
    returns (k: nat)
    requires SessionRun(filter, ss, steps) && n <= |steps| && i < |ss[n].source.commits|
    ensures k < n && MadeAt(ss[n].source.commits[i], i, ss, steps, k)
  {
    if i < |ss[n - 1].source.commits| {
      k := CommitMadeAt(filter, ss, steps, n - 1, i);
      CommitsKept(filter, ss[n - 1], steps[n - 1], ss[n], i);
    } else {
      k := n - 1;
      NewCommit(filter, ss[k], steps[k], ss[n]);
      FlagsIff(filter, ss, steps, k);
    }
  }

  // The stream

  /** Once the stream has ended nothing is added to it. */
  lemma {:induction false} EndedStepsSilent(filter: string -> bool, ss: seq<Session>, steps: seq<Step>, k: nat, n: nat)
    requires SessionRun(filter, ss, steps) && k <= n <= |steps| && ss[k].flags.ended
    ensures ss[n].flags.ended && ss[n].sent == ss[k].sent
    decreases n
  {
    if k < n {
      EndedStepsSilent(filter, ss, steps, k, n - 1);
    }
  }

  /** Only keys the filter accepts are copied, sent and streamed. */
  ghost predicate Passing(filter: string -> bool, s: Session) {
    && (forall k :: k in s.producer.copy ==> filter(k))
    && (forall i :: 0 <= i < |s.source.commits| && s.source.commits[i].call in {Sending, Sent, Stuck} ==>
          filter(s.source.commits[i].op.key))
    && (forall e :: e in s.sent && (e.SnapshotEvent? || e.LiveEvent?) ==> filter(e.key))
  }

  lemma PassingWriter(filter: string -> bool, s: Session, w: WriterStep, s': Session)
    requires Passing(filter, s) && WriterNext(filter, s, w, s')
    ensures Passing(filter, s')
  {
  }

  lemma PassingLoop(filter: string -> bool, s: Session, l: LoopStep, s': Session)
    requires Passing(filter, s) && LoopNext(s, l, s')
    ensures Passing(filter, s')
  {
  }

  lemma PassingStep(filter: string -> bool, s: Session, step: Step, s': Session)
    requires Passing(filter, s) && Next(filter, s, step, s')
    ensures Passing(filter, s')
  {
    match step
    case WriterActs(w) => PassingWriter(filter, s, w, s');
    case LoopActs(l) => PassingLoop(filter, s, l, s');
    case _ => assert s'.sent == s.sent;
  }

  /** Nothing of a key the filter refuses is ever copied or streamed. */
  lemma {:induction false} RefusedNeverSent(filter: string -> bool, ss: seq<Session>, steps: seq<Step>, n: nat)
    requires SessionRun(filter, ss, steps) && n <= |steps|
    ensures Passing(filter, ss[n])
  {
    if n > 0 {
      RefusedNeverSent(filter, ss, steps, n - 1);
      PassingStep(filter, ss[n - 1], steps[n - 1], ss[n]);
    }
  }
}
