/** In what order a bootstrap stream carries its events, over every interleaving. */
module StreamOrder {
  import opened Types
  import opened Streams

  /** The goroutines' flags follow one another in the order the code sets them. */
  ghost predicate Phases(p: Producer, f: Flags) {
    && (p.phase in {Begin, Lookup, Install, Copy} ==> !p.copied)
    && (p.phase == Feed ==> p.copied)
    && (p.copied ==> p.unsent <= p.copy.Keys)
    && (!p.copied ==> p.copy == map[] && p.unsent == {})
    && (p.phase == Closed ==> p.unsent == {})
    && (f.snapshotDone ==> p.phase == Closed)
    && (f.liveClosed ==> f.snapshotDone)
    && (f.cancelled ==> f.liveClosed)
    && (f.liveDone ==> f.liveClosed)
    && (f.ended && !f.dropped ==> f.snapshotDone && f.liveDone)
  }

  lemma PhasesStep(filter: string -> bool, s: Session, step: Step, s': Session)
    requires Phases(s.producer, s.flags) && Next(filter, s, step, s')
    ensures Phases(s'.producer, s'.flags)
  {
  }

  ghost predicate Marked(sent: seq<Event>, f: Flags) {
    && (forall i :: 0 <= i < |sent| && sent[i].SnapshotComplete? ==> f.snapshotDone)
    && (forall i, j :: 0 <= i < j < |sent| && sent[i].SnapshotComplete? ==>
          !sent[j].SnapshotEvent? && !sent[j].SnapshotComplete?)
    && (f.snapshotDone ==> SnapshotComplete in sent)
    && (forall i :: 0 <= i < |sent| && sent[i].LiveComplete? ==> f.liveDone && i == |sent| - 1)
    && (f.liveDone ==> sent != [] && sent[|sent| - 1] == LiveComplete)
  }

  lemma MarkedLoop(s: Session, l: LoopStep, s': Session)
    requires Phases(s.producer, s.flags) && Marked(s.sent, s.flags) && LoopNext(s, l, s')
    ensures Marked(s'.sent, s'.flags)
  {
  }

  lemma MarkedStep(filter: string -> bool, s: Session, step: Step, s': Session)
    requires Phases(s.producer, s.flags) && Marked(s.sent, s.flags) && Next(filter, s, step, s')
    ensures Marked(s'.sent, s'.flags)
  {
    if step.LoopActs? {
      MarkedLoop(s, step.l, s');
    } else {
      assert s'.sent == s.sent;
    }
  }

  /** Snapshot events carry exactly the copied keys already handed over, each once, each with its copied log. */
  ghost predicate Fed(p: Producer, sent: seq<Event>) {
    && (forall i :: 0 <= i < |sent| && sent[i].SnapshotEvent? ==>
          sent[i].key in p.copy && sent[i].key !in p.unsent && sent[i].values == p.copy[sent[i].key])
    && (forall i, j :: 0 <= i < j < |sent| && sent[i].SnapshotEvent? && sent[j].SnapshotEvent? ==>
          sent[i].key != sent[j].key)
    && (forall k :: k in p.copy && k !in p.unsent ==> SnapshotEvent(k, p.copy[k]) in sent)
  }

  lemma FedProducer(filter: string -> bool, s: Session, p: ProducerStep, s': Session)
    requires Phases(s.producer, s.flags) && Fed(s.producer, s.sent) && ProducerNext(filter, s, p, s')
    ensures Fed(s'.producer, s'.sent)
  {
  }

  lemma FedKey(s: Session, key: string, s': Session)
    requires Fed(s.producer, s.sent) && LoopNext(s, FeedKey(key), s')
    ensures Fed(s'.producer, s'.sent)
  {
  }

  lemma FedLoop(s: Session, l: LoopStep, s': Session)
    requires Fed(s.producer, s.sent) && LoopNext(s, l, s')
    ensures Fed(s'.producer, s'.sent)
  {
    if l.FeedKey? {
      FedKey(s, l.key, s');
    } else {
      assert s'.producer == s.producer && s.sent <= s'.sent;
      assert forall i :: |s.sent| <= i < |s'.sent| ==> !s'.sent[i].SnapshotEvent?;
    }
  }

  lemma FedStep(filter: string -> bool, s: Session, step: Step, s': Session)
    requires Phases(s.producer, s.flags) && Fed(s.producer, s.sent) && Next(filter, s, step, s')
    ensures Fed(s'.producer, s'.sent)
  {
    match step
    case ProducerActs(p) => FedProducer(filter, s, p, s');
    case LoopActs(l) => FedLoop(s, l, s');
    case _ => assert s'.producer == s.producer && s'.sent == s.sent;
  }

  /** The joiner serves exactly from reading the end of the snapshot on, the source hears of it no earlier, and closes
      the live channel no earlier than that. */
  ghost predicate Joined(s: Session) {
    && s.joiner.consumed <= |s.sent|
    && s.joiner.state in {Bootstrapping, Available}
    && (s.joiner.state == Available <==> SnapshotComplete in s.sent[..s.joiner.consumed])
    && (s.view == Some(Available) ==> s.joiner.state == Available)
    && (s.flags.liveClosed ==> s.joiner.state == Available)
  }

  lemma JoinedStep(filter: string -> bool, s: Session, step: Step, s': Session)
    requires Joined(s) && Next(filter, s, step, s')
    ensures Joined(s')
  {
    assert s'.sent[..s.joiner.consumed] == s.sent[..s.joiner.consumed];
    if step == JoinerActs(Consume) {
      assert s.sent[..s.joiner.consumed + 1] == s.sent[..s.joiner.consumed] + [s.sent[s.joiner.consumed]];
    }
  }

  lemma {:induction false} RunOrdered(filter: string -> bool, ss: seq<Session>, steps: seq<Step>, n: nat)
    requires SessionRun(filter, ss, steps) && n <= |steps|
    ensures Phases(ss[n].producer, ss[n].flags) && Marked(ss[n].sent, ss[n].flags)
    ensures Fed(ss[n].producer, ss[n].sent) && Joined(ss[n])
  {
    if n > 0 {
      RunOrdered(filter, ss, steps, n - 1);
      PhasesStep(filter, ss[n - 1], steps[n - 1], ss[n]);
      MarkedStep(filter, ss[n - 1], steps[n - 1], ss[n]);
      FedStep(filter, ss[n - 1], steps[n - 1], ss[n]);
      JoinedStep(filter, ss[n - 1], steps[n - 1], ss[n]);
    }
  }

  /** All snapshot events come before the one SnapshotComplete; LiveComplete comes after it and is the last event;
      a stream that ended without a disconnect carries both; and a joiner that serves has applied every copied key. */
  lemma StreamProtocol(filter: string -> bool, ss: seq<Session>, steps: seq<Step>, n: nat)
    requires SessionRun(filter, ss, steps) && n <= |steps|
    ensures forall i, j :: 0 <= i < j < |ss[n].sent| && ss[n].sent[i].SnapshotComplete? ==>
              !ss[n].sent[j].SnapshotEvent? && !ss[n].sent[j].SnapshotComplete?
    ensures forall i :: 0 <= i < |ss[n].sent| && ss[n].sent[i].LiveComplete? ==>
              i == |ss[n].sent| - 1 && SnapshotComplete in ss[n].sent[..i]
    ensures ss[n].flags.ended && !ss[n].flags.dropped ==>
              SnapshotComplete in ss[n].sent && ss[n].sent[|ss[n].sent| - 1] == LiveComplete
    ensures ss[n].joiner.consumed <= |ss[n].sent|
    ensures ss[n].joiner.state == Available ==>
              forall k :: k in ss[n].producer.copy ==>
                SnapshotEvent(k, ss[n].producer.copy[k]) in ss[n].sent[..ss[n].joiner.consumed]
  {
    RunOrdered(filter, ss, steps, n);
    var s := ss[n];
    forall i | 0 <= i < |s.sent| && s.sent[i].LiveComplete? ensures SnapshotComplete in s.sent[..i] {
      CompleteComesFirst(s, i);
    }
    if s.joiner.state == Available {
      forall k | k in s.producer.copy
        ensures SnapshotEvent(k, s.producer.copy[k]) in s.sent[..s.joiner.consumed]
      {
        CopiedKeyApplied(s, k);
      }
    }
  }

  /** As long as the joiner does not serve, the live channel stays open and the hook is not cancelled. */
  lemma OpenUntilServing(filter: string -> bool, ss: seq<Session>, steps: seq<Step>, n: nat)
    requires SessionRun(filter, ss, steps) && n <= |steps|
    ensures ss[n].joiner.consumed <= |ss[n].sent|
    ensures ss[n].joiner.state == Available <==> SnapshotComplete in ss[n].sent[..ss[n].joiner.consumed]
    ensures ss[n].joiner.state != Available ==> !ss[n].flags.liveClosed && !ss[n].flags.cancelled
  {
    RunOrdered(filter, ss, steps, n);
  }

  lemma CompleteComesFirst(s: Session, i: nat)
    requires Phases(s.producer, s.flags) && Marked(s.sent, s.flags)
    requires i < |s.sent| && s.sent[i].LiveComplete?
    ensures SnapshotComplete in s.sent[..i]
  {
  }

  lemma CopiedKeyApplied(s: Session, k: string)
    requires Phases(s.producer, s.flags) && Marked(s.sent, s.flags) && Fed(s.producer, s.sent) && Joined(s)
    requires s.joiner.state == Available && k in s.producer.copy
    ensures SnapshotEvent(k, s.producer.copy[k]) in s.sent[..s.joiner.consumed]
  {
  }
}
