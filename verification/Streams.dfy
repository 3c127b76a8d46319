/** One bootstrap session as a step machine: the source's writers, its snapshot producer, its ticker and its
    stream loop, the stream itself, and the joining node that consumes it. Every step is one atomic action of one
    goroutine, so a run is one interleaving. A panic in a request handler is recovered and ends that write's hook call;
    any other panic ends the process, and with it the run, by setting `crashed`. */
module Streams {
  import opened Types
  import opened StoreLog

  /** Where a write that has committed stands with the replication hook.
      Captured: the lock is released and the hook was set when it was read under the lock.
      Sending: the hook was read again, the key passed the filter, the send on the live channel waits for a receiver.
      Stuck: the same, but the channel variable is already nil, so no receiver can come.
      Panicked: the hook was no longer set when it was read again, or the channel was closed before the send was
      received, and the handler recovered. */
  datatype Call = NoHook | Captured | Sending | Sent | Filtered | Stuck | Panicked

  /** `late` marks a write committed after the hook was cancelled. */
  datatype Commit = Commit(op: WriteOp, version: Uint64, call: Call, late: bool)

  datatype Source = Source(store: Store, hook: bool, commits: seq<Commit>)

  datatype Phase = Begin | Lookup | Install | Copy | Feed | Closed

  /** `atCopy` is how many writes had committed when the copy was taken. */
  datatype Producer = Producer(phase: Phase, copied: bool, copy: Store, atCopy: nat, unsent: set<string>)

  /** What `postWriteHookReset` holds. */
  datatype Reset = NoReset | DoNothing | ClearHook

  datatype Flags = Flags(
    reset: Reset, cancelled: bool, liveClosed: bool,
    snapshotDone: bool, liveDone: bool, ended: bool, dropped: bool)

  datatype Joiner = Joiner(store: Store, state: NodeState, consumed: nat)

  /** `view` is what the source's gossip says of the joiner; `sent` is everything written to the stream so far. */
  datatype Session = Session(
    source: Source, producer: Producer, flags: Flags, view: Option<NodeState>,
    sent: seq<Event>, joiner: Joiner, crashed: bool)

  datatype WriterStep = Write(op: WriteOp) | EnterHook(i: nat)
  datatype ProducerStep = CheckSize | FindJoiner | InstallHook | CopyStore | CloseSnapshots
  datatype LoopStep =
    | FeedKey(key: string)
    | ReceiveClosedSnapshots
    | ReceiveLive(i: nat)
    | ReceiveClosedLive
    | Finish
    | Disconnect
  datatype TickerStep = CloseLive | CancelHook
  datatype JoinerStep = Consume | Hear(state: NodeState)

  datatype Step =
    | WriterActs(w: WriterStep)
    | ProducerActs(p: ProducerStep)
    | LoopActs(l: LoopStep)
    | TickerActs(t: TickerStep)
    | JoinerActs(j: JoinerStep)

  ghost predicate Init(s: Session) {
    && WellFormed(s.source.store) && !s.source.hook && s.source.commits == []
    && s.producer == Producer(Begin, false, map[], 0, {})
    && s.flags == Flags(NoReset, false, false, false, false, false, false)
    && s.view != Some(Available)
    && s.sent == []
    && WellFormed(s.joiner.store) && s.joiner.state == Bootstrapping && s.joiner.consumed == 0
    && !s.crashed
  }

  // Writers: PutRaw commits under the lock, then calls the hook

  function Recorded(src: Source, op: WriteOp, cancelled: bool): seq<Commit> {
    src.commits + [Commit(op, NextVersion(src.store, op), if src.hook then Captured else NoHook, cancelled)]
  }

  function WithCall(src: Source, i: nat, call: Call): Source
    requires i < |src.commits|
  {
    src.(commits := src.commits[i := src.commits[i].(call := call)])
  }

  /** The writer's panic is recovered when a handler made the write, and ends the process otherwise. */
  ghost predicate Panics(s: Session, i: nat, s': Session)
    requires i < |s.source.commits|
  {
    s' == s.(source := WithCall(s.source, i, Panicked)) || s' == s.(crashed := true)
  }

  ghost predicate WriterNext(filter: string -> bool, s: Session, w: WriterStep, s': Session) {
    match w
    case Write(op) =>
      && Commits(s.source.store, op, s'.source.store)
      && s' == s.(source := Source(s'.source.store, s.source.hook, Recorded(s.source, op, s.flags.cancelled)))
    case EnterHook(i) =>
      && i < |s.source.commits| && s.source.commits[i].call == Captured
      && if !s.source.hook then Panics(s, i, s')
         else if !filter(s.source.commits[i].op.key) then s' == s.(source := WithCall(s.source, i, Filtered))
         else if s.flags.liveDone then s' == s.(source := WithCall(s.source, i, Stuck))
         else if s.flags.liveClosed then Panics(s, i, s')
         else s' == s.(source := WithCall(s.source, i, Sending))
  }

  // The snapshot producer

  ghost predicate ProducerNext(filter: string -> bool, s: Session, p: ProducerStep, s': Session) {
    match p
    case CheckSize =>
      && s.producer.phase == Begin
      && s' ==
         if s.source.store == map[] then
           s.(producer := s.producer.(phase := Closed), flags := s.flags.(reset := DoNothing))
         else s.(producer := s.producer.(phase := Lookup))
    case FindJoiner =>
      && s.producer.phase == Lookup
      && s' == s.(producer := s.producer.(phase := if s.view.None? then Closed else Install))
    case InstallHook =>
      && s.producer.phase == Install
      && s' == s.(producer := s.producer.(phase := Copy), source := s.source.(hook := true))
    case CopyStore =>
      && s.producer.phase == Copy
      && var copy := FilterStore(s.source.store, filter);
         s' == s.(producer := Producer(Feed, true, copy, |s.source.commits|, copy.Keys),
                  flags := s.flags.(reset := ClearHook))
    case CloseSnapshots =>
      && s.producer.phase == Feed && s.producer.unsent == {}
      && s' == s.(producer := s.producer.(phase := Closed))
  }

  // The stream loop's select; a receive from an unbuffered channel completes the blocked send

  function LiveOf(c: Commit): Event {
    LiveEvent(c.op.key, c.op.value, c.version)
  }

  ghost predicate LoopNext(s: Session, l: LoopStep, s': Session) {
    && !s.flags.ended
    && match l
       case FeedKey(key) =>
         && s.producer.phase == Feed && key in s.producer.unsent && key in s.producer.copy
         && s' == s.(producer := s.producer.(unsent := s.producer.unsent - {key}),
                     sent := s.sent + [SnapshotEvent(key, s.producer.copy[key])])
       case ReceiveClosedSnapshots =>
         && s.producer.phase == Closed && !s.flags.snapshotDone
         && s' == s.(flags := s.flags.(snapshotDone := true), sent := s.sent + [SnapshotComplete])
       case ReceiveLive(i) =>
         && i < |s.source.commits| && s.source.commits[i].call == Sending && !s.flags.liveClosed
         && s' == s.(source := WithCall(s.source, i, Sent), sent := s.sent + [LiveOf(s.source.commits[i])])
       case ReceiveClosedLive =>
         && s.flags.liveClosed && !s.flags.liveDone
         && s' == s.(flags := s.flags.(liveDone := true), sent := s.sent + [LiveComplete])
       case Finish =>
         && s.flags.snapshotDone && s.flags.liveDone
         && s' == s.(flags := s.flags.(ended := true))
       case Disconnect => s' == s.(flags := s.flags.(ended := true, dropped := true))
  }

  // The ticker: close the live channel, then cancel the hook

  predicate InFlight(src: Source) {
    exists i :: 0 <= i < |src.commits| && src.commits[i].call == Sending
  }

  /** Closing the channel makes every send waiting on it panic. */
  function Interrupted(src: Source): Source {
    src.(commits := seq(|src.commits|, i requires 0 <= i < |src.commits| =>
      if src.commits[i].call == Sending then src.commits[i].(call := Panicked) else src.commits[i]))
  }

  ghost predicate TickerNext(s: Session, t: TickerStep, s': Session) {
    match t
    case CloseLive =>
      && s.view == Some(Available) && s.flags.snapshotDone && !s.flags.liveClosed
      && (|| s' == s.(flags := s.flags.(liveClosed := true), source := Interrupted(s.source))
          || (InFlight(s.source) && s' == s.(flags := s.flags.(liveClosed := true), crashed := true)))
    case CancelHook =>
      && s.flags.liveClosed && !s.flags.cancelled
      && s' == s.(flags := s.flags.(cancelled := true),
                  source := s.source.(hook := s.source.hook && s.flags.reset != ClearHook),
                  crashed := s.flags.reset == NoReset)
  }

  // The joining node

  function RawWrite(key: string, e: StoreEntry): WriteOp {
    WriteOp(key, e.value, Some(e.version), false)
  }

  ghost predicate PutTrace(trace: seq<Store>, key: string, values: seq<StoreEntry>) {
    && |trace| == |values| + 1
    && forall i :: 0 <= i < |values| ==> Commits(trace[i], RawWrite(key, values[i]), trace[i + 1])
  }

  /** The joiner's loop over one snapshot event's entries. */
  ghost predicate PutsAll(s: Store, key: string, values: seq<StoreEntry>, s': Store) {
    exists trace :: PutTrace(trace, key, values) && trace[0] == s && trace[|values|] == s'
  }

  ghost predicate Applies(j: Joiner, e: Event, j': Joiner) {
    && j'.consumed == j.consumed + 1
    && j'.state == (if e.SnapshotComplete? then Available else j.state)
    && match e
       case SnapshotEvent(key, values) => PutsAll(j.store, key, values, j'.store)
       case LiveEvent(key, value, version) => Commits(j.store, WriteOp(key, value, Some(version), false), j'.store)
       case _ => j'.store == j.store
  }

  ghost predicate JoinerNext(s: Session, j: JoinerStep, s': Session) {
    match j
    case Consume =>
      && s.joiner.consumed < |s.sent|
      && Applies(s.joiner, s.sent[s.joiner.consumed], s'.joiner)
      && s' == s.(joiner := s'.joiner)
    case Hear(state) => Rank(state) <= Rank(s.joiner.state) && s' == s.(view := Some(state))
  }

  ghost predicate Next(filter: string -> bool, s: Session, step: Step, s': Session) {
    && !s.crashed
    && match step
       case WriterActs(w) => WriterNext(filter, s, w, s')
       case ProducerActs(p) => ProducerNext(filter, s, p, s')
       case LoopActs(l) => LoopNext(s, l, s')
       case TickerActs(t) => TickerNext(s, t, s')
       case JoinerActs(j) => JoinerNext(s, j, s')
  }

  ghost predicate SessionRun(filter: string -> bool, ss: seq<Session>, steps: seq<Step>) {
    && |ss| == |steps| + 1
    && Init(ss[0])
    && forall i :: 0 <= i < |steps| ==> Next(filter, ss[i], steps[i], ss[i + 1])
  }
}
