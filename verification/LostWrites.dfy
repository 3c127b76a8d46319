/** Sessions that lose a write the source made before it cancelled the hook. */
module LostWrites {
  import opened Types
  import opened StoreLog
  import opened Streams
  import opened NoLostWrite
  import opened HookCalls
  import opened Bootstrap
  import opened Overtaking

  /** The snapshot is through and the joiner, having read it, serves. */
  function Serving(): Session {
    Copied().(
      producer := Producer(Closed, true, map["k" := [OLD]], 0, {}),
      flags := Flags(ClearHook, false, false, true, false, false, false),
      view := Some(Available),
      sent := [SnapshotEvent("k", [OLD]), SnapshotComplete],
      joiner := Joiner(map["k" := [OLD]], Available, 2))
  }

  lemma OldPutFirst()
    ensures PutsAll(map[], "k", [OLD], map["k" := [OLD]])
  {
    assert [] + [OLD] == [OLD];
    assert Commits(map[], RawWrite("k", OLD), map["k" := [OLD]]);
    PutsNone(map[], "k");
    PutsOneMore(map[], "k", [], map[], OLD, map["k" := [OLD]]);
  }

  lemma SnapshotSent() returns (ss: seq<Session>, steps: seq<Step>)
    ensures SessionRun(AllKeys, ss, steps) && ss[0] == Start()
    ensures ss[|steps|] == Serving().(view := Some(Bootstrapping), joiner := Start().joiner)
  {
    ss, steps := CopyTaken();
    var s := Copied();
    s := s.(producer := s.producer.(unsent := {}), sent := [SnapshotEvent("k", [OLD])]);
    ss, steps := Extend(ss, steps, LoopActs(FeedKey("k")), s);
    s := s.(producer := s.producer.(phase := Closed));
    ss, steps := Extend(ss, steps, ProducerActs(CloseSnapshots), s);
    s := s.(flags := s.flags.(snapshotDone := true), sent := s.sent + [SnapshotComplete]);
    ss, steps := Extend(ss, steps, LoopActs(ReceiveClosedSnapshots), s);
  }

  lemma JoinerServes() returns (ss: seq<Session>, steps: seq<Step>)
    ensures SessionRun(AllKeys, ss, steps) && ss[0] == Start() && ss[|steps|] == Serving()
  {
    ss, steps := SnapshotSent();
    OldPutFirst();
    var s := ss[|steps|].(joiner := Joiner(map["k" := [OLD]], Bootstrapping, 1));
    ss, steps := Extend(ss, steps, JoinerActs(Consume), s);
    s := s.(joiner := Joiner(map["k" := [OLD]], Available, 2));
    ss, steps := Extend(ss, steps, JoinerActs(Consume), s);
    ss, steps := Extend(ss, steps, JoinerActs(Hear(Available)), Serving());
  }

  // The live channel is closed between a write's commit and its hook call

  lemma NothingInterrupted(src: Source)
    requires forall i :: 0 <= i < |src.commits| ==> src.commits[i].call != Sending
    ensures Interrupted(src) == src
  {
  }

  /** Version 2 has committed with the hook set, and then the live channel was closed. */
  function Closing(call: Call): Session {
    Serving().(
      source := Source(map["k" := [OLD, NEW]], true, [Commit(PUT, 2, call, false)]),
      flags := Flags(ClearHook, false, true, true, false, false, false))
  }

  lemma ChannelClosing() returns (ss: seq<Session>, steps: seq<Step>)
    ensures SessionRun(AllKeys, ss, steps) && ss[0] == Start() && ss[|steps|] == Closing(Captured)
  {
    ss, steps := JoinerServes();
    PutCommits();
    var s := Serving().(source := Source(map["k" := [OLD, NEW]], true, [Commit(PUT, 2, Captured, false)]));
    ss, steps := Extend(ss, steps, WriterActs(Write(PUT)), s);
    NothingInterrupted(s.source);
    ss, steps := Extend(ss, steps, TickerActs(CloseLive), Closing(Captured));
  }

  /** The hook call is over one way or the other, the loop has read the close, and the session ends. */
  function Ended(call: Call): Session {
    Closing(call).(
      source := Source(map["k" := [OLD, NEW]], false, [Commit(PUT, 2, call, false)]),
      flags := Flags(ClearHook, true, true, true, true, true, false),
      sent := [SnapshotEvent("k", [OLD]), SnapshotComplete, LiveComplete],
      joiner := Joiner(map["k" := [OLD]], Available, 3))
  }

  function Abandoned(call: Call): Session {
    Closing(call).(
      flags := Flags(ClearHook, false, true, true, true, false, false),
      sent := [SnapshotEvent("k", [OLD]), SnapshotComplete, LiveComplete])
  }

  lemma EndCleanly(ss: seq<Session>, steps: seq<Step>, call: Call) returns (ss': seq<Session>, steps': seq<Step>)
    requires SessionRun(AllKeys, ss, steps) && ss[0] == Start() && ss[|steps|] == Abandoned(call)
    ensures SessionRun(AllKeys, ss', steps') && ss'[0] == Start() && ss'[|steps'|] == Ended(call)
  {
    var s := Abandoned(call);
    s := s.(source := s.source.(hook := false), flags := s.flags.(cancelled := true));
    ss', steps' := Extend(ss, steps, TickerActs(CancelHook), s);
    s := s.(flags := s.flags.(ended := true));
    ss', steps' := Extend(ss', steps', LoopActs(Finish), s);
    ss', steps' := Extend(ss', steps', JoinerActs(Consume), Ended(call));
  }

  /** Nothing is left to read, nothing crashed or disconnected, the write was in time, and the joiner shows version 1
      of 2. */
  ghost predicate CleanLoss(s: Session) {
    && !s.crashed && s.flags.ended && !s.flags.dropped && s.joiner.consumed == |s.sent|
    && (forall i :: 0 <= i < |s.source.commits| ==> !s.source.commits[i].late && !Pending(s.source.commits[i]))
    && Visible(s.source.store, "k") == (NEW.value, 2)
    && Visible(s.joiner.store, "k") == (OLD.value, 1)
  }

  /** The loop reads the close first: the write's hook call sends on a nil channel for ever. */
  lemma NilChannelLosesWrite() returns (ss: seq<Session>, steps: seq<Step>)
    ensures Bootstraps(AllKeys, ss, steps, |steps|, "k") && Ready(ss[0]) && CleanLoss(ss[|steps|])
    ensures ss[|steps|].source.commits == [Commit(PUT, 2, Stuck, false)]
  {
    ss, steps := ChannelClosing();
    ss, steps := Extend(ss, steps, LoopActs(ReceiveClosedLive), Abandoned(Captured));
    ss, steps := Extend(ss, steps, WriterActs(EnterHook(0)), Abandoned(Stuck));
    ss, steps := EndCleanly(ss, steps, Stuck);
  }

  /** The hook call comes first: its send on the closed channel panics, and the handler recovers. */
  lemma ClosedChannelLosesWrite() returns (ss: seq<Session>, steps: seq<Step>)
    ensures Bootstraps(AllKeys, ss, steps, |steps|, "k") && Ready(ss[0]) && CleanLoss(ss[|steps|])
    ensures ss[|steps|].source.commits == [Commit(PUT, 2, Panicked, false)]
  {
    ss, steps := ChannelClosing();
    ss, steps := Extend(ss, steps, WriterActs(EnterHook(0)), Closing(Panicked));
    ss, steps := Extend(ss, steps, LoopActs(ReceiveClosedLive), Abandoned(Panicked));
    ss, steps := EndCleanly(ss, steps, Panicked);
  }

  // The stream disconnects while a write's send waits

  /** The send waits for a receiver, and no continuation of the session has one. */
  lemma DisconnectBlocksWriter() returns (ss: seq<Session>, steps: seq<Step>)
    ensures Bootstraps(AllKeys, ss, steps, |steps|, "k") && Ready(ss[0]) && !ss[|steps|].crashed
    ensures ss[|steps|].source.commits == [Commit(PUT, 2, Sending, false)] && !ss[|steps|].flags.liveClosed
    ensures forall tt, more :: Continues(AllKeys, ss[|steps|], tt, more) ==> !IsSent(tt[|more|], 0)
  {
    ss, steps := PutMade();
    ss, steps := Extend(ss, steps, WriterActs(EnterHook(0)), PutHeld(Sending));
    var s := PutHeld(Sending);
    s := s.(flags := s.flags.(ended := true, dropped := true));
    ss, steps := Extend(ss, steps, LoopActs(Disconnect), s);
    NeverSentIff(AllKeys, ss, steps, |steps|, 0);
  }
}
