/** A session in which a live event overtakes its key's snapshot event, and the joiner ends up behind. */
module Overtaking {
  import opened Types
  import opened StoreLog
  import opened Streams
  import opened Bootstrap

  predicate AllKeys(key: string) { true }

  lemma Extend(ss: seq<Session>, steps: seq<Step>, step: Step, s': Session) returns (ss': seq<Session>, steps': seq<Step>)
    requires SessionRun(AllKeys, ss, steps) && Next(AllKeys, ss[|steps|], step, s')
    ensures SessionRun(AllKeys, ss', steps') && ss' == ss + [s'] && steps' == steps + [step]
  {
    ss', steps' := ss + [s'], steps + [step];
    forall i | 0 <= i < |steps'| ensures Next(AllKeys, ss'[i], steps'[i], ss'[i + 1]) {
      if i < |steps| {
        assert Next(AllKeys, ss[i], steps[i], ss[i + 1]);
      }
    }
  }

  const OLD: StoreEntry := StoreEntry(Text("old"), 1, false)
  const NEW: StoreEntry := StoreEntry(Text("new"), 2, false)

  function Start(): Session {
    Session(
      Source(map["k" := [OLD]], false, []), Producer(Begin, false, map[], 0, {}),
      Flags(NoReset, false, false, false, false, false, false), Some(Bootstrapping),
      [], Joiner(map[], Bootstrapping, 0), false)
  }

  function Copied(): Session {
    Start().(
      source := Source(map["k" := [OLD]], true, []),
      producer := Producer(Feed, true, map["k" := [OLD]], 0, {"k"}),
      flags := Flags(ClearHook, false, false, false, false, false, false))
  }

  lemma CopyTaken() returns (ss: seq<Session>, steps: seq<Step>)
    ensures SessionRun(AllKeys, ss, steps) && ss[0] == Start() && ss[|steps|] == Copied()
  {
    var s := Start();
    ss, steps := [s], [];
    assert "k" in s.source.store;
    s := s.(producer := s.producer.(phase := Lookup));
    ss, steps := Extend(ss, steps, ProducerActs(CheckSize), s);
    s := s.(producer := s.producer.(phase := Install));
    ss, steps := Extend(ss, steps, ProducerActs(FindJoiner), s);
    s := s.(producer := s.producer.(phase := Copy), source := s.source.(hook := true));
    ss, steps := Extend(ss, steps, ProducerActs(InstallHook), s);
    assert FilterStore(s.source.store, AllKeys) == map["k" := [OLD]];
    assert map["k" := [OLD]].Keys == {"k"};
    ss, steps := Extend(ss, steps, ProducerActs(CopyStore), Copied());
  }

  const PUT: WriteOp := WriteOp("k", NEW.value, None, false)

  lemma PutCommits()
    ensures Commits(map["k" := [OLD]], PUT, map["k" := [OLD, NEW]]) && NextVersion(map["k" := [OLD]], PUT) == 2
  {
  }

  function LiveSent(): Session {
    PutHeld(Sent).(sent := [LiveEvent("k", NEW.value, 2)])
  }

  function PutHeld(call: Call): Session {
    Copied().(source := Source(map["k" := [OLD, NEW]], true, [Commit(PUT, 2, call, false)]))
  }

  lemma PutMade() returns (ss: seq<Session>, steps: seq<Step>)
    ensures SessionRun(AllKeys, ss, steps) && ss[0] == Start() && ss[|steps|] == PutHeld(Captured)
  {
    ss, steps := CopyTaken();
    PutCommits();
    ss, steps := Extend(ss, steps, WriterActs(Write(PUT)), PutHeld(Captured));
  }

  /** With version 1 copied but not yet sent, version 2 is put and goes out live. */
  lemma LiveFirst() returns (ss: seq<Session>, steps: seq<Step>)
    ensures SessionRun(AllKeys, ss, steps) && ss[0] == Start() && ss[|steps|] == LiveSent()
  {
    ss, steps := PutMade();
    ss, steps := Extend(ss, steps, WriterActs(EnterHook(0)), PutHeld(Sending));
    ss, steps := Extend(ss, steps, LoopActs(ReceiveLive(0)), LiveSent());
  }

  function AllSent(): Session {
    LiveSent().(
      producer := Producer(Closed, true, map["k" := [OLD]], 0, {}),
      flags := Flags(ClearHook, false, false, true, false, false, false),
      sent := [LiveEvent("k", NEW.value, 2), SnapshotEvent("k", [OLD]), SnapshotComplete])
  }

  lemma SnapshotSecond() returns (ss: seq<Session>, steps: seq<Step>)
    ensures SessionRun(AllKeys, ss, steps) && ss[0] == Start() && ss[|steps|] == AllSent()
  {
    ss, steps := LiveFirst();
    var s := LiveSent();
    s := s.(producer := s.producer.(unsent := {}), sent := s.sent + [SnapshotEvent("k", [OLD])]);
    ss, steps := Extend(ss, steps, LoopActs(FeedKey("k")), s);
    s := s.(producer := s.producer.(phase := Closed));
    ss, steps := Extend(ss, steps, ProducerActs(CloseSnapshots), s);
    ss, steps := Extend(ss, steps, LoopActs(ReceiveClosedSnapshots), AllSent());
  }

  const DEMOTED: StoreEntry := NEW.(version := 1)

  function Read(joiner: Joiner): Session {
    AllSent().(joiner := joiner)
  }

  lemma FirstTakenAsOne()
    ensures Commits(map[], WriteOp("k", NEW.value, Some(2), false), map["k" := [DEMOTED]])
  {
  }

  lemma LiveRead() returns (ss: seq<Session>, steps: seq<Step>)
    ensures SessionRun(AllKeys, ss, steps) && ss[0] == Start()
    ensures ss[|steps|] == Read(Joiner(map["k" := [DEMOTED]], Bootstrapping, 1))
  {
    ss, steps := SnapshotSecond();
    FirstTakenAsOne();
    ss, steps := Extend(ss, steps, JoinerActs(Consume), Read(Joiner(map["k" := [DEMOTED]], Bootstrapping, 1)));
  }

  lemma OldCommits()
    ensures Commits(map["k" := [DEMOTED]], RawWrite("k", OLD), map["k" := [DEMOTED, OLD]])
  {
  }

  lemma OldPutLast()
    ensures PutsAll(map["k" := [DEMOTED]], "k", [OLD], map["k" := [DEMOTED, OLD]])
  {
    OldCommits();
    PutsNone(map["k" := [DEMOTED]], "k");
    PutsOneMore(map["k" := [DEMOTED]], "k", [], map["k" := [DEMOTED]], OLD, map["k" := [DEMOTED, OLD]]);
  }

  lemma SnapshotRead() returns (ss: seq<Session>, steps: seq<Step>)
    ensures SessionRun(AllKeys, ss, steps) && ss[0] == Start()
    ensures ss[|steps|] == Read(Joiner(map["k" := [DEMOTED, OLD]], Available, 3))
  {
    ss, steps := LiveRead();
    OldPutLast();
    ss, steps := Extend(ss, steps, JoinerActs(Consume), Read(Joiner(map["k" := [DEMOTED, OLD]], Bootstrapping, 2)));
    ss, steps := Extend(ss, steps, JoinerActs(Consume), Read(Joiner(map["k" := [DEMOTED, OLD]], Available, 3)));
  }

  /** Drained, nothing lost on the way, and yet the joiner shows version 1 where the source shows version 2:
      the arrival order is a real condition. */
  lemma LiveOvertakesSnapshot() returns (ss: seq<Session>, steps: seq<Step>)
    ensures Bootstraps(AllKeys, ss, steps, |steps|, "k") && Ready(ss[0]) && Drained(ss[|steps|], "k")
    ensures Visible(ss[|steps|].source.store, "k") == (NEW.value, 2)
    ensures Visible(ss[|steps|].joiner.store, "k").1 == 1
  {
    ss, steps := SnapshotRead();
    assert "k" in ss[0].source.store;
  }
}
