/** What becomes of a session's hook calls: which writes are streamed, and which never will be. */
module HookCalls {
  import opened Types
  import opened Streams
  import opened StreamOrder
  import opened NoLostWrite

  /** What a hook call meets when it reads the hook again. */
  datatype Door = ChannelOpen | ChannelClosed | ChannelNil | HookGone

  function DoorOf(s: Session): Door {
    if !s.source.hook then HookGone
    else if s.flags.liveDone then ChannelNil
    else if s.flags.liveClosed then ChannelClosed
    else ChannelOpen
  }

  /** Before step `n` the hook call of write `i` was entered and met `door`. */
  ghost predicate Met(ss: seq<Session>, steps: seq<Step>, n: nat, i: nat, door: Door)
    requires n <= |steps| && n <= |ss|
  {
    exists k :: 0 <= k < n && steps[k] == WriterActs(EnterHook(i)) && DoorOf(ss[k]) == door
  }

  /** Before step `n` the stream loop received the event of write `i`. */
  ghost predicate Received(steps: seq<Step>, n: nat, i: nat)
    requires n <= |steps|
  {
    exists k :: 0 <= k < n && steps[k] == LoopActs(ReceiveLive(i))
  }

  ghost function Doors(ss: seq<Session>, steps: seq<Step>, n: nat, i: nat): set<Door>
    requires n <= |steps| && n <= |ss|
  {
    set door: Door | Met(ss, steps, n, i, door)
  }

  lemma DoorsNext(ss: seq<Session>, steps: seq<Step>, n: nat, i: nat)
    requires 0 < n <= |steps| && n <= |ss|
    ensures Doors(ss, steps, n, i) ==
            Doors(ss, steps, n - 1, i) + if steps[n - 1] == WriterActs(EnterHook(i)) then {DoorOf(ss[n - 1])} else {}
    ensures Received(steps, n, i) <==> Received(steps, n - 1, i) || steps[n - 1] == LoopActs(ReceiveLive(i))
  {
  }

  /** A hook call stands where its past leaves it. */
  ghost predicate Stands(filter: string -> bool, s: Session, i: nat, doors: set<Door>, received: bool) {
    if i >= |s.source.commits| then doors == {} && !received
    else
      match s.source.commits[i].call
      case NoHook => doors == {} && !received
      case Captured => doors == {} && !received
      case Sending => doors == {ChannelOpen} && !received && !s.flags.liveClosed
      case Sent => doors == {ChannelOpen} && received
      case Stuck => doors == {ChannelNil} && !received
      case Panicked =>
        && !received
        && (doors == {HookGone} || doors == {ChannelClosed} || (doors == {ChannelOpen} && s.flags.liveClosed))
      case Filtered => !filter(s.source.commits[i].op.key) && !received
  }

  lemma StandsWriter(
      filter: string -> bool, s: Session, w: WriterStep, s': Session, i: nat, doors: set<Door>, received: bool)
    requires WriterNext(filter, s, w, s') && !s'.crashed && Stands(filter, s, i, doors, received)
    ensures Stands(filter, s', i, doors + if w == EnterHook(i) then {DoorOf(s)} else {}, received)
  {
    if w == EnterHook(i) {
      assert {} + {DoorOf(s)} == {DoorOf(s)};
    } else {
      assert doors + {} == doors;
    }
  }

  lemma StandsLoop(filter: string -> bool, s: Session, l: LoopStep, s': Session, i: nat, doors: set<Door>, received: bool)
    requires LoopNext(s, l, s') && Stands(filter, s, i, doors, received)
    ensures Stands(filter, s', i, doors, received || l == ReceiveLive(i))
  {
  }

  lemma StandsTicker(
      filter: string -> bool, s: Session, t: TickerStep, s': Session, i: nat, doors: set<Door>, received: bool)
    requires TickerNext(s, t, s') && !s'.crashed && Stands(filter, s, i, doors, received)
    ensures Stands(filter, s', i, doors, received)
  {
  }

  lemma StandsStep(filter: string -> bool, s: Session, step: Step, s': Session, i: nat, doors: set<Door>, received: bool)
    requires Next(filter, s, step, s') && !s'.crashed && Stands(filter, s, i, doors, received)
    ensures Stands(filter, s', i, doors + (if step == WriterActs(EnterHook(i)) then {DoorOf(s)} else {}),
                   received || step == LoopActs(ReceiveLive(i)))
  {
    assert doors + {} == doors;
    match step
    case WriterActs(w) => StandsWriter(filter, s, w, s', i, doors, received);
    case LoopActs(l) => StandsLoop(filter, s, l, s', i, doors, received);
    case TickerActs(t) => StandsTicker(filter, s, t, s', i, doors, received);
    case _ => assert s'.source.commits == s.source.commits && s'.flags.liveClosed == s.flags.liveClosed;
  }

  lemma {:induction false} RunStands(filter: string -> bool, ss: seq<Session>, steps: seq<Step>, n: nat, i: nat)
    requires SessionRun(filter, ss, steps) && n <= |steps| && !ss[n].crashed
    ensures Stands(filter, ss[n], i, Doors(ss, steps, n, i), Received(steps, n, i))
  {
    if n == 0 {
      assert Doors(ss, steps, 0, i) == {};
    } else {
      RunStands(filter, ss, steps, n - 1, i);
      DoorsNext(ss, steps, n, i);
      StandsStep(filter, ss[n - 1], steps[n - 1], ss[n], i, Doors(ss, steps, n - 1, i), Received(steps, n - 1, i));
    }
  }

  /** The schedule decides every hook call. Of a write that found the hook set and passes the filter: the call is still
      to be entered if it has met no door; it panicked if it met a gone hook or a closed channel; it is stuck if it met
      a nil channel; and if it met an open channel it is sent once received, and otherwise waits until the channel is
      closed and then panics. Each of these is an equivalence. */
  lemma HookOutcomeIff(filter: string -> bool, ss: seq<Session>, steps: seq<Step>, n: nat, i: nat)
    requires SessionRun(filter, ss, steps) && n <= |steps| && !ss[n].crashed
    requires i < |ss[n].source.commits| && filter(ss[n].source.commits[i].op.key)
    requires ss[n].source.commits[i].call != NoHook
    ensures var call := ss[n].source.commits[i].call;
      && (call == Captured <==> forall door: Door :: !Met(ss, steps, n, i, door))
      && (call == Sent <==> Received(steps, n, i))
      && (call == Stuck <==> Met(ss, steps, n, i, ChannelNil))
      && (call == Sending <==>
            Met(ss, steps, n, i, ChannelOpen) && !Received(steps, n, i) && !ss[n].flags.liveClosed)
      && (call == Panicked <==>
            || Met(ss, steps, n, i, HookGone)
            || Met(ss, steps, n, i, ChannelClosed)
            || (Met(ss, steps, n, i, ChannelOpen) && !Received(steps, n, i) && ss[n].flags.liveClosed))
  {
    RunStands(filter, ss, steps, n, i);
    var doors := Doors(ss, steps, n, i);
    forall door: Door ensures Met(ss, steps, n, i, door) <==> door in doors {
    }
  }

  ghost predicate OnlyWriteOf(commits: seq<Commit>, i: nat)
    requires i < |commits|
  {
    forall j :: 0 <= j < |commits| && LiveOf(commits[j]) == LiveOf(commits[i]) ==> j == i
  }

  /** A write's event is on the stream exactly when the loop received it, unless another write carried the same key,
      value and version; and it was received only if its hook call met the open channel. */
  lemma StreamedIff(filter: string -> bool, ss: seq<Session>, steps: seq<Step>, n: nat, i: nat)
    requires SessionRun(filter, ss, steps) && n <= |steps| && !ss[n].crashed
    requires i < |ss[n].source.commits|
    ensures Received(steps, n, i) ==>
      LiveOf(ss[n].source.commits[i]) in ss[n].sent && Met(ss, steps, n, i, ChannelOpen)
    ensures OnlyWriteOf(ss[n].source.commits, i) ==>
      (LiveOf(ss[n].source.commits[i]) in ss[n].sent <==> Received(steps, n, i))
  {
    RunStands(filter, ss, steps, n, i);
    RunCovered(filter, ss, steps, n);
    assert ChannelOpen in Doors(ss, steps, n, i) <==> Met(ss, steps, n, i, ChannelOpen);
  }

  /** The step can end the process: a hook call that meets a gone hook, or a closed channel with a key that passes; the
      channel's close with a send waiting; or a cancel with no function to call. */
  predicate MayCrash(filter: string -> bool, s: Session, step: Step) {
    match step
    case WriterActs(EnterHook(i)) =>
      && i < |s.source.commits| && s.source.commits[i].call == Captured
      && (DoorOf(s) == HookGone || (DoorOf(s) == ChannelClosed && filter(s.source.commits[i].op.key)))
    case TickerActs(CloseLive) =>
      s.view == Some(Available) && s.flags.snapshotDone && !s.flags.liveClosed && InFlight(s.source)
    case TickerActs(CancelHook) => s.flags.liveClosed && !s.flags.cancelled && s.flags.reset == NoReset
    case _ => false
  }

  /** A session that goes on ends in a crash exactly by such a step. */
  lemma CrashIff(filter: string -> bool, s: Session, step: Step)
    requires !s.crashed
    ensures (exists s' :: Next(filter, s, step, s') && s'.crashed) <==> MayCrash(filter, s, step)
  {
    if MayCrash(filter, s, step) {
      var s' := match step
        case TickerActs(CloseLive) => s.(flags := s.flags.(liveClosed := true), crashed := true)
        case TickerActs(CancelHook) =>
          s.(flags := s.flags.(cancelled := true), source := s.source.(hook := s.source.hook), crashed := true)
        case _ => s.(crashed := true);
      assert Next(filter, s, step, s');
    }
  }

  // Whatever happens from here on

  ghost predicate Continues(filter: string -> bool, s: Session, tt: seq<Session>, more: seq<Step>) {
    && |tt| == |more| + 1 && tt[0] == s
    && forall k :: 0 <= k < |more| ==> Next(filter, tt[k], more[k], tt[k + 1])
  }

  predicate IsSent(s: Session, i: nat) {
    i < |s.source.commits| && s.source.commits[i].call == Sent
  }

  /** The write has not been sent, and its call has ended or is stuck, or the loop no longer receives. */
  predicate Blocked(s: Session, i: nat) {
    && i < |s.source.commits| && s.source.commits[i].call != Sent
    && (s.source.commits[i].call !in {Captured, Sending} || s.flags.ended || s.flags.liveClosed)
  }

  lemma BlockedWriter(filter: string -> bool, s: Session, w: WriterStep, s': Session, i: nat)
    requires Blocked(s, i) && WriterNext(filter, s, w, s')
    ensures Blocked(s', i)
  {
  }

  lemma BlockedLoop(s: Session, l: LoopStep, s': Session, i: nat)
    requires Blocked(s, i) && LoopNext(s, l, s')
    ensures Blocked(s', i)
  {
  }

  lemma BlockedStep(filter: string -> bool, s: Session, step: Step, s': Session, i: nat)
    requires Blocked(s, i) && Next(filter, s, step, s')
    ensures Blocked(s', i)
  {
    match step
    case WriterActs(w) => BlockedWriter(filter, s, w, s', i);
    case LoopActs(l) => BlockedLoop(s, l, s', i);
    case TickerActs(_) => assert s'.flags.liveClosed;
    case _ => assert s'.source.commits == s.source.commits && s'.flags.ended == s.flags.ended;
  }

  lemma {:induction false} BlockedOn(
      filter: string -> bool, s: Session, tt: seq<Session>, more: seq<Step>, n: nat, i: nat)
    requires Blocked(s, i) && Continues(filter, s, tt, more) && n <= |more|
    ensures Blocked(tt[n], i)
  {
    if n > 0 {
      BlockedOn(filter, s, tt, more, n - 1, i);
      BlockedStep(filter, tt[n - 1], more[n - 1], tt[n], i);
    }
  }

  /** A waiting send can be received, and a call still to be entered can be entered and then received. */
  lemma CanBeSent(filter: string -> bool, s: Session, i: nat) returns (tt: seq<Session>, more: seq<Step>)
    requires !s.crashed && i < |s.source.commits| && filter(s.source.commits[i].op.key) && !Blocked(s, i)
    requires Entering(s) && Phases(s.producer, s.flags)
    ensures Continues(filter, s, tt, more) && IsSent(tt[|more|], i)
  {
    if s.source.commits[i].call == Sent {
      tt, more := [s], [];
    } else if s.source.commits[i].call == Sending {
      tt, more := [s, Receive(s, i)], [LoopActs(ReceiveLive(i))];
    } else {
      var waiting := s.(source := WithCall(s.source, i, Sending));
      tt, more := [s, waiting, Receive(waiting, i)], [WriterActs(EnterHook(i)), LoopActs(ReceiveLive(i))];
    }
  }

  function Receive(s: Session, i: nat): Session
    requires i < |s.source.commits|
  {
    s.(source := WithCall(s.source, i, Sent), sent := s.sent + [LiveOf(s.source.commits[i])])
  }

  /** A write that passes the filter will never be streamed, however the session goes on, exactly when it has not been
      and its hook call has ended or is stuck, the stream has ended, or the live channel has been closed. */
  lemma NeverSentIff(filter: string -> bool, ss: seq<Session>, steps: seq<Step>, n: nat, i: nat)
    requires SessionRun(filter, ss, steps) && n <= |steps| && !ss[n].crashed
    requires i < |ss[n].source.commits| && filter(ss[n].source.commits[i].op.key)
    ensures (forall tt, more :: Continues(filter, ss[n], tt, more) ==> !IsSent(tt[|more|], i)) <==> Blocked(ss[n], i)
  {
    if Blocked(ss[n], i) {
      forall tt, more | Continues(filter, ss[n], tt, more) ensures !IsSent(tt[|more|], i) {
        BlockedOn(filter, ss[n], tt, more, |more|, i);
      }
    } else {
      RunEntering(filter, ss, steps, n);
      RunOrdered(filter, ss, steps, n);
      var tt, more := CanBeSent(filter, ss[n], i);
    }
  }
}
