/** Running one worker per work item until enough of them succeed, as a step machine over the workers, the result
    channel, the success counter and the shared cancellation. */
module FanOut {
  import opened Sets

  /** Returned: the call is over and the worker is at its select. Counting: its success is in the channel but not yet
      counted. Counted, Failed and Abandoned workers are done. */
  datatype Phase = Idle | Running | Returned(ok: bool) | Counting | Counted | Failed | Abandoned

  datatype Sent = Sent(worker: nat, ok: bool)

  /** `self` and `external` say who has cancelled the context: a worker or the zero check, or the timeout or parent. */
  datatype State = State(
    workers: seq<Phase>, chan: seq<Sent>, success: nat,
    self: bool, external: bool, spawned: nat, checkedZero: bool, closed: bool)

  datatype Step =
    | Spawn
    | CheckZero
    | Return(i: nat, ok: bool)
    | Send(i: nat)
    | Abandon(i: nat)
    | Count(i: nat)
    | External
    | Close

  /** Conversion to a 32-bit signed integer. */
  function Int32(x: int): (r: int)
    ensures -0x8000_0000 <= r < 0x8000_0000 && (r - x) % 0x1_0000_0000 == 0
  {
    var low := x % 0x1_0000_0000;
    if low >= 0x8000_0000 then low - 0x1_0000_0000 else low
  }

  lemma Int32Bounds(x: int)
    ensures x >= 0 ==> Int32(x) <= x
    ensures -0x8000_0000 <= x < 0x8000_0000 ==> Int32(x) == x
  {
  }

  predicate Done(p: Phase) { p in {Counted, Failed, Abandoned} }

  ghost predicate Init(n: nat, s: State) {
    && |s.workers| == n && (forall i :: 0 <= i < n ==> s.workers[i] == Idle)
    && s == State(s.workers, [], 0, false, false, 0, false, false)
  }

  /** A send fits whenever the buffer, one cell per work item, is not full; the cancelled branch competes with it. */
  ghost predicate Next(n: nat, minSuccess: int, s: State, step: Step, s': State) {
    && !s.closed && |s.workers| == n
    && match step
       case Spawn =>
         && s.spawned < n
         && s' == s.(workers := s.workers[s.spawned := Running], spawned := s.spawned + 1)
       case CheckZero =>
         && s.spawned == n && !s.checkedZero
         && s' == s.(checkedZero := true, self := s.self || minSuccess == 0)
       case Return(i, ok) =>
         && i < n && s.workers[i] == Running
         && s' == s.(workers := s.workers[i := Returned(ok)])
       case Send(i) =>
         && i < n && s.workers[i].Returned? && |s.chan| < n
         && s' == s.(chan := s.chan + [Sent(i, s.workers[i].ok)],
                     workers := s.workers[i := if s.workers[i].ok then Counting else Failed])
       case Abandon(i) =>
         && i < n && s.workers[i].Returned? && (s.self || s.external)
         && s' == s.(workers := s.workers[i := Abandoned])
       case Count(i) =>
         && i < n && s.workers[i] == Counting
         && s' == s.(workers := s.workers[i := Counted], success := s.success + 1,
                     self := s.self || Int32(s.success + 1) >= Int32(minSuccess))
       case External => s' == s.(external := true)
       case Close =>
         && s.checkedZero && (forall i :: 0 <= i < n ==> Done(s.workers[i]))
         && s' == s.(closed := true)
  }

  ghost predicate FanOutRun(n: nat, minSuccess: int, ss: seq<State>, steps: seq<Step>) {
    && |ss| == |steps| + 1
    && Init(n, ss[0])
    && forall k :: 0 <= k < |steps| ==> Next(n, minSuccess, ss[k], steps[k], ss[k + 1])
  }

  // What the channel holds

  ghost function Senders(chan: seq<Sent>): set<nat> {
    set e | e in chan :: e.worker
  }

  ghost function Succeeded(chan: seq<Sent>): set<nat> {
    set e | e in chan && e.ok :: e.worker
  }

  function Successes(chan: seq<Sent>): nat {
    if chan == [] then 0
    else Successes(chan[..|chan| - 1]) + if chan[|chan| - 1].ok then 1 else 0
  }

  ghost predicate OncePerWorker(chan: seq<Sent>) {
    forall a, b :: 0 <= a < b < |chan| ==> chan[a].worker != chan[b].worker
  }

  lemma SplitLast(front: seq<Sent>, last: Sent)
    ensures Senders(front + [last]) == Senders(front) + {last.worker}
    ensures Succeeded(front + [last]) == Succeeded(front) + if last.ok then {last.worker} else {}
  {
  }

  lemma {:induction false} DistinctCounts(chan: seq<Sent>)
    requires OncePerWorker(chan)
    ensures |Senders(chan)| == |chan| && |Succeeded(chan)| == Successes(chan)
  {
    if chan != [] {
      var front, last := chan[..|chan| - 1], chan[|chan| - 1];
      assert chan == front + [last];
      DistinctCounts(front);
      SplitLast(front, last);
      assert last.worker !in Senders(front);
      assert last.worker !in Succeeded(front);
    }
  }

  // Invariants

  ghost predicate Matched(n: nat, s: State) {
    && |s.workers| == n && OncePerWorker(s.chan) && s.spawned <= n
    && (forall i :: s.spawned <= i < n ==> s.workers[i] == Idle)
    && (forall e :: e in s.chan ==> e.worker < n && s.workers[e.worker] in (if e.ok then {Counting, Counted} else {Failed}))
    && (forall i :: 0 <= i < n && s.workers[i] in {Counting, Counted} ==> Sent(i, true) in s.chan)
    && (forall i :: 0 <= i < n && s.workers[i] == Failed ==> Sent(i, false) in s.chan)
  }

  lemma MatchedSend(n: nat, minSuccess: int, s: State, i: nat, s': State)
    requires Matched(n, s) && Next(n, minSuccess, s, Send(i), s')
    ensures Matched(n, s')
  {
    assert forall e :: e in s.chan ==> e.worker != i;
    assert forall e :: e in s'.chan <==> e in s.chan || e == Sent(i, s.workers[i].ok);
  }

  /** A worker that moves without sending had nothing in the channel, or has what it had. */
  lemma MatchedMove(n: nat, s: State, i: nat, p: Phase, s': State)
    requires Matched(n, s) && i < n
    requires s'.workers == s.workers[i := p] && s'.chan == s.chan && s'.spawned == s.spawned
    requires if p == Counted then s.workers[i] == Counting
             else (s.workers[i] == Running || s.workers[i].Returned?) && (p.Returned? || p == Abandoned)
    ensures Matched(n, s')
  {
  }

  lemma MatchedStep(n: nat, minSuccess: int, s: State, step: Step, s': State)
    requires Matched(n, s) && Next(n, minSuccess, s, step, s')
    ensures Matched(n, s')
  {
    match step
    case Send(i) => MatchedSend(n, minSuccess, s, i, s');
    case Return(i, ok) => MatchedMove(n, s, i, Returned(ok), s');
    case Abandon(i) => MatchedMove(n, s, i, Abandoned, s');
    case Count(i) => MatchedMove(n, s, i, Counted, s');
    case Spawn => assert forall e :: e in s.chan ==> e.worker != s.spawned;
    case _ => assert s'.workers == s.workers && s'.chan == s.chan;
  }

  ghost function CountedWorkers(s: State): set<nat> {
    set i: nat | i < |s.workers| && s.workers[i] == Counted
  }

  ghost predicate Tallied(minSuccess: int, s: State) {
    && s.success == |CountedWorkers(s)|
    && (s.self ==> |Succeeded(s.chan)| >= Int32(minSuccess))
    && (!s.self && !s.external ==> forall i :: 0 <= i < |s.workers| ==> s.workers[i] != Abandoned)
  }

  lemma CountedHaveSent(n: nat, s: State)
    requires Matched(n, s)
    ensures |CountedWorkers(s)| <= |Succeeded(s.chan)|
  {
    forall w | w in CountedWorkers(s) ensures w in Succeeded(s.chan) {
      assert Sent(w, true) in s.chan;
    }
    SubsetSize(CountedWorkers(s), Succeeded(s.chan));
  }

  lemma OneMoreCounted(n: nat, minSuccess: int, s: State, i: nat, s': State)
    requires Next(n, minSuccess, s, Count(i), s')
    ensures |CountedWorkers(s')| == |CountedWorkers(s)| + 1
  {
    assert CountedWorkers(s') == CountedWorkers(s) + {i};
  }

  lemma CountStep(n: nat, minSuccess: int, s: State, i: nat, s': State)
    requires Matched(n, s) && Tallied(minSuccess, s) && Next(n, minSuccess, s, Count(i), s')
    ensures Tallied(minSuccess, s')
  {
    OneMoreCounted(n, minSuccess, s, i, s');
    MatchedStep(n, minSuccess, s, Count(i), s');
    CountedHaveSent(n, s');
    Int32Bounds(s'.success);
  }

  lemma TalliedStep(n: nat, minSuccess: int, s: State, step: Step, s': State)
    requires Matched(n, s) && Tallied(minSuccess, s) && Next(n, minSuccess, s, step, s')
    ensures Tallied(minSuccess, s')
  {
    if step.Count? {
      CountStep(n, minSuccess, s, step.i, s');
    } else {
      assert CountedWorkers(s') == CountedWorkers(s);
      assert Succeeded(s.chan) <= Succeeded(s'.chan);
      SubsetSize(Succeeded(s.chan), Succeeded(s'.chan));
    }
  }

  lemma {:induction false} RunInvariant(n: nat, minSuccess: int, ss: seq<State>, steps: seq<Step>, k: nat)
    requires FanOutRun(n, minSuccess, ss, steps) && k <= |steps|
    ensures Matched(n, ss[k]) && Tallied(minSuccess, ss[k])
  {
    if k > 0 {
      RunInvariant(n, minSuccess, ss, steps, k - 1);
      MatchedStep(n, minSuccess, ss[k - 1], steps[k - 1], ss[k]);
      TalliedStep(n, minSuccess, ss[k - 1], steps[k - 1], ss[k]);
    } else {
      assert CountedWorkers(ss[0]) == {};
    }
  }

  // When the call cancels itself

  /** Some count reached so far met the minimum, both counted in 32 bits. */
  ghost predicate Reached(minSuccess: int, success: nat) {
    exists c :: 1 <= c <= success && Int32(c) >= Int32(minSuccess)
  }

  lemma ReachedNext(minSuccess: int, success: nat)
    ensures Reached(minSuccess, success + 1) <==> Reached(minSuccess, success) || Int32(success + 1) >= Int32(minSuccess)
  {
  }

  /** The call has cancelled itself exactly when the zero check found a minimum of zero or a counted success met the
      minimum; and it is over only after the zero check. */
  lemma {:induction false} SelfCancelIff(n: nat, minSuccess: int, ss: seq<State>, steps: seq<Step>, k: nat)
    requires FanOutRun(n, minSuccess, ss, steps) && k <= |steps|
    ensures ss[k].self <==> (ss[k].checkedZero && minSuccess == 0) || Reached(minSuccess, ss[k].success)
    ensures ss[k].closed ==> ss[k].checkedZero && ss[k].spawned == n
    ensures ss[k].checkedZero ==> ss[k].spawned == n
  {
    if k > 0 {
      SelfCancelIff(n, minSuccess, ss, steps, k - 1);
      ReachedNext(minSuccess, ss[k - 1].success);
    }
  }

  /** Within the 32-bit range: at least one success and no fewer than asked for. */
  lemma ReachedIff(minSuccess: int, success: nat)
    requires -0x8000_0000 <= minSuccess < 0x8000_0000 && success < 0x8000_0000
    ensures Reached(minSuccess, success) <==> success >= 1 && success >= minSuccess
  {
    if success >= 1 && success >= minSuccess {
      assert Int32(success) >= Int32(minSuccess);
    }
  }

  // Guarantees

  /** Sends never block: a worker at its select always finds room. */
  lemma SendNeverBlocks(n: nat, minSuccess: int, ss: seq<State>, steps: seq<Step>, k: nat, i: nat)
    requires FanOutRun(n, minSuccess, ss, steps) && k <= |steps|
    requires i < n && |ss[k].workers| == n && ss[k].workers[i].Returned?
    ensures |ss[k].chan| < n
  {
    RunInvariant(n, minSuccess, ss, steps, k);
    DistinctCounts(ss[k].chan);
    assert Senders(ss[k].chan) <= Below(n) - {i};
    SubsetSize(Senders(ss[k].chan), Below(n) - {i});
  }

  /** The call cancels itself only once enough successes are in the channel, and each worker speaks at most once. */
  lemma SelfCancelMeansEnough(n: nat, minSuccess: int, ss: seq<State>, steps: seq<Step>, k: nat)
    requires FanOutRun(n, minSuccess, ss, steps) && k <= |steps|
    ensures OncePerWorker(ss[k].chan)
    ensures forall e :: e in ss[k].chan ==> e.worker < n
    ensures ss[k].self ==> Successes(ss[k].chan) >= Int32(minSuccess)
  {
    RunInvariant(n, minSuccess, ss, steps, k);
    DistinctCounts(ss[k].chan);
  }

  lemma ChannelFits(n: nat, minSuccess: int, ss: seq<State>, steps: seq<Step>, k: nat)
    requires FanOutRun(n, minSuccess, ss, steps) && k <= |steps|
    ensures Successes(ss[k].chan) <= |ss[k].chan| <= n
  {
    RunInvariant(n, minSuccess, ss, steps, k);
    DistinctCounts(ss[k].chan);
    assert Senders(ss[k].chan) <= Below(n);
    SubsetSize(Senders(ss[k].chan), Below(n));
    assert Succeeded(ss[k].chan) <= Senders(ss[k].chan);
    SubsetSize(Succeeded(ss[k].chan), Senders(ss[k].chan));
  }

  /** When neither timeout nor parent fires, the result holds one entry per work item or enough successes. */
  lemma AllResultsOrEnough(n: nat, minSuccess: int, ss: seq<State>, steps: seq<Step>)
    requires FanOutRun(n, minSuccess, ss, steps) && ss[|steps|].closed && !ss[|steps|].external
    ensures |ss[|steps|].chan| == n || Successes(ss[|steps|].chan) >= Int32(minSuccess)
    ensures -0x8000_0000 <= minSuccess < 0x8000_0000 ==> Int32(minSuccess) == minSuccess
  {
    Int32Bounds(minSuccess);
    var s := ss[|steps|];
    SelfCancelMeansEnough(n, minSuccess, ss, steps, |steps|);
    RunInvariant(n, minSuccess, ss, steps, |steps|);
    ClosedAreDone(n, minSuccess, ss, steps, |steps|);
    if !s.self {
      forall i | i in Below(n) ensures i in Senders(s.chan) {
        assert Sent(i, s.workers[i] == Counted) in s.chan;
      }
      assert Senders(s.chan) <= Below(n);
      assert Senders(s.chan) == Below(n);
      DistinctCounts(s.chan);
    }
  }

  lemma ClosedAreDone(n: nat, minSuccess: int, ss: seq<State>, steps: seq<Step>, k: nat)
    requires FanOutRun(n, minSuccess, ss, steps) && k <= |steps| && ss[k].closed
    ensures |ss[k].workers| == n && forall i :: 0 <= i < n ==> Done(ss[k].workers[i])
  {
    assert k > 0;
    assert Next(n, minSuccess, ss[k - 1], steps[k - 1], ss[k]);
  }

  // Stopping early

  lemma Extend(n: nat, minSuccess: int, ss: seq<State>, steps: seq<Step>, step: Step, s': State)
    returns (ss': seq<State>, steps': seq<Step>)
    requires FanOutRun(n, minSuccess, ss, steps) && Next(n, minSuccess, ss[|steps|], step, s')
    ensures FanOutRun(n, minSuccess, ss', steps') && ss' == ss + [s'] && steps' == steps + [step]
  {
    ss', steps' := ss + [s'], steps + [step];
    forall k | 0 <= k < |steps'| ensures Next(n, minSuccess, ss'[k], steps'[k], ss'[k + 1]) {
      if k < |steps| {
        assert Next(n, minSuccess, ss[k], steps[k], ss[k + 1]);
      }
    }
  }

  /** Two workers and one success asked for: the first success is enough, and the other worker leaves unheard. */
  lemma StopsAtMinSuccess() returns (ss: seq<State>, steps: seq<Step>)
    ensures FanOutRun(2, 1, ss, steps)
    ensures ss[|steps|].closed && !ss[|steps|].external && ss[|steps|].chan == [Sent(0, true)]
  {
    var s := State([Idle, Idle], [], 0, false, false, 0, false, false);
    ss, steps := [s], [];
    s := s.(workers := [Running, Idle], spawned := 1);
    ss, steps := Extend(2, 1, ss, steps, Spawn, s);
    s := s.(workers := [Running, Running], spawned := 2);
    ss, steps := Extend(2, 1, ss, steps, Spawn, s);
    s := s.(checkedZero := true);
    ss, steps := Extend(2, 1, ss, steps, CheckZero, s);
    s := s.(workers := [Returned(true), Running]);
    ss, steps := Extend(2, 1, ss, steps, Return(0, true), s);
    s := s.(workers := [Counting, Running], chan := [Sent(0, true)]);
    ss, steps := Extend(2, 1, ss, steps, Send(0), s);
    s := s.(workers := [Counted, Running], success := 1, self := true);
    ss, steps := Extend(2, 1, ss, steps, Count(0), s);
    s := s.(workers := [Counted, Returned(false)]);
    ss, steps := Extend(2, 1, ss, steps, Return(1, false), s);
    s := s.(workers := [Counted, Abandoned]);
    ss, steps := Extend(2, 1, ss, steps, Abandon(1), s);
    ss, steps := Extend(2, 1, ss, steps, Close, s.(closed := true));
  }

  /** One worker that does not answer in time: the timeout fires, the worker leaves, and the result is empty. */
  lemma StopsAtTimeout() returns (ss: seq<State>, steps: seq<Step>)
    ensures FanOutRun(1, 1, ss, steps)
    ensures ss[|steps|].closed && ss[|steps|].external && !ss[|steps|].self && ss[|steps|].chan == []
  {
    var s := State([Idle], [], 0, false, false, 0, false, false);
    ss, steps := [s], [];
    s := s.(workers := [Running], spawned := 1);
    ss, steps := Extend(1, 1, ss, steps, Spawn, s);
    s := s.(checkedZero := true);
    ss, steps := Extend(1, 1, ss, steps, CheckZero, s);
    s := s.(external := true);
    ss, steps := Extend(1, 1, ss, steps, External, s);
    s := s.(workers := [Returned(false)]);
    ss, steps := Extend(1, 1, ss, steps, Return(0, false), s);
    s := s.(workers := [Abandoned]);
    ss, steps := Extend(1, 1, ss, steps, Abandon(0), s);
    ss, steps := Extend(1, 1, ss, steps, Close, s.(closed := true));
  }
}
