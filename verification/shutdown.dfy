/** How the core leaves: drain, cancel, hand the devices back, stop, exit. */
module Shutdown {
  import opened Options

  const WAIT_LIMIT_MS := 120_000
  const SETTLE_MS := 5_000

  datatype Phase = Running | Draining | Cancelling | Leaving

  function Rank(p: Phase): nat {
    match p
    case Running => 0
    case Draining => 1
    case Cancelling => 2
    case Leaving => 3
  }

  /**
   * What the process asks of its daemon, and its exit; `QuiesceThrew` and `CancelThrew` are
   * calls that threw. `ReleaseStarts` says how many jobs ran then.
   */
  datatype Effect =
    | Quiesce | QuiesceThrew | CancelWork | CancelThrew
    | ReleaseStarts(inFlight: nat) | ReleaseEnds(complete: bool) | Stop | Exit

  datatype Call = NotMade | Answered | Threw

  /** Where `leave` is: in the release sweep, stopping the daemon, gone, or ended by a throw out of either. */
  datatype Leave =
    | NotEntered
    | Releasing(inFlight: nat, settled: nat, seen: int)
    | Stopping(inFlight: nat, complete: bool)
    | Exited(inFlight: nat, complete: bool)
    | ReleaseThrew(inFlight: nat)
    | StopThrew(inFlight: nat, complete: bool)

  /**
   * `drain` and `settle` are the deadlines of the two wait loops, while a handler is
   * parked in one of them. `failedCancels` counts the calls of `cancelWork` that threw,
   * and `cancelled` says that one answered.
   */
  datatype State = State(phase: Phase, signalledAt: Option<int>, quiesce: Call, failedCancels: nat, cancelled: bool,
                         inFlight: nat, drain: Option<int>, settle: Option<int>, leave: Leave, log: seq<Effect>)

  const UP: State := State(Running, None, NotMade, 0, false, 0, None, None, NotEntered, [])

  /** Which call of one look of the drain loop throws, if it is made: `inFlight` or `cancelWork`. */
  datatype Fault = NoFault | LookThrows | CancelThrows

  datatype Action =
    | JobStarts | JobEnds
    | Signal(now: int, throws: bool)         // whether the call it makes of the daemon throws
    | DrainTick(now: int, fault: Fault)      // the drain loop wakes up
    | SettleTick(now: int, lookThrows: bool) // the settle loop looks at the clock and at the work
    | DeviceSettles | StallTick // during the sweep
    | ReleaseDone | StopDone
    | ReleaseThrows | StopThrows

  function EnterLeave(s: State): State {
    s.(phase := Leaving, leave := Releasing(s.inFlight, 0, -1), log := s.log + [ReleaseStarts(s.inFlight)])
  }

  function EndRelease(s: State, complete: bool): State
    requires s.leave.Releasing?
  {
    s.(leave := Stopping(s.leave.inFlight, complete), log := s.log + [ReleaseEnds(complete), Stop])
  }

  function OnSignal(s: State, now: int, throws: bool): State {
    var s := if s.signalledAt.None? then s.(signalledAt := Some(now)) else s;
    match s.phase
    case Running =>
      if throws then s.(phase := Draining, quiesce := Threw, log := s.log + [QuiesceThrew]) else
      var q := s.(phase := Draining, quiesce := Answered, log := s.log + [Quiesce]);
      if q.inFlight == 0 then EnterLeave(q) else q.(drain := Some(now + WAIT_LIMIT_MS))
    case Draining =>
      if throws then FailCancel(s.(phase := Cancelling)) else
      s.(phase := Cancelling, cancelled := true, settle := Some(now + SETTLE_MS), log := s.log + [CancelWork])
    case Cancelling => s
    case Leaving => s
  }

  function FailCancel(s: State): State {
    s.(failedCancels := s.failedCancels + 1, log := s.log + [CancelThrew])
  }

  /** A loop that a throw gets out of is parked no more. */
  function OnDrainTick(s: State, now: int, fault: Fault): State {
    if s.drain.None? then s else
    if s.phase != Draining || fault.LookThrows? then s.(drain := None) else
    if s.inFlight == 0 then EnterLeave(s.(drain := None)) else
    if now < s.drain.value then s else
    if fault.CancelThrows? then FailCancel(s.(drain := None)) else
    EnterLeave(s.(drain := None, cancelled := true, log := s.log + [CancelWork]))
  }

  function OnSettleTick(s: State, now: int, lookThrows: bool): State {
    if s.settle.None? then s else
    if now < s.settle.value && lookThrows then s.(settle := None) else
    if now < s.settle.value && s.inFlight > 0 then s else EnterLeave(s.(settle := None))
  }

  function OnStallTick(s: State): State {
    if !s.leave.Releasing? then s else
    if s.leave.settled != s.leave.seen then s.(leave := s.leave.(seen := s.leave.settled)) else EndRelease(s, false)
  }

  /** Every await is a place where any other step may come first. A step that cannot happen now does nothing. */
  function Step(s: State, a: Action): State {
    if s.leave.Exited? then s else
    match a
    case JobStarts => s.(inFlight := s.inFlight + 1)
    case JobEnds => if s.inFlight == 0 then s else s.(inFlight := s.inFlight - 1)
    case Signal(now, throws) => OnSignal(s, now, throws)
    case DrainTick(now, fault) => OnDrainTick(s, now, fault)
    case SettleTick(now, lookThrows) => OnSettleTick(s, now, lookThrows)
    case DeviceSettles => if s.leave.Releasing? then s.(leave := s.leave.(settled := s.leave.settled + 1)) else s
    case StallTick => OnStallTick(s)
    case ReleaseDone => if s.leave.Releasing? then EndRelease(s, true) else s
    case StopDone =>
      if s.leave.Stopping? then s.(leave := Exited(s.leave.inFlight, s.leave.complete), log := s.log + [Exit]) else s
    case ReleaseThrows => if s.leave.Releasing? then s.(leave := ReleaseThrew(s.leave.inFlight)) else s
    case StopThrows => if s.leave.Stopping? then s.(leave := StopThrew(s.leave.inFlight, s.leave.complete)) else s
  }

  function Exec(s: State, actions: seq<Action>): State {
    if actions == [] then s else Step(Exec(s, actions[..|actions| - 1]), actions[|actions| - 1])
  }

  /** The handlers and loops as they change the variables they share. */
  class Process {
    var phase: Phase
    var signalledAt: Option<int>
    var quiesce: Call
    var failedCancels: nat
    var cancelled: bool
    var inFlight: nat
    var drain: Option<int>
    var settle: Option<int>
    var leave: Leave
    var log: seq<Effect>

    function Now(): State
      reads this
    {
      State(phase, signalledAt, quiesce, failedCancels, cancelled, inFlight, drain, settle, leave, log)
    }

    constructor ()
      ensures Now() == UP
    {
      phase, signalledAt, quiesce, failedCancels, cancelled, inFlight := Running, None, NotMade, 0, false, 0;
      drain, settle, leave, log := None, None, NotEntered, [];
    }

    method BeginLeaving()
      modifies this
      ensures Now() == EnterLeave(old(Now()))
    {
      phase := Leaving;
      leave := Releasing(inFlight, 0, -1);
      log := log + [ReleaseStarts(inFlight)];
    }

    method NoteFailedCancel()
      modifies this`failedCancels, this`log
      ensures Now() == FailCancel(old(Now()))
    {
      failedCancels, log := failedCancels + 1, log + [CancelThrew];
    }

    method Shutdown(now: int, throws: bool)
      requires !leave.Exited?
      modifies this
      ensures Now() == Step(old(Now()), Signal(now, throws))
    {
      if signalledAt.None? { signalledAt := Some(now); }
      if phase == Cancelling || phase == Leaving { return; }
      if phase == Draining {
        phase := Cancelling;
        if throws {
          NoteFailedCancel();
          return;
        }
        cancelled, log := true, log + [CancelWork];
        settle := Some(now + SETTLE_MS);
        return;
      }
      phase := Draining;
      if throws {
        quiesce, log := Threw, log + [QuiesceThrew];
        return;
      }
      quiesce, log := Answered, log + [Quiesce];
      if inFlight == 0 {
        BeginLeaving();
        return;
      }
      drain := Some(now + WAIT_LIMIT_MS);
    }

    method WakeDrainLoop(now: int, fault: Fault)
      requires !leave.Exited?
      modifies this
      ensures Now() == Step(old(Now()), DrainTick(now, fault))
    {
      if drain.None? { return; }
      var deadline := drain.value;
      if phase != Draining || fault.LookThrows? {
        drain := None;
        return;
      }
      if inFlight > 0 {
        if now < deadline { return; }
        if fault.CancelThrows? {
          drain := None;
          NoteFailedCancel();
          return;
        }
        cancelled, log := true, log + [CancelWork];
      }
      drain := None;
      BeginLeaving();
    }

    method WakeSettleLoop(now: int, lookThrows: bool)
      requires !leave.Exited?
      modifies this
      ensures Now() == Step(old(Now()), SettleTick(now, lookThrows))
    {
      if settle.None? { return; }
      if now < settle.value {
        if lookThrows {
          settle := None;
          return;
        }
        if inFlight > 0 { return; }
      }
      settle := None;
      BeginLeaving();
    }

    method StallTimerFires()
      requires !leave.Exited?
      modifies this
      ensures Now() == Step(old(Now()), StallTick)
    {
      if !leave.Releasing? { return; }
      if leave.settled != leave.seen {
        leave := leave.(seen := leave.settled);
        return;
      }
      leave, log := Stopping(leave.inFlight, false), log + [ReleaseEnds(false), Stop];
    }
  }

  // ----------------------------------------------------------------- invariants

  function LeaveLog(l: Leave): seq<Effect> {
    match l
    case NotEntered => []
    case Releasing(n, _, _) => [ReleaseStarts(n)]
    case Stopping(n, complete) => [ReleaseStarts(n), ReleaseEnds(complete), Stop]
    case Exited(n, complete) => [ReleaseStarts(n), ReleaseEnds(complete), Stop, Exit]
    case ReleaseThrew(n) => [ReleaseStarts(n)]
    case StopThrew(n, complete) => [ReleaseStarts(n), ReleaseEnds(complete), Stop]
  }

  function QuiesceLog(c: Call): seq<Effect> {
    match c case NotMade => [] case Answered => [Quiesce] case Threw => [QuiesceThrew]
  }

  /** The calls of `cancelWork` that threw, and one that answered. */
  function CancelLog(failed: nat, answered: bool): seq<Effect> {
    if failed == 0 then (if answered then [CancelWork] else []) else [CancelThrew] + CancelLog(failed - 1, answered)
  }

  /** All the process did, in order: each thing that answered once at most, the release before the stop and the exit. */
  function History(s: State): seq<Effect> {
    QuiesceLog(s.quiesce) + CancelLog(s.failedCancels, s.cancelled) + LeaveLog(s.leave)
  }

  ghost predicate Inv(s: State) {
    && s.log == History(s)
    && (s.phase == Leaving <==> !s.leave.NotEntered?)
    && (s.quiesce.NotMade? <==> s.phase == Running)
    && (s.phase == Running <==> s.signalledAt.None?)
    && (s.phase == Running ==> s.drain.None? && s.failedCancels == 0)
    && (s.phase == Running || s.phase == Draining ==> !s.cancelled && s.failedCancels <= 1)
    && (s.phase == Draining && s.drain.Some? ==> s.drain.value == s.signalledAt.value + WAIT_LIMIT_MS && s.failedCancels == 0)
    && (s.phase != Running ==> s.failedCancels <= 2)
    && (s.settle.Some? ==> s.phase == Cancelling && s.cancelled)
    && (s.phase == Leaving ==> s.cancelled || s.leave.inFlight == 0)
    && (s.leave.Releasing? ==> s.leave.seen <= s.leave.settled)
  }

  lemma {:induction false} StepKeepsInv(s: State, a: Action)
    requires Inv(s)
    ensures Inv(Step(s, a)) && Rank(s.phase) <= Rank(Step(s, a).phase)
  {
    hide Inv;
    match a
    case JobStarts => OthersKeepInv(s, a);
    case JobEnds => OthersKeepInv(s, a);
    case Signal(now, throws) => SignalKeepsInv(s, now, throws);
    case DrainTick(now, fault) => DrainKeepsInv(s, now, fault);
    case SettleTick(now, lookThrows) => SettleKeepsInv(s, now, lookThrows);
    case DeviceSettles => OthersKeepInv(s, a);
    case StallTick => ReleaseKeepsInv(s, a);
    case ReleaseDone => ReleaseKeepsInv(s, a);
    case StopDone => ReleaseKeepsInv(s, a);
    case ReleaseThrows => ReleaseKeepsInv(s, a);
    case StopThrows => ReleaseKeepsInv(s, a);
  }

  lemma OthersKeepInv(s: State, a: Action)
    requires Inv(s) && (a.JobStarts? || a.JobEnds? || a.DeviceSettles?)
    ensures Inv(Step(s, a)) && Rank(s.phase) <= Rank(Step(s, a).phase)
  {
    assert LeaveLog(Step(s, a).leave) == LeaveLog(s.leave);
  }

  lemma ReleaseKeepsInv(s: State, a: Action)
    requires Inv(s) && (a.StallTick? || a.ReleaseDone? || a.StopDone? || a.ReleaseThrows? || a.StopThrows?)
    ensures Inv(Step(s, a)) && Rank(s.phase) <= Rank(Step(s, a).phase)
  {
    assert Step(s, a).log == History(Step(s, a));
  }

  lemma {:induction false} CancelLogGrows(failed: nat)
    ensures CancelLog(failed + 1, false) == CancelLog(failed, false) + [CancelThrew]
    ensures CancelLog(failed, true) == CancelLog(failed, false) + [CancelWork]
  {
    if failed > 0 { CancelLogGrows(failed - 1); }
  }

  lemma SignalKeepsInv(s: State, now: int, throws: bool)
    requires Inv(s)
    ensures Inv(OnSignal(s, now, throws)) && Rank(s.phase) <= Rank(OnSignal(s, now, throws).phase)
  {
    var s' := OnSignal(s, now, throws);
    if s.phase == Draining {
      CancelLogGrows(s.failedCancels);
      assert LeaveLog(s'.leave) == [] && s.log == QuiesceLog(s.quiesce) + CancelLog(s.failedCancels, false);
    }
    assert s'.log == History(s');
  }

  lemma DrainKeepsInv(s: State, now: int, fault: Fault)
    requires Inv(s)
    ensures Inv(OnDrainTick(s, now, fault)) && Rank(s.phase) <= Rank(OnDrainTick(s, now, fault).phase)
  {
    var s' := OnDrainTick(s, now, fault);
    if s.phase == Draining {
      CancelLogGrows(s.failedCancels);
      assert LeaveLog(s.leave) == [] && s.log == QuiesceLog(s.quiesce) + CancelLog(s.failedCancels, false);
    }
    assert s'.log == History(s');
  }

  lemma SettleKeepsInv(s: State, now: int, lookThrows: bool)
    requires Inv(s)
    ensures Inv(OnSettleTick(s, now, lookThrows)) && Rank(s.phase) <= Rank(OnSettleTick(s, now, lookThrows).phase)
  {
    var s' := OnSettleTick(s, now, lookThrows);
    assert s'.log == History(s');
  }

  /** A step at which a call of the daemon throws that is none of the release and the stop. */
  predicate Fails(a: Action) {
    (a.Signal? && a.throws) || (a.DrainTick? && !a.fault.NoFault?) || (a.SettleTick? && a.lookThrows)
  }

  /** Nothing of that kind has happened: the quiesce and the cancellation answered, and who waits is parked. */
  ghost predicate NothingFailed(s: State) {
    && !s.quiesce.Threw? && s.failedCancels == 0
    && (s.phase == Draining ==> s.drain.Some?) && (s.phase == Cancelling ==> s.settle.Some?)
  }

  /**
   * On every interleaving: the daemon is quiesced, its work cancelled, its devices
   * released, itself stopped and the process ended in this order and each at most once,
   * apart from calls that threw; work is still in flight when the release starts only if it
   * was cancelled; and there is no release without a quiesce having been asked for, and
   * answered unless it threw. Jobs may start at any time, and any call may throw.
   */
  lemma {:induction false} LeavesInOrder(actions: seq<Action>)
    ensures var s := Exec(UP, actions);
      && Inv(s)
      && s.log == History(s)
      && (!s.leave.NotEntered? && s.leave.inFlight > 0 ==> CancelWork in s.log)
      && (!s.leave.NotEntered? ==> s.log[0] == if s.quiesce.Threw? then QuiesceThrew else Quiesce)
      && ((forall a | a in actions :: !Fails(a)) ==> NothingFailed(s))
    decreases |actions|
  {
    var s := Exec(UP, actions);
    if actions != [] {
      var before, a := actions[..|actions| - 1], actions[|actions| - 1];
      assert a in actions && forall b | b in before :: b in actions;
      hide Step, Inv;
      LeavesInOrder(before);
      StepKeepsInv(Exec(UP, before), a);
      if NothingFailed(Exec(UP, before)) && !Fails(a) { NothingFails(Exec(UP, before), a); }
    }
    HistorySays(s);
  }

  lemma NothingFails(s: State, a: Action)
    requires Inv(s) && NothingFailed(s) && !Fails(a)
    ensures NothingFailed(Step(s, a))
  {
  }

  lemma HistorySays(s: State)
    requires Inv(s)
    ensures s.log == History(s)
    ensures !s.leave.NotEntered? && s.leave.inFlight > 0 ==> CancelWork in s.log
    ensures !s.leave.NotEntered? ==> s.log != [] && s.log[0] == if s.quiesce.Threw? then QuiesceThrew else Quiesce
  {
    if s.cancelled {
      CancelLogGrows(s.failedCancels);
      assert CancelWork in CancelLog(s.failedCancels, true);
    }
  }

  /** The phase only advances, whatever happens later. */
  lemma {:induction false} PhaseOnlyAdvances(actions: seq<Action>, later: seq<Action>)
    ensures Rank(Exec(UP, actions).phase) <= Rank(Exec(UP, actions + later).phase)
    decreases |later|
  {
    hide Step, Inv;
    if later == [] {
      assert actions + later == actions;
    } else {
      var init := later[..|later| - 1];
      PhaseOnlyAdvances(actions, init);
      LeavesInOrder(actions + init);
      assert (actions + later)[..|actions + later| - 1] == actions + init;
      StepKeepsInv(Exec(UP, actions + init), later[|later| - 1]);
    }
  }

  /** `leave` is entered at most once: the release starts at one place of the log or at none. */
  lemma LeaveIsEnteredOnce(actions: seq<Action>, i: nat, j: nat)
    requires var log := Exec(UP, actions).log;
      i < |log| && j < |log| && log[i].ReleaseStarts? && log[j].ReleaseStarts?
    ensures i == j
  {
    var s := Exec(UP, actions);
    LeavesInOrder(actions);
    NoReleaseInCancels(s.failedCancels, s.cancelled);
    hide CancelLog;
    var front := QuiesceLog(s.quiesce) + CancelLog(s.failedCancels, s.cancelled);
    assert forall k | 0 <= k < |front| :: !front[k].ReleaseStarts?;
    assert s.log == front + LeaveLog(s.leave);
  }

  lemma {:induction false} NoReleaseInCancels(failed: nat, answered: bool)
    ensures forall e | e in CancelLog(failed, answered) :: !e.ReleaseStarts?
  {
    if failed > 0 { NoReleaseInCancels(failed - 1, answered); }
  }

  /** The signal numbered `n` found the process in `phase`, at `now`. */
  ghost predicate SignalledIn(actions: seq<Action>, n: nat, phase: Phase, now: int)
    requires n < |actions|
  {
    actions[n].Signal? && actions[n].now == now && Exec(UP, actions[..n]).phase == phase
  }

  ghost predicate Signalled(actions: seq<Action>, phase: Phase, now: int) {
    exists n :: 0 <= n < |actions| && SignalledIn(actions, n, phase, now)
  }

  /** The deadlines of the two loops are counted from the signal that started each. */
  lemma {:induction false} DeadlinesAreTracked(actions: seq<Action>)
    ensures var s := Exec(UP, actions);
      && (s.phase == Draining && s.drain.Some? ==>
            Signalled(actions, Running, s.drain.value - WAIT_LIMIT_MS))
      && (s.phase == Cancelling && s.settle.Some? ==>
            Signalled(actions, Draining, s.settle.value - SETTLE_MS))
    decreases |actions|
  {
    hide Inv, Exec, Step, Signalled;
    if actions == [] {
      NothingYet();
    } else {
      var before, a := actions[..|actions| - 1], actions[|actions| - 1];
      DeadlinesAreTracked(before);
      LeavesInOrder(before);
      var s, s' := Exec(UP, before), Exec(UP, actions);
      ExecSnoc(UP, before, a);
      assert actions == before + [a];
      DeadlinesSet(s, a);
      if s'.phase == Draining && s'.drain.Some? {
        if s.phase == Draining {
          SignalledBefore(before, a, Running, s'.drain.value - WAIT_LIMIT_MS);
        } else {
          SignalledLast(before, a, Running);
        }
      }
      if s'.phase == Cancelling && s'.settle.Some? {
        if s.phase == Cancelling {
          SignalledBefore(before, a, Draining, s'.settle.value - SETTLE_MS);
        } else {
          SignalledLast(before, a, Draining);
        }
      }
    }
  }

  lemma NothingYet()
    ensures Exec(UP, []) == UP
  {
  }

  lemma ExecSnoc(s: State, actions: seq<Action>, a: Action)
    ensures Exec(s, actions + [a]) == Step(Exec(s, actions), a)
  {
    assert (actions + [a])[..|actions|] == actions;
  }

  lemma SignalledBefore(before: seq<Action>, a: Action, phase: Phase, now: int)
    requires Signalled(before, phase, now)
    ensures Signalled(before + [a], phase, now)
  {
    hide Exec;
    var n :| 0 <= n < |before| && SignalledIn(before, n, phase, now);
    assert (before + [a])[..n] == before[..n];
    assert SignalledIn(before + [a], n, phase, now);
  }

  lemma SignalledLast(before: seq<Action>, a: Action, phase: Phase)
    requires a.Signal? && Exec(UP, before).phase == phase
    ensures Signalled(before + [a], phase, a.now)
  {
    hide Exec;
    assert (before + [a])[..|before|] == before;
    assert SignalledIn(before + [a], |before|, phase, a.now);
  }

  /** A deadline is set by the signal that starts its loop, and kept. */
  lemma DeadlinesSet(s: State, a: Action)
    requires Inv(s)
    ensures var s' := Step(s, a);
      && (s'.phase == Draining && s'.drain.Some? ==>
            if s.phase == Draining then s'.drain == s.drain
            else s.phase == Running && a.Signal? && s'.drain.value == a.now + WAIT_LIMIT_MS)
      && (s'.phase == Cancelling && s'.settle.Some? ==>
            if s.phase == Cancelling then s'.settle == s.settle
            else s.phase == Draining && a.Signal? && s'.settle.value == a.now + SETTLE_MS)
  {
  }

  /**
   * No wait is for ever: work or not, the drain loop leaves at its first look after two
   * minutes from the first signal, and the settle loop after five seconds from the
   * second, and neither leaves before with work in flight. One of the two is parked as long
   * as the process is between running and leaving, unless a call of the daemon threw.
   */
  lemma WaitsAreBounded(actions: seq<Action>, now: int)
    ensures var s := Exec(UP, actions);
      && ((forall a | a in actions :: !Fails(a)) ==> NothingFailed(s))
      && (s.phase == Draining && s.drain.Some? ==> exists first ::
            && Signalled(actions, Running, first)
            && (Step(s, DrainTick(now, NoFault)).phase == Leaving <==> s.inFlight == 0 || now >= first + WAIT_LIMIT_MS))
      && (s.phase == Cancelling && s.settle.Some? ==> exists second ::
            && Signalled(actions, Draining, second)
            && (Step(s, SettleTick(now, false)).phase == Leaving <==> s.inFlight == 0 || now >= second + SETTLE_MS))
  {
    var s := Exec(UP, actions);
    LeavesInOrder(actions);
    DeadlinesAreTracked(actions);
    hide Signalled, Exec;
    LooksLeave(s, now);
    if s.phase == Draining && s.drain.Some? {
      assert Signalled(actions, Running, s.drain.value - WAIT_LIMIT_MS);
    }
    if s.phase == Cancelling && s.settle.Some? {
      assert Signalled(actions, Draining, s.settle.value - SETTLE_MS);
    }
  }

  lemma LooksLeave(s: State, now: int)
    requires Inv(s)
    ensures s.phase == Draining && s.drain.Some? ==>
      (Step(s, DrainTick(now, NoFault)).phase == Leaving <==> s.inFlight == 0 || now >= s.drain.value)
    ensures s.phase == Cancelling && s.settle.Some? ==>
      (Step(s, SettleTick(now, false)).phase == Leaving <==> s.inFlight == 0 || now >= s.settle.value)
  {
  }

  /** The second signal cancels at once; any later one changes nothing. */
  lemma LaterSignalsChangeNothing(actions: seq<Action>, now: int, throws: bool)
    requires Rank(Exec(UP, actions).phase) >= Rank(Cancelling)
    ensures Exec(UP, actions + [Signal(now, throws)]) == Exec(UP, actions)
  {
    LeavesInOrder(actions);
    ExecSnoc(UP, actions, Signal(now, throws));
  }

  // ------------------------------------------------------------ calls that throw

  /**
   * A throw out of the release, of the stop, of the cancellation that the second signal
   * asks for, or of the look the settle loop takes.
   */
  predicate Stuck(s: State) {
    s.leave.ReleaseThrew? || s.leave.StopThrew? || (s.phase == Cancelling && s.settle.None?)
  }

  /** The throws that end a process for good. */
  predicate Dooms(s: State, a: Action) {
    match a
    case Signal(_, throws) => s.phase == Draining && throws
    case SettleTick(now, lookThrows) => s.phase == Cancelling && s.settle.Some? && now < s.settle.value && lookThrows
    case ReleaseThrows => s.leave.Releasing?
    case StopThrows => s.leave.Stopping?
    case _ => false
  }

  /** Draining with nobody waiting: nothing of this code will look at the work again. */
  predicate Orphaned(s: State) {
    s.phase == Draining && s.drain.None?
  }

  /** The throws that leave nobody waiting. */
  predicate Orphans(s: State, a: Action) {
    match a
    case Signal(_, throws) => s.phase == Running && throws
    case DrainTick(now, fault) =>
      s.phase == Draining && s.drain.Some?
      && (fault == LookThrows || (fault == CancelThrows && s.inFlight > 0 && now >= s.drain.value))
    case _ => false
  }

  /** After any run, the next step dooms or orphans the process if and only if it is one of those throws. */
  lemma ThrowsThatMatter(actions: seq<Action>, a: Action)
    ensures var s, s' := Exec(UP, actions), Exec(UP, actions + [a]);
      && (!Stuck(s) ==> (Stuck(s') <==> Dooms(s, a)))
      && (!Orphaned(s) ==> (Orphaned(s') <==> Orphans(s, a)))
  {
    LeavesInOrder(actions);
    ExecSnoc(UP, actions, a);
    hide Exec, History;
  }

  /** Nothing that can still happen ends the process, or does anything else. */
  lemma {:induction false} ThrowNeverExits(actions: seq<Action>, later: seq<Action>)
    requires Stuck(Exec(UP, actions))
    ensures var s, s' := Exec(UP, actions), Exec(UP, actions + later);
      Stuck(s') && s'.leave == s.leave && s'.phase == s.phase && s'.log == s.log
    decreases |later|
  {
    hide Step, Inv, Exec;
    if later == [] {
      assert actions + later == actions;
    } else {
      var before, a := later[..|later| - 1], later[|later| - 1];
      ThrowNeverExits(actions, before);
      LeavesInOrder(actions + before);
      assert actions + later == actions + before + [a];
      ExecSnoc(UP, actions + before, a);
      NothingAfterThrow(Exec(UP, actions + before), a);
    }
  }

  lemma NothingAfterThrow(s: State, a: Action)
    requires Inv(s) && Stuck(s)
    ensures var s' := Step(s, a); Stuck(s') && s'.leave == s.leave && s'.phase == s.phase && s'.log == s.log
  {
  }

  /** The steps that lead to the exit, from wherever the process is: `at` is when the settle loop looks. */
  function WayOut(s: State): seq<Action> {
    var at := if s.settle.Some? then s.settle.value else SETTLE_MS;
    [Signal(0, false), Signal(0, false), SettleTick(at, false), ReleaseDone, StopDone]
  }

  /** The process can still exit if and only if none of the throws that end it for good has happened. */
  lemma CanExitIff(actions: seq<Action>)
    ensures (exists later :: Exec(UP, actions + later).leave.Exited?) <==> !Stuck(Exec(UP, actions))
  {
    var s := Exec(UP, actions);
    LeavesInOrder(actions);
    if Stuck(s) {
      forall later
        ensures !Exec(UP, actions + later).leave.Exited?
      {
        ThrowNeverExits(actions, later);
        hide Exec;
      }
    } else {
      var w := WayOut(s);
      ExecFive(actions, w[0], w[1], w[2], w[3], w[4]);
      hide Exec;
      WayOutExits(s);
      assert Exec(UP, actions + w).leave.Exited?;
    }
  }

  function Five(s: State, a: Action, b: Action, c: Action, d: Action, e: Action): State {
    Step(Step(Step(Step(Step(s, a), b), c), d), e)
  }

  lemma ExecFive(actions: seq<Action>, a: Action, b: Action, c: Action, d: Action, e: Action)
    ensures Exec(UP, actions + [a, b, c, d, e]) == Five(Exec(UP, actions), a, b, c, d, e)
  {
    hide Exec, Step;
    ExecSnoc(UP, actions, a);
    ExecSnoc(UP, actions + [a], b);
    ExecSnoc(UP, actions + [a] + [b], c);
    ExecSnoc(UP, actions + [a] + [b] + [c], d);
    ExecSnoc(UP, actions + [a] + [b] + [c] + [d], e);
    assert actions + [a, b, c, d, e] == actions + [a] + [b] + [c] + [d] + [e];
  }

  lemma WayOutExits(s: State)
    requires Inv(s) && !Stuck(s)
    ensures var w := WayOut(s); Five(s, w[0], w[1], w[2], w[3], w[4]).leave.Exited?
  {
    var w := WayOut(s);
    var s3 := Step(Step(Step(s, w[0]), w[1]), w[2]);
    assert s3.leave.Releasing? || s3.leave.Stopping? || s3.leave.Exited?;
  }

  /**
   * A quiesce that threw, or a throw out of the drain loop, leaves nobody waiting: whatever
   * happens, nothing more is done until another signal comes.
   */
  lemma {:induction false} OnlyASignalHelps(actions: seq<Action>, later: seq<Action>)
    requires Exec(UP, actions).phase == Draining && Exec(UP, actions).drain.None?
    ensures var s, s' := Exec(UP, actions), Exec(UP, actions + later);
      if forall a | a in later :: !a.Signal? then s'.phase == Draining && s'.drain.None? && s'.log == s.log
      else Rank(s'.phase) >= Rank(Cancelling)
    decreases |later|
  {
    hide Step, Inv, Exec;
    if later == [] {
      assert actions + later == actions;
    } else {
      var before, a := later[..|later| - 1], later[|later| - 1];
      OnlyASignalHelps(actions, before);
      LeavesInOrder(actions + before);
      assert actions + later == actions + before + [a] && later == before + [a];
      ExecSnoc(UP, actions + before, a);
      var mid := Exec(UP, actions + before);
      StepKeepsInv(mid, a);
      if mid.phase == Draining && mid.drain.None? { NobodyWaits(mid, a); }
    }
  }

  lemma NobodyWaits(s: State, a: Action)
    requires Inv(s) && s.phase == Draining && s.drain.None?
    ensures var s' := Step(s, a);
      if a.Signal? then s'.phase == Cancelling else s'.phase == Draining && s'.drain.None? && s'.log == s.log
  {
  }

  // ------------------------------------------------------------------ the sweep

  /** Two stall ticks with no device settling between them. */
  ghost predicate Stalled(actions: seq<Action>) {
    exists i, j :: StallGap(actions, i, j)
  }

  ghost predicate StallGap(actions: seq<Action>, i: int, j: int) {
    0 <= i < j < |actions| && actions[i] == StallTick && actions[j] == StallTick
    && forall k | i < k < j :: actions[k] != DeviceSettles
  }

  /** A stall tick with no device settling since. */
  ghost predicate TickedSince(actions: seq<Action>) {
    exists i :: 0 <= i < |actions| && actions[i] == StallTick && NoneSettles(actions, i)
  }

  ghost predicate NoneSettles(actions: seq<Action>, i: int)
    requires 0 <= i < |actions|
  {
    forall k | i < k < |actions| :: actions[k] != DeviceSettles
  }

  function Count(actions: seq<Action>, a: Action): nat {
    if actions == [] then 0 else Count(actions[..|actions| - 1], a) + if actions[|actions| - 1] == a then 1 else 0
  }

  /** The sweep is under way, and `releaseDevices` has not answered. */
  ghost predicate SweepOnly(s: State, actions: seq<Action>) {
    s.leave.Releasing? && s.leave.settled == 0 && s.leave.seen == -1
    && ReleaseDone !in actions && StopDone !in actions && ReleaseThrows !in actions && StopThrows !in actions
  }

  lemma StalledGrows(init: seq<Action>, a: Action)
    ensures Stalled(init + [a]) <==> Stalled(init) || (a == StallTick && TickedSince(init))
  {
    var actions := init + [a];
    if Stalled(actions) {
      var i, j :| StallGap(actions, i, j);
      forall k | i < k < j
        ensures init[k] != DeviceSettles
      {
        assert actions[k] == init[k];
      }
      if j < |init| { assert StallGap(init, i, j); } else { assert init[i] == StallTick && NoneSettles(init, i); }
    }
    if Stalled(init) {
      var i, j :| StallGap(init, i, j);
      assert StallGap(actions, i, j);
    }
    if a == StallTick && TickedSince(init) {
      var i :| 0 <= i < |init| && init[i] == StallTick && NoneSettles(init, i);
      assert StallGap(actions, i, |init|);
    }
  }

  lemma TickedGrows(init: seq<Action>, a: Action)
    ensures TickedSince(init + [a]) <==> a == StallTick || (a != DeviceSettles && TickedSince(init))
  {
    var actions := init + [a];
    if a == StallTick { assert actions[|init|] == StallTick && NoneSettles(actions, |init|); }
    if TickedSince(actions) && a != StallTick {
      var i :| 0 <= i < |actions| && actions[i] == StallTick && NoneSettles(actions, i);
      assert actions[|init|] == a;
      assert i < |init|;
      forall k | i < k < |init|
        ensures init[k] != DeviceSettles
      {
        assert actions[k] == init[k];
      }
      assert init[i] == StallTick && NoneSettles(init, i);
    }
    if a != DeviceSettles && TickedSince(init) {
      var i :| 0 <= i < |init| && init[i] == StallTick && NoneSettles(init, i);
      assert actions[i] == StallTick && NoneSettles(actions, i);
    }
  }

  /** What the sweep has seen: `seen` is at the number settled exactly while nothing settled since a tick. */
  ghost predicate Sweeping(l: Leave, inFlight: nat, actions: seq<Action>) {
    && l.Releasing? && l.inFlight == inFlight
    && l.settled == Count(actions, DeviceSettles)
    && l.seen <= l.settled
    && (l.seen == l.settled <==> TickedSince(actions))
    && Count(actions, StallTick) <= l.seen + 1
  }

  /**
   * Until `releaseDevices` answers, and with anything else happening in between, the sweep
   * is given up exactly when two stall ticks come with no device settling between them.
   */
  lemma {:induction false} AbandonedIffStalled(s: State, actions: seq<Action>)
    requires Inv(s) && SweepOnly(s, actions)
    ensures var s' := Exec(s, actions);
      && (Stalled(actions) ==> s'.leave == Stopping(s.leave.inFlight, false))
      && (!Stalled(actions) ==> Sweeping(s'.leave, s.leave.inFlight, actions))
      && Inv(s') && s'.phase == Leaving
    decreases |actions|
  {
    hide Stalled, TickedSince, Inv, Step;
    if actions == [] {
      NothingTicked(s);
    } else {
      var init, a := actions[..|actions| - 1], actions[|actions| - 1];
      assert actions == init + [a];
      AbandonedIffStalled(s, init);
      StalledGrows(init, a);
      assert a in actions;
      StepKeepsInv(Exec(s, init), a);
      SweepSteps(Exec(s, init), a);
      if !Stalled(init) { SweepGoesOn(Exec(s, init), s.leave.inFlight, init, a); }
    }
  }

  /** Whatever step enters the release, the sweep starts there, with nothing settled and nothing seen, over the work there is. */
  lemma SweepStarts(actions: seq<Action>, a: Action)
    requires Exec(UP, actions).leave.NotEntered?
    ensures var s, s' := Exec(UP, actions), Exec(UP, actions + [a]);
      s'.leave.NotEntered? || (SweepOnly(s', []) && s'.leave.inFlight == s.inFlight && s'.phase == Leaving)
  {
    LeavesInOrder(actions);
    ExecSnoc(UP, actions, a);
    hide Exec, History;
  }

  /** The release that answers ends the sweep as complete, the stop that answers ends the process; neither does anything elsewhere. */
  lemma AnswersLead(actions: seq<Action>)
    ensures var s := Exec(UP, actions);
      var released, stopped := Exec(UP, actions + [ReleaseDone]), Exec(UP, actions + [StopDone]);
      && (if s.leave.Releasing? then released.leave == Stopping(s.leave.inFlight, true) else released == s)
      && (if s.leave.Stopping? then stopped.leave == Exited(s.leave.inFlight, s.leave.complete) else stopped == s)
  {
    ExecSnoc(UP, actions, ReleaseDone);
    ExecSnoc(UP, actions, StopDone);
    hide Exec;
  }

  /** The jobs in flight, by the starts and ends of a run: an end without a job is none. */
  function Jobs(actions: seq<Action>): nat {
    if actions == [] then 0 else
    var n := Jobs(actions[..|actions| - 1]);
    match actions[|actions| - 1]
    case JobStarts => n + 1
    case JobEnds => if n > 0 then n - 1 else 0
    case _ => n
  }

  lemma {:induction false} JobsAreCounted(actions: seq<Action>)
    ensures var s := Exec(UP, actions); s.leave.Exited? || s.inFlight == Jobs(actions)
    decreases |actions|
  {
    hide Step;
    if actions != [] {
      var before, a := actions[..|actions| - 1], actions[|actions| - 1];
      JobsAreCounted(before);
      JobsStep(Exec(UP, before), a);
    }
  }

  lemma JobsStep(s: State, a: Action)
    ensures s.leave.Exited? ==> Step(s, a).leave.Exited?
    ensures !s.leave.Exited? ==>
      Step(s, a).inFlight == match a case JobStarts => s.inFlight + 1
                                     case JobEnds => (if s.inFlight > 0 then s.inFlight - 1 else 0)
                                     case _ => s.inFlight
  {
  }

  lemma SweepGoesOn(s: State, inFlight: nat, init: seq<Action>, a: Action)
    requires Inv(s) && s.phase == Leaving && Sweeping(s.leave, inFlight, init)
    requires a !in {ReleaseDone, StopDone, ReleaseThrows, StopThrows}
    ensures var l, actions := Step(s, a).leave, init + [a];
      if a == StallTick && TickedSince(init) then l == Stopping(inFlight, false) else Sweeping(l, inFlight, actions)
  {
    hide TickedSince;
    var actions := init + [a];
    assert actions[..|actions| - 1] == init;
    TickedGrows(init, a);
    SweepSteps(s, a);
  }

  lemma NothingTicked(s: State)
    requires Inv(s) && s.leave.Releasing?
    ensures !Stalled([]) && !TickedSince([]) && s.phase == Leaving
  {
  }

  /** Only its own two steps touch a sweep, or what follows it. */
  lemma SweepSteps(s: State, a: Action)
    requires Inv(s) && s.phase == Leaving && (s.leave.Releasing? || s.leave.Stopping?)
    requires a !in {ReleaseDone, StopDone, ReleaseThrows, StopThrows}
    ensures Step(s, a).phase == Leaving
    ensures s.leave.Stopping? || (a != DeviceSettles && a != StallTick) ==> Step(s, a).leave == s.leave
  {
  }

  /** A sweep over `n` devices is over by the stall tick numbered n + 2, whatever happens. */
  lemma SweepIsBounded(s: State, actions: seq<Action>, n: nat)
    requires Inv(s) && SweepOnly(s, actions)
    requires Count(actions, DeviceSettles) <= n && Count(actions, StallTick) >= n + 2
    ensures Stalled(actions) && Exec(s, actions).leave.Stopping?
  {
    AbandonedIffStalled(s, actions);
  }
}
