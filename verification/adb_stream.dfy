/** Long-running shell streams: the PID line at their front, and how they end. */
module AdbStream {
  import opened Options
  import opened AdbBytes

  const NEWLINE: byte := 10

  /** The place of the first newline, or the length when there is none. */
  function NewlineAt(s: Bytes): (k: nat)
    ensures k <= |s| && (forall i | 0 <= i < k :: s[i] != NEWLINE) && (k < |s| ==> s[k] == NEWLINE)
  {
    if s == [] || s[0] == NEWLINE then 0 else 1 + NewlineAt(s[1..])
  }

  /** The first line, if it is complete, and every byte after its newline. */
  datatype Stripped = Stripped(line: Option<Bytes>, data: Bytes)

  function Strip(s: Bytes): Stripped {
    var k := NewlineAt(s);
    if k == |s| then Stripped(None, []) else Stripped(Some(s[..k]), s[k + 1..])
  }

  lemma NewlineUnique(s: Bytes, k: nat)
    requires k < |s| && s[k] == NEWLINE && forall i | 0 <= i < k :: s[i] != NEWLINE
    ensures NewlineAt(s) == k
  {
  }

  /** Once the first line is complete, later bytes only add data. */
  lemma StripAppend(a: Bytes, b: Bytes)
    requires Strip(a).line.Some?
    ensures Strip(a + b) == Stripped(Strip(a).line, Strip(a).data + b)
  {
    var k := NewlineAt(a);
    NewlineUnique(a + b, k);
    assert (a + b)[..k] == a[..k] && (a + b)[k + 1..] == a[k + 1..] + b;
  }

  /** `handleChunk` and the variables it closes over. */
  class PidStripper {
    /** Reads a PID off the first line, if the line is one. */
    const parsePid: Bytes -> Option<int>
    var pidChunks: seq<Bytes>
    var pidResolved: bool
    var pid: Option<int>
    /** The calls of `onData`. */
    var delivered: seq<Bytes>
    ghost var received: Bytes

    /** What was delivered is a function of the bytes received, whatever chunks they came in. */
    ghost predicate Valid()
      reads this
    {
      var s := Strip(received);
      && pidResolved == s.line.Some?
      && pid == (if s.line.Some? then parsePid(s.line.value) else None)
      && Flat(delivered) == s.data
      && (forall c | c in delivered :: c != [])
      && (!pidResolved ==> Flat(pidChunks) == received)
    }

    constructor (parsePid: Bytes -> Option<int>)
      ensures Valid() && received == [] && this.parsePid == parsePid
    {
      this.parsePid := parsePid;
      pidChunks, pidResolved, pid, delivered, received := [], false, None, [], [];
    }

    method Deliver(data: Bytes)
      modifies this`delivered
      ensures Flat(delivered) == Flat(old(delivered)) + data
      ensures (forall c | c in old(delivered) :: c != []) ==> forall c | c in delivered :: c != []
    {
      if |data| > 0 {
        FlatSnoc(delivered, data);
        delivered := delivered + [data];
      }
    }

    method HandleChunk(chunk: Bytes)
      requires Valid()
      modifies this
      ensures Valid() && received == old(received) + chunk
      ensures old(pidResolved) ==> pidResolved && pid == old(pid)
    {
      ghost var before := received;
      received := received + chunk;
      if pidResolved {
        StripAppend(before, chunk);
        Deliver(chunk);
        return;
      }
      FlatSnoc(pidChunks, chunk);
      pidChunks := pidChunks + [chunk];
      var combined := Flat(pidChunks);
      var nl := NewlineAt(combined);
      if nl == |combined| { return; }
      pidResolved, pidChunks := true, [];
      pid := parsePid(combined[..nl]);
      Deliver(combined[nl + 1..]);
    }
  }

  // ------------------------------------------------------------------ endings

  datatype Reason = Closed | Idle | Deadline | TooManyBytes | StoppedByCaller | Failed

  /** What an end error of the stream is reported as. */
  datatype StreamError = NoError | IdleError | LimitError | AnyOther

  function ReasonOf(e: StreamError): Reason {
    match e
    case NoError => Closed
    case IdleError => Idle
    case LimitError => TooManyBytes
    case AnyOther => Failed
  }

  /** What a stream does to the world when it ends, in order. */
  datatype Effect = ReleaseLane | CloseSocket | Kill(pid: int) | OnEnd(reason: Reason)

  /** Whether the caller asked for an absolute deadline, and gave a signal. */
  datatype Settings = Settings(deadline: bool, signal: bool)

  /**
   * Where the call of `execStream` stands: before the handshakes settle, settled with a
   * handle, rejected by the handshake, or rejected by a throw out of the first delivery.
   */
  datatype Phase = Connecting | Returned | HandshakeThrew | DeliveryThrew

  /** `armed`, `listening` and `wired`: the deadline, the abort listener and the end of the socket can call `finish`. */
  datatype Stream = Stream(phase: Phase, ended: bool, socketOpen: bool, armed: bool, listening: bool, wired: bool,
                           pid: Option<int>, effects: seq<Effect>)

  const CONNECTING: Stream := Stream(Connecting, false, false, false, false, false, None, [])

  /** `finish`: only its first call does anything. */
  function Finish(s: Stream, reason: Reason): Stream {
    if s.ended then s else
    s.(ended := true, armed := false, listening := false,
       effects := s.effects + [ReleaseLane] + (if s.socketOpen then [CloseSocket] else [])
                  + (if s.pid.Some? then [Kill(s.pid.value)] else []) + [OnEnd(reason)])
  }

  /**
   * What `streamFrom` finds: the bytes buffered during the handshakes are handed over at
   * once, and the caller's `onData` may throw; then a queue that has ended says so.
   */
  datatype Buffered = Delivered(pid: Option<int>, ended: Option<StreamError>) | DeliveryThrows(pid: Option<int>)

  /** Nothing guards the switch to streaming: a throw leaves the call with the slot still out. */
  function StreamFrom(s: Stream, buffered: Buffered): Stream {
    match buffered
    case DeliveryThrows(pid) => s.(phase := DeliveryThrew, pid := pid)
    case Delivered(pid, ended) =>
      var s' := s.(phase := Returned, pid := pid);
      if ended.Some? then Finish(s', ReasonOf(ended.value)) else s'.(wired := true)
  }

  datatype Action =
    | ConnectFails(socketOpened: bool)
    | Connected(aborted: bool, buffered: Buffered)
    | PidRead(pid: int)
    | EndedBy(error: StreamError) | DeadlinePasses | SignalAborts | StopCalled

  /** The steps of one `execStream` call; those that cannot happen yet, or any more, do nothing. */
  function Step(settings: Settings, s: Stream, a: Action): Stream {
    match a
    case ConnectFails(socketOpened) =>
      if !s.phase.Connecting? then s else
      s.(phase := HandshakeThrew, effects := s.effects + [ReleaseLane] + if socketOpened then [CloseSocket] else [])
    case Connected(aborted, buffered) =>
      if !s.phase.Connecting? then s else
      var s' := s.(socketOpen := true);
      if aborted && settings.signal then Finish(s'.(phase := Returned), StoppedByCaller)
      else StreamFrom(s'.(armed := settings.deadline, listening := settings.signal), buffered)
    case PidRead(pid) => if s.wired && s.pid.None? then s.(pid := Some(pid)) else s
    case EndedBy(error) => if s.wired then Finish(s, ReasonOf(error)) else s
    case DeadlinePasses => if s.armed then Finish(s, Deadline) else s
    case SignalAborts => if s.listening then Finish(s, StoppedByCaller) else s
    case StopCalled => if s.phase.Returned? then Finish(s, StoppedByCaller) else s
  }

  function Exec(settings: Settings, actions: seq<Action>): Stream {
    if actions == [] then CONNECTING
    else Step(settings, Exec(settings, actions[..|actions| - 1]), actions[|actions| - 1])
  }

  function CountOf(effects: seq<Effect>, e: Effect): nat {
    multiset(effects)[e]
  }

  /** An `OnEnd`, whatever its reason. */
  function EndCalls(effects: seq<Effect>): nat {
    if effects == [] then 0 else
    EndCalls(effects[..|effects| - 1]) + if effects[|effects| - 1].OnEnd? then 1 else 0
  }

  /** What an ended stream has done: the slot, the socket, the process if its PID was read, the caller. */
  function EndEffects(killed: Option<int>, reason: Reason): seq<Effect> {
    [ReleaseLane, CloseSocket] + (if killed.Some? then [Kill(killed.value)] else []) + [OnEnd(reason)]
  }

  /** Nothing but the PID read off the stream is ever killed; one read after the end is left alone. */
  predicate Ending(s: Stream, killed: Option<int>) {
    killed.None? || killed == s.pid
  }

  /** The call has settled for good: rejected, or with its stream ended. */
  predicate Over(s: Stream) {
    s.ended || s.phase.HandshakeThrew? || s.phase.DeliveryThrew?
  }

  /** All that a stream can have done, by where it stands. */
  ghost predicate EndsOnce(settings: Settings, s: Stream) {
    && (s.phase.Connecting? ==> s == CONNECTING)
    && (s.phase.HandshakeThrew? ==> !s.ended && s.effects in {[ReleaseLane], [ReleaseLane, CloseSocket]})
    && (s.phase.HandshakeThrew? ==> !s.armed && !s.listening && !s.wired)
    && (s.ended ==> !s.armed && !s.listening)
    && (s.phase.DeliveryThrew? ==> !s.wired)
    && (s.phase.Returned? && !s.ended ==> s.wired)
    && (s.phase.Returned? || s.phase.DeliveryThrew? ==> s.socketOpen)
    && (s.ended ==> exists reason, killed :: Ending(s, killed) && s.effects == EndEffects(killed, reason))
    && (!s.ended && !s.phase.HandshakeThrew? ==> s.effects == [])
    && (!s.ended && (s.phase.Returned? || s.phase.DeliveryThrew?) ==>
          s.armed == settings.deadline && s.listening == settings.signal)
  }

  /**
   * On every run the lane slot goes back at most once, ahead of the socket, the kill and
   * the report, and the caller is told at most once. It has gone back exactly when the
   * handshake threw or `finish` has run; so a call that is over has given it back unless
   * the first delivery threw and `finish` has not run since.
   */
  lemma {:induction false} StreamEndsOnce(settings: Settings, actions: seq<Action>)
    ensures var s := Exec(settings, actions);
      && EndsOnce(settings, s)
      && CountOf(s.effects, ReleaseLane) == (if s.phase.HandshakeThrew? || s.ended then 1 else 0)
      && (Over(s) ==> (CountOf(s.effects, ReleaseLane) == 1 <==> !(s.phase.DeliveryThrew? && !s.ended)))
      && EndCalls(s.effects) == (if s.ended then 1 else 0)
    decreases |actions|
  {
    hide EndsOnce, Step;
    if actions == [] {
      NothingDoneYet(settings);
    } else {
      var before := actions[..|actions| - 1];
      StreamEndsOnce(settings, before);
      StepEndsOnce(settings, Exec(settings, before), actions[|actions| - 1]);
    }
    CountEffects(settings, Exec(settings, actions));
  }

  lemma NothingDoneYet(settings: Settings)
    ensures EndsOnce(settings, CONNECTING)
  {
  }

  lemma StepEndsOnce(settings: Settings, s: Stream, a: Action)
    requires EndsOnce(settings, s)
    ensures EndsOnce(settings, Step(settings, s, a))
  {
    var s' := Step(settings, s, a);
    if s.ended {
      EndedStays(settings, s, a);
      var reason, killed :| Ending(s, killed) && s.effects == EndEffects(killed, reason);
      assert Ending(s', killed) && s'.effects == EndEffects(killed, reason);
    } else if s'.ended {
      FinishSays(settings, s, a);
    } else if s'.phase.HandshakeThrew? && s.phase.Connecting? {
      assert s'.effects == [ReleaseLane] || s'.effects == [ReleaseLane, CloseSocket];
    }
  }

  lemma EndedStays(settings: Settings, s: Stream, a: Action)
    requires EndsOnce(settings, s) && s.ended
    ensures var s' := Step(settings, s, a);
      s'.ended && s'.effects == s.effects && s'.phase == s.phase && (s.pid.Some? ==> s'.pid == s.pid)
  {
  }

  /** A step that ends the stream does all of it, for one reason. */
  lemma FinishSays(settings: Settings, s: Stream, a: Action)
    requires EndsOnce(settings, s) && !s.ended && Step(settings, s, a).ended
    ensures var s' := Step(settings, s, a);
      exists reason, killed :: Ending(s', killed) && s'.effects == EndEffects(killed, reason)
  {
    hide EndEffects;
    match a
    case Connected(aborted, buffered) =>
      var open := s.(socketOpen := true);
      if aborted && settings.signal { FinishDoes(open.(phase := Returned), StoppedByCaller); }
      else {
        var returned := open.(armed := settings.deadline, listening := settings.signal, phase := Returned);
        FinishDoes(returned.(pid := buffered.pid), ReasonOf(buffered.ended.value));
      }
    case EndedBy(error) => FinishDoes(s, ReasonOf(error));
    case DeadlinePasses => FinishDoes(s, Deadline);
    case SignalAborts => FinishDoes(s, StoppedByCaller);
    case StopCalled => FinishDoes(s, StoppedByCaller);
  }

  lemma FinishDoes(s: Stream, reason: Reason)
    requires !s.ended && s.socketOpen && s.effects == []
    ensures var s' := Finish(s, reason); Ending(s', s'.pid) && s'.effects == EndEffects(s'.pid, reason)
  {
    assert [] + [ReleaseLane] == [ReleaseLane] && [ReleaseLane] + [CloseSocket] == [ReleaseLane, CloseSocket];
  }

  /** What an end is reported as, by what brought it about. */
  predicate Reports(a: Action, r: Reason) {
    match a
    case DeadlinePasses => r == Deadline
    case SignalAborts => r == StoppedByCaller
    case StopCalled => r == StoppedByCaller
    case EndedBy(error) => EndReports(error, r)
    case Connected(aborted, buffered) =>
      (aborted && r == StoppedByCaller) || (buffered.Delivered? && buffered.ended.Some? && EndReports(buffered.ended.value, r))
    case _ => false
  }

  predicate EndReports(error: StreamError, r: Reason) {
    || (error == NoError && r == Closed) || (error == IdleError && r == Idle)
    || (error == LimitError && r == TooManyBytes) || (error == AnyOther && r == Failed)
  }

  /** What ends a stream, by where its call stands. */
  predicate Ends(settings: Settings, phase: Phase, a: Action) {
    match phase
    case Connecting => a.Connected? && ((a.aborted && settings.signal) || (a.buffered.Delivered? && a.buffered.ended.Some?))
    case Returned => a.StopCalled? || a.EndedBy? || StillEnds(settings, a)
    case DeliveryThrew => StillEnds(settings, a)
    case HandshakeThrew => false
  }

  /**
   * On every run: the next step ends the stream if and only if it is one that ends streams
   * there; then it gives the slot back, closes the socket, kills the process if its PID was
   * read, and reports why, by what brought it about.
   */
  lemma EndsIff(settings: Settings, actions: seq<Action>, a: Action)
    requires !Exec(settings, actions).ended
    ensures var s, s' := Exec(settings, actions), Exec(settings, actions + [a]);
      && (s'.ended <==> Ends(settings, s.phase, a))
      && (s'.ended ==> exists r :: Reports(a, r) && s'.effects == EndEffects(s'.pid, r))
  {
    hide EndEffects, EndsOnce, Exec;
    var s := Exec(settings, actions);
    StreamEndsOnce(settings, actions);
    assert Exec(settings, actions + [a]) == Step(settings, s, a) by { ExecOneMore(settings, actions, a); }
    StepEndsIff(settings, s, a);
  }

  lemma ExecOneMore(settings: Settings, actions: seq<Action>, a: Action)
    ensures Exec(settings, actions + [a]) == Step(settings, Exec(settings, actions), a)
  {
    assert (actions + [a])[..|actions|] == actions;
  }

  lemma StepEndsIff(settings: Settings, s: Stream, a: Action)
    requires EndsOnce(settings, s) && !s.ended
    ensures var s' := Step(settings, s, a);
      && (s'.ended <==> Ends(settings, s.phase, a))
      && (s'.ended ==> exists r :: Reports(a, r) && s'.effects == EndEffects(s'.pid, r))
  {
    hide EndEffects;
    if Step(settings, s, a).ended {
      match a
      case Connected(aborted, buffered) =>
        var open := s.(socketOpen := true);
        if aborted && settings.signal {
          FinishDoes(open.(phase := Returned), StoppedByCaller);
          assert Reports(a, StoppedByCaller);
        } else {
          var returned := open.(armed := settings.deadline, listening := settings.signal, phase := Returned);
          FinishDoes(returned.(pid := buffered.pid), ReasonOf(buffered.ended.value));
          assert Reports(a, ReasonOf(buffered.ended.value));
        }
      case EndedBy(error) => FinishDoes(s, ReasonOf(error)); assert Reports(a, ReasonOf(error));
      case DeadlinePasses => FinishDoes(s, Deadline); assert Reports(a, Deadline);
      case SignalAborts => FinishDoes(s, StoppedByCaller); assert Reports(a, StoppedByCaller);
      case StopCalled => FinishDoes(s, StoppedByCaller); assert Reports(a, StoppedByCaller);
    }
  }

  /** A call settles once: rejected by the handshake, which frees the slot at once, or connected. */
  lemma CallSettles(settings: Settings, actions: seq<Action>, a: Action)
    requires Exec(settings, actions).phase.Connecting?
    ensures var s' := Exec(settings, actions + [a]);
      match a
      case ConnectFails(open) => s'.phase.HandshakeThrew? && s'.effects == [ReleaseLane] + if open then [CloseSocket] else []
      case Connected(aborted, buffered) =>
        && s'.phase == (if buffered.DeliveryThrows? && !(aborted && settings.signal) then DeliveryThrew else Returned)
        && s'.pid == (if aborted && settings.signal then None else buffered.pid)
      case _ => s' == Exec(settings, actions)
  {
    StreamEndsOnce(settings, actions);
    hide Exec;
    ExecOneMore(settings, actions, a);
  }

  /** The PID of a running stream is the first one read off it. */
  lemma FirstPidStays(settings: Settings, actions: seq<Action>, a: Action)
    requires var s := Exec(settings, actions); s.phase.Returned? && !s.ended
    ensures var s, s' := Exec(settings, actions), Exec(settings, actions + [a]);
      s'.pid == if s.pid.None? && a.PidRead? then Some(a.pid) else s.pid
  {
    StreamEndsOnce(settings, actions);
    hide Exec;
    ExecOneMore(settings, actions, a);
  }

  /** What can still end a stream whose first delivery threw: a deadline it has, or a signal it was given. */
  predicate StillEnds(settings: Settings, a: Action) {
    (a.DeadlinePasses? && settings.deadline) || (a.SignalAborts? && settings.signal)
  }

  /**
   * A call rejected by a throw out of its first delivery gives its slot back if and only
   * if a deadline or an abort comes after; and then it also tells a caller who was told
   * already that there is no stream.
   */
  lemma {:induction false} ThrownDeliveryIff(settings: Settings, actions: seq<Action>, later: seq<Action>)
    requires Exec(settings, actions).phase.DeliveryThrew? && !Exec(settings, actions).ended
    ensures var s := Exec(settings, actions + later);
      && s.phase.DeliveryThrew?
      && (CountOf(s.effects, ReleaseLane) == 1 <==> exists a :: a in later && StillEnds(settings, a))
      && EndCalls(s.effects) == CountOf(s.effects, ReleaseLane)
    decreases |later|
  {
    hide EndsOnce, Step, EndCalls;
    StreamEndsOnce(settings, actions + later);
    if later == [] {
      assert actions + later == actions;
    } else {
      var before, a := later[..|later| - 1], later[|later| - 1];
      ThrownDeliveryIff(settings, actions, before);
      StreamEndsOnce(settings, actions + before);
      assert (actions + later)[..|actions + later| - 1] == actions + before;
      assert later == before + [a];
      ThrownStep(settings, Exec(settings, actions + before), a);
    }
  }

  lemma ThrownStep(settings: Settings, s: Stream, a: Action)
    requires EndsOnce(settings, s) && s.phase.DeliveryThrew?
    ensures var s' := Step(settings, s, a);
      s'.phase.DeliveryThrew? && (s'.ended <==> s.ended || StillEnds(settings, a))
  {
  }

  /**
   * The status answers, the PID line and the first data in one chunk, and an `onData` that
   * throws: with no deadline and no signal the slot is lost for good.
   */
  lemma SlotLostExample(pid: int, later: seq<Action>)
    ensures var s := Exec(Settings(false, false), [Connected(false, DeliveryThrows(Some(pid)))] + later);
      s.phase.DeliveryThrew? && CountOf(s.effects, ReleaseLane) == 0
  {
    var settings, start := Settings(false, false), [Connected(false, DeliveryThrows(Some(pid)))];
    assert start[..0] == [];
    ThrownDeliveryIff(settings, start, later);
    StreamEndsOnce(settings, start + later);
  }

  /** Whatever happens after the first ending leaves no further trace: the first reason stands. */
  lemma {:induction false} EndIsFinal(settings: Settings, actions: seq<Action>, later: seq<Action>)
    requires Exec(settings, actions).phase.HandshakeThrew? || Exec(settings, actions).ended
    ensures var s, s' := Exec(settings, actions), Exec(settings, actions + later);
      s'.effects == s.effects && s'.phase == s.phase && s'.ended == s.ended
    decreases |later|
  {
    hide EndsOnce, Step;
    StreamEndsOnce(settings, actions);
    if later == [] {
      assert actions + later == actions;
    } else {
      var before := later[..|later| - 1];
      EndIsFinal(settings, actions, before);
      StreamEndsOnce(settings, actions + before);
      assert (actions + later)[..|actions + later| - 1] == actions + before;
      AfterTheEnd(settings, Exec(settings, actions + before), later[|later| - 1]);
    }
  }

  lemma AfterTheEnd(settings: Settings, s: Stream, a: Action)
    requires EndsOnce(settings, s) && (s.phase.HandshakeThrew? || s.ended)
    ensures var s' := Step(settings, s, a); s'.effects == s.effects && s'.phase == s.phase && s'.ended == s.ended
  {
  }

  lemma CountEffects(settings: Settings, s: Stream)
    requires EndsOnce(settings, s)
    ensures CountOf(s.effects, ReleaseLane) == (if s.phase.HandshakeThrew? || s.ended then 1 else 0)
    ensures EndCalls(s.effects) == (if s.ended then 1 else 0)
  {
    if s.ended {
      var reason, killed :| Ending(s, killed) && s.effects == EndEffects(killed, reason);
      CountEndEffects(killed, reason);
    } else if s.phase.HandshakeThrew? {
      CountStart();
    }
  }

  lemma CountStart()
    ensures EndCalls([ReleaseLane]) == 0 && EndCalls([ReleaseLane, CloseSocket]) == 0
  {
    EndCallsSnoc([], ReleaseLane);
    EndCallsSnoc([ReleaseLane], CloseSocket);
    assert [] + [ReleaseLane] == [ReleaseLane] && [ReleaseLane] + [CloseSocket] == [ReleaseLane, CloseSocket];
  }

  lemma CountEndEffects(killed: Option<int>, reason: Reason)
    ensures CountOf(EndEffects(killed, reason), ReleaseLane) == 1 && EndCalls(EndEffects(killed, reason)) == 1
  {
    CountStart();
    var start := [ReleaseLane, CloseSocket];
    if killed.Some? {
      EndCallsSnoc(start, Kill(killed.value));
      EndCallsSnoc(start + [Kill(killed.value)], OnEnd(reason));
    } else {
      assert EndEffects(killed, reason) == start + [OnEnd(reason)];
      EndCallsSnoc(start, OnEnd(reason));
    }
  }

  lemma EndCallsSnoc(effects: seq<Effect>, e: Effect)
    ensures EndCalls(effects + [e]) == EndCalls(effects) + if e.OnEnd? then 1 else 0
  {
    assert (effects + [e])[..|effects|] == effects;
  }
}

/** The streaming lane's budget. */
module AdbLane {
  type Serial = string
  type Slot = nat

  /** Who a slot that was not released belongs to. */
  datatype Holder = Holder(serial: Serial, pinned: bool)

  datatype Lane = Lane(maxPerDevice: int, maxGlobal: int, globalCount: int, perDevice: map<Serial, int>,
                       pinnedCount: int, live: map<Slot, Holder>)

  function Empty(maxPerDevice: int, maxGlobal: int): Lane {
    Lane(maxPerDevice, maxGlobal, 0, map[], 0, map[])
  }

  function CountFor(l: Lane, serial: Serial): int {
    if serial in l.perDevice then l.perDevice[serial] else 0
  }

  predicate HasRoom(l: Lane, serial: Serial) {
    CountFor(l, serial) < l.maxPerDevice && l.globalCount < l.maxGlobal
  }

  /** `slot` is new. A pinned stream is counted apart and gated by nothing. */
  function Acquire(l: Lane, slot: Slot, serial: Serial, pinned: bool): Lane {
    if pinned then l.(pinnedCount := l.pinnedCount + 1, live := l.live[slot := Holder(serial, true)])
    else if !HasRoom(l, serial) then l
    else l.(perDevice := l.perDevice[serial := CountFor(l, serial) + 1], globalCount := l.globalCount + 1,
            live := l.live[slot := Holder(serial, false)])
  }

  /** Calling a slot's releaser: only the first call does anything. */
  function Release(l: Lane, slot: Slot): Lane {
    if slot !in l.live then l else
    var h := l.live[slot];
    var l' := l.(live := l.live - {slot});
    if h.pinned then l'.(pinnedCount := l.pinnedCount - 1) else
    var next := (if h.serial in l.perDevice then l.perDevice[h.serial] else 1) - 1;
    l'.(globalCount := l.globalCount - 1,
        perDevice := if next <= 0 then l.perDevice - {h.serial} else l.perDevice[h.serial := next])
  }

  function AtLeastOne(n: int): int { if n < 1 then 1 else n }

  function SetLimits(l: Lane, maxPerDevice: int, maxGlobal: int): Lane {
    l.(maxPerDevice := AtLeastOne(maxPerDevice), maxGlobal := AtLeastOne(maxGlobal))
  }

  class StreamLane {
    var maxPerDevice: int
    var maxGlobal: int
    var globalCount: int
    var perDevice: map<Serial, int>
    var pinnedCount: int
    /** The slots whose releaser has not been called. */
    var live: map<Slot, Holder>

    function Now(): Lane
      reads this
    {
      Lane(maxPerDevice, maxGlobal, globalCount, perDevice, pinnedCount, live)
    }

    constructor (maxPerDevice: int, maxGlobal: int)
      ensures Now() == Empty(maxPerDevice, maxGlobal)
    {
      this.maxPerDevice, this.maxGlobal := maxPerDevice, maxGlobal;
      globalCount, perDevice, pinnedCount, live := 0, map[], 0, map[];
    }

    method ChangeLimits(maxPerDevice: int, maxGlobal: int)
      modifies this
      ensures Now() == SetLimits(old(Now()), maxPerDevice, maxGlobal)
    {
      this.maxPerDevice, this.maxGlobal := AtLeastOne(maxPerDevice), AtLeastOne(maxGlobal);
    }

    /** False when a cap is reached: the caller is refused at once and nothing changes. */
    method TakeSlot(slot: Slot, serial: Serial, pinned: bool) returns (ok: bool)
      requires slot !in live
      modifies this
      ensures Now() == Acquire(old(Now()), slot, serial, pinned)
      ensures ok == (pinned || HasRoom(old(Now()), serial)) && (!ok ==> Now() == old(Now()))
    {
      if pinned {
        pinnedCount, live := pinnedCount + 1, live[slot := Holder(serial, true)];
        return true;
      }
      var current := if serial in perDevice then perDevice[serial] else 0;
      if current >= maxPerDevice || globalCount >= maxGlobal { return false; }
      perDevice, globalCount := perDevice[serial := current + 1], globalCount + 1;
      live := live[slot := Holder(serial, false)];
      return true;
    }

    method ReturnSlot(slot: Slot)
      modifies this
      ensures Now() == Release(old(Now()), slot)
    {
      if slot !in live { return; }
      var h := live[slot];
      live := live - {slot};
      if h.pinned {
        pinnedCount := pinnedCount - 1;
        return;
      }
      globalCount := globalCount - 1;
      var next := (if h.serial in perDevice then perDevice[h.serial] else 1) - 1;
      perDevice := if next <= 0 then perDevice - {h.serial} else perDevice[h.serial := next];
    }
  }

  // --------------------------------------------------------------------- runs

  datatype Action =
    | DoAcquire(slot: Slot, serial: Serial, pinned: bool) | DoRelease(slot: Slot) | DoLimits(perDevice: int, global: int)

  function Step(l: Lane, a: Action): Lane {
    match a
    case DoAcquire(slot, serial, pinned) => if slot in l.live then l else Acquire(l, slot, serial, pinned)
    case DoRelease(slot) => Release(l, slot)
    case DoLimits(perDevice, global) => SetLimits(l, perDevice, global)
  }

  function Exec(l: Lane, actions: seq<Action>): Lane {
    if actions == [] then l else Step(Exec(l, actions[..|actions| - 1]), actions[|actions| - 1])
  }

  function SlotsOf(live: map<Slot, Holder>, serial: Serial): set<Slot> {
    set t | t in live && live[t] == Holder(serial, false)
  }

  function PinnedSlots(live: map<Slot, Holder>): set<Slot> {
    set t | t in live && live[t].pinned
  }

  /** The sum of the per-device counts. */
  ghost function Sum(m: map<Serial, int>): int
    decreases |m|
  {
    if m == map[] then 0 else
    var k :| k in m;
    assert |m - {k}| < |m| by { assert (m - {k}).Keys == m.Keys - {k}; }
    m[k] + Sum(m - {k})
  }

  /** Any key can be taken out first. */
  lemma {:induction false} SumWithout(m: map<Serial, int>, k: Serial)
    requires k in m
    ensures Sum(m) == m[k] + Sum(m - {k})
    decreases |m|
  {
    var j :| j in m && Sum(m) == m[j] + Sum(m - {j}) by { SumUnfolds(m); }
    if j != k {
      assert |m - {j}| < |m| by { assert (m - {j}).Keys == m.Keys - {j}; }
      assert |m - {k}| < |m| by { assert (m - {k}).Keys == m.Keys - {k}; }
      SumWithout(m - {j}, k);
      SumWithout(m - {k}, j);
      assert m - {j} - {k} == m - {k} - {j};
    }
  }

  lemma SumUnfolds(m: map<Serial, int>)
    requires m != map[]
    ensures exists j :: j in m && Sum(m) == m[j] + Sum(m - {j})
  {
  }

  /** Putting a count in place of another. */
  lemma SumPut(m: map<Serial, int>, k: Serial, v: int)
    ensures Sum(m[k := v]) == Sum(m) - (if k in m then m[k] else 0) + v
  {
    SumWithout(m[k := v], k);
    assert m[k := v] - {k} == m - {k};
    if k in m { SumWithout(m, k); } else { assert m - {k} == m; }
  }

  /** Every count is the number of slots it counts, and none is zero. */
  ghost predicate Counted(l: Lane) {
    && l.globalCount == Sum(l.perDevice)
    && l.pinnedCount == |PinnedSlots(l.live)|
    && (forall s: Serial :: CountFor(l, s) == |SlotsOf(l.live, s)|)
    && (forall s: Serial | s in l.perDevice :: l.perDevice[s] > 0)
  }

  lemma AcquireCounts(l: Lane, slot: Slot, serial: Serial, pinned: bool)
    requires Counted(l) && slot !in l.live
    ensures Counted(Acquire(l, slot, serial, pinned))
  {
    if pinned { AcquirePinned(l, slot, serial); } else if HasRoom(l, serial) { AcquireUnpinned(l, slot, serial); }
  }

  /** What one more slot, or one less, does to the counts of slots. */
  lemma SlotsPut(live: map<Slot, Holder>, slot: Slot, h: Holder, s: Serial)
    requires slot !in live
    ensures |SlotsOf(live[slot := h], s)| == |SlotsOf(live, s)| + if h == Holder(s, false) then 1 else 0
  {
    var before, after := SlotsOf(live, s), SlotsOf(live[slot := h], s);
    assert slot !in before;
    forall t
      ensures t in after <==> t in before || (t == slot && h == Holder(s, false))
    {
      if t != slot { assert t in live[slot := h] <==> t in live; }
    }
    if h == Holder(s, false) {
      assert after == before + {slot};
    } else {
      assert after == before;
    }
  }

  lemma PinnedPut(live: map<Slot, Holder>, slot: Slot, h: Holder)
    requires slot !in live
    ensures |PinnedSlots(live[slot := h])| == |PinnedSlots(live)| + if h.pinned then 1 else 0
  {
    var before, after := PinnedSlots(live), PinnedSlots(live[slot := h]);
    assert slot !in before;
    if h.pinned {
      assert after == before + {slot};
    } else {
      assert after == before;
    }
  }

  lemma SlotsDropped(live: map<Slot, Holder>, slot: Slot, s: Serial)
    requires slot in live
    ensures |SlotsOf(live, s)| == |SlotsOf(live - {slot}, s)| + if live[slot] == Holder(s, false) then 1 else 0
    ensures |PinnedSlots(live)| == |PinnedSlots(live - {slot})| + if live[slot].pinned then 1 else 0
  {
    hide SlotsOf, PinnedSlots;
    SlotsPut(live - {slot}, slot, live[slot], s);
    PinnedPut(live - {slot}, slot, live[slot]);
    assert (live - {slot})[slot := live[slot]] == live;
  }

  lemma AcquirePinned(l: Lane, slot: Slot, serial: Serial)
    requires Counted(l) && slot !in l.live
    ensures Counted(Acquire(l, slot, serial, true))
  {
    hide Sum, SlotsOf, PinnedSlots;
    var l' := Acquire(l, slot, serial, true);
    PinnedPut(l.live, slot, Holder(serial, true));
    forall s: Serial
      ensures CountFor(l', s) == |SlotsOf(l'.live, s)|
    {
      SlotsPut(l.live, slot, Holder(serial, true), s);
    }
  }

  lemma AcquireUnpinned(l: Lane, slot: Slot, serial: Serial)
    requires Counted(l) && slot !in l.live && HasRoom(l, serial)
    ensures Counted(Acquire(l, slot, serial, false))
  {
    hide Sum, SlotsOf, PinnedSlots;
    var l' := Acquire(l, slot, serial, false);
    SumPut(l.perDevice, serial, CountFor(l, serial) + 1);
    PinnedPut(l.live, slot, Holder(serial, false));
    SlotsPut(l.live, slot, Holder(serial, false), serial);
    assert CountFor(l, serial) >= 0;
    forall s: Serial
      ensures CountFor(l', s) == |SlotsOf(l'.live, s)|
    {
      SlotsPut(l.live, slot, Holder(serial, false), s);
    }
  }

  lemma ReleaseCounts(l: Lane, slot: Slot)
    requires Counted(l)
    ensures Counted(Release(l, slot))
  {
    if slot in l.live {
      if l.live[slot].pinned { ReleasePinned(l, slot); } else { ReleaseUnpinned(l, slot); }
    }
  }

  lemma ReleasePinned(l: Lane, slot: Slot)
    requires Counted(l) && slot in l.live && l.live[slot].pinned
    ensures Counted(Release(l, slot))
  {
    hide Sum, SlotsOf, PinnedSlots;
    var l' := Release(l, slot);
    SlotsDropped(l.live, slot, "");
    forall s: Serial
      ensures CountFor(l', s) == |SlotsOf(l'.live, s)|
    {
      SlotsDropped(l.live, slot, s);
    }
  }

  lemma ReleaseUnpinned(l: Lane, slot: Slot)
    requires Counted(l) && slot in l.live && !l.live[slot].pinned
    ensures Counted(Release(l, slot))
  {
    hide Sum, SlotsOf, PinnedSlots;
    var l' := Release(l, slot);
    var serial := l.live[slot].serial;
    SlotsDropped(l.live, slot, serial);
    assert CountFor(l, serial) == |SlotsOf(l.live, serial)| > 0;
    SumWithout(l.perDevice, serial);
    SumPut(l.perDevice, serial, l.perDevice[serial] - 1);
    forall s: Serial
      ensures CountFor(l', s) == |SlotsOf(l'.live, s)|
    {
      SlotsDropped(l.live, slot, s);
    }
  }

  /**
   * Over every sequence of acquires, releases in any number and changes of the caps, the
   * global count is the sum of the per-device counts, each of them counts the device's
   * slots that are out, and no entry is zero.
   */
  lemma {:induction false} LaneIsCounted(maxPerDevice: int, maxGlobal: int, actions: seq<Action>)
    ensures Counted(Exec(Empty(maxPerDevice, maxGlobal), actions))
    decreases |actions|
  {
    var start := Empty(maxPerDevice, maxGlobal);
    if actions == [] {
      assert PinnedSlots(start.live) == {};
      assert forall s: Serial :: SlotsOf(start.live, s) == {};
    } else {
      LaneIsCounted(maxPerDevice, maxGlobal, actions[..|actions| - 1]);
      var l := Exec(start, actions[..|actions| - 1]);
      match actions[|actions| - 1]
      case DoAcquire(slot, serial, pinned) => if slot !in l.live { AcquireCounts(l, slot, serial, pinned); }
      case DoRelease(slot) => ReleaseCounts(l, slot);
      case DoLimits(_, _) => LimitsCount(l, Step(l, actions[|actions| - 1]));
    }
  }

  lemma LimitsCount(l: Lane, l': Lane)
    requires Counted(l) && l' == l.(maxPerDevice := l'.maxPerDevice, maxGlobal := l'.maxGlobal)
    ensures Counted(l')
  {
    assert forall s: Serial :: CountFor(l', s) == CountFor(l, s);
  }

  /** The slots out that are not pinned. */
  function SlotsOut(live: map<Slot, Holder>): set<Slot> {
    set t | t in live && !live[t].pinned
  }

  lemma OutPut(live: map<Slot, Holder>, slot: Slot, h: Holder)
    requires slot !in live
    ensures |SlotsOut(live[slot := h])| == |SlotsOut(live)| + if h.pinned then 0 else 1
  {
    var before, after := SlotsOut(live), SlotsOut(live[slot := h]);
    assert slot !in before;
    assert after == if h.pinned then before else before + {slot};
  }

  lemma OutDropped(live: map<Slot, Holder>, slot: Slot)
    requires slot in live
    ensures |SlotsOut(live)| == |SlotsOut(live - {slot})| + if live[slot].pinned then 0 else 1
  {
    hide SlotsOut;
    OutPut(live - {slot}, slot, live[slot]);
    assert (live - {slot})[slot := live[slot]] == live;
  }

  /** The global count is the number of slots out that are not pinned. */
  lemma {:induction false} GlobalIsCounted(maxPerDevice: int, maxGlobal: int, actions: seq<Action>)
    ensures var l := Exec(Empty(maxPerDevice, maxGlobal), actions); l.globalCount == |SlotsOut(l.live)|
    decreases |actions|
  {
    hide SlotsOut;
    var start := Empty(maxPerDevice, maxGlobal);
    if actions == [] {
      assert SlotsOut(start.live) == {} by { NoneOut(); }
    } else {
      var before, a := actions[..|actions| - 1], actions[|actions| - 1];
      GlobalIsCounted(maxPerDevice, maxGlobal, before);
      var l := Exec(start, before);
      if a.DoAcquire? && a.slot !in l.live { OutPut(l.live, a.slot, Holder(a.serial, a.pinned)); }
      if a.DoRelease? && a.slot in l.live { OutDropped(l.live, a.slot); }
    }
  }

  lemma NoneOut()
    ensures SlotsOut(map[]) == {}
  {
  }

  /**
   * After every run: a slot is granted if and only if fewer slots of the device are out than
   * its cap allows, and fewer in all than the global cap does, or it is pinned; a refused
   * one changes nothing, and a pinned one takes no other's place.
   */
  lemma GrantedIff(maxPerDevice: int, maxGlobal: int, actions: seq<Action>, slot: Slot, serial: Serial, pinned: bool)
    requires slot !in Exec(Empty(maxPerDevice, maxGlobal), actions).live
    ensures var l := Exec(Empty(maxPerDevice, maxGlobal), actions);
      var l' := Step(l, DoAcquire(slot, serial, pinned));
      && (slot in l'.live <==> pinned || (|SlotsOf(l.live, serial)| < l.maxPerDevice && |SlotsOut(l.live)| < l.maxGlobal))
      && (slot !in l'.live ==> l' == l)
      && (pinned ==> SlotsOut(l'.live) == SlotsOut(l.live) && l'.globalCount == l.globalCount && l'.perDevice == l.perDevice)
  {
    hide Sum, SlotsOf, PinnedSlots, Exec;
    LaneIsCounted(maxPerDevice, maxGlobal, actions);
    GlobalIsCounted(maxPerDevice, maxGlobal, actions);
    var l := Exec(Empty(maxPerDevice, maxGlobal), actions);
    assert CountFor(l, serial) == |SlotsOf(l.live, serial)|;
  }

  /** A slot given back is out no more, whoever held it; nothing else is touched. */
  lemma GivenBack(l: Lane, slot: Slot)
    ensures Release(l, slot).live == l.live - {slot}
    ensures Release(l, slot).maxPerDevice == l.maxPerDevice && Release(l, slot).maxGlobal == l.maxGlobal
  {
  }

  /** New caps are what was asked for, and at least 1; no slot is touched. */
  lemma LimitsAre(l: Lane, perDevice: int, global: int)
    ensures var l' := SetLimits(l, perDevice, global);
      && l'.maxPerDevice >= 1 && l'.maxGlobal >= 1 && l'.live == l.live && l'.globalCount == l.globalCount
      && (perDevice >= 1 ==> l'.maxPerDevice == perDevice) && (global >= 1 ==> l'.maxGlobal == global)
      && (perDevice <= 1 ==> l'.maxPerDevice == 1) && (global <= 1 ==> l'.maxGlobal == 1)
  {
  }

  function Max(a: int, b: int): int { if a < b then b else a }

  /** The lane as the last change of its caps left it, or as it started. */
  function AtLastChange(start: Lane, actions: seq<Action>): Lane {
    if actions == [] then start
    else if actions[|actions| - 1].DoLimits? then Exec(start, actions)
    else AtLastChange(start, actions[..|actions| - 1])
  }

  /** The slots out, in all and for a device, are within the caps, or within what was out at the last change of them. */
  ghost predicate WithinCaps(l: Lane, held: Lane, serial: Serial) {
    && l.maxPerDevice == held.maxPerDevice && l.maxGlobal == held.maxGlobal
    && l.globalCount <= Max(l.maxGlobal, held.globalCount)
    && CountFor(l, serial) <= Max(l.maxPerDevice, CountFor(held, serial))
  }

  /**
   * On every run, caps changed at any time: the slots out never exceed the caps, neither in
   * all nor for a device, except that slots out when a cap was lowered stay out. While the
   * caps are as at the start, the slots out are within them.
   */
  lemma {:induction false} CapsHold(maxPerDevice: int, maxGlobal: int, actions: seq<Action>, serial: Serial)
    ensures var start := Empty(maxPerDevice, maxGlobal);
      var l := Exec(start, actions);
      && WithinCaps(l, AtLastChange(start, actions), serial)
      && ((forall a | a in actions :: !a.DoLimits?) ==>
            AtLastChange(start, actions) == start && l.globalCount <= Max(maxGlobal, 0) && CountFor(l, serial) <= Max(maxPerDevice, 0))
    decreases |actions|
  {
    hide Counted, Step, CountFor;
    var start := Empty(maxPerDevice, maxGlobal);
    NothingOut(maxPerDevice, maxGlobal, serial);
    if actions != [] {
      var before, last := actions[..|actions| - 1], actions[|actions| - 1];
      CapsHold(maxPerDevice, maxGlobal, before, serial);
      LaneIsCounted(maxPerDevice, maxGlobal, before);
      LastChangeIsCounted(maxPerDevice, maxGlobal, before, serial);
      assert last in actions;
      if !last.DoLimits? { StepWithinCaps(Exec(start, before), AtLastChange(start, before), last, serial); }
    }
  }

  lemma NothingOut(maxPerDevice: int, maxGlobal: int, serial: Serial)
    ensures CountFor(Empty(maxPerDevice, maxGlobal), serial) == 0
  {
  }

  lemma {:induction false} LastChangeIsCounted(maxPerDevice: int, maxGlobal: int, actions: seq<Action>, serial: Serial)
    ensures CountFor(AtLastChange(Empty(maxPerDevice, maxGlobal), actions), serial) >= 0
    decreases |actions|
  {
    hide Step, Sum, SlotsOf, PinnedSlots;
    if actions != [] {
      LaneIsCounted(maxPerDevice, maxGlobal, actions);
      LastChangeIsCounted(maxPerDevice, maxGlobal, actions[..|actions| - 1], serial);
    }
  }

  lemma StepWithinCaps(l: Lane, held: Lane, a: Action, serial: Serial)
    requires Counted(l) && !a.DoLimits? && CountFor(held, serial) >= 0 && WithinCaps(l, held, serial)
    ensures WithinCaps(Step(l, a), held, serial)
  {
    hide Sum, SlotsOf, PinnedSlots;
  }
}
