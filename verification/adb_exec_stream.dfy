/** A shell stream from its first byte: two statuses, the switch to streaming, the PID line, the data. */
module AdbExecStream {
  import opened Options
  import opened AdbBytes
  import opened AdbFraming
  import opened AdbStatus
  import AdbStream

  /** `got` is every byte handed to the stream's chunk handler. */
  datatype Session =
    | FirstStatus(s: StatusReader) | SecondStatus(s: StatusReader)
    | Streaming(q: Queue, got: Bytes)
    | Refused(s: StatusReader)

  /** What the step from `q` to `q'` handed to the chunk handler. */
  function NewData(q: Queue, q': Queue): Bytes {
    if |q'.log| > |q.log| && q'.log[|q'.log| - 1].Data? then q'.log[|q'.log| - 1].bytes else []
  }

  predicate Failed(s: StatusReader) {
    s.ReadFail? || s.Unexpected? || (s.ReadsMessage? && s.r.phase.BadLength?)
  }

  /** A chunk arrives, or what was read is looked at. */
  function SessionStep(x: Session, a: ReaderAction): Session {
    match x
    case FirstStatus(s) =>
      if a.Process? && s.ReadOkay? then SecondStatus(Begin(s.q))
      else if a.Process? && Failed(s) then Refused(s)
      else FirstStatus(StatusStep(s, a))
    case SecondStatus(s) =>
      if a.Process? && s.ReadOkay? then var q' := Drain(s.q); Streaming(q', NewData(s.q, q'))
      else if a.Process? && Failed(s) then Refused(s)
      else SecondStatus(StatusStep(s, a))
    case Streaming(q, got) =>
      if a.Receive? then var q' := Push(q, a.chunk); Streaming(q', got + NewData(q, q')) else x
    case Refused(_) => x
  }

  function SessionExec(q: Queue, actions: seq<ReaderAction>): Session {
    if actions == [] then FirstStatus(Begin(q))
    else SessionStep(SessionExec(q, actions[..|actions| - 1]), actions[|actions| - 1])
  }

  // --------------------------------------------------------------------- proofs

  /** How far the bytes of a session, `tail` after its two statuses, have got. */
  ghost predicate InSession(x: Session, tail: Bytes, max: nat, future: Bytes) {
    match x
    case FirstStatus(s) => !QueueOf(s).aborted && QueueOf(s).max == max && Progress(s, OKAY, OKAY + tail, future)
    case SecondStatus(s) => !QueueOf(s).aborted && QueueOf(s).max == max && Progress(s, OKAY, tail, future)
    case Streaming(q, got) =>
      && q.streaming && !q.aborted && !q.ended && q.waiter.None? && q.max == max
      && q.streamed == |got| && got + future == tail
    case Refused(_) => false
  }

  lemma OkayIsSensible(rest: Bytes)
    ensures Sensible(OKAY, rest) && OKAY != FAIL
  {
    assert OKAY[0] != FAIL[0];
  }

  /** The second status and the stream behind it, once the first has been read. */
  lemma LookAhead(x: Session, tail: Bytes, max: nat, future: Bytes)
    requires InSession(x, tail, max, future) && |OKAY + OKAY + tail| <= max
    ensures InSession(SessionStep(x, Process), tail, max, future)
  {
    assert [] + future == future;
    if x.FirstStatus? || x.SecondStatus? {
      var rest := if x.FirstStatus? then OKAY + tail else tail;
      OkayIsSensible(rest);
      assert |OKAY + rest| <= max;
      hide Sensible;
      if x.s.ReadOkay? {
        if x.FirstStatus? {
          BeginProgress(x.s.q, OKAY, tail, future);
        } else {
          DrainStreams(x.s.q);
        }
      } else {
        StepProgress(x.s, Process, OKAY, rest, future);
      }
    }
  }

  lemma DrainStreams(q: Queue)
    requires Plain(q) && q.waiter.None?
    ensures var q' := Drain(q);
      && q'.streaming && !q'.aborted && !q'.ended && q'.waiter.None? && q'.max == q.max
      && NewData(q, q') == q.buffer && q'.streamed == |q.buffer|
  {
  }

  lemma PushStreams(q: Queue, chunk: Bytes)
    requires q.streaming && !q.aborted && q.streamed + |chunk| <= q.max
    ensures var q' := Push(q, chunk);
      && q' == q.(streamed := q.streamed + |chunk|, log := q'.log)
      && NewData(q, q') == chunk
  {
  }

  lemma TakeChunk(x: Session, chunk: Bytes, tail: Bytes, max: nat, future: Bytes)
    requires InSession(x, tail, max, chunk + future) && |OKAY + OKAY + tail| <= max
    ensures InSession(SessionStep(x, Receive(chunk)), tail, max, future)
  {
    if x.Streaming? {
      PushStreams(x.q, chunk);
      assert x.got + (chunk + future) == x.got + chunk + future;
    } else {
      var rest := if x.FirstStatus? then OKAY + tail else tail;
      OkayIsSensible(rest);
      assert |OKAY + rest| <= max;
      hide Sensible;
      StepProgress(x.s, Receive(chunk), OKAY, rest, future);
    }
  }

  lemma {:induction false} SessionProgress(q: Queue, actions: seq<ReaderAction>, tail: Bytes, future: Bytes)
    requires Plain(q) && q.waiter.None? && |OKAY + OKAY + tail| <= q.max
    requires q.buffer + Received(actions) + future == OKAY + OKAY + tail
    ensures InSession(SessionExec(q, actions), tail, q.max, future)
    decreases |actions|
  {
    hide SessionStep;
    if actions == [] {
      assert q.buffer + [] + future == q.buffer + future;
      assert OKAY + OKAY + tail == OKAY + (OKAY + tail);
      BeginProgress(q, OKAY, OKAY + tail, future);
    } else {
      var before, a := actions[..|actions| - 1], actions[|actions| - 1];
      var future' := (if a.Receive? then a.chunk else []) + future;
      assert q.buffer + Received(before) + future' == q.buffer + Received(actions) + future;
      SessionProgress(q, before, tail, future');
      hide InSession;
      var x := SessionExec(q, before);
      match a
      case Receive(chunk) => TakeChunk(x, chunk, tail, q.max, future);
      case Process => assert [] + future == future; LookAhead(x, tail, q.max, future);
    }
  }

  /** The looks still to take before the stream is on, when every byte is in. */
  function Looks(x: Session): nat {
    match x
    case FirstStatus(s) => if s.ReadOkay? then 3 else 4
    case SecondStatus(s) => if s.ReadOkay? then 1 else 2
    case _ => 0
  }

  lemma LookCounts(x: Session, tail: Bytes, max: nat)
    requires InSession(x, tail, max, []) && !x.Streaming?
    ensures Looks(SessionStep(x, Process)) == Looks(x) - 1
  {
    OkayIsSensible(tail);
    var bytes := if x.FirstStatus? then OKAY + (OKAY + tail) else OKAY + tail;
    if !x.s.ReadOkay? {
      WaitingHasAll(x.s, bytes);
      FrontOf(x.s.got.value, x.s.q.buffer + [], OKAY, if x.FirstStatus? then OKAY + tail else tail, 4);
    }
  }

  /** With every byte in, looking four times more starts the stream, whatever was looked at before. */
  lemma {:induction false} LooksSuffice(q: Queue, actions: seq<ReaderAction>, looks: seq<ReaderAction>, tail: Bytes)
    requires Plain(q) && q.waiter.None? && |OKAY + OKAY + tail| <= q.max
    requires q.buffer + Received(actions) == OKAY + OKAY + tail
    requires forall a | a in looks :: a == Process
    ensures Received(actions + looks) == Received(actions)
    ensures Looks(SessionExec(q, actions + looks)) <= 4 - |looks| || SessionExec(q, actions + looks).Streaming?
    decreases |looks|
  {
    hide SessionStep, Looks;
    if looks == [] {
      assert actions + looks == actions;
      AtMostFour(SessionExec(q, actions));
    } else {
      var before := looks[..|looks| - 1];
      assert looks == before + [looks[|looks| - 1]];
      assert forall a | a in before :: a in looks;
      LooksSuffice(q, actions, before, tail);
      assert (actions + looks)[..|actions + looks| - 1] == actions + before && looks[|looks| - 1] in looks;
      assert q.buffer + Received(actions + before) + [] == OKAY + OKAY + tail;
      SessionProgress(q, actions + before, tail, []);
      var x := SessionExec(q, actions + before);
      if x.Streaming? { StreamingStays(x); } else { LookCounts(x, tail, q.max); }
    }
  }

  lemma AtMostFour(x: Session)
    ensures Looks(x) <= 4
  {
  }

  lemma StreamingStays(x: Session)
    requires x.Streaming?
    ensures SessionStep(x, Process).Streaming?
  {
  }

  /** What is stripped off a front part of a line and its data. */
  lemma StripFront(got: Bytes, future: Bytes, line: Bytes, data: Bytes)
    requires AdbStream.NEWLINE !in line && got + future == line + [AdbStream.NEWLINE] + data
    ensures var s := AdbStream.Strip(got);
      && s.data <= data && (s.line.Some? ==> s.line.value == line && s.data + future == data)
      && (future == [] ==> s == AdbStream.Stripped(Some(line), data))
  {
    hide AdbStream.Strip;
    var head := line + [AdbStream.NEWLINE];
    if |got| > |line| {
      Cut(got, future, head, data);
      StripWhole(line, got[|head|..]);
      assert future == [] ==> got[|head|..] + future == got[|head|..];
    } else {
      assert head + data == line + ([AdbStream.NEWLINE] + data);
      Cut(line, [AdbStream.NEWLINE] + data, got, future);
      StripNone(got);
    }
  }

  /** Of two ways to cut one run of bytes, the earlier cut is inside the later one's front. */
  lemma Cut(a: Bytes, b: Bytes, c: Bytes, d: Bytes)
    requires a + b == c + d && |a| >= |c|
    ensures a == c + a[|c|..] && a[|c|..] + b == d
  {
    assert a[..|c|] == (a + b)[..|c|] == (c + d)[..|c|] == c;
    assert a[|c|..] + b == (a + b)[|c|..] == (c + d)[|c|..] == d;
  }

  lemma StripWhole(line: Bytes, rest: Bytes)
    requires AdbStream.NEWLINE !in line
    ensures AdbStream.Strip(line + [AdbStream.NEWLINE] + rest) == AdbStream.Stripped(Some(line), rest)
  {
    var s, k := line + [AdbStream.NEWLINE] + rest, |line|;
    assert s[..k] == line && s[k] == AdbStream.NEWLINE && s[k + 1..] == rest;
    forall i | 0 <= i < k
      ensures s[i] != AdbStream.NEWLINE
    {
      assert s[i] == line[i];
    }
    AdbStream.NewlineUnique(s, k);
  }

  lemma StripNone(s: Bytes)
    requires AdbStream.NEWLINE !in s
    ensures AdbStream.Strip(s) == AdbStream.Stripped(None, [])
  {
    assert AdbStream.NewlineAt(s) == |s|;
  }

  /**
   * From the first byte of the connection: of two `OKAY`s, a first line and data, cut into
   * chunks anywhere and looked at any time, within the limit of the queue, the call is
   * never refused; once it streams, `onData` has been given a front part of the data and
   * nothing else, and exactly the data once every byte is in; and then four looks at most
   * are left before it streams. The chunk handler's own part is `AdbStream.PidStripper`.
   */
  lemma DataArrives(q: Queue, actions: seq<ReaderAction>, line: Bytes, data: Bytes, future: Bytes)
    requires Plain(q) && q.waiter.None? && AdbStream.NEWLINE !in line
    requires |OKAY + OKAY + (line + [AdbStream.NEWLINE] + data)| <= q.max
    requires q.buffer + Received(actions) + future == OKAY + OKAY + (line + [AdbStream.NEWLINE] + data)
    ensures var x := SessionExec(q, actions);
      && !x.Refused?
      && (x.Streaming? ==>
            var s := AdbStream.Strip(x.got);
            && s.data <= data && (s.line.Some? ==> s.line.value == line)
            && (future == [] ==> s == AdbStream.Stripped(Some(line), data)))
    ensures future == [] ==> SessionExec(q, actions + [Process, Process, Process, Process]).Streaming?
  {
    var tail := line + [AdbStream.NEWLINE] + data;
    SessionProgress(q, actions, tail, future);
    var x := SessionExec(q, actions);
    if x.Streaming? { StripFront(x.got, future, line, data); }
    if future == [] {
      assert q.buffer + Received(actions) == q.buffer + Received(actions) + future;
      var looks := [Process, Process, Process, Process];
      LooksSuffice(q, actions, looks, tail);
      assert q.buffer + Received(actions + looks) + [] == OKAY + OKAY + tail;
      SessionProgress(q, actions + looks, tail, []);
      NoLooksLeft(SessionExec(q, actions + looks), tail, q.max);
    }
  }

  lemma NoLooksLeft(x: Session, tail: Bytes, max: nat)
    requires InSession(x, tail, max, []) && Looks(x) == 0
    ensures x.Streaming?
  {
  }
}
