/** The status an adb server answers a request with, read off the byte queue. */
module AdbStatus {
  import opened Options
  import opened AdbBytes
  import opened AdbFraming

  const OKAY: Bytes := [79, 75, 65, 89]
  const FAIL: Bytes := [70, 65, 73, 76]

  /** Where one `readStatus` stands; `got` is an answered read not yet looked at. */
  datatype StatusReader =
    | WaitStatus(q: Queue, got: Option<Bytes>)
    | ReadsMessage(r: Reader)
    | ReadOkay(q: Queue)
    | ReadFail(q: Queue, message: Bytes)
    | Unexpected(q: Queue)

  function QueueOf(s: StatusReader): Queue {
    if s.ReadsMessage? then s.r.q else s.q
  }

  function Begin(q: Queue): StatusReader {
    var q' := Take(q, Exactly(4));
    WaitStatus(q', Answered(q, q'))
  }

  /** `FAIL` is followed by one block, the message. */
  function LookAtStatus(q: Queue, status: Bytes): StatusReader {
    if status == OKAY then ReadOkay(q)
    else if status == FAIL then ReadsMessage(Ask(Reader(q, WantLength, None, []), 4, WantLength, []))
    else Unexpected(q)
  }

  /** An empty message has no body to wait for. */
  function LookAtMessage(r: Reader): StatusReader
    requires r.got.Some?
  {
    if r.phase.WantBody? then ReadFail(r.q, r.got.value)
    else if r.phase.WantLength? && ParseHex(r.got.value) == Some(0) then ReadFail(r.q, [])
    else ReadsMessage(ReaderStep(r, Process))
  }

  /** A chunk arrives, or an answered read is looked at. */
  function StatusStep(s: StatusReader, a: ReaderAction): StatusReader {
    match a
    case Receive(chunk) =>
      (match s
       case WaitStatus(q, got) => var q' := Push(q, chunk); WaitStatus(q', if got.Some? then got else Answered(q, q'))
       case ReadsMessage(r) => ReadsMessage(ReaderStep(r, a))
       case _ => s.(q := Push(s.q, chunk)))
    case Process =>
      if s.WaitStatus? && s.got.Some? then LookAtStatus(s.q, s.got.value)
      else if s.ReadsMessage? && s.r.got.Some? then LookAtMessage(s.r)
      else s
  }

  function StatusExec(q: Queue, actions: seq<ReaderAction>): StatusReader {
    if actions == [] then Begin(q) else StatusStep(StatusExec(q, actions[..|actions| - 1]), actions[|actions| - 1])
  }

  // --------------------------------------------------------------------- proofs

  /** A queue that buffers, and that nobody reads from but the reader. */
  predicate Plain(q: Queue) {
    !q.aborted && !q.streaming && !q.ended && q.streamed == 0
  }

  /** The four status bytes are still to be read or to be looked at, and `bytes` begins with them. */
  predicate Waiting(s: StatusReader, bytes: Bytes, future: Bytes) {
    && s.WaitStatus? && Plain(s.q)
    && match s.got
       case None => s.q.waiter == Some(Exactly(4)) && |s.q.buffer| < 4 && s.q.buffer + future == bytes
       case Some(b) => s.q.waiter.None? && |b| == 4 && b + (s.q.buffer + future) == bytes
  }

  /** How far `head`, a status, and the bytes `rest` after it have been read. */
  ghost predicate Progress(s: StatusReader, head: Bytes, rest: Bytes, future: Bytes) {
    || Waiting(s, head + rest, future)
    || (head == OKAY && s.ReadOkay? && Plain(s.q) && s.q.waiter.None? && s.q.buffer + future == rest)
    || (head == FAIL && FailRead(s, rest, future))
    || (head != OKAY && head != FAIL && s.Unexpected? && Plain(s.q) && s.q.waiter.None? && s.q.buffer + future == rest)
  }

  /** After `FAIL`: the frame of a message is being read, or has been and the rest is still to be read. */
  ghost predicate FailRead(s: StatusReader, rest: Bytes, future: Bytes) {
    || (s.ReadFail? && Plain(s.q) && s.q.waiter.None? && rest == EncodeRequest(s.message) + (s.q.buffer + future))
    || (s.ReadsMessage? && exists m, tail :: ReadingOne(s.r, m, tail, future) && rest == EncodeRequest(m) + tail)
  }

  /** One message of at most 0xFFFF bytes is being read, with `tail` behind it. */
  ghost predicate ReadingOne(r: Reader, m: Bytes, tail: Bytes, future: Bytes) {
    |m| <= 0xFFFF && !r.q.aborted && r.out == [] && Reading(r, [m], tail, future)
  }

  /** A status, followed after `FAIL` by a message of at most 0xFFFF bytes, and then by anything. */
  ghost predicate Sensible(head: Bytes, rest: Bytes) {
    |head| == 4 && (head == FAIL ==> exists m: Bytes, tail: Bytes :: |m| <= 0xFFFF && rest == EncodeRequest(m) + tail)
  }

  lemma BeginProgress(q: Queue, head: Bytes, rest: Bytes, future: Bytes)
    requires Plain(q) && q.waiter.None? && |head| == 4 && q.buffer + future == head + rest
    ensures Progress(Begin(q), head, rest, future) && QueueOf(Begin(q)).max == q.max && !QueueOf(Begin(q)).aborted
  {
    TakeAnswers(q, 4);
    hide Take, Answered;
    if |q.buffer| >= 4 { assert q.buffer[..4] + (q.buffer[4..] + future) == q.buffer + future; }
  }

  /** A chunk moves from the bytes to come to the bytes that are here. */
  lemma ReceiveProgress(s: StatusReader, chunk: Bytes, head: Bytes, rest: Bytes, future: Bytes)
    requires |head| == 4 && Progress(s, head, rest, chunk + future)
    ensures var s' := StatusStep(s, Receive(chunk)); QueueOf(s').aborted || Progress(s', head, rest, future)
    ensures |head + rest| <= QueueOf(s).max ==> !QueueOf(StatusStep(s, Receive(chunk))).aborted
  {
    if s.ReadsMessage? {
      var m, tail :| ReadingOne(s.r, m, tail, chunk + future) && rest == EncodeRequest(m) + tail;
      ReceiveReads(s.r, chunk, [m], tail, future);
      OneFrame(m, tail);
      OutUntouched(s.r, chunk);
      var r' := ReaderStep(s.r, Receive(chunk));
      assert r'.q.aborted || ReadingOne(r', m, tail, future);
    } else {
      PushAnswers(s.q, chunk);
      hide Push, Answered;
      var b := s.q.buffer + chunk;
      assert s.q.buffer + (chunk + future) == b + future;
      if s.WaitStatus? && s.got.None? && |b| >= 4 { assert b[..4] + (b[4..] + future) == b + future; }
    }
  }

  lemma OutUntouched(r: Reader, chunk: Bytes)
    ensures ReaderStep(r, Receive(chunk)).out == r.out
  {
  }

  lemma LookProgress(s: StatusReader, head: Bytes, rest: Bytes, future: Bytes)
    requires Sensible(head, rest) && Waiting(s, head + rest, future) && s.got.Some?
    ensures var s' := LookAtStatus(s.q, s.got.value);
      Progress(s', head, rest, future) && QueueOf(s').max == s.q.max && !QueueOf(s').aborted
  {
    var b := s.got.value;
    FrontOf(b, s.q.buffer + future, head, rest, 4);
    assert (b + (s.q.buffer + future))[4..] == s.q.buffer + future && (head + rest)[4..] == rest;
    if head == FAIL {
      var m: Bytes, tail: Bytes :| |m| <= 0xFFFF && rest == EncodeRequest(m) + tail;
      MessageBegins(s.q, m, tail, future);
    }
  }

  /** The read of a message's length, on a queue whose next bytes are its frame. */
  lemma MessageBegins(q: Queue, m: Bytes, tail: Bytes, future: Bytes)
    requires Plain(q) && q.waiter.None? && |m| <= 0xFFFF && q.buffer + future == EncodeRequest(m) + tail
    ensures var r := Ask(Reader(q, WantLength, None, []), 4, WantLength, []);
      ReadingOne(r, m, tail, future) && r.q.max == q.max
  {
    OneFrame(m, tail);
    hide EncodeRequest, Remaining, Reading;
    assert [m][..0] == [];
    assert [] + q.buffer + future == q.buffer + future;
    AskReads(Reader(q, WantLength, None, []), 4, WantLength, [], [m], tail, future);
  }

  lemma OneFrame(m: Bytes, tail: Bytes)
    ensures Remaining([m], 0, tail) == EncodeRequest(m) + tail
  {
    assert [m][0..] == [m] && [m][1..] == [];
    assert Frames([m]) == EncodeRequest(m) + Frames([]) == EncodeRequest(m);
  }

  lemma MessageProgress(r: Reader, m: Bytes, tail: Bytes, future: Bytes)
    requires ReadingOne(r, m, tail, future) && r.got.Some?
    ensures var s := LookAtMessage(r);
      FailRead(s, EncodeRequest(m) + tail, future) && QueueOf(s).max == r.q.max && !QueueOf(s).aborted
  {
    OneFrame(m, tail);
    if r.phase.WantBody? {
      BodyRead(r, [m], tail, future);
      hide EncodeRequest, Remaining, Reading;
      AfterFrame(EncodeRequest(m), r.q.buffer, future, tail);
    } else {
      HeaderRead(r, [m], tail, future);
      if m == [] {
        hide EncodeRequest, Remaining, Reading;
        AfterFrame(EncodeRequest(m), r.q.buffer, future, tail);
      } else {
        BodyNext(r, [m], tail, future);
        AskOut(r, |m|);
        var s := LookAtMessage(r);
        assert ReadingOne(s.r, m, tail, future);
      }
    }
  }

  lemma AskOut(r: Reader, n: nat)
    ensures Ask(r, n, WantBody(n), r.out).out == r.out
  {
  }

  lemma StepProgress(s: StatusReader, a: ReaderAction, head: Bytes, rest: Bytes, future: Bytes)
    requires Sensible(head, rest)
    requires Progress(s, head, rest, (if a.Receive? then a.chunk else []) + future)
    ensures var s' := StatusStep(s, a); QueueOf(s').aborted || Progress(s', head, rest, future)
    ensures |head + rest| <= QueueOf(s).max ==> !QueueOf(StatusStep(s, a)).aborted
    ensures QueueOf(StatusStep(s, a)).max == QueueOf(s).max
  {
    if a.Receive? {
      ReceiveProgress(s, a.chunk, head, rest, future);
      LimitStays(s, a.chunk);
    } else {
      assert [] + future == future;
      if s.WaitStatus? && s.got.Some? {
        LookProgress(s, head, rest, future);
      } else if s.ReadsMessage? && s.r.got.Some? {
        var m, tail :| ReadingOne(s.r, m, tail, future) && rest == EncodeRequest(m) + tail;
        MessageProgress(s.r, m, tail, future);
      }
    }
  }

  lemma LimitStays(s: StatusReader, chunk: Bytes)
    ensures QueueOf(StatusStep(s, Receive(chunk))).max == QueueOf(s).max
  {
  }

  lemma AbortedStatusStays(s: StatusReader, a: ReaderAction)
    requires QueueOf(s).aborted
    ensures QueueOf(StatusStep(s, a)).aborted
  {
  }

  lemma {:induction false} StatusProgress(q: Queue, actions: seq<ReaderAction>, head: Bytes, rest: Bytes, future: Bytes)
    requires Plain(q) && q.waiter.None? && Sensible(head, rest)
    requires q.buffer + Received(actions) + future == head + rest
    ensures var s := StatusExec(q, actions);
      QueueOf(s).aborted || (Progress(s, head, rest, future) && QueueOf(s).max == q.max)
    ensures |head + rest| <= q.max ==> !QueueOf(StatusExec(q, actions)).aborted
    decreases |actions|
  {
    hide Progress, Sensible, StatusStep;
    if actions == [] {
      assert q.buffer + [] + future == q.buffer + future;
      SensibleHead(head, rest);
      BeginProgress(q, head, rest, future);
    } else {
      var before, a := actions[..|actions| - 1], actions[|actions| - 1];
      var future' := (if a.Receive? then a.chunk else []) + future;
      assert q.buffer + Received(before) + future' == q.buffer + Received(actions) + future;
      StatusProgress(q, before, head, rest, future');
      var s := StatusExec(q, before);
      if QueueOf(s).aborted { AbortedStatusStays(s, a); } else { StepProgress(s, a, head, rest, future); }
    }
  }

  lemma SensibleHead(head: Bytes, rest: Bytes)
    requires Sensible(head, rest)
    ensures |head| == 4
  {
  }

  /**
   * However the answer of the server is cut into chunks, and whatever was buffered before:
   * unless the buffer limit aborted the queue, `OKAY` is read as just that and `FAIL` as
   * the message behind it, with every byte after them still to be read; anything else is
   * refused. Once every byte is in and looked at, one of the three has happened. A limit
   * that all the bytes fit never aborts the queue.
   */
  lemma StatusIsRead(q: Queue, actions: seq<ReaderAction>, head: Bytes, rest: Bytes, future: Bytes)
    requires Plain(q) && q.waiter.None? && Sensible(head, rest)
    requires q.buffer + Received(actions) + future == head + rest
    ensures |head + rest| <= q.max ==> !QueueOf(StatusExec(q, actions)).aborted
    ensures var s := StatusExec(q, actions); !QueueOf(s).aborted ==>
      && (s.ReadOkay? ==> head == OKAY && s.q.buffer + future == rest)
      && (s.ReadFail? ==> head == FAIL && rest == EncodeRequest(s.message) + (s.q.buffer + future))
      && (s.ReadsMessage? ==> head == FAIL)
      && (s.Unexpected? ==> head != OKAY && head != FAIL && s.q.buffer + future == rest)
      && (future == [] ==> !(s.WaitStatus? && s.got.None?) && !(s.ReadsMessage? && s.r.got.None?))
  {
    StatusProgress(q, actions, head, rest, future);
    var s := StatusExec(q, actions);
    if !QueueOf(s).aborted && future == [] {
      if s.WaitStatus? { WaitingHasAll(s, head + rest); }
      if s.ReadsMessage? {
        var m, tail :| ReadingOne(s.r, m, tail, future) && rest == EncodeRequest(m) + tail;
        MessageHasMore(s.r, m, tail);
      }
    }
  }

  lemma WaitingHasAll(s: StatusReader, bytes: Bytes)
    requires Waiting(s, bytes, []) && |bytes| >= 4
    ensures s.got.Some?
  {
    assert s.q.buffer + [] == s.q.buffer;
  }

  /** With every byte in, a reader of a message has bytes to look at. */
  lemma MessageHasMore(r: Reader, m: Bytes, tail: Bytes)
    requires ReadingOne(r, m, tail, [])
    ensures r.got.Some?
  {
    FramesAt([m], 0, tail);
    if r.got.None? { assert false; }
  }
}
