/**
 * The accumulating byte queue of a socket: its behaviour on the bytes it buffers,
 * the object that keeps them in chunks, and what it conserves.
 */
module AdbBytes {
  import opened Options

  newtype byte = x: int | 0 <= x < 256

  type Bytes = seq<byte>

  datatype Error = OutputLimit | ClosedEarly | Other(code: string)

  /** A read that waits: for a number of bytes, or for the end. */
  datatype Read = Exactly(n: nat) | UntilEnd

  /** What the queue's users saw: reads answered, chunks streamed, the stream's end. */
  datatype Event = Resolved(bytes: Bytes) | Rejected(error: Error) | Data(bytes: Bytes) | StreamEnd(cause: Option<Error>)

  /** `strayed` records that a read was asked for while streaming. */
  datatype Queue = Queue(max: nat, buffer: Bytes, waiter: Option<Read>, ended: bool, cause: Option<Error>,
                         aborted: bool, streaming: bool, streamed: nat, strayed: bool, log: seq<Event>)

  function Empty(max: nat): Queue {
    Queue(max, [], None, false, None, false, false, 0, false, [])
  }

  /** The first abort wins: the buffer is dropped, and whoever waits is told. */
  function Abort(q: Queue, error: Error): Queue {
    if q.aborted then q else
    q.(aborted := true, ended := true, cause := Some(error), buffer := [], waiter := None, streaming := false,
       log := q.log + (if q.waiter.Some? then [Rejected(error)] else [])
                    + (if q.streaming then [StreamEnd(Some(error))] else []))
  }

  /** Answer the waiting read if it can be answered. */
  function Flush(q: Queue): Queue {
    match q.waiter
    case None => q
    case Some(UntilEnd) =>
      if !q.ended then q
      else if q.cause.Some? then q.(waiter := None, log := q.log + [Rejected(q.cause.value)])
      else q.(waiter := None, buffer := [], log := q.log + [Resolved(q.buffer)])
    case Some(Exactly(n)) =>
      if |q.buffer| >= n then q.(waiter := None, buffer := q.buffer[n..], log := q.log + [Resolved(q.buffer[..n])])
      else if q.ended then
        q.(waiter := None, log := q.log + [Rejected(if q.cause.Some? then q.cause.value else ClosedEarly)])
      else q
  }

  function Push(q: Queue, chunk: Bytes): Queue {
    if q.aborted then q
    else if q.streaming then
      var q' := q.(streamed := q.streamed + |chunk|);
      if q'.streamed > q.max then Abort(q', OutputLimit)
      else if chunk == [] then q'
      else q'.(log := q.log + [Data(chunk)])
    else
      var q' := q.(buffer := q.buffer + chunk);
      if |q'.buffer| > q.max then Abort(q', OutputLimit) else Flush(q')
  }

  function End(q: Queue, error: Option<Error>): Queue {
    if q.aborted then q else
    var q' := q.(ended := true, cause := error);
    if q.streaming then q'.(streaming := false, log := q.log + [StreamEnd(error)]) else Flush(q')
  }

  /** Refused, without effect, while another read waits; rejected at once after an abort. */
  function Take(q: Queue, read: Read): Queue {
    if q.aborted then q.(log := q.log + if q.cause.Some? then [Rejected(q.cause.value)] else [])
    else if q.waiter.Some? then q
    else Flush(q.(waiter := Some(read), strayed := q.strayed || q.streaming))
  }

  /** Switch to streaming: what is buffered goes first. */
  function Drain(q: Queue): Queue {
    if q.waiter.Some? then q
    else if q.aborted then q.(log := q.log + [StreamEnd(q.cause)])
    else
      var q' := if q.buffer == [] then q else
        q.(buffer := [], streamed := q.streamed + |q.buffer|, log := q.log + [Data(q.buffer)]);
      if q.ended then q'.(log := q'.log + [StreamEnd(q.cause)]) else q'.(streaming := true)
  }

  // ------------------------------------------------------------------- object

  function Flat(chunks: seq<Bytes>): Bytes {
    if chunks == [] then [] else Flat(chunks[..|chunks| - 1]) + chunks[|chunks| - 1]
  }

  class ByteQueue {
    const maxBytes: nat
    var chunks: seq<Bytes>
    var length: nat
    var waiter: Option<Read>
    var ended: bool
    var endedError: Option<Error>
    var aborted: bool
    var streaming: bool
    var streamedBytes: nat
    ghost var strayed: bool
    var log: seq<Event>

    ghost predicate Valid()
      reads this
    {
      length == |Flat(chunks)|
    }

    ghost function State(): Queue
      reads this
    {
      Queue(maxBytes, Flat(chunks), waiter, ended, endedError, aborted, streaming, streamedBytes, strayed, log)
    }

    constructor (maxBytes: nat)
      ensures Valid() && State() == Empty(maxBytes)
    {
      this.maxBytes := maxBytes;
      chunks, length, waiter, ended, endedError := [], 0, None, false, None;
      aborted, streaming, streamedBytes, strayed, log := false, false, 0, false, [];
    }

    /** Everything buffered, as one run of bytes; the buffer is empty afterwards. */
    method ConcatAll() returns (out: Bytes)
      requires Valid()
      modifies this`chunks, this`length
      ensures Valid() && out == old(Flat(chunks)) && chunks == [] && length == 0
    {
      out := [];
      for i := 0 to |chunks|
        invariant chunks == old(chunks) && out == Flat(chunks[..i])
      {
        assert chunks[..i + 1][..i] == chunks[..i];
        out := out + chunks[i];
      }
      assert chunks[..|chunks|] == chunks;
      chunks, length := [], 0;
    }

    method AbortWith(error: Error)
      requires Valid()
      modifies this
      ensures Valid() && State() == Abort(old(State()), error)
    {
      if aborted { return; }
      FlatEmpty();
      hide Flat;
      aborted, ended, endedError := true, true, Some(error);
      chunks, length := [], 0;
      if waiter.Some? { log := log + [Rejected(error)]; } else { assert log + [] == log; }
      if streaming { log := log + [StreamEnd(Some(error))]; } else { assert log + [] == log; }
      waiter, streaming := None, false;
    }

    method FlushWaiter()
      requires Valid()
      modifies this
      ensures Valid() && State() == Flush(old(State()))
    {
      if waiter.None? { return; }
      if waiter.value.UntilEnd? {
        if !ended { return; }
        waiter := None;
        if endedError.Some? {
          log := log + [Rejected(endedError.value)];
        } else {
          var all := ConcatAll();
          log := log + [Resolved(all)];
        }
        return;
      }
      var need := waiter.value.n;
      if length >= need {
        var all := ConcatAll();
        var rest := all[need..];
        if |rest| > 0 {
          FlatOne(rest);
          chunks, length := [rest], |rest|;
        }
        waiter := None;
        log := log + [Resolved(all[..need])];
      } else if ended {
        waiter := None;
        log := log + [Rejected(if endedError.Some? then endedError.value else ClosedEarly)];
      }
    }

    method PushChunk(chunk: Bytes)
      requires Valid()
      modifies this
      ensures Valid() && State() == Push(old(State()), chunk)
    {
      if aborted { return; }
      if streaming {
        streamedBytes := streamedBytes + |chunk|;
        if streamedBytes > maxBytes {
          AbortWith(OutputLimit);
        } else if |chunk| > 0 {
          log := log + [Data(chunk)];
        }
        return;
      }
      FlatSnoc(chunks, chunk);
      chunks := chunks + [chunk];
      length := length + |chunk|;
      if length > maxBytes {
        AbortWith(OutputLimit);
      } else {
        FlushWaiter();
      }
    }

    method EndWith(error: Option<Error>)
      requires Valid()
      modifies this
      ensures Valid() && State() == End(old(State()), error)
    {
      if aborted { return; }
      ended, endedError := true, error;
      if streaming {
        streaming := false;
        log := log + [StreamEnd(error)];
      } else {
        FlushWaiter();
      }
    }

    /** False when another read is waiting. */
    method TakeRead(read: Read) returns (accepted: bool)
      requires Valid()
      modifies this
      ensures Valid() && State() == Take(old(State()), read)
      ensures accepted == (old(aborted) || old(waiter).None?)
    {
      if aborted {
        if endedError.Some? { log := log + [Rejected(endedError.value)]; }
        return true;
      }
      if waiter.Some? { return false; }
      waiter, strayed := Some(read), strayed || streaming;
      FlushWaiter();
      accepted := true;
    }

    /** False when a read is waiting. */
    method StartStreaming() returns (accepted: bool)
      requires Valid()
      modifies this
      ensures Valid() && State() == Drain(old(State())) && accepted == old(waiter).None?
    {
      if waiter.Some? { return false; }
      accepted := true;
      if aborted {
        log := log + [StreamEnd(endedError)];
        return;
      }
      if length > 0 {
        var buffered := ConcatAll();
        streamedBytes := streamedBytes + |buffered|;
        log := log + [Data(buffered)];
      }
      if ended {
        log := log + [StreamEnd(endedError)];
      } else {
        streaming := true;
      }
    }
  }

  lemma FlatEmpty()
    ensures Flat([]) == []
  {
  }

  lemma FlatSnoc(chunks: seq<Bytes>, chunk: Bytes)
    ensures Flat(chunks + [chunk]) == Flat(chunks) + chunk
  {
    assert (chunks + [chunk])[..|chunks|] == chunks;
  }

  lemma FlatOne(chunk: Bytes)
    ensures Flat([chunk]) == chunk
  {
    assert [chunk][..0] == [];
  }

  // --------------------------------------------------------------------- runs

  datatype Action =
    | DoPush(chunk: Bytes) | DoEnd(cause: Option<Error>) | DoAbort(error: Error) | DoTake(read: Read) | DoDrain

  function Step(q: Queue, a: Action): Queue {
    match a
    case DoPush(chunk) => Push(q, chunk)
    case DoEnd(error) => End(q, error)
    case DoAbort(error) => Abort(q, error)
    case DoTake(read) => Take(q, read)
    case DoDrain => Drain(q)
  }

  function Exec(q: Queue, actions: seq<Action>): Queue {
    if actions == [] then q else Step(Exec(q, actions[..|actions| - 1]), actions[|actions| - 1])
  }

  /** Every byte pushed, in order. */
  function Pushed(actions: seq<Action>): Bytes {
    if actions == [] then [] else
    var a := actions[|actions| - 1];
    Pushed(actions[..|actions| - 1]) + if a.DoPush? then a.chunk else []
  }

  /** Every byte handed out, to reads and to the stream alike, in order. */
  function Handed(log: seq<Event>): Bytes {
    if log == [] then [] else
    var e := log[|log| - 1];
    Handed(log[..|log| - 1]) + match e case Resolved(b) => b case Data(b) => b case _ => []
  }

  lemma HandedSnoc(log: seq<Event>, e: Event)
    ensures Handed(log + [e]) == Handed(log) + match e case Resolved(b) => b case Data(b) => b case _ => []
  {
    assert (log + [e])[..|log|] == log;
  }

  /** The queue's own consistency. */
  ghost predicate Inv(q: Queue) {
    && (q.aborted ==> q.ended && q.buffer == [] && q.waiter.None? && !q.streaming)
    && (q.streaming ==> !q.ended && q.buffer == [] && q.streamed <= q.max)
    && (!q.aborted ==> |q.buffer| <= q.max)
    && (!q.aborted && q.streamed > 0 && !q.ended ==> q.streaming)
    && (q.waiter.Some? ==> Unanswerable(q))
  }

  /** The waiting read cannot be answered now. */
  ghost predicate Unanswerable(q: Queue)
    requires q.waiter.Some?
  {
    && (q.waiter.value.Exactly? ==> |q.buffer| < q.waiter.value.n)
    && (q.ended ==> q.strayed)
    && (q.streaming ==> q.strayed)
  }

  lemma FlushInv(q: Queue)
    requires Inv(q.(waiter := None)) && !q.aborted && (q.streaming ==> q.strayed)
    ensures Inv(Flush(q)) && Flush(q).max == q.max
    ensures Handed(Flush(q).log) + Flush(q).buffer == Handed(q.log) + q.buffer
  {
    FlushKeeps(q);
    FlushConserves(q);
  }

  lemma FlushKeeps(q: Queue)
    requires Inv(q.(waiter := None)) && !q.aborted && (q.streaming ==> q.strayed)
    ensures Inv(Flush(q)) && Flush(q).max == q.max
  {
    hide Handed;
  }

  lemma FlushConserves(q: Queue)
    ensures Handed(Flush(q).log) + Flush(q).buffer == Handed(q.log) + q.buffer
  {
    hide Handed;
    if q.waiter.Some? {
      var error := if q.cause.Some? then q.cause.value else ClosedEarly;
      HandedSnoc(q.log, Rejected(error));
      HandedSnoc(q.log, Resolved(q.buffer));
      if q.waiter.value.Exactly? && |q.buffer| >= q.waiter.value.n {
        var n := q.waiter.value.n;
        HandedSnoc(q.log, Resolved(q.buffer[..n]));
        assert Handed(q.log) + q.buffer[..n] + q.buffer[n..] == Handed(q.log) + q.buffer;
      } else {
        assert Handed(q.log) + q.buffer + [] == Handed(q.log) + q.buffer;
      }
    }
  }

  lemma AbortInv(q: Queue, error: Error)
    requires q.aborted ==> Inv(q)
    ensures Inv(Abort(q, error)) && Abort(q, error).max == q.max && Abort(q, error).aborted
  {
  }

  /** One step: consistency is kept, and bytes in are bytes out plus bytes buffered. */
  lemma StepConserves(q: Queue, a: Action)
    requires Inv(q)
    ensures Inv(Step(q, a)) && Step(q, a).max == q.max && (q.aborted ==> Step(q, a).aborted)
    ensures !Step(q, a).aborted ==>
      Handed(Step(q, a).log) + Step(q, a).buffer == Handed(q.log) + q.buffer + if a.DoPush? then a.chunk else []
  {
    match a
    case DoPush(chunk) => PushConserves(q, chunk);
    case DoEnd(error) =>
      if !q.aborted {
        if q.streaming { HandedSnoc(q.log, StreamEnd(error)); }
        else { FlushInv(q.(ended := true, cause := error)); }
      }
    case DoAbort(error) => AbortInv(q, error);
    case DoTake(read) =>
      if !q.aborted && q.waiter.None? { FlushInv(q.(waiter := Some(read), strayed := q.strayed || q.streaming)); }
    case DoDrain => DrainConserves(q);
  }

  lemma PushConserves(q: Queue, chunk: Bytes)
    requires Inv(q)
    ensures Inv(Push(q, chunk)) && Push(q, chunk).max == q.max && (q.aborted ==> Push(q, chunk).aborted)
    ensures !Push(q, chunk).aborted ==>
      Handed(Push(q, chunk).log) + Push(q, chunk).buffer == Handed(q.log) + q.buffer + chunk
  {
    hide Handed, Flush;
    if !q.aborted {
      if q.streaming {
        HandedSnoc(q.log, Data(chunk));
        AbortInv(q.(streamed := q.streamed + |chunk|), OutputLimit);
      } else if |q.buffer + chunk| > q.max {
        AbortInv(q.(buffer := q.buffer + chunk), OutputLimit);
      } else {
        FlushInv(q.(buffer := q.buffer + chunk));
        assert Handed(q.log) + (q.buffer + chunk) == Handed(q.log) + q.buffer + chunk;
      }
    }
  }

  lemma DrainConserves(q: Queue)
    requires Inv(q)
    ensures Inv(Drain(q)) && Drain(q).max == q.max && (q.aborted ==> Drain(q).aborted)
    ensures !Drain(q).aborted ==> Handed(Drain(q).log) + Drain(q).buffer == Handed(q.log) + q.buffer
  {
    hide Handed;
    HandedSnoc(q.log, StreamEnd(q.cause));
    HandedSnoc(q.log, Data(q.buffer));
    HandedSnoc(q.log + [Data(q.buffer)], StreamEnd(q.cause));
    assert Handed(q.log) + [] == Handed(q.log);
  }

  /**
   * Until an abort, on every run: the bytes handed out followed by the buffer are the
   * bytes pushed, the limits hold, and a read waits only while it cannot be answered.
   */
  lemma {:induction false} BytesAreConserved(max: nat, actions: seq<Action>)
    ensures var q := Exec(Empty(max), actions);
      Inv(q) && q.max == max && (!q.aborted ==> Handed(q.log) + q.buffer == Pushed(actions))
    decreases |actions|
  {
    if actions != [] {
      var before := actions[..|actions| - 1];
      var q := Exec(Empty(max), before);
      BytesAreConserved(max, before);
      StepConserves(q, actions[|actions| - 1]);
      hide Step, Inv;
    }
  }
}
