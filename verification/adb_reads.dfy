/** What the readers of a byte queue get: as many bytes as they asked for, or an error, once each. */
module AdbReads {
  import opened Options
  import opened AdbBytes

  predicate IsAnswer(e: Event) { e.Resolved? || e.Rejected? }

  /** The answers to reads in a log, in order. */
  function Answers(log: seq<Event>): seq<Event> {
    if log == [] then [] else Answers(log[..|log| - 1]) + if IsAnswer(log[|log| - 1]) then [log[|log| - 1]] else []
  }

  /** The reads a step asks for: one that finds another waiting is refused. */
  function Asking(q: Queue, a: Action): seq<Read> {
    if a.DoTake? && (q.aborted || q.waiter.None?) then [a.read] else []
  }

  /** The reads of a run that were not refused. */
  function Asked(q: Queue, actions: seq<Action>): seq<Read> {
    if actions == [] then [] else
    var before := actions[..|actions| - 1];
    Asked(q, before) + Asking(Exec(q, before), actions[|actions| - 1])
  }

  function Waiting(q: Queue): seq<Read> {
    if q.waiter.Some? then [q.waiter.value] else []
  }

  /** A read of `n` bytes that gets any gets `n`. */
  predicate Suits(read: Read, e: Event) {
    IsAnswer(e) && (read.Exactly? && e.Resolved? ==> |e.bytes| == read.n)
  }

  ghost predicate EachAnswered(asked: seq<Read>, answers: seq<Event>) {
    |answers| <= |asked| && forall i | 0 <= i < |answers| :: Suits(asked[i], answers[i])
  }

  /** An aborted queue says why. */
  ghost predicate Caused(q: Queue) {
    q.aborted ==> q.cause.Some? && q.waiter.None?
  }

  lemma AnswersSnoc(log: seq<Event>, e: Event)
    ensures Answers(log + [e]) == Answers(log) + if IsAnswer(e) then [e] else []
  {
    assert (log + [e])[..|log|] == log;
  }

  /** Answering the waiting read, or not. */
  lemma FlushAnswers(q: Queue)
    ensures var q' := Flush(q);
      && ((q'.log == q.log && q'.waiter == q.waiter)
          || (q.waiter.Some? && q'.waiter.None? && |q'.log| == |q.log| + 1 && q'.log[..|q.log|] == q.log
              && Suits(q.waiter.value, q'.log[|q.log|])))
      && q'.aborted == q.aborted && q'.cause == q.cause
  {
  }

  /** After a step: the reads that were waiting or asked for are answered, the first first, or wait. */
  ghost predicate Settles(q: Queue, a: Action) {
    var q', wanted := Step(q, a), Waiting(q) + Asking(q, a);
    || (Answers(q'.log) == Answers(q.log) && Waiting(q') == wanted)
    || (|wanted| == 1 && q'.waiter.None? && exists e :: Answers(q'.log) == Answers(q.log) + [e] && Suits(wanted[0], e))
  }

  lemma FlushSettles(q: Queue, log: seq<Event>)
    requires q.log == log
    ensures var q' := Flush(q);
      || (Answers(q'.log) == Answers(log) && Waiting(q') == Waiting(q))
      || (q.waiter.Some? && q'.waiter.None? && exists e :: Answers(q'.log) == Answers(log) + [e] && Suits(q.waiter.value, e))
  {
    hide Answers;
    FlushAnswers(q);
    var q' := Flush(q);
    if |q'.log| > |q.log| {
      assert q'.log == q.log + [q'.log[|q.log|]];
      AnswersSnoc(q.log, q'.log[|q.log|]);
    }
  }

  lemma StepSettles(q: Queue, a: Action)
    requires Caused(q)
    ensures Settles(q, a) && Caused(Step(q, a))
  {
    hide Answers, Flush;
    assert [] + Waiting(q) == Waiting(q) == Waiting(q) + [];
    match a
    case DoPush(chunk) => PushSettles(q, chunk);
    case DoEnd(cause) => EndSettles(q, cause);
    case DoAbort(error) => AbortSettles(q, error);
    case DoTake(read) =>
      if q.aborted {
        AnswersSnoc(q.log, Rejected(q.cause.value));
      } else if q.waiter.None? {
        var w := q.(waiter := Some(read), strayed := q.strayed || q.streaming);
        FlushAnswers(w);
        FlushSettles(w, q.log);
      }
    case DoDrain => DrainSettles(q);
  }

  lemma PushSettles(q: Queue, chunk: Bytes)
    requires Caused(q)
    ensures Settles(q, DoPush(chunk)) && Caused(Push(q, chunk))
  {
    hide Answers, Flush;
    assert Waiting(q) + [] == Waiting(q);
    if !q.aborted {
      if q.streaming {
        AnswersSnoc(q.log, Data(chunk));
        AbortAnswers(q.(streamed := q.streamed + |chunk|), OutputLimit);
      } else {
        var q' := q.(buffer := q.buffer + chunk);
        AbortAnswers(q', OutputLimit);
        FlushAnswers(q');
        FlushSettles(q', q.log);
      }
    }
  }

  /** An abort rejects the waiting read with its error, once, and ends a stream with it. */
  lemma AbortAnswers(q: Queue, error: Error)
    requires !q.aborted
    ensures var q' := Abort(q, error);
      && q'.aborted && q'.cause == Some(error) && q'.waiter.None? && q'.buffer == []
      && Answers(q'.log) == Answers(q.log) + (if q.waiter.Some? then [Rejected(error)] else [])
      && (q.streaming ==> q'.log != [] && q'.log[|q'.log| - 1] == StreamEnd(Some(error)))
  {
    hide Answers;
    AnswersSnoc(q.log, Rejected(error));
    AnswersSnoc(q.log, StreamEnd(Some(error)));
    AnswersSnoc(q.log + [Rejected(error)], StreamEnd(Some(error)));
    assert q.log + [] == q.log;
    assert q.log + [Rejected(error)] + [] == q.log + [Rejected(error)];
    assert Answers(q.log) + [] == Answers(q.log);
  }

  lemma AbortSettles(q: Queue, error: Error)
    requires Caused(q)
    ensures Settles(q, DoAbort(error)) && Caused(Abort(q, error))
  {
    hide Answers;
    assert Waiting(q) + [] == Waiting(q);
    if !q.aborted { AbortAnswers(q, error); }
  }

  lemma EndSettles(q: Queue, cause: Option<Error>)
    requires Caused(q)
    ensures Settles(q, DoEnd(cause)) && Caused(End(q, cause))
  {
    hide Answers, Flush;
    assert Waiting(q) + [] == Waiting(q);
    if !q.aborted {
      AnswersSnoc(q.log, StreamEnd(cause));
      var q' := q.(ended := true, cause := cause);
      FlushAnswers(q');
      FlushSettles(q', q.log);
    }
  }

  lemma DrainSettles(q: Queue)
    requires Caused(q)
    ensures Settles(q, DoDrain) && Caused(Drain(q))
  {
    hide Answers;
    assert Waiting(q) + [] == Waiting(q);
    AnswersSnoc(q.log, StreamEnd(q.cause));
    AnswersSnoc(q.log, Data(q.buffer));
    AnswersSnoc(q.log + [Data(q.buffer)], StreamEnd(q.cause));
  }

  /**
   * On every run: the reads that were not refused are answered in the order they were asked
   * for, each once, all but the one that waits; and a read of `n` bytes that gets bytes gets
   * `n` of them.
   */
  lemma {:induction false} ReadsAreAnswered(max: nat, actions: seq<Action>)
    ensures var q, start := Exec(Empty(max), actions), Empty(max);
      && Caused(q)
      && |Asked(start, actions)| == |Answers(q.log)| + |Waiting(q)|
      && (q.waiter.Some? ==> Asked(start, actions)[|Answers(q.log)|] == q.waiter.value)
      && EachAnswered(Asked(start, actions), Answers(q.log))
    decreases |actions|
  {
    hide Answers, Step, Caused, Settles;
    if actions == [] {
      NothingAsked(max);
    } else {
      var before, a := actions[..|actions| - 1], actions[|actions| - 1];
      var q := Exec(Empty(max), before);
      ReadsAreAnswered(max, before);
      StepSettles(q, a);
      AnswersGrow(q, a, Asked(Empty(max), before));
    }
  }

  lemma NothingAsked(max: nat)
    ensures Exec(Empty(max), []) == Empty(max) && Answers(Empty(max).log) == [] && Caused(Empty(max))
  {
  }

  lemma AnswersGrow(q: Queue, a: Action, asked: seq<Read>)
    requires Settles(q, a) && |asked| == |Answers(q.log)| + |Waiting(q)|
    requires q.waiter.Some? ==> asked[|Answers(q.log)|] == q.waiter.value
    requires EachAnswered(asked, Answers(q.log))
    ensures var q', asked' := Step(q, a), asked + Asking(q, a);
      && |asked'| == |Answers(q'.log)| + |Waiting(q')|
      && (q'.waiter.Some? ==> asked'[|Answers(q'.log)|] == q'.waiter.value)
      && EachAnswered(asked', Answers(q'.log))
  {
    hide Answers, Step;
    var wanted := Waiting(q) + Asking(q, a);
    assert asked + Asking(q, a) == asked[..|Answers(q.log)|] + wanted;
  }

  /** The answer due on a queue that has ended, holding `have`: bytes, or why there are none. */
  predicate Due(read: Read, have: Bytes, cause: Option<Error>, e: Event, left: Bytes) {
    match read
    case Exactly(n) =>
      if n <= |have| then e.Resolved? && |e.bytes| == n && e.bytes + left == have
      else left == have && (cause.Some? ==> e == Rejected(cause.value)) && (cause.None? ==> e == Rejected(ClosedEarly))
    case UntilEnd =>
      if cause.Some? then left == have && e == Rejected(cause.value) else left == [] && e == Resolved(have)
  }

  /**
   * After the end every read is answered at once and alone: with its bytes if they are there;
   * a longer one is rejected, with the cause of the end or as cut short, and takes no byte;
   * and one to the end gets all there is unless the end had a cause.
   */
  lemma EndedRead(q: Queue, read: Read)
    requires q.ended && !q.aborted && q.waiter.None?
    ensures var q' := Take(q, read);
      && |q'.log| == |q.log| + 1 && q'.log[..|q.log|] == q.log && q'.waiter.None?
      && Due(read, q.buffer, q.cause, q'.log[|q.log|], q'.buffer)
  {
  }

  /** The end answers the waiting read by the same rule. */
  lemma EndAnswers(q: Queue, cause: Option<Error>)
    requires !q.aborted && !q.streaming && q.waiter.Some?
    ensures var q' := End(q, cause);
      && |q'.log| == |q.log| + 1 && q'.log[..|q.log|] == q.log && q'.waiter.None? && q'.ended
      && Due(q.waiter.value, q.buffer, cause, q'.log[|q.log|], q'.buffer)
  {
  }

  /** Before the end a read of `n` bytes is answered as soon as `n` are there, and a read to the end waits. */
  lemma OpenRead(q: Queue, read: Read)
    requires !q.ended && !q.aborted && q.waiter.None?
    ensures var q' := Take(q, read);
      if read.Exactly? && read.n <= |q.buffer|
      then q'.waiter.None? && |q'.log| == |q.log| + 1 && q'.log[|q.log|].Resolved? && q'.log[|q.log|].bytes + q'.buffer == q.buffer
      else q'.waiter == Some(read) && q'.log == q.log && q'.buffer == q.buffer
  {
  }

  lemma OpenPush(q: Queue, chunk: Bytes)
    requires !q.ended && !q.aborted && !q.streaming && q.waiter.Some? && |q.buffer + chunk| <= q.max
    ensures var q', have := Push(q, chunk), q.buffer + chunk;
      if q.waiter.value.Exactly? && q.waiter.value.n <= |have|
      then q'.waiter.None? && |q'.log| == |q.log| + 1 && q'.log[|q.log|].Resolved? && q'.log[|q.log|].bytes + q'.buffer == have
      else q'.waiter == q.waiter && q'.log == q.log && q'.buffer == have
  {
  }

  /** More than the limit, buffered or streamed, aborts as too much output; no less does. */
  lemma OverflowAborts(q: Queue, chunk: Bytes)
    requires !q.aborted
    ensures Push(q, chunk).aborted <==> (if q.streaming then q.streamed else |q.buffer|) + |chunk| > q.max
    ensures Push(q, chunk).aborted ==> Push(q, chunk).cause == Some(OutputLimit)
  {
    hide Answers;
  }

  /** After an abort every read is rejected with its error, and a stream ends with it at once. */
  lemma AfterAbort(q: Queue, error: Error, read: Read, chunk: Bytes, later: Error, cause: Option<Error>)
    requires !q.aborted
    ensures var q' := Abort(q, error);
      && Take(q', read).log == q'.log + [Rejected(error)] && Drain(q').log == q'.log + [StreamEnd(Some(error))]
      && Push(q', chunk) == q' == Abort(q', later) && End(q', cause) == q'
  {
  }

  // ----------------------------------------------------------------- streaming

  predicate IsEnd(e: Event) { e.StreamEnd? }

  function Ends(log: seq<Event>): nat {
    if log == [] then 0 else Ends(log[..|log| - 1]) + if IsEnd(log[|log| - 1]) then 1 else 0
  }

  /** The switches to streaming that were not refused. */
  function Drains(q: Queue, actions: seq<Action>): nat {
    if actions == [] then 0 else
    var before := actions[..|actions| - 1];
    Drains(q, before) + if actions[|actions| - 1] == DoDrain && Exec(q, before).waiter.None? && !Exec(q, before).streaming then 1 else 0
  }

  lemma EndsSnoc(log: seq<Event>, e: Event)
    ensures Ends(log + [e]) == Ends(log) + if IsEnd(e) then 1 else 0
  {
    assert (log + [e])[..|log|] == log;
  }

  /** Every stream ends once: the streams begun are those that ended and the one that has not. */
  lemma {:induction false} StreamsEndOnce(max: nat, actions: seq<Action>)
    ensures var q := Exec(Empty(max), actions);
      Drains(Empty(max), actions) == Ends(q.log) + (if q.streaming then 1 else 0) && Caused(q) && (q.streaming ==> !q.ended && !q.aborted)
    decreases |actions|
  {
    hide Step, Ends;
    if actions == [] {
      NoEnds(max);
    } else {
      var before := actions[..|actions| - 1];
      StreamsEndOnce(max, before);
      StepEnds(Exec(Empty(max), before), actions[|actions| - 1]);
    }
  }

  lemma NoEnds(max: nat)
    ensures Exec(Empty(max), []) == Empty(max) && Ends(Empty(max).log) == 0
  {
  }

  lemma StepEnds(q: Queue, a: Action)
    requires Caused(q) && (q.streaming ==> !q.ended && !q.aborted)
    ensures var q' := Step(q, a);
      Ends(q'.log) + (if q'.streaming then 1 else 0)
        == Ends(q.log) + (if q.streaming then 1 else 0) + (if a == DoDrain && q.waiter.None? && !q.streaming then 1 else 0)
      && Caused(q') && (q'.streaming ==> !q'.ended && !q'.aborted)
  {
    hide Ends, Flush;
    match a
    case DoPush(chunk) =>
      EndsSnoc(q.log, Data(chunk));
      if !q.aborted {
        AbortEnds(q.(streamed := q.streamed + |chunk|), OutputLimit);
        AbortEnds(q.(buffer := q.buffer + chunk), OutputLimit);
      }
      FlushEnds(q.(buffer := q.buffer + chunk));
    case DoEnd(cause) =>
      EndsSnoc(q.log, StreamEnd(cause));
      FlushEnds(q.(ended := true, cause := cause));
    case DoAbort(error) => if !q.aborted { AbortEnds(q, error); }
    case DoTake(read) =>
      if q.aborted { EndsSnoc(q.log, Rejected(q.cause.value)); }
      FlushEnds(q.(waiter := Some(read), strayed := q.strayed || q.streaming));
    case DoDrain =>
      EndsSnoc(q.log, StreamEnd(q.cause));
      EndsSnoc(q.log, Data(q.buffer));
      EndsSnoc(q.log + [Data(q.buffer)], StreamEnd(q.cause));
  }

  lemma FlushEnds(q: Queue)
    ensures var q' := Flush(q);
      && Ends(q'.log) == Ends(q.log) && q'.streaming == q.streaming && q'.ended == q.ended && q'.aborted == q.aborted
      && q'.cause == q.cause && (q.waiter.None? ==> q'.waiter.None?)
  {
    hide Ends;
    FlushAnswers(q);
    var q' := Flush(q);
    if |q'.log| > |q.log| {
      assert q'.log == q.log + [q'.log[|q.log|]];
      EndsSnoc(q.log, q'.log[|q.log|]);
    }
  }

  lemma AbortEnds(q: Queue, error: Error)
    requires !q.aborted
    ensures var q' := Abort(q, error);
      Ends(q'.log) == Ends(q.log) + (if q.streaming then 1 else 0) && !q'.streaming
  {
    hide Ends;
    EndsSnoc(q.log, Rejected(error));
    EndsSnoc(q.log, StreamEnd(Some(error)));
    EndsSnoc(q.log + [Rejected(error)], StreamEnd(Some(error)));
    assert q.log + [] == q.log;
    assert q.log + [Rejected(error)] + [] == q.log + [Rejected(error)];
  }

  /** The bytes streamed so far. */
  function Streamed(log: seq<Event>): nat {
    if log == [] then 0 else
    Streamed(log[..|log| - 1]) + match log[|log| - 1] case Data(b) => |b| case _ => 0
  }

  lemma StreamedSnoc(log: seq<Event>, e: Event)
    ensures Streamed(log + [e]) == Streamed(log) + match e case Data(b) => |b| case _ => 0
  {
    assert (log + [e])[..|log|] == log;
  }

  /**
   * Nothing happens to a queue without a cause: it aborts only on too many bytes or when
   * told to, ends only then or when told to, streams only when switched; and what counts
   * against the limit of a stream is every byte it was given, those buffered before included.
   */
  lemma {:induction false} NothingWithoutCause(max: nat, actions: seq<Action>)
    ensures var q := Exec(Empty(max), actions);
      && (|Pushed(actions)| <= max && (forall a | a in actions :: !a.DoAbort?) ==> !q.aborted)
      && (!q.aborted && (forall a | a in actions :: !a.DoEnd?) ==> !q.ended)
      && (DoDrain !in actions ==> !q.streaming && q.streamed == 0)
      && (!q.aborted ==> q.streamed == Streamed(q.log))
      && (!q.aborted ==> q.streamed + |q.buffer| <= |Pushed(actions)|)
    decreases |actions|
  {
    hide Step, Streamed;
    if actions == [] {
      NothingYet(max);
    } else {
      var before, a := actions[..|actions| - 1], actions[|actions| - 1];
      NothingWithoutCause(max, before);
      assert a in actions && forall b | b in before :: b in actions;
      StepCauses(Exec(Empty(max), before), a, |Pushed(before)|);
      LimitIsKept(max, before);
    }
  }

  lemma NothingYet(max: nat)
    ensures Exec(Empty(max), []) == Empty(max) && Streamed(Empty(max).log) == 0
    ensures var q := Empty(max); !q.aborted && !q.ended && !q.streaming && q.streamed == 0 && q.buffer == [] && q.waiter.None? && q.max == max
  {
  }

  lemma LimitIsKept(max: nat, actions: seq<Action>)
    ensures Exec(Empty(max), actions).max == max
  {
    BytesAreConserved(max, actions);
  }

  lemma StepCauses(q: Queue, a: Action, pushed: nat)
    requires !q.aborted ==> q.streamed == Streamed(q.log) && q.streamed + |q.buffer| <= pushed
    ensures var q', pushed' := Step(q, a), pushed + if a.DoPush? then |a.chunk| else 0;
      && (q'.aborted && !q.aborted ==> a.DoAbort? || pushed' > q.max)
      && (q.aborted ==> q'.aborted)
      && (q'.ended && !q.ended && !q'.aborted ==> a.DoEnd?)
      && (q'.streaming && !q.streaming ==> a == DoDrain)
      && (q'.streamed != q.streamed ==> a == DoDrain || q.streaming)
      && (!q'.aborted ==> q'.streamed == Streamed(q'.log) && q'.streamed + |q'.buffer| <= pushed')
  {
    hide Streamed, Flush;
    match a
    case DoPush(chunk) =>
      StreamedSnoc(q.log, Data(chunk));
      FlushStreams(q.(buffer := q.buffer + chunk));
    case DoEnd(cause) =>
      StreamedSnoc(q.log, StreamEnd(cause));
      FlushStreams(q.(ended := true, cause := cause));
    case DoAbort(error) =>
    case DoTake(read) => FlushStreams(q.(waiter := Some(read), strayed := q.strayed || q.streaming));
    case DoDrain =>
      StreamedSnoc(q.log, Data(q.buffer));
      StreamedSnoc(q.log, StreamEnd(q.cause));
      StreamedSnoc(q.log + [Data(q.buffer)], StreamEnd(q.cause));
  }

  lemma FlushStreams(q: Queue)
    ensures var q' := Flush(q);
      && Streamed(q'.log) == Streamed(q.log) && q'.streamed == q.streamed && |q'.buffer| <= |q.buffer|
      && q'.streaming == q.streaming && q'.ended == q.ended && q'.aborted == q.aborted
  {
    hide Streamed;
    FlushAnswers(q);
    var q' := Flush(q);
    if |q'.log| > |q.log| {
      assert q'.log == q.log + [q'.log[|q.log|]];
      StreamedSnoc(q.log, q'.log[|q.log|]);
    }
  }
}
