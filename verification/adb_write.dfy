/** Raw writes to a socket that takes as much as its kernel buffer has room for. */
module AdbSocketWrite {
  import opened AdbBytes

  /** What wakes a parked writer: room in the kernel buffer, the close or error event, or nothing ever. */
  datatype Wake = Drained | CloseEvent | Nothing

  /**
   * One turn of the loop: how much the socket took, if positive; whether `close()` or the
   * idle timer has closed it on this side; and what wakes the writer if it parks. When
   * the peer closes there is a close event, and `closed` is not set.
   */
  datatype Turn = Turn(written: int, closed: bool, wake: Wake)

  /** `Parked`: waiting to be woken when the turns end. */
  datatype Outcome = Finished | Parked | ClosedMidWrite

  datatype Sent = Sent(taken: nat, outcome: Outcome)

  /** A socket never takes more than it is given. */
  function Taken(t: Turn, left: nat): (k: nat)
    ensures k <= left
  {
    if t.written <= 0 then 0 else if t.written > left then left else t.written
  }

  /** A write of `left` bytes. */
  function Run(turns: seq<Turn>, left: nat): (s: Sent)
    ensures s.taken <= left && (s.outcome.Finished? <==> s.taken == left)
    decreases |turns|
  {
    if left == 0 then Sent(0, Finished)
    else if turns == [] then Sent(0, Parked)
    else
      var k := Taken(turns[0], left);
      if k == left then Sent(k, Finished)
      else if turns[0].closed then Sent(k, ClosedMidWrite)
      else if turns[0].wake.Nothing? then Sent(k, Parked)
      else var rest := Run(turns[1..], left - k); Sent(k + rest.taken, rest.outcome)
  }

  /**
   * `write`: whatever the socket takes at a time, what went out is a prefix of the data,
   * nothing skipped and nothing sent twice; it finishes exactly when all of it went out.
   */
  method Write(data: Bytes, turns: seq<Turn>) returns (wire: Bytes, outcome: Outcome)
    ensures wire <= data && Sent(|wire|, outcome) == Run(turns, |data|)
    ensures outcome.Finished? <==> wire == data
  {
    var offset, i := 0, 0;
    wire := [];
    while offset < |data|
      invariant 0 <= offset <= |data| && 0 <= i <= |turns| && wire == data[..offset]
      invariant var rest := Run(turns[i..], |data| - offset);
        Run(turns, |data|) == Sent(offset + rest.taken, rest.outcome)
      decreases |turns| - i
    {
      if i == |turns| { return wire, Parked; }
      var written := Taken(turns[i], |data| - offset);
      assert turns[i..][1..] == turns[i + 1..];
      assert data[..offset + written] == data[..offset] + data[offset..offset + written];
      wire := wire + data[offset..offset + written];
      offset := offset + written;
      if offset < |data| {
        if turns[i].closed { return wire, ClosedMidWrite; }
        if turns[i].wake.Nothing? { return wire, Parked; }
      }
      i := i + 1;
    }
    return wire, Finished;
  }

  /** However little room there is, a socket that is not closed and keeps taking bytes takes all of them. */
  lemma {:induction false} WriteFinishes(turns: seq<Turn>, left: nat)
    requires forall t | t in turns :: t.written > 0 && !t.closed && t.wake.Drained?
    requires |turns| >= left
    ensures Run(turns, left) == Sent(left, Finished)
    decreases |turns|
  {
    if left > 0 {
      var k := Taken(turns[0], left);
      WriteFinishes(turns[1..], left - k);
    }
  }

  /** A connection that is gone takes nothing and never drains. */
  predicate Gone(turns: seq<Turn>) {
    forall t | t in turns :: t.written <= 0 && !t.wake.Drained?
  }

  /** Of a connection that is gone, the writer still gets to a turn that finds it closed on this side. */
  predicate FindsClosed(turns: seq<Turn>)
    decreases |turns|
  {
    turns != [] && (turns[0].closed || (turns[0].wake.CloseEvent? && FindsClosed(turns[1..])))
  }

  lemma {:induction false} GoneSendsNothing(turns: seq<Turn>, left: nat)
    requires Gone(turns) && left > 0
    ensures Run(turns, left) == Sent(0, if FindsClosed(turns) then ClosedMidWrite else Parked)
    decreases |turns|
  {
    if turns != [] { GoneSendsNothing(turns[1..], left); }
  }

  /** The first `n` turns leave bytes to send, find the socket open on this side, and are woken from. */
  predicate Reaches(turns: seq<Turn>, left: nat, n: nat)
    requires n <= |turns|
    decreases n
  {
    n == 0 || (left > 0 && Taken(turns[0], left) < left && !turns[0].closed && !turns[0].wake.Nothing?
               && Reaches(turns[1..], left - Taken(turns[0], left), n - 1))
  }

  /**
   * A connection that goes while bytes are left to send: the write sends no more, never
   * finishes, and is settled at all if and only if it is woken to find the socket closed
   * on this side. When the peer closed it, and nobody here did by the time of the close
   * event, it is parked for ever.
   */
  lemma {:induction false} WriteAfterCloseIff(turns: seq<Turn>, left: nat, n: nat)
    requires n < |turns| && Reaches(turns, left, n + 1) && Gone(turns[n + 1..])
    ensures var s := Run(turns, left);
      && s.taken == Run(turns[..n + 1], left).taken
      && s.outcome == if FindsClosed(turns[n + 1..]) then ClosedMidWrite else Parked
    decreases n
  {
    var k := Taken(turns[0], left);
    assert turns[..n + 1][1..] == turns[1..][..n];
    if n == 0 {
      GoneSendsNothing(turns[1..], left - k);
    } else {
      assert turns[1..][n..] == turns[n + 1..];
      WriteAfterCloseIff(turns[1..], left - k, n - 1);
    }
  }
}
