/** Smartsocket framing over the byte queue: requests out, length-prefixed blocks in. */
module AdbFraming {
  import opened Options
  import opened AdbBytes

  // -------------------------------------------------------------- hexadecimal

  /** The character of a hexadecimal digit, in lower case. */
  function HexDigit(d: nat): (c: byte)
    requires d < 16
  {
    if d < 10 then (0x30 + d) as byte else (0x57 + d) as byte
  }

  /** A digit's value; upper case is read too. */
  function DigitValue(c: byte): Option<nat> {
    var n := c as int;
    if 0x30 <= n <= 0x39 then Some(n - 0x30)
    else if 0x61 <= n <= 0x66 then Some(n - 0x57)
    else if 0x41 <= n <= 0x46 then Some(n - 0x37)
    else None
  }

  function Hex(n: nat): (s: Bytes)
    ensures s != []
  {
    if n < 16 then [HexDigit(n)] else Hex(n / 16) + [HexDigit(n % 16)]
  }

  function Zeros(k: nat): Bytes {
    if k == 0 then [] else Zeros(k - 1) + [0x30]
  }

  /** At least four digits. */
  function Padded(n: nat): Bytes {
    if |Hex(n)| >= 4 then Hex(n) else Zeros(4 - |Hex(n)|) + Hex(n)
  }

  /** The number the leading hexadecimal digits of `s` spell; nothing when there are none. */
  function ParseHex(s: Bytes): Option<nat> {
    if s == [] || DigitValue(s[0]).None? then None else Some(Leading(0, s))
  }

  function Leading(acc: nat, s: Bytes): nat
    decreases |s|
  {
    if s == [] || DigitValue(s[0]).None? then acc else Leading(16 * acc + DigitValue(s[0]).value, s[1..])
  }

  lemma DigitReads(d: nat)
    requires d < 16
    ensures DigitValue(HexDigit(d)) == Some(d)
  {
  }

  /** Only digits. */
  predicate AllHex(s: Bytes) {
    forall i | 0 <= i < |s| :: DigitValue(s[i]).Some?
  }

  lemma {:induction false} LeadingSnoc(acc: nat, s: Bytes, d: nat)
    requires d < 16 && AllHex(s)
    decreases |s|
    ensures Leading(acc, s + [HexDigit(d)]) == 16 * Leading(acc, s) + d
  {
    var c := HexDigit(d);
    DigitReads(d);
    if s == [] {
      assert s + [c] == [c] && [c][1..] == [];
    } else {
      assert (s + [c])[1..] == s[1..] + [c];
      LeadingSnoc(16 * acc + DigitValue(s[0]).value, s[1..], d);
    }
  }

  lemma {:induction false} HexReads(n: nat)
    ensures AllHex(Hex(n)) && Leading(0, Hex(n)) == n
  {
    if n < 16 {
      DigitReads(n);
      assert [HexDigit(n)][1..] == [];
    } else {
      HexReads(n / 16);
      DigitReads(n % 16);
      LeadingSnoc(0, Hex(n / 16), n % 16);
    }
  }

  /** Four digits of a number written with more are the digits of a smaller number. */
  lemma {:induction false} CutHexIsSmaller(n: nat)
    requires |Hex(n)| > 4
    ensures AllHex(Hex(n)[..4]) && Leading(0, Hex(n)[..4]) <= n / 16 < n
  {
    assert Hex(n)[..4] == Hex(n / 16)[..4];
    HexReads(n / 16);
    if |Hex(n / 16)| > 4 {
      CutHexIsSmaller(n / 16);
    } else {
      assert Hex(n / 16)[..4] == Hex(n / 16);
    }
  }

  lemma {:induction false} ZerosRead(k: nat, s: Bytes)
    ensures AllHex(Zeros(k)) && |Zeros(k)| == k && Leading(0, Zeros(k) + s) == Leading(0, s)
  {
    if k == 0 {
      assert Zeros(0) + s == s;
    } else {
      assert Zeros(k) + s == Zeros(k - 1) + ([0x30] + s);
      ZerosRead(k - 1, [0x30] + s);
      assert ([0x30] + s)[1..] == s;
    }
  }

  lemma HexLength(n: nat)
    ensures |Hex(n)| <= 4 <==> n <= 0xFFFF
  {
    if n >= 0x10000 {
      assert n / 16 >= 0x1000 && n / 16 / 16 >= 0x100 && n / 16 / 16 / 16 >= 0x10;
      assert |Hex(n / 16 / 16 / 16)| >= 2;
      assert |Hex(n / 16 / 16)| >= 3;
      assert |Hex(n / 16)| >= 4;
    } else {
      assert n / 16 <= 0xFFF && n / 16 / 16 <= 0xFF && n / 16 / 16 / 16 <= 0xF;
      assert |Hex(n / 16 / 16 / 16)| <= 1;
      assert |Hex(n / 16 / 16)| <= 2;
      assert |Hex(n / 16)| <= 3;
    }
  }

  /** The four bytes before a payload of `n` bytes read as `n` exactly when `n` fits in four digits. */
  lemma LengthPrefix(n: nat)
    ensures |Padded(n)| >= 4
    ensures ParseHex(Padded(n)[..4]).Some?
    ensures ParseHex(Padded(n)[..4]) == Some(n) <==> n <= 0xFFFF
    ensures ParseHex(Padded(n)[..4]).value <= n
  {
    HexReads(n);
    HexLength(n);
    if n <= 0xFFFF {
      if |Hex(n)| < 4 {
        ZerosRead(4 - |Hex(n)|, Hex(n));
        assert AllHex(Padded(n));
      }
      assert Padded(n)[..4] == Padded(n);
    } else {
      CutHexIsSmaller(n);
    }
  }

  // ------------------------------------------------------------------ requests

  /**
   * `encodeRequest`: the body is written at offset 4, over whatever of the length did
   * not fit before it.
   */
  function EncodeRequest(payload: Bytes): (r: Bytes)
    ensures |r| == 4 + |payload|
  {
    LengthPrefix(|payload|);
    Padded(|payload|)[..4] + payload
  }

  method WriteRequest(payload: Bytes) returns (out: array<byte>)
    ensures fresh(out) && out[..] == EncodeRequest(payload)
  {
    LengthPrefix(|payload|);
    PaddedFits(|payload|);
    var prefix := Padded(|payload|);
    out := new byte[4 + |payload|](_ => 0);
    forall i | 0 <= i < |prefix| {
      out[i] := prefix[i];
    }
    ghost var head := out[..4];
    assert head == prefix[..4];
    forall i | 0 <= i < |payload| {
      out[4 + i] := payload[i];
    }
    assert out[..4] == head;
    assert out[4..] == payload;
    assert out[..] == out[..4] + out[4..];
  }

  lemma {:induction false} HexFits(n: nat)
    ensures |Hex(n)| <= n + 1
  {
    if n >= 16 { HexFits(n / 16); }
  }

  lemma PaddedFits(n: nat)
    ensures |Padded(n)| <= 4 + n
  {
    HexFits(n);
    ZerosRead(4, []);
    if |Hex(n)| < 4 { ZerosRead(4 - |Hex(n)|, []); }
  }

  /** The block a receiver reads at the front of `s`: four length digits, then that many bytes. */
  function FirstBlock(s: Bytes): Option<Bytes> {
    if |s| < 4 then None else
    match ParseHex(s[..4])
    case None => None
    case Some(n) => if |s| < 4 + n then None else Some(s[4..4 + n])
  }

  /** A request is read back by its receiver exactly when its payload is at most 0xFFFF bytes. */
  lemma RequestRoundTripIff(payload: Bytes)
    ensures FirstBlock(EncodeRequest(payload)) == Some(payload) <==> |payload| <= 0xFFFF
  {
    var n := |payload|;
    LengthPrefix(n);
    var s := EncodeRequest(payload);
    assert s[..4] == Padded(n)[..4];
    var m := ParseHex(s[..4]).value;
    assert s[4..4 + m] == payload[..m];
    assert payload[..n] == payload;
  }

  // ------------------------------------------------------------- reading blocks

  function Frames(blocks: seq<Bytes>): Bytes {
    if blocks == [] then [] else EncodeRequest(blocks[0]) + Frames(blocks[1..])
  }

  predicate Framable(blocks: seq<Bytes>) {
    forall i | 0 <= i < |blocks| :: |blocks[i]| <= 0xFFFF
  }

  /** Where `readBlock` stands: waiting for a length, for a body, or given up on a bad length. */
  datatype Phase = WantLength | WantBody(n: nat) | BadLength

  /** A loop of `readBlock` calls over one queue; `got` is an answered read not yet looked at. */
  datatype Reader = Reader(q: Queue, phase: Phase, got: Option<Bytes>, out: seq<Bytes>)

  /** What the step from `q` to `q'` answered the waiting read with. */
  function Answered(q: Queue, q': Queue): Option<Bytes> {
    if |q'.log| > |q.log| && q'.log[|q'.log| - 1].Resolved? then Some(q'.log[|q'.log| - 1].bytes) else None
  }

  function Ask(r: Reader, n: nat, phase: Phase, out: seq<Bytes>): Reader {
    var q' := Take(r.q, Exactly(n));
    Reader(q', phase, Answered(r.q, q'), out)
  }

  function Start(max: nat): Reader {
    Ask(Reader(Empty(max), WantLength, None, []), 4, WantLength, [])
  }

  datatype ReaderAction = Receive(chunk: Bytes) | Process

  /** A chunk arrives, or the reader looks at an answered read and asks for the next. */
  function ReaderStep(r: Reader, a: ReaderAction): Reader {
    match a
    case Receive(chunk) =>
      var q' := Push(r.q, chunk);
      r.(q := q', got := if r.got.Some? then r.got else Answered(r.q, q'))
    case Process =>
      if r.got.None? || r.phase.BadLength? then r else
      match r.phase
      case WantLength =>
        (match ParseHex(r.got.value)
         case None => r.(phase := BadLength, got := None)
         case Some(n) => if n == 0 then Ask(r, 4, WantLength, r.out + [[]]) else Ask(r, n, WantBody(n), r.out))
      case WantBody(_) => Ask(r, 4, WantLength, r.out + [r.got.value])
      case BadLength => r
  }

  function ReaderExec(max: nat, actions: seq<ReaderAction>): Reader {
    if actions == [] then Start(max)
    else ReaderStep(ReaderExec(max, actions[..|actions| - 1]), actions[|actions| - 1])
  }

  /** The digits of a length are 0 to 9, a to f and A to F, in either case of the same value; nothing else is one. */
  lemma HexDigitsAre(c: byte)
    ensures DigitValue(c).Some? <==>
      c in [0x30, 0x31, 0x32, 0x33, 0x34, 0x35, 0x36, 0x37, 0x38, 0x39, 0x41, 0x42, 0x43, 0x44, 0x45, 0x46, 0x61, 0x62, 0x63, 0x64, 0x65, 0x66]
    ensures 0x41 <= c <= 0x46 ==> DigitValue(c) == DigitValue((c as int + 0x20) as byte) == Some(c as int - 0x41 + 10)
  {
  }

  /** A header that starts with no digit stops the reader: it asks for nothing more and no block is added, whatever comes. */
  lemma BadHeaderStops(r: Reader, a: ReaderAction)
    requires r.phase.WantLength? && r.got.Some? && ParseHex(r.got.value).None?
    ensures var bad := ReaderStep(r, Process);
      && bad.phase.BadLength? && bad.out == r.out && bad.q == r.q
      && ReaderStep(bad, a).phase.BadLength? && ReaderStep(bad, a).out == r.out
  {
  }

  function Received(actions: seq<ReaderAction>): Bytes {
    if actions == [] then [] else
    var a := actions[|actions| - 1];
    Received(actions[..|actions| - 1]) + if a.Receive? then a.chunk else []
  }

  /** The bytes taken out of the queue for the block being read. */
  function Partial(r: Reader, block: Bytes): Bytes {
    match (r.phase, r.got)
    case (WantLength, None) => []
    case (WantLength, Some(h)) => h
    case (WantBody(_), None) => EncodeRequest(block)[..4]
    case (WantBody(_), Some(b)) => EncodeRequest(block)[..4] + b
    case (BadLength, _) => []
  }

  /** The read the reader waits for, while it waits. */
  function Wanted(p: Phase): Option<Read> {
    match p case WantLength => Some(Exactly(4)) case WantBody(n) => Some(Exactly(n)) case BadLength => None
  }

  /** The block now read, or none after the last. */
  function Current(blocks: seq<Bytes>, k: nat): Bytes {
    if k < |blocks| then blocks[k] else []
  }

  /** The frames of the blocks from the `k`-th on, and what follows them. */
  function Remaining(blocks: seq<Bytes>, k: nat, tail: Bytes): Bytes
    requires k <= |blocks|
  {
    Frames(blocks[k..]) + tail
  }

  /** `blocks` so far: the first ones are out, and what is left of their frames is here or still to come. */
  ghost predicate Reading(r: Reader, blocks: seq<Bytes>, tail: Bytes, future: Bytes) {
    var k := |r.out|;
    && k <= |blocks| && r.out == blocks[..k]
    && !r.phase.BadLength?
    && Partial(r, Current(blocks, k)) + r.q.buffer + future == Remaining(blocks, k, tail)
    && (r.phase.WantBody? ==> k < |blocks| && r.phase.n == |blocks[k]|)
    && !r.q.streaming && !r.q.ended && r.q.streamed == 0
    && (r.got.None? ==> r.q.waiter == Wanted(r.phase) && |r.q.buffer| < r.q.waiter.value.n)
    && (r.got.Some? ==> r.q.waiter.None? && |r.got.value| == Wanted(r.phase).value.n)
  }

  lemma FramesAt(blocks: seq<Bytes>, k: nat, tail: Bytes)
    requires k < |blocks|
    ensures Remaining(blocks, k, tail) == EncodeRequest(blocks[k]) + Remaining(blocks, k + 1, tail)
    ensures |Remaining(blocks, k, tail)| >= 4 + |blocks[k]|
    ensures EncodeRequest(blocks[k])[..4] + blocks[k] == EncodeRequest(blocks[k])
    ensures |EncodeRequest(blocks[k])| == 4 + |blocks[k]|
  {
    assert blocks[k..][1..] == blocks[k + 1..];
    LengthPrefix(|blocks[k]|);
  }

  lemma {:induction false} RemainingShrinks(blocks: seq<Bytes>, k: nat, tail: Bytes)
    requires k <= |blocks|
    ensures |Remaining(blocks, k, tail)| <= |Remaining(blocks, 0, tail)|
    decreases k
  {
    hide Remaining, EncodeRequest;
    if k > 0 {
      FramesAt(blocks, k - 1, tail);
      RemainingShrinks(blocks, k - 1, tail);
    }
  }

  /** Taking from a queue that neither streams nor has ended: answered at once, or waiting. */
  lemma TakeAnswers(q: Queue, n: nat)
    requires !q.aborted && !q.streaming && !q.ended && q.waiter.None?
    ensures var q' := Take(q, Exactly(n));
      if |q.buffer| >= n
      then Answered(q, q') == Some(q.buffer[..n]) && q'.buffer == q.buffer[n..] && q'.waiter.None?
      else Answered(q, q') == None && q'.buffer == q.buffer && q'.waiter == Some(Exactly(n))
    ensures var q' := Take(q, Exactly(n));
      !q'.aborted && !q'.streaming && !q'.ended && q'.streamed == q.streamed && q'.max == q.max
  {
  }

  /** The step aborted nothing, and the limit is the same. */
  predicate SameLimit(r: Reader, r': Reader) {
    !r'.q.aborted && r'.q.max == r.q.max
  }

  lemma AskReads(r: Reader, n: nat, phase: Phase, out: seq<Bytes>, blocks: seq<Bytes>, tail: Bytes, future: Bytes)
    requires !r.q.aborted && !r.q.streaming && !r.q.ended && r.q.streamed == 0 && r.q.waiter.None?
    requires |out| <= |blocks| && out == blocks[..|out|] && Wanted(phase) == Some(Exactly(n))
    requires phase.WantBody? ==> |out| < |blocks| && phase.n == |blocks[|out|]|
    requires (if phase.WantBody? then EncodeRequest(blocks[|out|])[..4] else []) + r.q.buffer + future
      == Remaining(blocks, |out|, tail)
    ensures Reading(Ask(r, n, phase, out), blocks, tail, future) && SameLimit(r, Ask(r, n, phase, out))
  {
    hide EncodeRequest, Remaining, Take, Answered;
    TakeAnswers(r.q, n);
    var head := if phase.WantBody? then EncodeRequest(blocks[|out|])[..4] else [];
    if |r.q.buffer| >= n {
      Split(head, r.q.buffer, n, future);
      assert head + r.q.buffer[..n] == if phase.WantBody? then head + r.q.buffer[..n] else r.q.buffer[..n];
    }
  }

  /** Pushing to such a queue: the limit aborts it, the waiting read is answered, or the bytes are kept. */
  lemma PushAnswers(q: Queue, chunk: Bytes)
    requires !q.aborted && !q.streaming && !q.ended && (q.waiter.Some? ==> q.waiter.value.Exactly?)
    ensures var q', b := Push(q, chunk), q.buffer + chunk;
      || q'.aborted
      || (q.waiter.Some? && |b| >= q.waiter.value.n && Answered(q, q') == Some(b[..q.waiter.value.n])
          && q'.buffer == b[q.waiter.value.n..] && q'.waiter.None?)
      || ((q.waiter.Some? ==> |b| < q.waiter.value.n) && Answered(q, q') == None && q'.buffer == b && q'.waiter == q.waiter)
    ensures var q' := Push(q, chunk);
      q'.aborted || (!q'.streaming && !q'.ended && q'.streamed == q.streamed)
    ensures var q' := Push(q, chunk); q'.max == q.max && (q'.aborted <==> |q.buffer + chunk| > q.max)
  {
  }

  lemma ReceiveReads(r: Reader, chunk: Bytes, blocks: seq<Bytes>, tail: Bytes, future: Bytes)
    requires Reading(r, blocks, tail, chunk + future) && !r.q.aborted
    ensures var r' := ReaderStep(r, Receive(chunk)); r'.q.aborted || Reading(r', blocks, tail, future)
    ensures |Remaining(blocks, |r.out|, tail)| <= r.q.max ==> SameLimit(r, ReaderStep(r, Receive(chunk)))
  {
    hide Push, Answered, EncodeRequest, Frames;
    PushAnswers(r.q, chunk);
    var b := r.q.buffer + chunk;
    var p := Partial(r, Current(blocks, |r.out|));
    Regroup(p, r.q.buffer, chunk, future);
    if r.got.None? && |b| >= r.q.waiter.value.n {
      Split(p, b, r.q.waiter.value.n, future);
    }
  }

  lemma Regroup(p: Bytes, buffer: Bytes, chunk: Bytes, future: Bytes)
    ensures p + buffer + (chunk + future) == p + (buffer + chunk) + future
  {
  }

  lemma Split(p: Bytes, b: Bytes, n: nat, future: Bytes)
    requires n <= |b|
    ensures p + b + future == p + b[..n] + b[n..] + future
  {
    assert b == b[..n] + b[n..];
  }

  lemma ProcessReads(r: Reader, blocks: seq<Bytes>, tail: Bytes, future: Bytes)
    requires Reading(r, blocks, tail, future) && Framable(blocks) && !r.q.aborted && r.got.Some?
    requires |r.out| < |blocks| || tail == []
    ensures Reading(ReaderStep(r, Process), blocks, tail, future) && SameLimit(r, ReaderStep(r, Process))
  {
    hide EncodeRequest, Remaining, ParseHex, Partial, Ask;
    var k := |r.out|;
    if r.phase.WantLength? {
      HeaderRead(r, blocks, tail, future);
      if blocks[k] == [] {
        NextBlock(r, r.got.value, blocks, tail, future);
      } else {
        BodyNext(r, blocks, tail, future);
      }
    } else {
      BodyRead(r, blocks, tail, future);
      NextBlock(r, EncodeRequest(blocks[k]), blocks, tail, future);
    }
  }

  /** Four bytes read for a header are the header of the block that comes next. */
  lemma HeaderRead(r: Reader, blocks: seq<Bytes>, tail: Bytes, future: Bytes)
    requires Reading(r, blocks, tail, future) && Framable(blocks) && r.got.Some? && r.phase.WantLength?
    requires |r.out| < |blocks| || tail == []
    ensures var k := |r.out|;
      && k < |blocks| && r.got.value == EncodeRequest(blocks[k])[..4]
      && ParseHex(r.got.value) == Some(|blocks[k]|)
      && r.got.value + r.q.buffer + future == Remaining(blocks, k, tail)
      && (blocks[k] == [] ==> r.got.value == EncodeRequest(blocks[k]))
  {
    hide ParseHex;
    var k := |r.out|;
    assert |r.got.value| == 4;
    if k < |blocks| {
      FramesAt(blocks, k, tail);
      LengthPrefix(|blocks[k]|);
      hide EncodeRequest, Remaining;
      FrontOf(r.got.value, r.q.buffer + future, EncodeRequest(blocks[k]), Remaining(blocks, k + 1, tail), 4);
      assert r.got.value + (r.q.buffer + future) == r.got.value + r.q.buffer + future;
    } else {
      assert false;
    }
  }

  lemma FrontOf(a: Bytes, b: Bytes, c: Bytes, d: Bytes, n: nat)
    requires a + b == c + d && |a| == n && n <= |c|
    ensures a == c[..n]
  {
    assert (a + b)[..n] == a && (c + d)[..n] == c[..n];
  }

  /** Bytes read for a body are the body, and the frame is complete. */
  lemma BodyRead(r: Reader, blocks: seq<Bytes>, tail: Bytes, future: Bytes)
    requires Reading(r, blocks, tail, future) && r.got.Some? && r.phase.WantBody?
    ensures var k := |r.out|;
      && k < |blocks| && r.got.value == blocks[k]
      && EncodeRequest(blocks[k]) + r.q.buffer + future == Remaining(blocks, k, tail)
  {
    var k := |r.out|;
    FramesAt(blocks, k, tail);
    hide EncodeRequest, Remaining;
    BodyOf(EncodeRequest(blocks[k])[..4], r.got.value, blocks[k], r.q.buffer, future, Remaining(blocks, k + 1, tail));
  }

  lemma BodyOf(head: Bytes, body: Bytes, block: Bytes, buffer: Bytes, future: Bytes, rest: Bytes)
    requires |body| == |block| && head + body + buffer + future == head + block + rest
    ensures body == block
  {
    FrontOf(head + body, buffer + future, head + block, rest, |head + body|);
    assert head + body + buffer + future == (head + body) + (buffer + future);
    assert body == (head + body)[|head|..] && block == (head + block)[|head|..];
  }

  lemma BodyNext(r: Reader, blocks: seq<Bytes>, tail: Bytes, future: Bytes)
    requires Reading(r, blocks, tail, future) && !r.q.aborted && r.got.Some? && r.phase.WantLength? && |r.out| < |blocks|
    requires r.got.value == EncodeRequest(blocks[|r.out|])[..4]
    ensures var r' := Ask(r, |blocks[|r.out|]|, WantBody(|blocks[|r.out|]|), r.out);
      Reading(r', blocks, tail, future) && SameLimit(r, r')
  {
    hide EncodeRequest, Remaining;
    AskReads(r, |blocks[|r.out|]|, WantBody(|blocks[|r.out|]|), r.out, blocks, tail, future);
  }

  /** A whole frame was read: the reader goes on with the next one. */
  lemma NextBlock(r: Reader, frame: Bytes, blocks: seq<Bytes>, tail: Bytes, future: Bytes)
    requires Reading(r, blocks, tail, future) && !r.q.aborted && r.q.waiter.None? && |r.out| < |blocks|
    requires frame == EncodeRequest(blocks[|r.out|]) && frame + r.q.buffer + future == Remaining(blocks, |r.out|, tail)
    ensures var r' := Ask(r, 4, WantLength, r.out + [blocks[|r.out|]]);
      Reading(r', blocks, tail, future) && SameLimit(r, r')
  {
    hide EncodeRequest, Remaining, Partial, Ask;
    var k := |r.out|;
    FramesAt(blocks, k, tail);
    AfterFrame(frame, r.q.buffer, future, Remaining(blocks, k + 1, tail));
    assert blocks[..k] + [blocks[k]] == blocks[..k + 1];
    assert [] + r.q.buffer + future == r.q.buffer + future;
    AskReads(r, 4, WantLength, r.out + [blocks[k]], blocks, tail, future);
  }

  lemma AfterFrame(frame: Bytes, buffer: Bytes, future: Bytes, rest: Bytes)
    requires frame + buffer + future == frame + rest
    ensures buffer + future == rest
  {
    assert frame + buffer + future == frame + (buffer + future);
    assert (frame + (buffer + future))[|frame|..] == buffer + future;
    assert (frame + rest)[|frame|..] == rest;
  }

  /**
   * At every point of a run over the frames of some blocks: the blocks out are a prefix,
   * and what is left to read is the rest. A limit that all of them fit aborts nothing.
   */
  lemma {:induction false} ReaderReads(max: nat, actions: seq<ReaderAction>, blocks: seq<Bytes>, future: Bytes)
    requires Framable(blocks) && Received(actions) + future == Frames(blocks)
    ensures var r := ReaderExec(max, actions); r.q.aborted || (Reading(r, blocks, [], future) && r.q.max == max)
    ensures |Frames(blocks)| <= max ==> !ReaderExec(max, actions).q.aborted
    decreases |actions|
  {
    hide Reading, ReaderStep, Frames, Start;
    if actions == [] {
      assert [] + future == future;
      StartReads(max, blocks, future);
    } else {
      var before := actions[..|actions| - 1];
      var a := actions[|actions| - 1];
      var r := ReaderExec(max, before);
      var future' := (if a.Receive? then a.chunk else []) + future;
      assert Received(before) + future' == Received(actions) + future;
      ReaderReads(max, before, blocks, future');
      if r.q.aborted {
        AbortedStays(r, a);
      } else {
        assert a.Process? ==> future' == future;
        ReaderGoesOn(r, a, blocks, future);
      }
    }
  }

  lemma StartReads(max: nat, blocks: seq<Bytes>, future: Bytes)
    requires future == Frames(blocks)
    ensures var r := Start(max); Reading(r, blocks, [], future) && r.q.max == max && !r.q.aborted
  {
    hide Frames;
    assert blocks[0..] == blocks && blocks[..0] == [];
    assert Remaining(blocks, 0, []) == Frames(blocks);
    assert [] + Empty(max).buffer + future == future;
    AskReads(Reader(Empty(max), WantLength, None, []), 4, WantLength, [], blocks, [], future);
  }

  lemma ReaderGoesOn(r: Reader, a: ReaderAction, blocks: seq<Bytes>, future: Bytes)
    requires Framable(blocks) && !r.q.aborted
    requires Reading(r, blocks, [], (if a.Receive? then a.chunk else []) + future)
    ensures var r' := ReaderStep(r, a); r'.q.aborted || (Reading(r', blocks, [], future) && r'.q.max == r.q.max)
    ensures |Frames(blocks)| <= r.q.max ==> !ReaderStep(r, a).q.aborted
  {
    assert blocks[0..] == blocks && Remaining(blocks, 0, []) == Frames(blocks);
    RemainingShrinks(blocks, |r.out|, []);
    assert [] + future == future;
    match a
    case Receive(chunk) => ReceiveReads(r, chunk, blocks, [], future); LimitKept(r, chunk);
    case Process => if r.got.Some? { ProcessReads(r, blocks, [], future); }
  }

  lemma LimitKept(r: Reader, chunk: Bytes)
    ensures ReaderStep(r, Receive(chunk)).q.max == r.q.max
  {
  }

  lemma AbortedStays(r: Reader, a: ReaderAction)
    requires r.q.aborted
    ensures ReaderStep(r, a).q.aborted
  {
  }

  /**
   * Blocks of at most 0xFFFF bytes, cut into chunks anywhere and read at any pace: unless
   * the buffer limit aborted the queue, what was read is always a prefix of the blocks,
   * and once every byte is in and the reader waits it is all of them. A limit their frames
   * fit never aborts it.
   */
  lemma BlocksDecodeInOrder(max: nat, actions: seq<ReaderAction>, blocks: seq<Bytes>, future: Bytes)
    requires Framable(blocks) && Received(actions) + future == Frames(blocks)
    ensures var r := ReaderExec(max, actions);
      r.q.aborted || (r.out <= blocks && !r.phase.BadLength?)
    ensures var r := ReaderExec(max, actions);
      r.q.aborted || r.got.Some? || future != [] || r.out == blocks
    ensures |Frames(blocks)| <= max ==> !ReaderExec(max, actions).q.aborted
  {
    ReaderReads(max, actions, blocks, future);
    var r := ReaderExec(max, actions);
    var k := |r.out|;
    if !r.q.aborted && r.got.None? && future == [] && k < |blocks| {
      FramesAt(blocks, k, []);
      assert false;
    }
  }
}
