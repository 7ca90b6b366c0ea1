/** The framed shell protocol: packets of an id, a 32-bit little-endian length and a payload. */
module AdbShellFrames {
  import opened Options
  import opened AdbBytes

  const ID_STDOUT: byte := 1
  const ID_STDERR: byte := 2
  const ID_EXIT: byte := 3
  const HEADER_LEN: nat := 5

  /** Everything decoded so far. */
  datatype Output = Output(stdout: Bytes, stderr: Bytes, exitCode: Option<byte>)

  const NOTHING: Output := Output([], [], None)

  function PayloadLength(s: Bytes): (n: nat)
    requires |s| >= HEADER_LEN
    ensures n < 0x1_0000_0000
  {
    s[1] as int + 0x100 * s[2] as int + 0x1_0000 * s[3] as int + 0x100_0000 * s[4] as int
  }

  /** A whole packet stands at the front of `s`. */
  predicate Complete(s: Bytes) {
    |s| >= HEADER_LEN && |s| >= HEADER_LEN + PayloadLength(s)
  }

  /** What one packet adds. The last exit packet counts, and one without a payload takes the code back. */
  function Absorb(o: Output, id: byte, payload: Bytes): Output {
    if id == ID_STDOUT then o.(stdout := o.stdout + payload)
    else if id == ID_STDERR then o.(stderr := o.stderr + payload)
    else if id == ID_EXIT then o.(exitCode := if |payload| > 0 then Some(payload[0]) else None)
    else o
  }

  datatype Decoded = Decoded(output: Output, rest: Bytes)

  /** Every whole packet of `s`, and the bytes that are not one yet. */
  function Decode(o: Output, s: Bytes): (d: Decoded)
    ensures !Complete(d.rest)
    decreases |s|
  {
    if !Complete(s) then Decoded(o, s) else
    var total := HEADER_LEN + PayloadLength(s);
    Decode(Absorb(o, s[0], s[HEADER_LEN..total]), s[total..])
  }

  lemma LengthOf(s: Bytes, length: int)
    requires |s| >= HEADER_LEN
    requires length == s[1] as int + 0x100 * s[2] as int + 0x1_0000 * s[3] as int + 0x100_0000 * s[4] as int
    ensures length == PayloadLength(s)
  {
  }

  lemma SliceSlice(s: Bytes, from: nat, a: nat, b: nat)
    requires a <= b && from + b <= |s|
    ensures s[from..][a..b] == s[from + a..from + b] && s[from..][b..] == s[from + b..]
  {
  }

  lemma DecodeOne(o: Output, s: Bytes)
    requires Complete(s)
    ensures var total := HEADER_LEN + PayloadLength(s);
      Decode(o, s) == Decode(Absorb(o, s[0], s[HEADER_LEN..total]), s[total..])
  {
  }

  lemma DecodeNone(o: Output, s: Bytes)
    requires !Complete(s)
    ensures Decode(o, s) == Decoded(o, s)
  {
  }

  class ShellFrameParser {
    var pending: Bytes
    var stdoutChunks: seq<Bytes>
    var stderrChunks: seq<Bytes>
    var exitCode: Option<byte>
    ghost var received: Bytes

    ghost function Result(): Output
      reads this
    {
      Output(Flat(stdoutChunks), Flat(stderrChunks), exitCode)
    }

    /** The parser's state is a function of the bytes received, whatever chunks they came in. */
    ghost predicate Valid()
      reads this
    {
      Decode(NOTHING, received) == Decoded(Result(), pending)
    }

    constructor ()
      ensures Valid() && received == []
    {
      pending, stdoutChunks, stderrChunks, exitCode, received := [], [], [], None, [];
    }

    method PushChunk(chunk: Bytes)
      requires Valid()
      modifies this
      ensures Valid() && received == old(received) + chunk
    {
      if |chunk| == 0 {
        assert received + chunk == received;
        return;
      }
      DecodeSplit(NOTHING, received, chunk);
      received := received + chunk;
      pending := pending + chunk;
      DrainPackets();
    }

    /** Packets from standard input, and any other id, are ignored. */
    method AbsorbPacket(id: byte, payload: Bytes)
      modifies this`stdoutChunks, this`stderrChunks, this`exitCode
      ensures Result() == Absorb(old(Result()), id, payload)
    {
      if id == ID_STDOUT {
        FlatSnoc(stdoutChunks, payload);
        stdoutChunks := stdoutChunks + [payload];
      } else if id == ID_STDERR {
        FlatSnoc(stderrChunks, payload);
        stderrChunks := stderrChunks + [payload];
      } else if id == ID_EXIT {
        exitCode := if |payload| > 0 then Some(payload[0]) else None;
      }
    }

    method DrainPackets()
      requires Decode(NOTHING, received) == Decode(Result(), pending)
      modifies this
      ensures Valid() && received == old(received)
    {
      hide Decode, Flat, PayloadLength, Absorb;
      var offset := 0;
      assert pending[0..] == pending;
      while |pending| - offset >= HEADER_LEN
        invariant offset <= |pending| && pending == old(pending) && received == old(received)
        invariant Decode(NOTHING, received) == Decode(Result(), pending[offset..])
        decreases |pending| - offset
      {
        ghost var s := pending[offset..];
        var length := pending[offset + 1] as int + 0x100 * pending[offset + 2] as int
          + 0x1_0000 * pending[offset + 3] as int + 0x100_0000 * pending[offset + 4] as int;
        LengthOf(s, length);
        var total := HEADER_LEN + length;
        if |pending| - offset < total { break; }
        var id := pending[offset];
        var payload := pending[offset + HEADER_LEN..offset + total];
        SliceSlice(pending, offset, HEADER_LEN, total);
        DecodeOne(Result(), s);
        AbsorbPacket(id, payload);
        offset := offset + total;
      }
      DecodeNone(Result(), pending[offset..]);
      pending := pending[offset..];
    }
  }

  /** Decoding in two pieces is decoding at once. */
  lemma {:induction false} DecodeSplit(o: Output, a: Bytes, b: Bytes)
    ensures var d := Decode(o, a); Decode(o, a + b) == Decode(d.output, d.rest + b)
    decreases |a|
  {
    if Complete(a) {
      var total := HEADER_LEN + PayloadLength(a);
      assert (a + b)[HEADER_LEN..total] == a[HEADER_LEN..total];
      assert (a + b)[total..] == a[total..] + b;
      DecodeSplit(Absorb(o, a[0], a[HEADER_LEN..total]), a[total..], b);
    }
  }

  /** Decoding piece by piece. */
  function DecodeChunks(chunks: seq<Bytes>): Decoded {
    if chunks == [] then Decoded(NOTHING, []) else
    var d := DecodeChunks(chunks[..|chunks| - 1]);
    Decode(d.output, d.rest + chunks[|chunks| - 1])
  }

  /** However a byte string is cut into chunks, what is decoded and what is retained are the same. */
  lemma {:induction false} ChunksDoNotMatter(chunks: seq<Bytes>)
    ensures DecodeChunks(chunks) == Decode(NOTHING, Flat(chunks))
    decreases |chunks|
  {
    if chunks != [] {
      var before := chunks[..|chunks| - 1];
      ChunksDoNotMatter(before);
      DecodeSplit(NOTHING, Flat(before), chunks[|chunks| - 1]);
    }
  }

  // ------------------------------------------------------------------ encoding

  datatype Packet = Packet(id: byte, payload: Bytes)

  predicate Fits(ps: seq<Packet>) {
    forall i | 0 <= i < |ps| :: |ps[i].payload| < 0x1_0000_0000
  }

  function EncodeOne(p: Packet): (s: Bytes)
    requires |p.payload| < 0x1_0000_0000
    ensures |s| == HEADER_LEN + |p.payload|
  {
    var n := |p.payload|;
    [p.id, (n % 0x100) as byte, (n / 0x100 % 0x100) as byte, (n / 0x1_0000 % 0x100) as byte, (n / 0x100_0000) as byte]
    + p.payload
  }

  function Encode(ps: seq<Packet>): Bytes
    requires Fits(ps)
  {
    if ps == [] then [] else EncodeOne(ps[0]) + Encode(ps[1..])
  }

  /** What a list of packets says: the two streams joined, and the last exit packet's code. */
  function Meaning(o: Output, ps: seq<Packet>): Output
    decreases |ps|
  {
    if ps == [] then o else Meaning(Absorb(o, ps[0].id, ps[0].payload), ps[1..])
  }

  lemma EncodedLength(p: Packet, rest: Bytes)
    requires |p.payload| < 0x1_0000_0000
    ensures PayloadLength(EncodeOne(p) + rest) == |p.payload|
  {
    var n := |p.payload|;
    var s := EncodeOne(p) + rest;
    assert s[1] as int == n % 0x100 && s[2] as int == n / 0x100 % 0x100;
    assert s[3] as int == n / 0x1_0000 % 0x100 && s[4] as int == n / 0x100_0000;
    assert n == n % 0x100 + 0x100 * (n / 0x100);
    assert n / 0x100 == n / 0x100 % 0x100 + 0x100 * (n / 0x100 / 0x100);
    assert n / 0x100 / 0x100 == n / 0x1_0000;
    assert n / 0x1_0000 == n / 0x1_0000 % 0x100 + 0x100 * (n / 0x1_0000 / 0x100);
    assert n / 0x1_0000 / 0x100 == n / 0x100_0000;
  }

  lemma {:induction false} DecodeEncoded(o: Output, ps: seq<Packet>, tail: Bytes)
    requires Fits(ps)
    ensures Decode(o, Encode(ps) + tail) == Decode(Meaning(o, ps), tail)
    decreases |ps|
  {
    if ps == [] {
      assert [] + tail == tail;
    } else {
      var p := ps[0];
      var rest := Encode(ps[1..]) + tail;
      var s := EncodeOne(p) + rest;
      assert Encode(ps) + tail == s;
      EncodedLength(p, rest);
      var total := HEADER_LEN + |p.payload|;
      assert s[HEADER_LEN..total] == p.payload && s[total..] == rest && s[0] == p.id;
      DecodeEncoded(Absorb(o, p.id, p.payload), ps[1..], tail);
    }
  }

  /**
   * Any packets, encoded, cut into any chunks and followed by less than a whole packet,
   * decode to what the packets mean, and exactly the incomplete tail is retained.
   */
  lemma PacketsDecode(ps: seq<Packet>, tail: Bytes, chunks: seq<Bytes>)
    requires Fits(ps) && !Complete(tail) && Flat(chunks) == Encode(ps) + tail
    ensures DecodeChunks(chunks) == Decoded(Meaning(NOTHING, ps), tail)
  {
    ChunksDoNotMatter(chunks);
    DecodeEncoded(NOTHING, ps, tail);
  }

  /** The payloads of one stream, joined. */
  function Joined(ps: seq<Packet>, id: byte): Bytes {
    if ps == [] then [] else Joined(ps[..|ps| - 1], id) + if ps[|ps| - 1].id == id then ps[|ps| - 1].payload else []
  }

  function LastExit(ps: seq<Packet>): Option<byte> {
    if ps == [] then None
    else if ps[|ps| - 1].id == ID_EXIT then
      (if ps[|ps| - 1].payload == [] then None else Some(ps[|ps| - 1].payload[0]))
    else LastExit(ps[..|ps| - 1])
  }

  lemma {:induction false} MeaningSnoc(o: Output, ps: seq<Packet>)
    requires ps != []
    ensures var last := ps[|ps| - 1]; Meaning(o, ps) == Absorb(Meaning(o, ps[..|ps| - 1]), last.id, last.payload)
    decreases |ps|
  {
    var init := ps[..|ps| - 1];
    if |ps| > 1 {
      assert ps[1..][..|ps| - 2] == init[1..];
      MeaningSnoc(Absorb(o, ps[0].id, ps[0].payload), ps[1..]);
    } else {
      assert ps[1..] == [];
    }
  }

  /** What packets mean, said without decoding anything. */
  lemma {:induction false} MeaningIs(ps: seq<Packet>)
    ensures Meaning(NOTHING, ps) == Output(Joined(ps, ID_STDOUT), Joined(ps, ID_STDERR), LastExit(ps))
    decreases |ps|
  {
    if ps != [] {
      MeaningSnoc(NOTHING, ps);
      MeaningIs(ps[..|ps| - 1]);
    }
  }
}
