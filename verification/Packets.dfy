/**
 MySQL packets ("MySQL Packets" and "Length-Encoded Integer" of the MySQL Client/Server Protocol), after
 packages/db-protocol-mysql/src/packets.ts: payloads cut into frames, frames read from any chunks, and
 length-encoded integers.
 */
module Packets {
  import opened Bytes
  import opened Texts
  import opened Wrappers

  const MAX_PAYLOAD: nat := 0xff_ffff
  const MAX_ACCEPTED_BYTES: nat := 1_073_741_824
  const MAX_SAFE: nat := 9_007_199_254_740_991

  datatype Packet = Packet(sequence: nat, payload: seq<Byte>)

  // The bytes not yet read, and the parts of a payload that goes on in the next frame.
  datatype State = State(buffer: seq<Byte>, continued: seq<seq<Byte>>)

  const INITIAL := State([], [])

  // `Oversized`: the reader throws, because a payload is too large.
  datatype Read = Read(state: State, packets: seq<Packet>) | Oversized

  // The length in the header of the first frame, once the whole frame is there.
  function FirstFrame(buffer: seq<Byte>): (r: Option<nat>)
    ensures r.Some? ==> 4 + r.value <= |buffer| && r.value <= MAX_PAYLOAD
  {
    if |buffer| < 4 then None
    else
      var length := FromLittleEndian(buffer[..3]);
      ThreeBytes(buffer[..3]);
      if |buffer| < 4 + length then None else Some(length)
  }

  lemma ThreeBytes(bytes: seq<Byte>)
    requires |bytes| == 3
    ensures FromLittleEndian(bytes) <= MAX_PAYLOAD
  {
    LittleEndianWritten(bytes);
    assert Pow256(3) == 0x100_0000;
  }

  // One whole frame: a full one is kept, any other one completes a packet.
  function TakeFrame(s: State, length: nat): (r: Read)
    requires 4 + length <= |s.buffer|
    ensures r.Read? ==> r.state.buffer == s.buffer[4 + length..]
  {
    var payload := s.buffer[4..4 + length];
    var rest := s.buffer[4 + length..];
    if length == MAX_PAYLOAD then
      var continued := s.continued + [payload];
      if |Concat(continued)| > MAX_ACCEPTED_BYTES then Oversized else Read(State(rest, continued), [])
    else Read(State(rest, []), [Packet(s.buffer[3], Concat(s.continued + [payload]))])
  }

  // Takes every whole frame.
  function Drain(s: State): Read
    decreases |s.buffer|
  {
    match FirstFrame(s.buffer)
    case None => Read(s, [])
    case Some(length) =>
      match TakeFrame(s, length)
      case Oversized => Oversized
      case Read(next, packets) => Before(packets, Drain(next))
  }

  function Before(packets: seq<Packet>, r: Read): Read {
    match r
    case Oversized => Oversized
    case Read(state, more) => Read(state, packets + more)
  }

  function Push(s: State, chunk: seq<Byte>): Read {
    Drain(s.(buffer := s.buffer + chunk))
  }

  function PushAll(s: State, chunks: seq<seq<Byte>>): Read {
    if chunks == [] then Read(s, [])
    else match PushAll(s, chunks[..|chunks| - 1])
      case Oversized => Oversized
      case Read(state, packets) => Before(packets, Push(state, chunks[|chunks| - 1]))
  }

  function Header(length: nat, sequence: nat): seq<Byte> {
    LittleEndian(length, 3) + [sequence % 256]
  }

  // A payload in frames: full ones, and one that is not full, perhaps empty.
  function Frame(payload: seq<Byte>, sequence: nat): seq<Byte> {
    if |payload| < MAX_PAYLOAD then Header(|payload|, sequence) + payload
    else Header(MAX_PAYLOAD, sequence) + payload[..MAX_PAYLOAD] + Frame(payload[MAX_PAYLOAD..], sequence + 1)
  }

  // The sequence number after the last frame.
  function NextSequence(payload: seq<Byte>, sequence: nat): nat {
    sequence + |payload| / MAX_PAYLOAD + 1
  }

  // Payloads, each with its first sequence number, one after another.
  function FrameAll(payloads: seq<(seq<Byte>, nat)>): seq<Byte> {
    var n := |payloads| - 1;
    if n < 0 then [] else FrameAll(payloads[..n]) + Frame(payloads[n].0, payloads[n].1)
  }

  function PacketsOf(payloads: seq<(seq<Byte>, nat)>): seq<Packet> {
    seq(|payloads|, i requires 0 <= i < |payloads| =>
      Packet((NextSequence(payloads[i].0, payloads[i].1) - 1) % 256, payloads[i].0))
  }

  // Whether the reader takes a payload: what its full frames hold is within the limit.
  predicate Accepted(payload: seq<Byte>) {
    |payload| / MAX_PAYLOAD * MAX_PAYLOAD <= MAX_ACCEPTED_BYTES
  }

  /* ---------- Chunks do not matter ---------- */

  lemma FrontFrameStays(s: State, more: seq<Byte>)
    requires FirstFrame(s.buffer).Some?
    ensures var t := s.(buffer := s.buffer + more);
            var length := FirstFrame(s.buffer).value;
            && FirstFrame(t.buffer) == Some(length)
            && TakeFrame(t, length) == match TakeFrame(s, length)
                                       case Oversized => Oversized
                                       case Read(next, packets) => Read(next.(buffer := next.buffer + more), packets)
  {
    hide FromLittleEndian, Concat;
    var length := FirstFrame(s.buffer).value;
    var all := s.buffer + more;
    assert all[..3] == s.buffer[..3];
    assert all[4..4 + length] == s.buffer[4..4 + length];
    assert all[4 + length..] == s.buffer[4 + length..] + more;
  }

  lemma BeforeTwice(a: seq<Packet>, b: seq<Packet>, r: Read)
    ensures Before(a, Before(b, r)) == Before(a + b, r)
    ensures Before([], r) == r
  {
    if r.Read? {
      assert a + (b + r.packets) == a + b + r.packets;
      assert [] + r.packets == r.packets;
    }
  }

  // Draining first, and then going on with more bytes.
  function Onward(r: Read, more: seq<Byte>): Read {
    match r
    case Oversized => Oversized
    case Read(state, packets) => Before(packets, Push(state, more))
  }

  lemma {:induction false} DrainOfTwo(s: State, more: seq<Byte>)
    ensures Push(s, more) == Onward(Drain(s), more)
    decreases |s.buffer|
  {
    hide FirstFrame, TakeFrame;
    match FirstFrame(s.buffer)
    case None => BeforeTwice([], [], Push(s, more));
    case Some(length) =>
      FrontFrameStays(s, more);
      if TakeFrame(s, length).Read? {
        var next := TakeFrame(s, length).state;
        DrainOfTwo(next, more);
        if Drain(next).Read? {
          BeforeTwice(TakeFrame(s, length).packets, Drain(next).packets, Push(Drain(next).state, more));
        }
      }
  }

  /** However the bytes are cut into chunks, the reader gives the same packets, or fails. */
  lemma {:induction false} ChunksDoNotMatter(s: State, chunks: seq<seq<Byte>>)
    requires Drain(s) == Read(s, [])
    ensures PushAll(s, chunks) == Push(s, Concat(chunks))
  {
    hide Drain;
    if chunks == [] {
      assert s.buffer + [] == s.buffer;
    } else {
      var n := |chunks| - 1;
      ChunksDoNotMatter(s, chunks[..n]);
      DrainOfTwo(s.(buffer := s.buffer + Concat(chunks[..n])), chunks[n]);
      assert s.buffer + Concat(chunks) == s.buffer + Concat(chunks[..n]) + chunks[n];
    }
  }

  /* ---------- Framing and reading ---------- */

  lemma HeaderRead(length: nat, sequence: nat, rest: seq<Byte>)
    requires length <= MAX_PAYLOAD && |rest| >= length
    ensures var buffer := Header(length, sequence) + rest;
            && |Header(length, sequence)| == 4
            && FirstFrame(buffer) == Some(length) && buffer[3] == sequence % 256
            && buffer[4..4 + length] == rest[..length] && buffer[4 + length..] == rest[length..]
  {
    hide LittleEndian, FromLittleEndian;
    assert Pow256(3) == 0x100_0000;
    LittleEndianRead(length, 3);
    var buffer := Header(length, sequence) + rest;
    assert buffer[..3] == LittleEndian(length, 3);
  }

  lemma DrainOnce(s: State)
    ensures FirstFrame(s.buffer) == None ==> Drain(s) == Read(s, [])
    ensures FirstFrame(s.buffer).Some? ==>
              var taken := TakeFrame(s, FirstFrame(s.buffer).value);
              Drain(s) == if taken.Oversized? then Oversized else Before(taken.packets, Drain(taken.state))
  {
    hide FirstFrame, TakeFrame;
  }

  // A frame that is not full ends the payload.
  lemma LastFrame(continued: seq<seq<Byte>>, payload: seq<Byte>, sequence: nat, tail: seq<Byte>)
    requires |payload| < MAX_PAYLOAD
    ensures var s := State(Header(|payload|, sequence) + payload + tail, continued);
            && FirstFrame(s.buffer) == Some(|payload|)
            && TakeFrame(s, |payload|) == Read(State(tail, []), [Packet(sequence % 256, Concat(continued) + payload)])
  {
    hide Header, FirstFrame;
    assert Header(|payload|, sequence) + payload + tail == Header(|payload|, sequence) + (payload + tail);
    HeaderRead(|payload|, sequence, payload + tail);
    assert (payload + tail)[..|payload|] == payload && (payload + tail)[|payload|..] == tail;
    assert (continued + [payload])[..|continued|] == continued;
  }

  // A full frame is kept, unless it goes beyond the limit.
  lemma FullFrame(continued: seq<seq<Byte>>, first: seq<Byte>, sequence: nat, more: seq<Byte>)
    requires |first| == MAX_PAYLOAD
    ensures var s := State(Header(MAX_PAYLOAD, sequence) + first + more, continued);
            && FirstFrame(s.buffer) == Some(MAX_PAYLOAD)
            && TakeFrame(s, MAX_PAYLOAD) ==
               if |Concat(continued)| + MAX_PAYLOAD > MAX_ACCEPTED_BYTES then Oversized
               else Read(State(more, continued + [first]), [])
    ensures Concat(continued + [first]) == Concat(continued) + first
  {
    hide Header, FirstFrame;
    assert Header(MAX_PAYLOAD, sequence) + first + more == Header(MAX_PAYLOAD, sequence) + (first + more);
    HeaderRead(MAX_PAYLOAD, sequence, first + more);
    assert (first + more)[..MAX_PAYLOAD] == first && (first + more)[MAX_PAYLOAD..] == more;
    assert (continued + [first])[..|continued|] == continued;
  }

  lemma {:induction false} FrameRead(continued: seq<seq<Byte>>, payload: seq<Byte>, sequence: nat, tail: seq<Byte>)
    requires |Concat(continued)| <= MAX_ACCEPTED_BYTES
    ensures var all := Concat(continued) + payload;
            Drain(State(Frame(payload, sequence) + tail, continued)) ==
            if |Concat(continued)| + |payload| / MAX_PAYLOAD * MAX_PAYLOAD <= MAX_ACCEPTED_BYTES
            then Before([Packet((NextSequence(payload, sequence) - 1) % 256, all)], Drain(State(tail, [])))
            else Oversized
    decreases |payload|
  {
    hide Header, FirstFrame, TakeFrame, Drain, Concat;
    DrainOnce(State(Frame(payload, sequence) + tail, continued));
    if |payload| < MAX_PAYLOAD {
      LastFrame(continued, payload, sequence, tail);
    } else {
      var first, rest := payload[..MAX_PAYLOAD], payload[MAX_PAYLOAD..];
      var more := Frame(rest, sequence + 1) + tail;
      assert Frame(payload, sequence) + tail == Header(MAX_PAYLOAD, sequence) + first + more;
      FullFrame(continued, first, sequence, more);
      FullFrames(payload);
      assert Concat(continued) + first + rest == Concat(continued) + payload;
      if |Concat(continued + [first])| <= MAX_ACCEPTED_BYTES {
        FrameRead(continued + [first], rest, sequence + 1, tail);
        BeforeTwice([], [], Drain(State(more, continued + [first])));
      }
    }
  }

  lemma FullFrames(payload: seq<Byte>)
    requires |payload| >= MAX_PAYLOAD
    ensures |payload| / MAX_PAYLOAD == |payload[MAX_PAYLOAD..]| / MAX_PAYLOAD + 1
  {
  }

  lemma NothingDrained(continued: seq<seq<Byte>>)
    ensures Drain(State([], continued)) == Read(State([], continued), [])
  {
  }

  /**
   A payload framed and read comes back whole, with the sequence number of its last frame, exactly when
   its full frames hold at most 1 GiB; else the reader refuses it. This includes payloads whose length
   is a multiple of 16 MiB - 1.
   */
  lemma {:induction false} OneComesBack(payload: seq<Byte>, sequence: nat)
    ensures Push(INITIAL, Frame(payload, sequence)) ==
            if Accepted(payload) then Read(INITIAL, [Packet((NextSequence(payload, sequence) - 1) % 256, payload)])
            else Oversized
  {
    hide Drain, Frame;
    assert [] + Frame(payload, sequence) == Frame(payload, sequence) + [];
    FrameRead([], payload, sequence, []);
    NothingDrained([]);
    assert [] + payload == payload;
    assert [Packet((NextSequence(payload, sequence) - 1) % 256, payload)] + [] == [Packet((NextSequence(payload, sequence) - 1) % 256, payload)];
  }

  lemma {:induction false} FramesRead(payloads: seq<(seq<Byte>, nat)>)
    requires forall i :: 0 <= i < |payloads| ==> Accepted(payloads[i].0)
    ensures Push(INITIAL, FrameAll(payloads)) == Read(INITIAL, PacketsOf(payloads))
  {
    hide Drain, Frame, Accepted;
    if payloads == [] {
      NothingDrained([]);
      assert INITIAL.buffer + [] == [];
    } else {
      var n := |payloads| - 1;
      FramesRead(payloads[..n]);
      var before := FrameAll(payloads[..n]);
      DrainOfTwo(INITIAL.(buffer := INITIAL.buffer + before), Frame(payloads[n].0, payloads[n].1));
      assert INITIAL.buffer + FrameAll(payloads) == INITIAL.buffer + before + Frame(payloads[n].0, payloads[n].1);
      OneComesBack(payloads[n].0, payloads[n].1);
      assert PacketsOf(payloads) == PacketsOf(payloads[..n]) + PacketsOf([payloads[n]]);
    }
  }

  /** Any payloads of acceptable size, framed, concatenated and cut anywhere, come back in order. */
  lemma {:induction false} FramesComeBack(payloads: seq<(seq<Byte>, nat)>, chunks: seq<seq<Byte>>)
    requires forall i :: 0 <= i < |payloads| ==> Accepted(payloads[i].0)
    requires Concat(chunks) == FrameAll(payloads)
    ensures PushAll(INITIAL, chunks) == Read(INITIAL, PacketsOf(payloads))
  {
    hide Drain, Accepted, FrameAll;
    NothingDrained([]);
    ChunksDoNotMatter(INITIAL, chunks);
    FramesRead(payloads);
  }

  lemma UpToOneGibibyte(payload: seq<Byte>)
    ensures |payload| <= 0x4000_0000 ==> Accepted(payload)
    ensures Accepted(payload) <==> |payload| < 65 * 16_777_215
  {
  }

  // The bytes of the frames, one by one: three of the length, the lowest first, one of the sequence number.
  predicate InFrames(bytes: seq<Byte>, payload: seq<Byte>, sequence: nat)
    decreases |payload|
  {
    if |payload| < 16_777_215 then
      bytes == [|payload| % 0x100, |payload| / 0x100 % 0x100, |payload| / 0x1_0000, sequence % 0x100] + payload
    else
      && |bytes| >= 16_777_219 && bytes[..4] == [0xff, 0xff, 0xff, sequence % 0x100] && bytes[4..16_777_219] == payload[..16_777_215]
      && InFrames(bytes[16_777_219..], payload[16_777_215..], sequence + 1)
  }

  lemma HeaderIs(length: nat, sequence: nat)
    ensures Header(length, sequence) == [length % 0x100, length / 0x100 % 0x100, length / 0x1_0000 % 0x100, sequence % 0x100]
  {
    var n := length / 0x100;
    assert n / 0x100 == length / 0x1_0000;
    assert LittleEndian(length, 3) == [length % 256] + LittleEndian(n, 2);
    assert LittleEndian(n, 2) == [n % 256] + LittleEndian(n / 256, 1);
  }

  /** What is sent for a payload: frames of 16,777,215 bytes and one of fewer, perhaps none, numbered in turn. */
  lemma {:induction false} FramesAre(bytes: seq<Byte>, payload: seq<Byte>, sequence: nat)
    ensures bytes == Frame(payload, sequence) <==> InFrames(bytes, payload, sequence)
    decreases |payload|
  {
    hide Header, LittleEndian;
    HeaderIs(|payload|, sequence);
    HeaderIs(16_777_215, sequence);
    if |payload| >= 16_777_215 {
      var header, first, rest := Header(16_777_215, sequence), payload[..16_777_215], payload[16_777_215..];
      if |bytes| >= 16_777_219 {
        FramesAre(bytes[16_777_219..], rest, sequence + 1);
        FrontIs(bytes, header, first, Frame(rest, sequence + 1));
      }
    }
  }

  lemma FrontIs(bytes: seq<Byte>, header: seq<Byte>, first: seq<Byte>, rest: seq<Byte>)
    requires |header| == 4 && |first| == 16_777_215 && |bytes| >= 16_777_219
    ensures bytes == header + first + rest <==>
            bytes[..4] == header && bytes[4..16_777_219] == first && bytes[16_777_219..] == rest
  {
    assert bytes == bytes[..4] + bytes[4..16_777_219] + bytes[16_777_219..];
    var all := header + first + rest;
    assert all[..4] == header && all[4..16_777_219] == first && all[16_777_219..] == rest;
  }

  /* ---------- Length-encoded integers ---------- */

  // NULL in a row, a number, or an integer too large for one.
  datatype LenEnc = NullMarker | Number(n: nat) | Big(n: nat)

  function WriteLenEnc(value: nat): seq<Byte> {
    if value < 0xfb then [value]
    else if value <= 0xffff then [0xfc] + LittleEndian(value, 2)
    else if value <= 0xff_ffff then [0xfd] + LittleEndian(value, 3)
    else [0xfe] + LittleEndian(value, 8)
  }

  // How many bytes follow the first one.
  function Width(first: Byte): nat {
    if first <= 0xfb then 0 else if first == 0xfc then 2 else if first == 0xfd then 3 else 8
  }

  // The value and the bytes after it; nothing when the bytes end too soon.
  function ReadLenEnc(bytes: seq<Byte>): Option<(LenEnc, seq<Byte>)> {
    if bytes == [] || |bytes| < 1 + Width(bytes[0]) then None
    else
      var first, rest := bytes[0], bytes[1 + Width(bytes[0])..];
      var value := FromLittleEndian(bytes[1..1 + Width(first)]);
      Some((if first < 0xfb then Number(first)
            else if first == 0xfb then NullMarker
            else if value <= MAX_SAFE then Number(value) else Big(value), rest))
  }

  lemma Widths()
    ensures Pow256(2) == 0x1_0000 && Pow256(3) == 0x100_0000 && Pow256(8) == 0x1_0000_0000_0000_0000
  {
    assert Pow256(4) == 0x1_0000_0000;
    assert Pow256(6) == 0x1_0000_0000_0000;
  }

  /** Every length up to 2^53 - 1 is read back, whatever follows; one beyond comes back as a bigint. */
  lemma LengthComesBack(value: nat, tail: seq<Byte>)
    requires value < 0x1_0000_0000_0000_0000
    ensures ReadLenEnc(WriteLenEnc(value) + tail) ==
            Some((if value <= 0x1f_ffff_ffff_ffff then Number(value) else Big(value), tail))
  {
    hide LittleEndian, FromLittleEndian;
    Widths();
    var width := if value < 0xfb then 0 else if value <= 0xffff then 2 else if value <= 0xff_ffff then 3 else 8;
    var bytes := WriteLenEnc(value) + tail;
    if value >= 0xfb {
      LittleEndianRead(value, width);
      assert bytes[1..1 + width] == LittleEndian(value, width);
    }
    assert bytes[1 + width..] == tail;
  }

  // What the bytes at the front stand for, and what is behind them.
  predicate LengthIs(bytes: seq<Byte>, value: LenEnc, rest: seq<Byte>) {
    && bytes != []
    && if bytes[0] < 0xfb then value == Number(bytes[0]) && rest == bytes[1..]
       else if bytes[0] == 0xfb then value == NullMarker && rest == bytes[1..]
       else if bytes[0] == 0xfc then |bytes| >= 3 && value == Number(Wide(bytes[1], bytes[2], 0, 0)) && rest == bytes[3..]
       else if bytes[0] == 0xfd then
         |bytes| >= 4 && value == Number(Wide(bytes[1], bytes[2], bytes[3], 0)) && rest == bytes[4..]
       else
         && |bytes| >= 9 && rest == bytes[9..]
         && var low := Wide(bytes[1], bytes[2], bytes[3], bytes[4]);
            var high := Wide(bytes[5], bytes[6], bytes[7], bytes[8]);
            var n := low + 0x1_0000_0000 * high;
            value == if n <= 0x1f_ffff_ffff_ffff then Number(n) else Big(n)
  }

  /** A length-encoded integer at the front of any bytes is read as what those bytes stand for, or is cut off. */
  lemma LengthRead(bytes: seq<Byte>, value: LenEnc, rest: seq<Byte>)
    ensures ReadLenEnc(bytes) == Some((value, rest)) <==> LengthIs(bytes, value, rest)
  {
    hide FromLittleEndian;
    if bytes != [] {
      var width := if bytes[0] <= 0xfb then 0 else if bytes[0] == 0xfc then 2 else if bytes[0] == 0xfd then 3 else 8;
      if |bytes| >= 1 + width {
        var body := bytes[1..1 + width];
        FewBytes(body);
        if width == 8 {
          EightBytes(body);
          FewBytes(body[..4]);
          FewBytes(body[4..]);
        }
      }
    }
  }
}
