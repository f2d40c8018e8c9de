/**
 The packet reader and writer as the source keeps them: a list of chunks with a byte count, the parts of
 a payload that goes on, and loops over offsets.
 */
module PacketReader {
  import opened Bytes
  import opened Texts
  import opened Wrappers
  import opened Packets

  class PacketReader {
    var chunks: seq<seq<Byte>>
    var buffered: nat
    var continued: seq<seq<Byte>>
    var continuedBytes: nat

    ghost predicate Valid()
      reads this
    {
      buffered == |Concat(chunks)| && continuedBytes == |Concat(continued)|
    }

    function Value(): State
      reads this
    {
      State(Concat(chunks), continued)
    }

    constructor ()
      ensures Valid() && Value() == INITIAL
    {
      chunks, buffered, continued, continuedBytes := [], 0, [], 0;
    }

    /** Adds bytes from the socket; every packet they complete, or nothing when one is too large. */
    method Push(chunk: seq<Byte>) returns (packets: Option<seq<Packet>>)
      requires Valid()
      modifies this
      ensures packets.Some? ==> Valid()
      ensures Packets.Push(old(Value()), chunk) == if packets.Some? then Read(Value(), packets.value) else Oversized
    {
      hide Concat, Drain, FirstFrame, TakeFrame;
      ghost var was := Value().(buffer := Value().buffer + chunk);
      ConcatOfTwo(chunks, [chunk]);
      ConcatOfOne(chunk);
      chunks := chunks + [chunk];
      buffered := buffered + |chunk|;
      var out: seq<Packet> := [];
      BeforeTwice([], [], Drain(was));
      while true
        invariant Valid() && Drain(was) == Before(out, Drain(Value()))
        decreases buffered
      {
        ghost var before := Value();
        DrainOnce(before);
        var length := FrameLength();
        if length == None {
          assert out + [] == out;
          return Some(out);
        }
        var packet := OneFrame(length.value);
        if packet == None {
          return None;
        }
        BeforeTwice(out, packet.value, Drain(Value()));
        out := out + packet.value;
      }
    }

    // The length of the next frame, once the whole frame has come.
    method FrameLength() returns (length: Option<nat>)
      requires Valid()
      ensures length == FirstFrame(Value().buffer)
    {
      hide Concat, FromLittleEndian;
      if buffered < 4 {
        return None;
      }
      var header := Peek(4);
      assert header[..3] == Concat(chunks)[..3];
      var n := FromLittleEndian(header[..3]);
      length := if buffered < 4 + n then None else Some(n);
    }

    // Takes one frame; no packet while the payload goes on, and nothing at all when it is too large.
    method OneFrame(length: nat) returns (packets: Option<seq<Packet>>)
      requires Valid() && FirstFrame(Value().buffer) == Some(length)
      modifies this
      ensures packets.Some? ==> Valid() && buffered < old(buffered)
      ensures TakeFrame(old(Value()), length) == if packets.Some? then Read(Value(), packets.value) else Oversized
    {
      hide Concat, FirstFrame;
      ghost var was := Concat(chunks);
      var header := Take(4);
      var payload: seq<Byte> := [];
      if length != 0 {
        payload := Take(length);
      }
      assert payload == was[4..4 + length] && Concat(chunks) == was[4 + length..] by {
        assert was[4..][..length] == was[4..4 + length] && was[4..][length..] == was[4 + length..];
      }
      ConcatOfTwo(continued, [payload]);
      ConcatOfOne(payload);
      if length == MAX_PAYLOAD {
        continued := continued + [payload];
        continuedBytes := continuedBytes + |payload|;
        if continuedBytes > MAX_ACCEPTED_BYTES {
          return None;
        }
        return Some([]);
      }
      if continued != [] {
        packets := Some([Packet(header[3], Concat(continued + [payload]))]);
      } else {
        NothingContinued(payload);
        packets := Some([Packet(header[3], payload)]);
      }
      continued := [];
      continuedBytes := 0;
      NoBytes();
    }

    lemma NothingContinued(payload: seq<Byte>)
      ensures Concat([] + [payload]) == payload
    {
      ConcatOfOne(payload);
      assert [] + [payload] == [payload];
    }

    lemma NoBytes()
      ensures Concat<Byte>([]) == []
    {
    }

    method Peek(length: nat) returns (bytes: seq<Byte>)
      requires Valid() && 0 < length <= buffered
      ensures |bytes| == length && bytes == Concat(chunks)[..length]
    {
      hide Concat;
      SomeChunk();
      ConcatFirst(chunks);
      if |chunks[0]| >= length {
        return chunks[0][..length];
      }
      bytes := Concat(chunks)[..length];
    }

    lemma SomeChunk()
      requires Valid() && buffered > 0
      ensures chunks != []
    {
    }

    method Take(length: nat) returns (bytes: seq<Byte>)
      requires Valid() && 0 < length <= buffered
      modifies this`chunks, this`buffered
      ensures Valid() && buffered == old(buffered) - length
      ensures bytes == old(Concat(chunks))[..length] && Concat(chunks) == old(Concat(chunks))[length..]
    {
      hide Concat;
      SomeChunk();
      ConcatFirst(chunks);
      buffered := buffered - length;
      var first := chunks[0];
      if |first| >= length {
        ghost var rest := chunks[1..];
        if |first| == length {
          chunks := chunks[1..];
        } else {
          ConcatFirst([first[length..]] + rest);
          chunks := chunks[0 := first[length..]];
          assert chunks == [first[length..]] + rest;
        }
        return first[..length];
      }
      var all := Concat(chunks);
      ConcatOfOne(all[length..]);
      NoBytes();
      chunks := if |all| > length then [all[length..]] else [];
      bytes := all[..length];
    }
  }

  /** Frames a payload; the bytes, and the sequence number after the last frame. */
  method FramePacket(payload: seq<Byte>, firstSequence: nat) returns (frame: seq<Byte>, next: nat)
    ensures frame == Frame(payload, firstSequence) && next == NextSequence(payload, firstSequence)
  {
    hide Header, Frame, NextSequence;
    frame := [];
    next := firstSequence;
    var offset := 0;
    assert payload[0..] == payload;
    while true
      invariant offset <= |payload| && next >= firstSequence
      invariant frame + Frame(payload[offset..], next) == Frame(payload, firstSequence)
      invariant NextSequence(payload[offset..], next) == NextSequence(payload, firstSequence)
      decreases |payload| - offset
    {
      var left := |payload| - offset;
      var length := if MAX_PAYLOAD < left then MAX_PAYLOAD else left;
      ghost var rest := payload[offset..];
      SliceOf(payload, offset, length);
      FrontFrame(frame, rest, length, next);
      frame := frame + Header(length, next) + payload[offset..offset + length];
      next := next + 1;
      if length < MAX_PAYLOAD {
        return;
      }
      offset := offset + length;
    }
  }

  lemma SliceOf(payload: seq<Byte>, offset: nat, length: nat)
    requires offset + length <= |payload|
    ensures var rest := payload[offset..];
            rest[..length] == payload[offset..offset + length] && rest[length..] == payload[offset + length..]
  {
  }

  // One frame more: the last one, or a full one.
  lemma FrontFrame(before: seq<Byte>, rest: seq<Byte>, length: nat, sequence: nat)
    requires length == if MAX_PAYLOAD < |rest| then MAX_PAYLOAD else |rest|
    ensures var all := before + Header(length, sequence) + rest[..length];
            if length < MAX_PAYLOAD then
              before + Frame(rest, sequence) == all && NextSequence(rest, sequence) == sequence + 1
            else
              && before + Frame(rest, sequence) == all + Frame(rest[length..], sequence + 1)
              && NextSequence(rest, sequence) == NextSequence(rest[length..], sequence + 1)
  {
    hide Header;
    if length < MAX_PAYLOAD {
      assert rest[..length] == rest;
    } else {
      FullFrames(rest);
    }
  }

  /** A cursor over one payload. */
  class PayloadReader {
    const buffer: seq<Byte>
    var offset: nat

    constructor (buffer: seq<Byte>)
      ensures this.buffer == buffer && offset == 0
    {
      this.buffer, offset := buffer, 0;
    }

    // A length-encoded integer; nothing when the payload ends inside it.
    method LenEnc() returns (value: Option<LenEnc>)
      requires offset <= |buffer|
      modifies this`offset
      ensures offset <= |buffer| || value == None
      ensures var spec := ReadLenEnc(buffer[old(offset)..]);
              if value == None then spec == None else spec == Some((value.value, buffer[offset..]))
    {
      hide FromLittleEndian;
      ghost var was := buffer[offset..];
      if offset == |buffer| {
        return None;
      }
      var first := buffer[offset];
      var width := Width(first);
      offset := offset + 1;
      if offset + width > |buffer| {
        return None;
      }
      var n := FromLittleEndian(buffer[offset..offset + width]);
      assert was[1..1 + width] == buffer[offset..offset + width];
      assert was[1 + width..] == buffer[offset + width..];
      offset := offset + width;
      if first < 0xfb {
        return Some(Number(first));
      }
      if first == 0xfb {
        return Some(NullMarker);
      }
      value := Some(if n <= MAX_SAFE then Number(n) else Big(n));
    }
  }
}
