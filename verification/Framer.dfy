/**
 The Framer's write buffer and frame-order state, and the two loops that split a header block
 over frames: writeHeaders of the client and splitHeaderBlock of the server.
 */
module Framers {
  import opened Wrappers
  import opened Sequences
  import opened Bytes
  import opened Frames
  import opened HeaderBlocks

  class Framer {
    var wbuf: seq<byte>
    var out: seq<byte>
    var lastHeaderStream: nat

    constructor ()
      ensures wbuf == [] && out == [] && lastHeaderStream == 0
    {
      wbuf, out, lastHeaderStream := [], [], 0;
    }

    method StartWrite(ftype: byte, flags: byte, id: nat)
      requires id < 0x1_0000_0000
      modifies this`wbuf
      ensures wbuf == [0, 0, 0, ftype, flags] + U32(id)
    {
      wbuf := [0, 0, 0, ftype, flags] + U32(id);
    }

    /** endWrite fills in the length; not ok when the frame is too large. */
    method EndWrite(ghost ftype: byte, ghost flags: byte, ghost id: nat, ghost payload: seq<byte>) returns (ok: bool)
      requires id < 0x1_0000_0000 && wbuf == [0, 0, 0, ftype, flags] + U32(id) + payload
      modifies this`wbuf, this`out
      ensures ok == (|payload| < MAX_LENGTH) && out == old(out) + FrameBytes(ftype, flags, id, payload)
    {
      var length := |wbuf| - FRAME_HEADER_LEN;
      if length >= MAX_LENGTH {
        return false;
      }
      hide U32;
      assert |U32(id)| == 4 by { FrameBytesIs(ftype, flags, id, payload); }
      wbuf := U24(length) + wbuf[3..];
      assert wbuf == FrameBytes(ftype, flags, id, payload);
      out := out + wbuf;
      return true;
    }

    method WriteHeaders(id: nat, endStream: bool, endHeaders: bool, pad: byte, p: Priority, fragment: seq<byte>) returns (ok: bool)
      requires id < 0x1_0000_0000
      modifies this`wbuf, this`out
      ensures var r := Frames.WriteHeaders(id, endStream, endHeaders, pad, p, fragment);
              ok == r.Ok? && out == if ok then old(out) + r.value else old(out)
    {
      hide FrameBytes, U32, FlagByte, PriorityBytes;
      if id == 0 || id >= STREAM_LIMIT {
        return false;
      }
      var flags := FlagByte(HeadersFlags(endStream, endHeaders, pad, p));
      StartWrite(HEADERS, flags, id);
      ghost var head := wbuf;
      if pad != 0 {
        wbuf := wbuf + [pad];
      }
      if !IsZero(p) {
        if p.dep >= STREAM_LIMIT {
          return false;
        }
        wbuf := wbuf + PriorityBytes(p);
      }
      wbuf := wbuf + fragment;
      wbuf := wbuf + Zeros(pad);
      assert wbuf == head + HeadersPayload(pad, p, fragment);
      TooLarge(HEADERS, flags, id, HeadersPayload(pad, p, fragment));
      ok := EndWrite(HEADERS, flags, id, HeadersPayload(pad, p, fragment));
    }

    lemma {:induction false} TooLarge(ftype: byte, flags: byte, id: nat, payload: seq<byte>)
      requires id < 0x1_0000_0000
      ensures |payload| >= MAX_LENGTH ==> FrameBytes(ftype, flags, id, payload) == []
    {
    }

    method WriteContinuation(id: nat, endHeaders: bool, fragment: seq<byte>) returns (ok: bool)
      requires id < 0x1_0000_0000
      modifies this`wbuf, this`out
      ensures var r := Frames.WriteContinuation(id, endHeaders, fragment);
              ok == r.Ok? && out == if ok then old(out) + r.value else old(out)
    {
      hide FrameBytes, U32, FlagByte;
      if id == 0 || id >= STREAM_LIMIT {
        return false;
      }
      var flags := FlagByte(Flags(false, endHeaders, false, false));
      StartWrite(CONTINUATION, flags, id);
      wbuf := wbuf + fragment;
      TooLarge(CONTINUATION, flags, id, fragment);
      ok := EndWrite(CONTINUATION, flags, id, fragment);
    }

    /** checkFrameOrder */
    method CheckFrameOrder(h: Header) returns (ok: bool)
      modifies this`lastHeaderStream
      ensures ok == Order(old(lastHeaderStream), h).Some?
      ensures lastHeaderStream == if ok then Order(old(lastHeaderStream), h).value else old(lastHeaderStream)
    {
      if lastHeaderStream != 0 {
        if h.ftype != CONTINUATION {
          return false;
        }
        if h.id != lastHeaderStream {
          return false;
        }
      } else if h.ftype == CONTINUATION {
        return false;
      }
      if h.ftype == HEADERS || h.ftype == CONTINUATION {
        lastHeaderStream := if FlagsOf(h.flags).endHeaders then 0 else h.id;
      }
      return true;
    }

    /** One frame of a block: HEADERS first, then CONTINUATION. An error of the write is ignored. */
    method WritePiece(id: nat, endStream: bool, max: nat, p: Priority, block: seq<byte>, first: bool) returns (rest: seq<byte>)
      requires id < 0x1_0000_0000 && 0 < max && block != []
      modifies this`wbuf, this`out
      ensures |rest| < |block| && rest == block[|Chunk(block, max)|..]
      ensures out == old(out) + Attempt(id, endStream, max, p, block, first)
    {
      hide FrameBytes, FlagByte, HeadersPayload;
      var chunk := block;
      if |chunk| > max {
        chunk := chunk[..max];
      }
      rest := block[|chunk|..];
      var ok;
      if first {
        ok := WriteHeaders(id, endStream, |rest| == 0, 0, p, chunk);
      } else {
        ok := WriteContinuation(id, |rest| == 0, chunk);
      }
    }

    /** writeHeaders of the client. With max 16384 and no priority, splitHeaderBlock of the server. */
    method WriteBlock(id: nat, endStream: bool, max: nat, p: Priority, block: seq<byte>)
      requires id < 0x1_0000_0000 && 0 < max
      modifies this`wbuf, this`out
      ensures out == old(out) + Attempts(id, endStream, max, p, block, true)
    {
      hide Attempt;
      var hdrs, first := block, true;
      while |hdrs| > 0
        invariant out + Attempts(id, endStream, max, p, hdrs, first) == old(out) + Attempts(id, endStream, max, p, block, true)
        decreases |hdrs|
      {
        Assoc(out, Attempt(id, endStream, max, p, hdrs, first), Attempts(id, endStream, max, p, hdrs[|Chunk(hdrs, max)|..], false));
        hdrs := WritePiece(id, endStream, max, p, hdrs, first);
        first := false;
      }
      assert out + [] == out;
    }
  }

  /** What a frame leaves in the output: nothing when it is refused. */
  function Octets(r: Result<seq<byte>, Error>): (s: seq<byte>) {
    if r.Ok? then r.value else []
  }

  /** The first frame of what is left of a block. */
  function Attempt(id: nat, endStream: bool, max: nat, p: Priority, block: seq<byte>, first: bool): (s: seq<byte>)
    requires id < 0x1_0000_0000
  {
    if first then Octets(WriteHeaders(id, endStream, |block| <= max, 0, p, Chunk(block, max)))
    else Octets(WriteContinuation(id, |block| <= max, Chunk(block, max)))
  }

  /** All frames of a block, each written or refused by itself. */
  function Attempts(id: nat, endStream: bool, max: nat, p: Priority, block: seq<byte>, first: bool): (s: seq<byte>)
    requires id < 0x1_0000_0000 && max > 0
    decreases |block|
  {
    if block == [] then []
    else Attempt(id, endStream, max, p, block, first) + Attempts(id, endStream, max, p, block[|Chunk(block, max)|..], false)
  }

  lemma {:induction false} ContinuationsWritten(id: nat, endStream: bool, max: nat, p: Priority, block: seq<byte>)
    requires 0 < id < STREAM_LIMIT && 0 < max < MAX_LENGTH
    ensures (forall x <- Continuations(id, max, block) :: x.id < STREAM_LIMIT)
    ensures Attempts(id, endStream, max, p, block, false) == Wire(Continuations(id, max, block))
    decreases |block|
  {
    hide FrameBytes, FlagByte, FlagsOf, EndsHeaders;
    if block != [] {
      ContinuationsShape(id, max, block);
      var rest := block[|Chunk(block, max)|..];
      ContinuationsWritten(id, endStream, max, p, rest);
      assert Continuations(id, max, block)[1..] == Continuations(id, max, rest);
    }
  }

  /** On a valid stream, with a valid dependency and frames below 2^24 octets, all frames of the block are written. */
  lemma {:induction false} BlockWritten(id: nat, endStream: bool, max: nat, p: Priority, block: seq<byte>)
    requires 0 < id < STREAM_LIMIT && p.dep < STREAM_LIMIT && 0 < max && max + PriorityLength(p) < MAX_LENGTH
    ensures (forall x <- Pieces(id, endStream, max, p, block) :: x.id < STREAM_LIMIT)
    ensures Attempts(id, endStream, max, p, block, true) == Wire(Pieces(id, endStream, max, p, block))
  {
    hide FrameBytes, FlagByte, FlagsOf, EndsHeaders, HeadersPayload, Continuations;
    if block != [] {
      PiecesShape(id, endStream, max, p, block);
      var chunk := Chunk(block, max);
      HeadersPayloadLength(p, chunk);
      ContinuationsWritten(id, endStream, max, p, block[|chunk|..]);
      assert Pieces(id, endStream, max, p, block)[1..] == Continuations(id, max, block[|chunk|..]);
    }
  }

  /** On an invalid stream nothing is. */
  lemma {:induction false} InvalidStreamWritesNothing(id: nat, endStream: bool, max: nat, p: Priority, block: seq<byte>, first: bool)
    requires (id == 0 || STREAM_LIMIT <= id) && id < 0x1_0000_0000 && max > 0
    ensures Attempts(id, endStream, max, p, block, first) == []
    decreases |block|
  {
    if block != [] {
      InvalidStreamWritesNothing(id, endStream, max, p, block[|Chunk(block, max)|..], false);
    }
  }

  /** An invalid dependency, or a priority that makes the first frame too large, loses the HEADERS frame, and the CONTINUATION frames are written. */
  lemma {:induction false} HeadersLost(id: nat, endStream: bool, max: nat, p: Priority, block: seq<byte>)
    requires 0 < id < STREAM_LIMIT && 0 < max < MAX_LENGTH && block != []
    requires p.dep >= STREAM_LIMIT || |Chunk(block, max)| + PriorityLength(p) >= MAX_LENGTH
    ensures (forall x <- Continuations(id, max, block[|Chunk(block, max)|..]) :: x.id < STREAM_LIMIT)
    ensures Attempts(id, endStream, max, p, block, true) == Wire(Continuations(id, max, block[|Chunk(block, max)|..]))
  {
    hide FrameBytes, FlagByte, HeadersPayload, Continuations;
    var chunk := Chunk(block, max);
    if p.dep < STREAM_LIMIT {
      HeadersPayloadLength(p, chunk);
    }
    ContinuationsWritten(id, endStream, max, p, block[|chunk|..]);
    assert Attempt(id, endStream, max, p, block, true) == [];
    assert [] + Attempts(id, endStream, max, p, block[|chunk|..], false) == Attempts(id, endStream, max, p, block[|chunk|..], false);
  }
}
