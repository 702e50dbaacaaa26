/**
 Header blocks: split over a HEADERS frame and CONTINUATION frames, written, read back frame
 by frame under the frame-order automaton, and merged.
 */
module HeaderBlocks {
  import opened Wrappers
  import opened Sequences
  import opened Bytes
  import opened Frames

  //
  // The frame-order automaton
  //

  /** checkFrameOrder: the stream whose header block is open, 0 for none; None for an error. */
  function Order(last: nat, h: Header): (r: Option<nat>) {
    if last != 0 && (h.ftype != CONTINUATION || h.id != last) then None
    else if last == 0 && h.ftype == CONTINUATION then None
    else if h.ftype == HEADERS || h.ftype == CONTINUATION then Some(if FlagsOf(h.flags).endHeaders then 0 else h.id)
    else Some(last)
  }

  predicate Accepts(last: nat, hs: seq<Header>)
    decreases |hs|
  {
    hs == [] || (Order(last, hs[0]).Some? && Accepts(Order(last, hs[0]).value, hs[1..]))
  }

  predicate InBlock(h: Header) {
    h.ftype == HEADERS || h.ftype == CONTINUATION
  }

  /** A header block that b leaves open is continued by the next frame, and only then is there a CONTINUATION. */
  predicate Adjacent(a: Header, b: Header) {
    if InBlock(a) && !FlagsOf(a.flags).endHeaders then b.ftype == CONTINUATION && b.id == a.id
    else b.ftype != CONTINUATION
  }

  ghost predicate Contiguous(hs: seq<Header>) {
    && (hs != [] ==> hs[0].ftype != CONTINUATION)
    && forall i | 0 < i < |hs| :: Adjacent(hs[i - 1], hs[i])
  }

  /** A header block that goes on after h is on a stream other than 0. */
  predicate Streamed(h: Header) {
    InBlock(h) && !FlagsOf(h.flags).endHeaders ==> h.id != 0
  }

  /** The stream that is open after h, if h was acceptable. */
  function Opens(h: Header): (last: nat) {
    if InBlock(h) && !FlagsOf(h.flags).endHeaders then h.id else 0
  }

  /** b continues the header block that a leaves open on a stream other than 0, and otherwise continues none. */
  predicate Continues(a: Header, b: Header) {
    if Opens(a) != 0 then b.ftype == CONTINUATION && b.id == Opens(a) else b.ftype != CONTINUATION
  }

  ghost predicate Chained(hs: seq<Header>) {
    && (hs != [] ==> hs[0].ftype != CONTINUATION)
    && forall i | 0 < i < |hs| :: Continues(hs[i - 1], hs[i])
  }

  lemma {:induction false} AcceptsAfter(h: Header, hs: seq<Header>)
    ensures Accepts(Opens(h), hs) <==> (hs != [] ==> Continues(h, hs[0])) && forall i | 0 < i < |hs| :: Continues(hs[i - 1], hs[i])
    decreases |hs|
  {
    hide FlagsOf;
    if hs != [] {
      assert hs[0] in hs;
      if Continues(h, hs[0]) {
        assert Order(Opens(h), hs[0]) == Some(Opens(hs[0]));
        AcceptsAfter(hs[0], hs[1..]);
        Shift(hs);
      } else {
        assert Order(Opens(h), hs[0]) == None;
      }
    }
  }

  lemma {:induction false} Shift(hs: seq<Header>)
    requires hs != []
    ensures (forall i | 0 < i < |hs| :: Continues(hs[i - 1], hs[i]))
       <==> (|hs| > 1 ==> Continues(hs[0], hs[1..][0])) && forall i | 0 < i < |hs[1..]| :: Continues(hs[1..][i - 1], hs[1..][i])
  {
    hide Continues;
    var t := hs[1..];
    if forall i | 0 < i < |hs| :: Continues(hs[i - 1], hs[i]) {
      forall i | 0 < i < |t|
        ensures Continues(t[i - 1], t[i])
      {
        assert Continues(hs[i + 1 - 1], hs[i + 1]);
      }
      assert |hs| > 1 ==> Continues(hs[1 - 1], hs[1]);
    }
    if (|hs| > 1 ==> Continues(hs[0], t[0])) && forall i | 0 < i < |t| :: Continues(t[i - 1], t[i]) {
      forall i | 0 < i < |hs|
        ensures Continues(hs[i - 1], hs[i])
      {
        if i > 1 {
          assert Continues(t[i - 1 - 1], t[i - 1]);
        }
      }
    }
  }

  /**
   The automaton accepts exactly the sequences in which a block left open on a stream other than 0
   is continued at once. These are the sequences whose header blocks are contiguous, if no block is
   left open on stream 0.
   */
  lemma {:induction false} AcceptsContiguous(hs: seq<Header>)
    ensures Accepts(0, hs) <==> Chained(hs)
    ensures (forall x <- hs :: Streamed(x)) ==> (Accepts(0, hs) <==> Contiguous(hs))
  {
    hide FlagsOf, Accepts;
    AcceptsAfter(Header(0, DATA, 0, 0), hs);
    if forall x <- hs :: Streamed(x) {
      forall i | 0 < i < |hs|
        ensures Continues(hs[i - 1], hs[i]) <==> Adjacent(hs[i - 1], hs[i])
      {
        assert Streamed(hs[i - 1]);
      }
    }
  }

  /** On stream 0 an open header block is forgotten; the frame itself is then refused as HEADERS on stream 0. */
  lemma {:induction false} StreamZeroIsForgotten(h: Header)
    requires h == Header(1, HEADERS, 0, 0)
    ensures Accepts(0, [h, Header(1, DATA, 0, 1)]) && !Contiguous([h, Header(1, DATA, 0, 1)])
    ensures forall payload :: ParseHeaders(h, payload) == Err(ConnectionError)
  {
    var d := Header(1, DATA, 0, 1);
    assert [h, d][1..] == [d] && [d][1..] == [];
    assert Accepts(0, [d]);
    assert !Adjacent([h, d][1 - 1], [h, d][1]);
  }

  //
  // Splitting
  //

  /** One frame of a header block. */
  datatype Piece = Piece(ftype: byte, flags: byte, id: nat, payload: seq<byte>)

  function HeaderOf(x: Piece): (h: Header) {
    Header(|x.payload|, x.ftype, x.flags, x.id)
  }

  function HeadersOf(xs: seq<Piece>): (hs: seq<Header>) {
    if xs == [] then [] else [HeaderOf(xs[0])] + HeadersOf(xs[1..])
  }

  function Chunk(block: seq<byte>, max: nat): (c: seq<byte>) {
    if |block| > max then block[..max] else block
  }

  function ContinuationFlags(endHeaders: bool): (b: byte) {
    FlagByte(Flags(false, endHeaders, false, false))
  }

  function Continuations(id: nat, max: nat, block: seq<byte>): (xs: seq<Piece>)
    requires max > 0
  {
    if block == [] then []
    else [Piece(CONTINUATION, ContinuationFlags(|block| <= max), id, Chunk(block, max))] + Continuations(id, max, block[|Chunk(block, max)|..])
  }

  /** The frames of a block: chunks of max octets, the first with the priority if there is one. */
  function Pieces(id: nat, endStream: bool, max: nat, p: Priority, block: seq<byte>): (xs: seq<Piece>)
    requires max > 0 && p.dep < STREAM_LIMIT
  {
    if block == [] then []
    else [Piece(HEADERS, FlagByte(HeadersFlags(endStream, |block| <= max, 0, p)), id, HeadersPayload(0, p, Chunk(block, max)))]
         + Continuations(id, max, block[|Chunk(block, max)|..])
  }

  function PriorityLength(p: Priority): (n: nat) {
    if IsZero(p) then 0 else 5
  }

  lemma {:induction false} HeadersPayloadLength(p: Priority, chunk: seq<byte>)
    requires p.dep < STREAM_LIMIT
    ensures |HeadersPayload(0, p, chunk)| == |chunk| + PriorityLength(p)
  {
    if !IsZero(p) {
      PriorityRoundTrip(p, []);
    }
  }

  function EndsHeaders(x: Piece): (b: bool) {
    FlagsOf(x.flags).endHeaders
  }

  lemma {:induction false} ContinuationsShape(id: nat, max: nat, block: seq<byte>)
    requires max > 0 && block != []
    ensures var xs := Continuations(id, max, block);
            && xs != []
            && (forall i | 0 <= i < |xs| :: xs[i].ftype == CONTINUATION && xs[i].id == id && 0 < |xs[i].payload| <= max)
            && (forall i | 0 <= i < |xs| :: EndsHeaders(xs[i]) <==> i == |xs| - 1)
    decreases |block|
  {
    hide FlagByte, FlagsOf, EndsHeaders;
    ContinuationEnds(id, Chunk(block, max), |block| <= max);
    var rest := block[|Chunk(block, max)|..];
    if rest != [] {
      ContinuationsShape(id, max, rest);
    }
  }

  lemma {:induction false} ContinuationEnds(id: nat, payload: seq<byte>, endHeaders: bool)
    ensures EndsHeaders(Piece(CONTINUATION, ContinuationFlags(endHeaders), id, payload)) == endHeaders
  {
    hide FlagByte, FlagsOf;
    FlagsRoundTrip(Flags(false, endHeaders, false, false));
  }

  /** HEADERS first, then CONTINUATION only; END_HEADERS on the last frame only; sizes within the limits. */
  lemma {:induction false} PiecesShape(id: nat, endStream: bool, max: nat, p: Priority, block: seq<byte>)
    requires max > 0 && p.dep < STREAM_LIMIT && block != []
    ensures var xs := Pieces(id, endStream, max, p, block);
            && xs != [] && xs[0].ftype == HEADERS && |xs[0].payload| <= max + PriorityLength(p)
            && (forall i | 0 < i < |xs| :: xs[i].ftype == CONTINUATION && |xs[i].payload| <= max)
            && (forall i | 0 <= i < |xs| :: xs[i].id == id && (EndsHeaders(xs[i]) <==> i == |xs| - 1))
  {
    hide FlagByte, FlagsOf, EndsHeaders, HeadersPayload, Continuations;
    var chunk := Chunk(block, max);
    HeadersPayloadLength(p, chunk);
    HeadersEnds(id, endStream, |block| <= max, p, chunk);
    if |block| > max {
      ContinuationsShape(id, max, block[max..]);
    } else {
      assert block[|chunk|..] == [];
      NoContinuations(id, max);
    }
  }

  lemma {:induction false} NoContinuations(id: nat, max: nat)
    requires max > 0
    ensures Continuations(id, max, []) == []
  {
  }

  lemma {:induction false} HeadersEnds(id: nat, endStream: bool, endHeaders: bool, p: Priority, chunk: seq<byte>)
    requires p.dep < STREAM_LIMIT
    ensures EndsHeaders(Piece(HEADERS, FlagByte(HeadersFlags(endStream, endHeaders, 0, p)), id, HeadersPayload(0, p, chunk))) == endHeaders
  {
    hide FlagByte, FlagsOf;
    FlagsRoundTrip(HeadersFlags(endStream, endHeaders, 0, p));
  }

  /** The automaton accepts the frames of a block and is ready for anything afterwards. */
  lemma {:induction false} PiecesAccepted(id: nat, endStream: bool, max: nat, p: Priority, block: seq<byte>)
    requires max > 0 && p.dep < STREAM_LIMIT && id != 0
    ensures Accepts(0, HeadersOf(Pieces(id, endStream, max, p, block)))
  {
    hide FlagByte, FlagsOf, HeadersPayload, Continuations;
    if block != [] {
      var chunk := Chunk(block, max);
      HeadersEnds(id, endStream, |block| <= max, p, chunk);
      ContinuationsAccepted(id, max, block[|chunk|..]);
      var xs := Pieces(id, endStream, max, p, block);
      assert xs[1..] == Continuations(id, max, block[|chunk|..]);
    }
  }

  lemma {:induction false} ContinuationsAccepted(id: nat, max: nat, block: seq<byte>)
    requires max > 0 && id != 0
    ensures Accepts(if block == [] then 0 else id, HeadersOf(Continuations(id, max, block)))
    decreases |block|
  {
    hide FlagByte, FlagsOf;
    if block != [] {
      var chunk := Chunk(block, max);
      ContinuationEnds(id, chunk, |block| <= max);
      ContinuationsAccepted(id, max, block[|chunk|..]);
      var xs := Continuations(id, max, block);
      assert xs[1..] == Continuations(id, max, block[|chunk|..]);
    }
  }

  //
  // Writing and reading back
  //

  function Wire(xs: seq<Piece>): (s: seq<byte>)
    requires forall x <- xs :: x.id < STREAM_LIMIT
  {
    if xs == [] then [] else FrameBytes(xs[0].ftype, xs[0].flags, xs[0].id, xs[0].payload) + Wire(xs[1..])
  }

  /** A header block as it is read: readMetaFrame before the fields are decoded. */
  datatype Block = Block(id: nat, endStream: bool, priority: Option<Priority>, block: seq<byte>, rest: seq<byte>)

  /** CONTINUATION frames up to END_HEADERS, appended to got. */
  function ReadContinuations(s: seq<byte>, maxRead: nat, id: nat, got: seq<byte>): (r: Result<(seq<byte>, seq<byte>), Error>)
    decreases |s|
  {
    match ReadRaw(s, maxRead)
    case Err(e) => Err(e)
    case Ok(f) =>
      if Order(id, f.header).None? then Err(ConnectionError)
      else match ParseContinuation(f.header, f.payload)
        case Err(e) => Err(e)
        case Ok(c) =>
          if c.endHeaders then Ok((got + c.fragment, f.rest)) else ReadContinuations(f.rest, maxRead, id, got + c.fragment)
  }

  function ReadBlock(s: seq<byte>, maxRead: nat): (r: Result<Block, Error>) {
    match ReadRaw(s, maxRead)
    case Err(e) => Err(e)
    case Ok(f) =>
      if Order(0, f.header).None? || f.header.ftype != HEADERS then Err(ConnectionError)
      else match ParseHeaders(f.header, f.payload)
        case Err(e) => Err(e)
        case Ok(h) =>
          if h.endHeaders then Ok(Block(h.id, h.endStream, h.priority, h.fragment, f.rest))
          else match ReadContinuations(f.rest, maxRead, h.id, h.fragment)
            case Err(e) => Err(e)
            case Ok(c) => Ok(Block(h.id, h.endStream, h.priority, c.0, c.1))
  }

  /** The first CONTINUATION frame of what is left of a block is read back. */
  lemma {:induction false} NextFrame(id: nat, max: nat, block: seq<byte>, rest: seq<byte>, maxRead: nat)
    requires 0 < id < STREAM_LIMIT && 0 < max < MAX_LENGTH && block != [] && max <= maxRead
    ensures (forall x <- Continuations(id, max, block) :: x.id < STREAM_LIMIT)
    ensures var chunk := Chunk(block, max);
            var more := Continuations(id, max, block[|chunk|..]);
            var r := ReadRaw(Wire(Continuations(id, max, block)) + rest, maxRead);
            && (forall x <- more :: x.id < STREAM_LIMIT)
            && r.Ok? && r.value.rest == Wire(more) + rest && Order(id, r.value.header).Some?
            && ParseContinuation(r.value.header, r.value.payload) == Ok(ContinuationFrame(id, |block| <= max, chunk))
  {
    hide FlagByte, FlagsOf, ReadRaw, FrameBytes;
    ContinuationsShape(id, max, block);
    var xs, chunk := Continuations(id, max, block), Chunk(block, max);
    ContinuationEnds(id, chunk, |block| <= max);
    var tail := Continuations(id, max, block[|chunk|..]);
    assert xs[1..] == tail;
    Assoc(FrameBytes(xs[0].ftype, xs[0].flags, id, chunk), Wire(tail), rest);
    RawRoundTrip(CONTINUATION, xs[0].flags, id, chunk, Wire(tail) + rest, maxRead);
  }

  /** The HEADERS frame of a block is read back if the reader takes frames of its size. */
  lemma {:induction false} FirstFrame(id: nat, endStream: bool, max: nat, p: Priority, block: seq<byte>, rest: seq<byte>, maxRead: nat)
    requires 0 < id < STREAM_LIMIT && p.dep < STREAM_LIMIT && block != []
    requires 0 < max && max + PriorityLength(p) < MAX_LENGTH
    ensures (forall x <- Pieces(id, endStream, max, p, block) :: x.id < STREAM_LIMIT)
    ensures var chunk := Chunk(block, max);
            var more := Continuations(id, max, block[|chunk|..]);
            var r := ReadRaw(Wire(Pieces(id, endStream, max, p, block)) + rest, maxRead);
            && (forall x <- more :: x.id < STREAM_LIMIT)
            && (|chunk| + PriorityLength(p) > maxRead ==> r == Err(FrameTooLarge))
            && (|chunk| + PriorityLength(p) <= maxRead ==>
                && r.Ok? && r.value.rest == Wire(more) + rest && Order(0, r.value.header).Some? && r.value.header.ftype == HEADERS
                && ParseHeaders(r.value.header, r.value.payload)
                   == Ok(HeadersFrame(id, endStream, |block| <= max, if IsZero(p) then None else Some(p), chunk)))
  {
    hide FlagByte, FlagsOf, ReadRaw, FrameBytes, HeadersPayload, Continuations, ParseHeaders;
    PiecesShape(id, endStream, max, p, block);
    var xs, chunk := Pieces(id, endStream, max, p, block), Chunk(block, max);
    var tail := Continuations(id, max, block[|chunk|..]);
    assert xs[1..] == tail;
    HeadersPayloadLength(p, chunk);
    Assoc(FrameBytes(HEADERS, xs[0].flags, id, xs[0].payload), Wire(tail), rest);
    RawRoundTrip(HEADERS, xs[0].flags, id, xs[0].payload, Wire(tail) + rest, maxRead);
    HeadersRoundTrip(id, endStream, |block| <= max, 0, p, chunk, |xs[0].payload|);
  }

  lemma {:induction false} ContinuationsRead(id: nat, max: nat, block: seq<byte>, rest: seq<byte>, maxRead: nat, got: seq<byte>)
    requires 0 < id < STREAM_LIMIT && 0 < max < MAX_LENGTH && block != [] && max <= maxRead
    ensures (forall x <- Continuations(id, max, block) :: x.id < STREAM_LIMIT)
    ensures ReadContinuations(Wire(Continuations(id, max, block)) + rest, maxRead, id, got) == Ok((got + block, rest))
    decreases |block|
  {
    hide FlagsOf, ReadRaw, Continuations, Wire;
    NextFrame(id, max, block, rest, maxRead);
    var chunk := Chunk(block, max);
    var more := block[|chunk|..];
    assert chunk + more == block;
    if more != [] {
      ContinuationsRead(id, max, more, rest, maxRead, got + chunk);
      assert got + chunk + more == got + block;
    } else {
      NoContinuations(id, max);
      NoWire(rest);
    }
  }

  lemma {:induction false} NoWire(rest: seq<byte>)
    ensures Wire([]) + rest == rest
  {
  }

  /**
   Reading inverts writing: the frames of a block are merged to the block, and nothing after them
   is touched. A reader whose limit is the writer's refuses the block when the first frame does
   not have room for the priority.
   */
  lemma {:induction false} BlockRoundTrip(id: nat, endStream: bool, max: nat, p: Priority, block: seq<byte>, rest: seq<byte>, maxRead: nat)
    requires 0 < id < STREAM_LIMIT && p.dep < STREAM_LIMIT && block != []
    requires 0 < max && max + PriorityLength(p) < MAX_LENGTH && max <= maxRead
    ensures (forall x <- Pieces(id, endStream, max, p, block) :: x.id < STREAM_LIMIT)
    ensures ReadBlock(Wire(Pieces(id, endStream, max, p, block)) + rest, maxRead)
         == if |Chunk(block, max)| + PriorityLength(p) <= maxRead
            then Ok(Block(id, endStream, if IsZero(p) then None else Some(p), block, rest))
            else Err(FrameTooLarge)
  {
    hide FlagsOf, ReadRaw, Pieces, Continuations, Wire, ReadContinuations, ParseHeaders, Order;
    FirstFrame(id, endStream, max, p, block, rest, maxRead);
    var chunk := Chunk(block, max);
    var more := block[|chunk|..];
    assert chunk + more == block;
    if more != [] {
      ContinuationsRead(id, max, more, rest, maxRead, chunk);
    } else {
      NoContinuations(id, max);
      NoWire(rest);
    }
  }
}
