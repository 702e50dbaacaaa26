/**
 readMetaFrame: the fragments of a header block are given to the HPACK decoder as their frames
 are read, under a limit for the whole header list. The end-to-end theorems are about blocks
 that the encoder wrote, cut into frames.
 */
module MetaHeaders {
  import opened Wrappers
  import opened Bytes
  import opened Frames
  import opened HeaderBlocks
  import opened HpackTables
  import opened HeaderLists
  import E = HpackEncoder
  import L = HpackLockstep
  import P = HpackPrefix
  import W = HpackWire
  import Huffman

  const TWO_31 := 0x8000_0000

  //
  // The loop
  //

  /** The decoder, the octets it keeps, and the tally. */
  datatype Meta = Meta(d: W.Decoder, save: seq<byte>, t: Tally)

  datatype Fed = Going(m: Meta) | Stopped(o: Outcome)

  /** Malformed is an error of the stream; the other errors are of the connection. */
  datatype Outcome =
    | Received(id: nat, endStream: bool, priority: Option<Priority>, fields: seq<HeaderField>, truncated: bool, d: W.Decoder, rest: seq<byte>)
    | Malformed(id: nat, d: W.Decoder, rest: seq<byte>)
    | FrameError(e: Error)
    | ProtocolError
    | CompressionError

  /** Whether a fragment of n octets is given to the decoder. */
  predicate Admits(t: Tally, n: nat) {
    n <= 2 * t.remain % TWO_32 && t.status != Invalid
  }

  ghost function Feed(c: W.Context, rules: Rules, m: Meta, frag: seq<byte>): (r: Fed)
    requires Huffman.Shaped(c.huffman)
  {
    if !Admits(m.t, |frag|) then Stopped(ProtocolError)
    else
      var r := if frag == [] then Sifted(m.d, m.save, m.t, None) else Sift(c, rules, m.d, m.t, m.save + frag);
      if r.err.Some? then Stopped(CompressionError) else Going(Meta(r.d, r.save, r.t))
  }

  /** The loop from a fragment on; s is what comes after its frame. */
  ghost function Gather(c: W.Context, rules: Rules, maxRead: nat, h: HeadersFrame, m: Meta, frag: seq<byte>, ended: bool, s: seq<byte>): (o: Outcome)
    requires Huffman.Shaped(c.huffman)
    decreases |s|
  {
    match Feed(c, rules, m, frag)
    case Stopped(o) => o
    case Going(m') =>
      if ended then Closed(h, m', s)
      else match ReadRaw(s, maxRead)
        case Err(e) => FrameError(e)
        case Ok(f) =>
          if Order(h.id, f.header).None? then FrameError(ConnectionError)
          else match ParseContinuation(f.header, f.payload)
            case Err(e) => FrameError(e)
            case Ok(x) => Gather(c, rules, maxRead, h, m', x.fragment, x.endHeaders, f.rest)
  }

  /** After the last fragment: Close of the decoder, the error of an invalid field, and the check of the pseudo fields. */
  function Closed(h: HeadersFrame, m: Meta, s: seq<byte>): (o: Outcome) {
    if m.save != [] then CompressionError
    else if m.t.status.Invalid? || !Coherent(m.t.fields) then Malformed(h.id, m.d.(first := true), s)
    else Received(h.id, h.endStream, h.priority, m.t.fields, m.t.status.Truncated?, m.d.(first := true), s)
  }

  /** The decoder as it is set up for a block. */
  function Prepared(rules: Rules, d: W.Decoder): (r: W.Decoder) {
    d.(emitEnabled := true, maxStrLen := rules.limit)
  }

  ghost function ReadMeta(c: W.Context, rules: Rules, d: W.Decoder, s: seq<byte>, maxRead: nat): (o: Outcome)
    requires Huffman.Shaped(c.huffman)
  {
    match ReadRaw(s, maxRead)
    case Err(e) => FrameError(e)
    case Ok(f) =>
      if Order(0, f.header).None? || f.header.ftype != HEADERS then FrameError(ConnectionError)
      else match ParseHeaders(f.header, f.payload)
        case Err(e) => FrameError(e)
        case Ok(h) => Gather(c, rules, maxRead, h, Meta(Prepared(rules, d), [], NewTally(rules)), h.fragment, h.endHeaders, f.rest)
  }

  //
  // The loop over the frames of a block, against single calls
  //

  /** What one call does with the first n octets of the block. */
  ghost function Run(c: W.Context, rules: Rules, d: W.Decoder, block: seq<byte>, n: nat): (r: Sifted)
    requires Huffman.Shaped(c.huffman) && n <= |block|
  {
    Sift(c, rules, d, NewTally(rules), block[..n])
  }

  /** Where the loop stands after n octets, if nothing stopped it. */
  ghost predicate Stands(c: W.Context, rules: Rules, d: W.Decoder, block: seq<byte>, n: nat, m: Meta)
    requires Huffman.Shaped(c.huffman) && n <= |block|
  {
    var r := Run(c, rules, d, block, n);
    r.err == None && m == Meta(r.d, r.save, r.t)
  }

  /** One fragment moves the loop on exactly when it is admitted and the octets so far have no error. */
  lemma {:induction false} FeedStep(c: W.Context, rules: Rules, d: W.Decoder, block: seq<byte>, n: nat, k: nat, m: Meta)
    requires Huffman.Shaped(c.huffman) && n < k <= |block| && Stands(c, rules, d, block, n, m)
    ensures var r := Run(c, rules, d, block, k);
            Feed(c, rules, m, block[n..k]) ==
            if !Admits(m.t, k - n) then Stopped(ProtocolError)
            else if r.err.Some? then Stopped(CompressionError) else Going(Meta(r.d, r.save, r.t))
  {
    hide Sift;
    assert block[..n] + block[n..k] == block[..k];
    SiftSplit(c, rules, d, NewTally(rules), block[..n], block[n..k]);
  }

  /** Where a fragment that starts after n octets ends. */
  function Next(block: seq<byte>, n: nat, max: nat): (k: nat)
    requires n < |block| && max > 0
    ensures n < k <= |block| && block[n..k] == Chunk(block[n..], max)
  {
    n + |Chunk(block[n..], max)|
  }

  /** The outcome as single calls decide it, from n octets on. */
  ghost function Fate(c: W.Context, rules: Rules, d: W.Decoder, h: HeadersFrame, block: seq<byte>, n: nat, max: nat, rest: seq<byte>): (o: Outcome)
    requires Huffman.Shaped(c.huffman) && n < |block| && max > 0
    decreases |block| - n
  {
    var k := Next(block, n, max);
    var r := Run(c, rules, d, block, k);
    if !Admits(Run(c, rules, d, block, n).t, k - n) then ProtocolError
    else if r.err.Some? then CompressionError
    else if k == |block| then Closed(h, Meta(r.d, r.save, r.t), rest)
    else Fate(c, rules, d, h, block, k, max, rest)
  }

  lemma {:induction false} LastFragment(c: W.Context, rules: Rules, maxRead: nat, d: W.Decoder, h: HeadersFrame, m: Meta, block: seq<byte>, n: nat, max: nat, rest: seq<byte>)
    requires Huffman.Shaped(c.huffman) && n < |block| && max > 0 && Stands(c, rules, d, block, n, m) && Next(block, n, max) == |block|
    ensures Gather(c, rules, maxRead, h, m, block[n..], true, rest) == Fate(c, rules, d, h, block, n, max, rest)
  {
    hide Run, Feed, Next;
    FeedStep(c, rules, d, block, n, |block|, m);
    assert block[n..|block|] == block[n..];
  }

  lemma {:induction false} GatherReads(c: W.Context, rules: Rules, maxRead: nat, d: W.Decoder, h: HeadersFrame, m: Meta, block: seq<byte>, n: nat, max: nat, rest: seq<byte>)
    requires Huffman.Shaped(c.huffman) && n < |block| && Stands(c, rules, d, block, n, m)
    requires 0 < h.id < STREAM_LIMIT && 0 < max < MAX_LENGTH && max <= maxRead
    ensures var k := Next(block, n, max);
            var more := Continuations(h.id, max, block[k..]);
            && (forall x <- more :: x.id < STREAM_LIMIT)
            && Gather(c, rules, maxRead, h, m, block[n..k], |block| - n <= max, Wire(more) + rest) == Fate(c, rules, d, h, block, n, max, rest)
    decreases |block| - n
  {
    hide Run, Feed, Wire, Continuations, ReadRaw, FlagsOf, Closed;
    var k := Next(block, n, max);
    var tail := block[k..];
    if tail == [] {
      NoContinuations(h.id, max);
      NoWire(rest);
      assert block[n..k] == block[n..];
      LastFragment(c, rules, maxRead, d, h, m, block, n, max, rest);
    } else {
      NextFrame(h.id, max, tail, rest, maxRead);
      FeedStep(c, rules, d, block, n, k, m);
      var fed := Feed(c, rules, m, block[n..k]);
      if fed.Going? {
        GatherReads(c, rules, maxRead, d, h, fed.m, block, k, max, rest);
        var k' := Next(block, k, max);
        assert tail[|Chunk(tail, max)|..] == block[k'..];
      }
    }
  }

  /** Reading the frames of any block gives exactly what single calls on its parts decide. */
  lemma {:induction false} ReadMetaReads(c: W.Context, rules: Rules, d: W.Decoder, id: nat, endStream: bool, max: nat, p: Priority, block: seq<byte>, rest: seq<byte>, maxRead: nat)
    requires Huffman.Shaped(c.huffman) && block != []
    requires 0 < id < STREAM_LIMIT && p.dep < STREAM_LIMIT && 0 < max <= maxRead && max + PriorityLength(p) < MAX_LENGTH
    ensures (forall x <- Pieces(id, endStream, max, p, block) :: x.id < STREAM_LIMIT)
    ensures ReadMeta(c, rules, d, Wire(Pieces(id, endStream, max, p, block)) + rest, maxRead)
         == if |Chunk(block, max)| + PriorityLength(p) <= maxRead
            then Fate(c, rules, Prepared(rules, d), HeadersFrameOf(id, endStream, max, p, block), block, 0, max, rest)
            else FrameError(FrameTooLarge)
  {
    hide Run, Gather, Fate, Wire, Continuations, ReadRaw, FlagsOf, Pieces, ParseHeaders, Order;
    FirstFrame(id, endStream, max, p, block, rest, maxRead);
    StandsAtStart(c, rules, Prepared(rules, d), block);
    assert block[0..] == block;
    GatherReads(c, rules, maxRead, Prepared(rules, d), HeadersFrameOf(id, endStream, max, p, block), Meta(Prepared(rules, d), [], NewTally(rules)), block, 0, max, rest);
  }

  /** The HEADERS frame of a block. */
  function HeadersFrameOf(id: nat, endStream: bool, max: nat, p: Priority, block: seq<byte>): (h: HeadersFrame) {
    HeadersFrame(id, endStream, |block| <= max, if IsZero(p) then None else Some(p), Chunk(block, max))
  }

  lemma {:induction false} StandsAtStart(c: W.Context, rules: Rules, d: W.Decoder, block: seq<byte>)
    requires Huffman.Shaped(c.huffman)
    ensures Stands(c, rules, d, block, 0, Meta(d, [], NewTally(rules)))
  {
    hide Sift;
    SiftNothing(c, rules, d, NewTally(rules));
  }

  //
  // A block that the encoder wrote
  //

  /** The tally of the fields that end within the first n octets of a block. */
  function TallyAt(c: W.Context, rules: Rules, e: E.Encoder, fs: seq<HeaderField>, n: nat): (t: Tally)
    requires Huffman.Shaped(c.huffman)
  {
    Tallied(rules, NewTally(rules), fs[..P.Ended(c, e, fs, n)])
  }

  /** Every fragment, from n octets on, is admitted at its turn. */
  ghost predicate FragmentsFit(c: W.Context, rules: Rules, e: E.Encoder, fs: seq<HeaderField>, max: nat, n: nat)
    requires Huffman.Shaped(c.huffman) && max > 0
    decreases |L.BlockBytes(c, e, fs)| - n
  {
    var block := L.BlockBytes(c, e, fs);
    n >= |block| ||
    (Admits(TallyAt(c, rules, e, fs, n), Next(block, n, max) - n) && FragmentsFit(c, rules, e, fs, max, Next(block, n, max)))
  }

  /** The decoder after a block, as the next block finds it but for its settings. */
  function After(c: W.Context, rules: Rules, e: E.Encoder, d: W.Decoder, fs: seq<HeaderField>): (r: W.Decoder) {
    Muted(L.Received(c, e, Prepared(rules, d), fs), Tallied(rules, NewTally(rules), fs))
  }

  /** What is to become of a block whose sizes are not refused and whose strings are within the limit. */
  ghost function Arrival(c: W.Context, rules: Rules, e: E.Encoder, d: W.Decoder, h: HeadersFrame, fs: seq<HeaderField>, max: nat, rest: seq<byte>): (o: Outcome)
    requires Huffman.Shaped(c.huffman) && max > 0
  {
    if !FragmentsFit(c, rules, e, fs, max, 0) then ProtocolError
    else Closed(h, Meta(After(c, rules, e, d, fs), [], Tallied(rules, NewTally(rules), fs)), rest)
  }

  /** What the decoder, set up for it, does with the first n octets of such a block. */
  lemma {:induction false} RunIs(c: W.Context, rules: Rules, e: E.Encoder, d: W.Decoder, fs: seq<HeaderField>, n: nat)
    requires Huffman.WellFormed(c.huffman) && L.Sync(c, e, d) && fs != [] && !L.Refused(e, d)
    requires (forall f <- fs :: L.FieldOk(f)) && L.AllFit(rules.limit, fs) && rules.limit <= E.UINT32_MAX
    requires n <= |L.BlockBytes(c, e, fs)|
    ensures var block := L.BlockBytes(c, e, fs); var r := Run(c, rules, Prepared(rules, d), block, n);
            && r.err == None && r.t == TallyAt(c, rules, e, fs, n)
            && (n == |block| ==> r.save == [] && r.t == Tallied(rules, NewTally(rules), fs) && r.d.(first := true) == After(c, rules, e, d, fs))
  {
    hide L.Sync, L.Refused, L.BlockBytes, L.AllFit, L.FieldOk, Huffman.WellFormed, Sift, Tallied, P.Ended, L.MirrorAll, E.Announced, L.Informed;
    L.WellFormedIsShaped(c.huffman);
    PreparedInSync(c, e, d, rules);
    BlockSift(c, rules, e, Prepared(rules, d), NewTally(rules), fs, n);
    P.BlockLeft(c, e, d, fs, n);
    assert fs[..|fs|] == fs;
  }

  lemma {:induction false} PreparedInSync(c: W.Context, e: E.Encoder, d: W.Decoder, rules: Rules)
    requires L.Sync(c, e, d)
    ensures L.Sync(c, e, Prepared(rules, d)) && (L.Refused(e, Prepared(rules, d)) <==> L.Refused(e, d))
  {
  }

  lemma {:induction false} FateIs(c: W.Context, rules: Rules, e: E.Encoder, d: W.Decoder, h: HeadersFrame, fs: seq<HeaderField>, n: nat, max: nat, rest: seq<byte>)
    requires Huffman.WellFormed(c.huffman) && L.Sync(c, e, d) && fs != [] && !L.Refused(e, d) && max > 0
    requires (forall f <- fs :: L.FieldOk(f)) && L.AllFit(rules.limit, fs) && rules.limit <= E.UINT32_MAX
    requires n < |L.BlockBytes(c, e, fs)|
    ensures Fate(c, rules, Prepared(rules, d), h, L.BlockBytes(c, e, fs), n, max, rest)
         == if !FragmentsFit(c, rules, e, fs, max, n) then ProtocolError
            else Closed(h, Meta(After(c, rules, e, d, fs), [], Tallied(rules, NewTally(rules), fs)), rest)
    decreases |L.BlockBytes(c, e, fs)| - n
  {
    hide L.Sync, L.Refused, L.BlockBytes, L.AllFit, L.FieldOk, Huffman.WellFormed, Run, After, TallyAt, Tallied;
    L.WellFormedIsShaped(c.huffman);
    var block := L.BlockBytes(c, e, fs);
    var k := Next(block, n, max);
    RunIs(c, rules, e, d, fs, n);
    RunIs(c, rules, e, d, fs, k);
    if k < |block| {
      FateIs(c, rules, e, d, h, fs, k, max, rest);
    }
  }

  /** The tables stay in step, whether or not the list was cut short. */
  lemma {:induction false} AfterInSync(c: W.Context, rules: Rules, e: E.Encoder, d: W.Decoder, fs: seq<HeaderField>)
    requires Huffman.WellFormed(c.huffman) && L.Sync(c, e, d) && fs != [] && !L.Refused(e, d) && forall f <- fs :: L.FieldOk(f)
    ensures var d' := Prepared(rules, After(c, rules, e, d, fs));
            L.Sync(c, L.BlockWritten(c, e, fs), d') && d' == L.Received(c, e, Prepared(rules, d), fs)
  {
    hide L.Sync, L.Refused, Huffman.WellFormed, L.Received, Tallied, W.Write, L.BlockBytes, L.FieldOk, L.AllFit;
    L.WellFormedIsShaped(c.huffman);
    PreparedInSync(c, e, d, rules);
    L.BlockDecodes(c, e, Prepared(rules, d), fs);
  }

  /**
   End to end: what becomes of a header block that is encoded, cut into frames of any size,
   written, read back and decoded fragment by fragment, for every limit. A fragment that is not
   admitted at its turn ends the connection. Otherwise what is received is the longest part of the
   list that is proper and within the limit, nothing beyond the frames is touched, and encoder and
   decoder are in step for the next block even if the list was cut short or is malformed.
   */
  lemma {:induction false} EndToEnd(c: W.Context, rules: Rules, e: E.Encoder, d: W.Decoder, fs: seq<HeaderField>,
                                    id: nat, endStream: bool, max: nat, p: Priority, rest: seq<byte>, maxRead: nat)
    requires Huffman.WellFormed(c.huffman) && L.Sync(c, e, d) && fs != [] && forall f <- fs :: L.FieldOk(f)
    requires !L.Refused(e, d) && L.AllFit(rules.limit, fs) && rules.limit <= E.UINT32_MAX
    requires 0 < id < STREAM_LIMIT && p.dep < STREAM_LIMIT && 0 < max <= maxRead && max + PriorityLength(p) < MAX_LENGTH
    ensures var block := L.BlockBytes(c, e, fs);
            && (forall x <- Pieces(id, endStream, max, p, block) :: x.id < STREAM_LIMIT)
            && ReadMeta(c, rules, d, Wire(Pieces(id, endStream, max, p, block)) + rest, maxRead)
               == if |Chunk(block, max)| + PriorityLength(p) <= maxRead
                  then Arrival(c, rules, e, d, HeadersFrameOf(id, endStream, max, p, block), fs, max, rest)
                  else FrameError(FrameTooLarge)
    ensures L.Sync(c, L.BlockWritten(c, e, fs), Prepared(rules, After(c, rules, e, d, fs)))
  {
    hide L.Sync, L.Refused, L.BlockBytes, L.AllFit, L.FieldOk, Huffman.WellFormed, Wire, Pieces, ReadMeta, Fate, FragmentsFit, After, Tallied, Closed;
    L.WellFormedIsShaped(c.huffman);
    var block := L.BlockBytes(c, e, fs);
    L.BlockNotEmpty(c, e, fs);
    ReadMetaReads(c, rules, d, id, endStream, max, p, block, rest, maxRead);
    FateIs(c, rules, e, d, HeadersFrameOf(id, endStream, max, p, block), fs, 0, max, rest);
    AfterInSync(c, rules, e, d, fs);
  }

  //
  // Which lists arrive as a whole
  //

  /** Nothing in a list, its block or its fragments keeps it from arriving as a whole. */
  ghost predicate Arrives(c: W.Context, rules: Rules, e: E.Encoder, d: W.Decoder, max: nat, fs: seq<HeaderField>)
    requires Huffman.Shaped(c.huffman) && max > 0
  {
    && !L.Refused(e, d) && L.AllFit(rules.limit, fs) && FragmentsFit(c, rules, e, fs, max, 0)
    && Total32(fs) <= rules.limit && Proper(rules, fs) && Coherent(fs)
  }

  lemma {:induction false} FateReceived(c: W.Context, rules: Rules, d: W.Decoder, h: HeadersFrame, block: seq<byte>, n: nat, max: nat, rest: seq<byte>)
    requires Huffman.Shaped(c.huffman) && n < |block| && max > 0
    requires Fate(c, rules, d, h, block, n, max, rest).Received?
    ensures var r := Run(c, rules, d, block, |block|);
            r.err == None && Fate(c, rules, d, h, block, n, max, rest) == Closed(h, Meta(r.d, r.save, r.t), rest)
    decreases |block| - n
  {
    hide Run, Admits;
    var k := Next(block, n, max);
    if k < |block| {
      FateReceived(c, rules, d, h, block, k, max, rest);
    }
  }

  /** Only a block that is not refused and whose strings are within the limit is received as a whole. */
  lemma {:induction false} ReceivedIsFit(c: W.Context, rules: Rules, e: E.Encoder, d: W.Decoder, h: HeadersFrame, fs: seq<HeaderField>, max: nat, rest: seq<byte>)
    requires Huffman.WellFormed(c.huffman) && L.Sync(c, e, d) && fs != [] && max > 0 && forall f <- fs :: L.FieldOk(f)
    requires |L.BlockBytes(c, e, fs)| > 0
    requires var o := Fate(c, rules, Prepared(rules, d), h, L.BlockBytes(c, e, fs), 0, max, rest); o.Received? && !o.truncated
    ensures !L.Refused(e, d) && L.AllFit(rules.limit, fs)
  {
    hide L.Sync, L.Refused, L.BlockBytes, L.AllFit, L.FieldOk, Huffman.WellFormed, Sift, Fate, W.ParseAll, Tallied, L.Received;
    L.WellFormedIsShaped(c.huffman);
    var block, d' := L.BlockBytes(c, e, fs), Prepared(rules, d);
    PreparedInSync(c, e, d, rules);
    FateReceived(c, rules, d', h, block, 0, max, rest);
    assert block[..|block|] == block && [] + block == block;
    SiftIsWrite(c, rules, d', NewTally(rules), block);
    L.BlockDecodes(c, e, d', fs);
  }

  /**
   A header list is received as a whole exactly when its table sizes are not refused, its strings
   and its sizes together are within the limit, its fields are proper, each fragment is admitted
   at its turn, and the reader has room for the priority in the first frame. Then it is the list
   that was encoded.
   */
  lemma {:induction false} WholeListArrives(c: W.Context, rules: Rules, e: E.Encoder, d: W.Decoder, fs: seq<HeaderField>,
                                            id: nat, endStream: bool, max: nat, p: Priority, rest: seq<byte>, maxRead: nat)
    requires Huffman.WellFormed(c.huffman) && L.Sync(c, e, d) && fs != [] && forall f <- fs :: L.FieldOk(f)
    requires rules.limit <= E.UINT32_MAX
    requires 0 < id < STREAM_LIMIT && p.dep < STREAM_LIMIT && 0 < max <= maxRead && max + PriorityLength(p) < MAX_LENGTH
    ensures var block := L.BlockBytes(c, e, fs);
            && (forall x <- Pieces(id, endStream, max, p, block) :: x.id < STREAM_LIMIT)
            && var o := ReadMeta(c, rules, d, Wire(Pieces(id, endStream, max, p, block)) + rest, maxRead);
            && (o.Received? && !o.truncated <==>
                Arrives(c, rules, e, d, max, fs) && |Chunk(block, max)| + PriorityLength(p) <= maxRead)
            && (o.Received? && !o.truncated ==>
                o == Received(id, endStream, if IsZero(p) then None else Some(p), fs, false, L.Received(c, e, Prepared(rules, d), fs), rest))
  {
    hide L.Sync, L.Refused, L.BlockBytes, L.AllFit, L.FieldOk, Huffman.WellFormed, Huffman.Shaped, Wire, Pieces, ReadMeta, Fate, FragmentsFit, Tallied, Proper, Total32, Coherent, L.Received;
    L.WellFormedIsShaped(c.huffman);
    var block := L.BlockBytes(c, e, fs);
    L.BlockNotEmpty(c, e, fs);
    ReadMetaReads(c, rules, d, id, endStream, max, p, block, rest, maxRead);
    var h := HeadersFrameOf(id, endStream, max, p, block);
    var o := Fate(c, rules, Prepared(rules, d), h, block, 0, max, rest);
    if o.Received? && !o.truncated {
      ReceivedIsFit(c, rules, e, d, h, fs, max, rest);
    }
    if !L.Refused(e, d) && L.AllFit(rules.limit, fs) {
      FateIs(c, rules, e, d, h, fs, 0, max, rest);
      TalliedExact(rules, NewTally(rules), fs);
      FirstAgain(c, e, Prepared(rules, d), fs);
      assert [] + fs == fs;
    }
  }

  lemma {:induction false} FirstAgain(c: W.Context, e: E.Encoder, d: W.Decoder, fs: seq<HeaderField>)
    requires fs != []
    ensures L.Received(c, e, d, fs).first
  {
    hide L.MirrorAll;
  }

  //
  // Ordinary limits
  //

  lemma {:induction false} TotalBounds(fs: seq<HeaderField>, f: HeaderField)
    requires f in fs
    ensures Size(f) <= Total(fs)
  {
    if f != fs[0] {
      TotalBounds(fs[1..], f);
    }
  }

  lemma {:induction false} WithinLimitFits(fs: seq<HeaderField>, limit: nat)
    requires Total(fs) <= limit
    ensures L.AllFit(limit, fs)
  {
    forall f | f in fs
      ensures L.FieldFits(limit, f)
    {
      TotalBounds(fs, f);
    }
  }

  lemma {:induction false} TotalsAgree(fs: seq<HeaderField>)
    requires Total(fs) < TWO_32
    ensures Total32(fs) == Total(fs)
  {
    if fs != [] {
      TotalsAgree(fs[1..]);
    }
  }

  /** Below 2^31 every fragment of a proper list within the limit is admitted. */
  lemma {:induction false} OrdinaryFragments(c: W.Context, rules: Rules, e: E.Encoder, d: W.Decoder, fs: seq<HeaderField>, max: nat, n: nat)
    requires Huffman.Shaped(c.huffman) && L.Sync(c, e, d) && fs != [] && max > 0 && forall f <- fs :: L.FieldOk(f)
    requires Total(fs) <= rules.limit < TWO_31 && Proper(rules, fs)
    ensures FragmentsFit(c, rules, e, fs, max, n)
    decreases |L.BlockBytes(c, e, fs)| - n
  {
    hide L.Sync, L.BlockBytes, L.FieldOk, Proper, Total, Total32, Tallied, Huffman.Shaped, P.Ended;
    var block := L.BlockBytes(c, e, fs);
    if n < |block| {
      var j := P.Ended(c, e, fs, n);
      var a, b := fs[..j], fs[j..];
      assert a + b == fs;
      P.BlockLeft(c, e, d, fs, n);
      TotalSplit(a, b);
      TotalsAgree(fs);
      TotalsAgree(a);
      TalliedExact(rules, NewTally(rules), fs);
      TalliedSplit(rules, NewTally(rules), a, b);
      KeepingBefore(rules, NewTally(rules), a, b);
      TalliedExact(rules, NewTally(rules), a);
      OrdinaryFragments(c, rules, e, d, fs, max, Next(block, n, max));
    }
  }

  lemma {:induction false} KeepingBefore(rules: Rules, t: Tally, a: seq<HeaderField>, b: seq<HeaderField>)
    requires Tallied(rules, Tallied(rules, t, a), b).status.Keeping?
    ensures Tallied(rules, t, a).status.Keeping?
  {
    var u := Tallied(rules, t, a);
    if !u.status.Keeping? {
      NotKeepingStays(rules, u, b);
    }
  }

  /** So below 2^31 a list within the limit arrives as a whole exactly when it is proper and its table sizes are not refused. */
  lemma {:induction false} OrdinaryListArrives(c: W.Context, rules: Rules, e: E.Encoder, d: W.Decoder, max: nat, fs: seq<HeaderField>)
    requires Huffman.Shaped(c.huffman) && L.Sync(c, e, d) && fs != [] && max > 0 && forall f <- fs :: L.FieldOk(f)
    requires Total(fs) <= rules.limit < TWO_31
    ensures Arrives(c, rules, e, d, max, fs) <==> !L.Refused(e, d) && Proper(rules, fs) && Coherent(fs)
  {
    hide L.Sync, L.FieldOk, Proper, Total, Total32, L.AllFit, L.Refused, FragmentsFit, Huffman.Shaped;
    WithinLimitFits(fs, rules.limit);
    TotalsAgree(fs);
    if Proper(rules, fs) {
      OrdinaryFragments(c, rules, e, d, fs, max, 0);
    }
  }

  /**
   A limit from 2^31 on loses 2^32 when it is doubled in 32 bits: a first fragment longer than what
   is left is refused, however small the header list is. A limit of 2^31 refuses every block.
   */
  lemma {:induction false} HugeLimitRefuses(c: W.Context, rules: Rules, d: W.Decoder, id: nat, endStream: bool, max: nat, p: Priority, block: seq<byte>, rest: seq<byte>, maxRead: nat)
    requires Huffman.Shaped(c.huffman) && block != [] && TWO_31 <= rules.limit < TWO_32
    requires |Chunk(block, max)| > 2 * rules.limit - TWO_32
    requires 0 < id < STREAM_LIMIT && p.dep < STREAM_LIMIT && 0 < max <= maxRead && max + PriorityLength(p) < MAX_LENGTH
    requires |Chunk(block, max)| + PriorityLength(p) <= maxRead
    ensures (forall x <- Pieces(id, endStream, max, p, block) :: x.id < STREAM_LIMIT)
    ensures ReadMeta(c, rules, d, Wire(Pieces(id, endStream, max, p, block)) + rest, maxRead) == ProtocolError
  {
    hide Sift, Wire, Continuations, ReadRaw, FlagsOf, Pieces, ParseHeaders, Order;
    FirstFrame(id, endStream, max, p, block, rest, maxRead);
  }

  //
  // Every header block of a connection
  //

  datatype Message = Message(id: nat, endStream: bool, priority: Priority, fs: seq<HeaderField>)

  ghost predicate MessageOk(max: nat, x: Message) {
    && 0 < x.id < STREAM_LIMIT && x.priority.dep < STREAM_LIMIT && max + PriorityLength(x.priority) < MAX_LENGTH
    && x.fs != [] && forall f <- x.fs :: L.FieldOk(f)
  }

  /** The octets of a message, each frame with a stream identifier that fits its field. */
  function MessageBytes(c: W.Context, e: E.Encoder, max: nat, x: Message): (s: seq<byte>)
    requires Huffman.Shaped(c.huffman) && max > 0 && x.id < STREAM_LIMIT && x.priority.dep < STREAM_LIMIT && x.fs != []
  {
    var block := L.BlockBytes(c, e, x.fs);
    L.BlockNotEmpty(c, e, x.fs);
    PiecesShape(x.id, x.endStream, max, x.priority, block);
    Wire(Pieces(x.id, x.endStream, max, x.priority, block))
  }

  /** A change of the encoder's table size or of its limit, or a message. */
  datatype Step = Change(ev: L.Event) | Send(x: Message)

  ghost predicate StepOk(max: nat, s: Step) {
    match s
    case Change(ev) => !ev.Block? && L.EventOk(ev)
    case Send(x) => MessageOk(max, x)
  }

  function EventOf(s: Step): (ev: L.Event) {
    if s.Change? then s.ev else L.Block(s.x.fs)
  }

  function Events(ss: seq<Step>): (evs: seq<L.Event>) {
    if ss == [] then [] else [EventOf(ss[0])] + Events(ss[1..])
  }

  function Sent(ss: seq<Step>): (xs: seq<Message>) {
    if ss == [] then [] else if ss[0].Send? then [ss[0].x] + Sent(ss[1..]) else Sent(ss[1..])
  }

  /** What one encoder writes for the steps. */
  ghost function StreamBytes(c: W.Context, e: E.Encoder, max: nat, ss: seq<Step>): (s: seq<byte>)
    requires Huffman.Shaped(c.huffman) && max > 0 && forall x <- ss :: StepOk(max, x)
    decreases |ss|
  {
    if ss == [] then []
    else
      FirstStep(max, ss);
      (if ss[0].Send? then MessageBytes(c, e, max, ss[0].x) else [])
      + StreamBytes(c, L.EncoderAfter(c, e, EventOf(ss[0])), max, ss[1..])
  }

  lemma {:induction false} FirstStep(max: nat, ss: seq<Step>)
    requires ss != [] && forall x <- ss :: StepOk(max, x)
    ensures StepOk(max, ss[0])
    ensures ss[0].Send? ==> 0 < ss[0].x.id < STREAM_LIMIT && ss[0].x.priority.dep < STREAM_LIMIT && ss[0].x.fs != []
  {
    hide L.FieldOk;
    assert ss[0] in ss;
  }

  /** n messages read one after the other with one decoder; None when one is not received as a whole. */
  ghost function ReadMany(c: W.Context, rules: Rules, d: W.Decoder, s: seq<byte>, maxRead: nat, n: nat): (r: Option<(seq<Message>, seq<byte>)>)
    requires Huffman.Shaped(c.huffman)
    decreases n
  {
    if n == 0 then Some(([], s))
    else
      match ReadMeta(c, rules, d, s, maxRead)
      case Received(id, endStream, priority, fields, false, d', rest) =>
        var p := if priority.Some? then priority.value else Priority(0, false, 0);
        var more := ReadMany(c, rules, d', rest, maxRead, n - 1);
        if more.None? then None else Some(([Message(id, endStream, p, fields)] + more.value.0, more.value.1))
      case _ => None
  }

  lemma {:induction false} MessageArrives(c: W.Context, rules: Rules, e: E.Encoder, d: W.Decoder, max: nat, x: Message, rest: seq<byte>, maxRead: nat)
    requires Huffman.WellFormed(c.huffman) && L.Sync(c, e, d) && d == Prepared(rules, d) && MessageOk(max, x)
    requires rules.limit <= E.UINT32_MAX && 0 < max && max + 5 <= maxRead
    ensures var o := ReadMeta(c, rules, d, MessageBytes(c, e, max, x) + rest, maxRead);
            var d' := L.Received(c, e, d, x.fs);
            && (o.Received? && !o.truncated <==> Arrives(c, rules, e, d, max, x.fs))
            && (Arrives(c, rules, e, d, max, x.fs) ==>
                && o == Received(x.id, x.endStream, if IsZero(x.priority) then None else Some(x.priority), x.fs, false, d', rest)
                && d' == Prepared(rules, d') && L.Sync(c, L.BlockWritten(c, e, x.fs), d'))
  {
    hide L.Sync, L.BlockBytes, L.FieldOk, Huffman.WellFormed, Wire, Pieces, ReadMeta, L.Received, L.Refused, L.AllFit, FragmentsFit, Proper, Total32;
    L.WellFormedIsShaped(c.huffman);
    WholeListArrives(c, rules, e, d, x.fs, x.id, x.endStream, max, x.priority, rest, maxRead);
    L.BlockDecodes(c, e, d, x.fs);
  }

  /** Every message of the steps arrives as a whole. */
  ghost predicate AllArrive(c: W.Context, rules: Rules, e: E.Encoder, d: W.Decoder, max: nat, ss: seq<Step>)
    requires Huffman.Shaped(c.huffman) && max > 0
    decreases |ss|
  {
    ss == [] ||
    match ss[0]
    case Change(ev) => AllArrive(c, rules, L.EncoderAfter(c, e, ev), d, max, ss[1..])
    case Send(x) =>
      Arrives(c, rules, e, d, max, x.fs)
      && AllArrive(c, rules, L.BlockWritten(c, e, x.fs), L.Received(c, e, d, x.fs), max, ss[1..])
  }

  /**
   Every message of a connection arrives: whatever an encoder sends, with changes of its table
   size in between, and however the blocks are cut into frames, one decoder reads back the same
   messages in order, and nothing beyond them, exactly when each of them arrives as a whole.
   */
  lemma {:induction false} MessagesArrive(c: W.Context, rules: Rules, e: E.Encoder, d: W.Decoder, max: nat, ss: seq<Step>, rest: seq<byte>, maxRead: nat)
    requires Huffman.WellFormed(c.huffman) && L.Sync(c, e, d) && d == Prepared(rules, d) && forall s <- ss :: StepOk(max, s)
    requires rules.limit <= E.UINT32_MAX && 0 < max && max + 5 <= maxRead
    ensures ReadMany(c, rules, d, StreamBytes(c, e, max, ss) + rest, maxRead, |Sent(ss)|)
         == if AllArrive(c, rules, e, d, max, ss) then Some((Sent(ss), rest)) else None
    decreases |ss|
  {
    hide L.Sync, MessageOk, MessageBytes, Huffman.WellFormed, Huffman.Shaped, ReadMeta, L.Received, L.BlockWritten, Arrives, E.SetMax, E.SetLimit, Evict;
    L.WellFormedIsShaped(c.huffman);
    if ss == [] {
      assert [] + rest == rest;
    } else {
      FirstStep(max, ss);
      var e' := L.EncoderAfter(c, e, EventOf(ss[0]));
      var tail := StreamBytes(c, e', max, ss[1..]);
      match ss[0]
      case Change(ev) =>
        L.SettersKeepSync(c, e, d, ev.v);
        assert [] + tail == tail;
        MessagesArrive(c, rules, e', d, max, ss[1..], rest, maxRead);
      case Send(x) =>
        var head := MessageBytes(c, e, max, x);
        assert head + tail + rest == head + (tail + rest);
        MessageArrives(c, rules, e, d, max, x, tail + rest, maxRead);
        if Arrives(c, rules, e, d, max, x.fs) {
          MessagesArrive(c, rules, e', L.Received(c, e, d, x.fs), max, ss[1..], rest, maxRead);
        }
    }
  }

  /** The list of a message is proper and within the limit. */
  ghost predicate Ordinary(rules: Rules, s: Step) {
    s.Send? ==> Total(s.x.fs) <= rules.limit && Proper(rules, s.x.fs) && Coherent(s.x.fs)
  }

  /** Below 2^31 all messages with proper lists within the limit arrive exactly when no block is refused. */
  lemma {:induction false} OrdinaryMessagesArrive(c: W.Context, rules: Rules, e: E.Encoder, d: W.Decoder, max: nat, ss: seq<Step>)
    requires Huffman.WellFormed(c.huffman) && L.Sync(c, e, d) && d == Prepared(rules, d) && max > 0 && rules.limit < TWO_31
    requires (forall s <- ss :: StepOk(max, s)) && forall s <- ss :: Ordinary(rules, s)
    ensures AllArrive(c, rules, e, d, max, ss) <==> L.Smooth(c, e, d, Events(ss))
    decreases |ss|
  {
    hide L.Sync, Huffman.WellFormed, Huffman.Shaped, L.Received, L.BlockWritten, Arrives, E.SetMax, E.SetLimit, Evict, L.AllFit, L.Refused, Proper, Total, W.Write, L.BlockBytes, L.FieldOk;
    L.WellFormedIsShaped(c.huffman);
    if ss != [] {
      FirstStep(max, ss);
      assert Ordinary(rules, ss[0]);
      assert Events(ss)[1..] == Events(ss[1..]);
      match ss[0]
      case Change(ev) =>
        L.SettersKeepSync(c, e, d, ev.v);
        OrdinaryMessagesArrive(c, rules, L.EncoderAfter(c, e, ev), d, max, ss[1..]);
      case Send(x) =>
        OrdinaryListArrives(c, rules, e, d, max, x.fs);
        WithinLimitFits(x.fs, rules.limit);
        if !L.Refused(e, d) {
          L.BlockDecodes(c, e, d, x.fs);
          OrdinaryMessagesArrive(c, rules, L.BlockWritten(c, e, x.fs), L.Received(c, e, d, x.fs), max, ss[1..]);
        }
    }
  }
}
