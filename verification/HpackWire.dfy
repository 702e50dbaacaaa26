/**
 What an HPACK decoder does with octets (section 6 of RFC 7541), as functions on values:
 one field representation, a whole buffer, and one Write call. The Decoder class is proved
 against them, and the chunking theorem is about them.
 */
module HpackWire {
  import opened Wrappers
  import opened Bytes
  import opened HpackTables
  import VarInt
  import Huffman

  /** The parts that never change: the static table and the Huffman code. */
  datatype Context = Context(statics: seq<HeaderField>, huffman: Huffman.Table)

  datatype Error =
    | VarintOverflow
    | InvalidIndex(i: nat)
    | StringLength
    | InvalidHuffman
    | MisplacedUpdate
    | UpdateTooLarge

  datatype Decoder = Decoder(
    ents: seq<HeaderField>,
    maxSize: nat,
    allowed: nat,
    emitEnabled: bool,
    maxStrLen: nat,
    first: bool)

  datatype IndexType = IndexedTrue | IndexedFalse | IndexedNever

  /** Outcome of one representation. A failure may already have changed the table. */
  datatype Step =
    | Parsed(d: Decoder, rest: seq<byte>, out: seq<HeaderField>)
    | More
    | Failed(after: Decoder, e: Error)

  /** The entry an index names (section 2.3.3): newer dynamic entries come first. */
  function At(statics: seq<HeaderField>, ents: seq<HeaderField>, i: nat): (r: Option<HeaderField>)
    ensures r.Some? <==> 1 <= i <= |statics| + |ents|
  {
    if i == 0 then None
    else if i <= |statics| then Some(statics[i - 1])
    else if i > |statics| + |ents| then None
    else Some(ents[|ents| - (i - |statics|)])
  }

  //
  // Strings
  //

  datatype Undecoded = Undecoded(isHuff: bool, b: seq<byte>)

  datatype StringRead =
    | Str(u: Undecoded, rest: seq<byte>)
    | StrMore
    | StrFailed(e: Error)

  function ReadString(maxStrLen: nat, p: seq<byte>): (r: StringRead) {
    if p == [] then StrMore
    else
      match VarInt.Read(7, p)
      case NeedMore => StrMore
      case Overflow => StrFailed(VarintOverflow)
      case Value(n, rest) =>
        if maxStrLen != 0 && n > maxStrLen then StrFailed(StringLength)
        else if |rest| < n then StrMore
        else Str(Undecoded(p[0] >= 128, rest[..n]), rest[n..])
  }

  ghost function DecodeString(t: Huffman.Table, maxStrLen: nat, u: Undecoded): (r: Huffman.Decoded)
    requires Huffman.Shaped(t)
  {
    if !u.isHuff then Huffman.Text(u.b) else Huffman.Decode(t, maxStrLen, u.b)
  }

  /** The error a string that does not decode causes. */
  function StringError(d: Huffman.Decoded): (e: Error) {
    if d.TooLong? then StringLength else InvalidHuffman
  }

  //
  // Representations
  //

  function Emit(d: Decoder, rest: seq<byte>, f: HeaderField): (r: Step) {
    if d.maxStrLen != 0 && (|f.name| > d.maxStrLen || |f.value| > d.maxStrLen) then Failed(d, StringLength)
    else Parsed(d, rest, if d.emitEnabled then [f] else [])
  }

  function ParseIndexed(c: Context, d: Decoder, buf: seq<byte>): (r: Step) {
    match VarInt.Read(7, buf)
    case NeedMore => More
    case Overflow => Failed(d, VarintOverflow)
    case Value(i, rest) =>
      match At(c.statics, d.ents, i)
      case None => Failed(d, InvalidIndex(i))
      case Some(f) => Emit(d, rest, HeaderField(f.name, f.value, false))
  }

  function AddIf(d: Decoder, it: IndexType, f: HeaderField): (r: Decoder) {
    if it.IndexedTrue? then d.(ents := Evict(d.ents + [f], d.maxSize)) else d
  }

  /** The end of a literal once its name is known: either decoded already, or still a string. */
  ghost function ParseValue(c: Context, d: Decoder, it: IndexType, name: Option<seq<byte>>, uname: Undecoded, p: seq<byte>): (r: Step)
    requires Huffman.Shaped(c.huffman)
  {
    match ReadString(d.maxStrLen, p)
    case StrMore => More
    case StrFailed(e) => Failed(d, e)
    case Str(uvalue, rest) =>
      if d.emitEnabled || it.IndexedTrue? then
        var n := if name.Some? then Huffman.Text(name.value) else DecodeString(c.huffman, d.maxStrLen, uname);
        if !n.Text? then Failed(d, StringError(n))
        else
          var v := DecodeString(c.huffman, d.maxStrLen, uvalue);
          if !v.Text? then Failed(d, StringError(v))
          else Finish(d, it, n.s, v.s, rest)
      else Finish(d, it, if name.Some? then name.value else [], [], rest)
  }

  function Finish(d: Decoder, it: IndexType, name: seq<byte>, value: seq<byte>, rest: seq<byte>): (r: Step) {
    Emit(AddIf(d, it, HeaderField(name, value, false)), rest, HeaderField(name, value, it.IndexedNever?))
  }

  ghost function ParseLiteral(c: Context, d: Decoder, n: nat, it: IndexType, buf: seq<byte>): (r: Step)
    requires Huffman.Shaped(c.huffman) && 1 <= n <= 8
  {
    match VarInt.Read(n, buf)
    case NeedMore => More
    case Overflow => Failed(d, VarintOverflow)
    case Value(i, rest) =>
      if i > 0 then
        match At(c.statics, d.ents, i)
        case None => Failed(d, InvalidIndex(i))
        case Some(f) => ParseValue(c, d, it, Some(f.name), Undecoded(false, []), rest)
      else
        match ReadString(d.maxStrLen, rest)
        case StrMore => More
        case StrFailed(e) => Failed(d, e)
        case Str(u, rest') => ParseValue(c, d, it, None, u, rest')
  }

  function ParseSizeUpdate(d: Decoder, buf: seq<byte>): (r: Step) {
    if !d.first && Total(d.ents) > 0 then Failed(d, MisplacedUpdate)
    else
      match VarInt.Read(5, buf)
      case NeedMore => More
      case Overflow => Failed(d, VarintOverflow)
      case Value(v, rest) =>
        if v > d.allowed then Failed(d, UpdateTooLarge)
        else Parsed(d.(maxSize := v, ents := Evict(d.ents, v)), rest, [])
  }

  /** How many bits of the first octet of a literal hold the name index. */
  function LiteralBits(b: byte): (n: nat) {
    if b >= 64 then 6 else 4
  }

  function LiteralType(b: byte): (it: IndexType) {
    if b >= 64 then IndexedTrue else if b < 16 then IndexedFalse else IndexedNever
  }

  /** parseHeaderFieldRepr: the first octet selects the representation. */
  ghost function ParseRepr(c: Context, d: Decoder, buf: seq<byte>): (r: Step)
    requires Huffman.Shaped(c.huffman) && buf != []
  {
    var b := buf[0];
    if b >= 128 then ParseIndexed(c, d, buf)
    else if 32 <= b < 64 then ParseSizeUpdate(d, buf)
    else ParseLiteral(c, d, LiteralBits(b), LiteralType(b), buf)
  }

  //
  // Buffers and Write calls
  //

  /** Decoder, octets kept for the next call, fields emitted, and the error if any. */
  datatype Run = Run(d: Decoder, save: seq<byte>, out: seq<HeaderField>, err: Option<Error>)

  function After(out: seq<HeaderField>, r: Run): (s: Run) {
    r.(out := out + r.out)
  }

  lemma {:induction false} StringShrinks(maxStrLen: nat, p: seq<byte>)
    ensures var r := ReadString(maxStrLen, p);
            r.Str? ==> |r.rest| < |p|
  {
    if p != [] {
      VarInt.ReadShape(7, p);
    }
  }

  ghost predicate SameConfig(d: Decoder, e: Decoder) {
    e.maxStrLen == d.maxStrLen && e.allowed == d.allowed && e.emitEnabled == d.emitEnabled
  }

  /** Progress was made, and nothing but the table and its size changed. */
  ghost predicate Shaped(r: Step, d: Decoder, n: nat) {
    && (r.Parsed? ==> |r.rest| < n && SameConfig(d, r.d))
    && (r.Failed? ==> SameConfig(d, r.after))
  }

  lemma {:induction false} ValueShape(c: Context, d: Decoder, it: IndexType, name: Option<seq<byte>>, u: Undecoded, p: seq<byte>)
    requires Huffman.Shaped(c.huffman)
    ensures Shaped(ParseValue(c, d, it, name, u, p), d, |p|)
  {
    StringShrinks(d.maxStrLen, p);
  }

  lemma {:induction false} LiteralShape(c: Context, d: Decoder, n: nat, it: IndexType, buf: seq<byte>)
    requires Huffman.Shaped(c.huffman) && 1 <= n <= 8
    ensures Shaped(ParseLiteral(c, d, n, it, buf), d, |buf|)
  {
    VarInt.ReadShape(n, buf);
    var v := VarInt.Read(n, buf);
    if v.Value? {
      if v.i > 0 {
        var f := At(c.statics, d.ents, v.i);
        if f.Some? {
          ValueShape(c, d, it, Some(f.value.name), Undecoded(false, []), v.rest);
        }
      } else {
        StringShrinks(d.maxStrLen, v.rest);
        var s := ReadString(d.maxStrLen, v.rest);
        if s.Str? {
          ValueShape(c, d, it, None, s.u, s.rest);
        }
      }
    }
  }

  lemma {:induction false} StepShape(c: Context, d: Decoder, buf: seq<byte>)
    requires Huffman.Shaped(c.huffman) && buf != []
    ensures Shaped(ParseRepr(c, d, buf), d, |buf|)
  {
    var b := buf[0];
    if b >= 128 {
      VarInt.ReadShape(7, buf);
    } else if 32 <= b < 64 {
      VarInt.ReadShape(5, buf);
    } else {
      LiteralShape(c, d, LiteralBits(b), LiteralType(b), buf);
    }
  }

  /** A representation emits one field or none, and none while emission is off. */
  lemma {:induction false} StepEmits(c: Context, d: Decoder, buf: seq<byte>)
    requires Huffman.Shaped(c.huffman) && buf != []
    ensures var r := ParseRepr(c, d, buf);
            r.Parsed? ==> |r.out| <= 1 && (!d.emitEnabled ==> r.out == [])
  {
    hide VarInt.Read, ReadString, DecodeString, Evict, Total;
  }

  /** The loop of Write over the buffered octets. */
  ghost function ParseAll(c: Context, d: Decoder, buf: seq<byte>): (r: Run)
    requires Huffman.Shaped(c.huffman)
    decreases |buf|
  {
    if buf == [] then Run(d, [], [], None)
    else
      StepShape(c, d, buf);
      match ParseRepr(c, d, buf)
      case More =>
        if d.maxStrLen != 0 && |buf| > 2 * (d.maxStrLen + 8) then Run(d, [], [], Some(StringLength))
        else Run(d, buf, [], None)
      case Failed(d', e) => Run(d'.(first := false), [], [], Some(e))
      case Parsed(d', rest, out) => After(out, ParseAll(c, d'.(first := false), rest))
  }

  lemma {:induction false} ParseAllEmpty(c: Context, d: Decoder)
    requires Huffman.Shaped(c.huffman)
    ensures ParseAll(c, d, []) == Run(d, [], [], None)
  {
  }

  /** Write */
  ghost function Write(c: Context, d: Decoder, save: seq<byte>, p: seq<byte>): (r: Run)
    requires Huffman.Shaped(c.huffman)
  {
    if p == [] then Run(d, save, [], None) else ParseAll(c, d, save + p)
  }

  //
  // More octets do not change a decided outcome
  //

  function Extend(r: Step, s: seq<byte>): (e: Step) {
    if r.Parsed? then r.(rest := r.rest + s) else r
  }

  lemma {:induction false} StringExtend(maxStrLen: nat, p: seq<byte>, s: seq<byte>)
    ensures var r := ReadString(maxStrLen, p);
            var e := ReadString(maxStrLen, p + s);
            match r
            case Str(u, rest) => e == Str(u, rest + s)
            case StrFailed(err) => e == r
            case StrMore => true
  {
    if p != [] {
      VarInt.ReadExtend(7, p, s);
      var v := VarInt.Read(7, p);
      if v.Value? && v.i <= |v.rest| {
        assert (v.rest + s)[..v.i] == v.rest[..v.i];
        assert (v.rest + s)[v.i..] == v.rest[v.i..] + s;
      }
    }
  }

  lemma {:induction false} ValueExtend(c: Context, d: Decoder, it: IndexType, name: Option<seq<byte>>, u: Undecoded, p: seq<byte>, s: seq<byte>)
    requires Huffman.Shaped(c.huffman)
    ensures var r := ParseValue(c, d, it, name, u, p);
            r != More ==> ParseValue(c, d, it, name, u, p + s) == Extend(r, s)
  {
    StringExtend(d.maxStrLen, p, s);
  }

  lemma {:induction false} LiteralExtend(c: Context, d: Decoder, n: nat, it: IndexType, buf: seq<byte>, s: seq<byte>)
    requires Huffman.Shaped(c.huffman) && 1 <= n <= 8
    ensures var r := ParseLiteral(c, d, n, it, buf);
            r != More ==> ParseLiteral(c, d, n, it, buf + s) == Extend(r, s)
  {
    VarInt.ReadExtend(n, buf, s);
    match VarInt.Read(n, buf)
    case NeedMore =>
    case Overflow =>
    case Value(i, rest) =>
      if i > 0 {
        var f := At(c.statics, d.ents, i);
        if f.Some? {
          ValueExtend(c, d, it, Some(f.value.name), Undecoded(false, []), rest, s);
        }
      } else {
        StringExtend(d.maxStrLen, rest, s);
        var u := ReadString(d.maxStrLen, rest);
        if u.Str? {
          ValueExtend(c, d, it, None, u.u, u.rest, s);
        }
      }
  }

  lemma {:induction false} ReprExtend(c: Context, d: Decoder, buf: seq<byte>, s: seq<byte>)
    requires Huffman.Shaped(c.huffman) && buf != []
    ensures var r := ParseRepr(c, d, buf);
            r != More ==> ParseRepr(c, d, buf + s) == Extend(r, s)
  {
    var b := buf[0];
    if b >= 128 {
      VarInt.ReadExtend(7, buf, s);
    } else if 32 <= b < 64 {
      VarInt.ReadExtend(5, buf, s);
    } else {
      LiteralExtend(c, d, LiteralBits(b), LiteralType(b), buf, s);
    }
  }

  /** The octets that buf leaves over are not too many to keep for the next call. */
  ghost predicate Calm(c: Context, d: Decoder, buf: seq<byte>)
    requires Huffman.Shaped(c.huffman)
    decreases |buf|
  {
    d.maxStrLen == 0 || buf == [] ||
    (StepShape(c, d, buf);
     match ParseRepr(c, d, buf)
     case More => |buf| <= 2 * (d.maxStrLen + 8)
     case Failed(_, _) => true
     case Parsed(d', rest, _) => Calm(c, d'.(first := false), rest))
  }

  /** A call without an error kept little enough. */
  lemma {:induction false} AcceptedIsCalm(c: Context, d: Decoder, buf: seq<byte>)
    requires Huffman.Shaped(c.huffman) && ParseAll(c, d, buf).err.None?
    ensures Calm(c, d, buf)
    decreases |buf|
  {
    hide ParseRepr;
    if buf != [] {
      StepShape(c, d, buf);
      var r := ParseRepr(c, d, buf);
      if r.Parsed? {
        AcceptedIsCalm(c, r.d.(first := false), r.rest);
      }
    }
  }

  lemma {:induction false} ParseAllSplit(c: Context, d: Decoder, buf: seq<byte>, q: seq<byte>)
    requires Huffman.Shaped(c.huffman) && Calm(c, d, buf)
    ensures var r := ParseAll(c, d, buf);
            SameConfig(d, r.d) &&
            ParseAll(c, d, buf + q) == if r.err.Some? then r else After(r.out, ParseAll(c, r.d, r.save + q))
    decreases |buf|
  {
    hide ParseRepr, Evict;
    if buf == [] {
      assert buf + q == q && [] + q == q;
      EmptyAfter(ParseAll(c, d, q));
    } else {
      ReprExtend(c, d, buf, q);
      StepShape(c, d, buf);
      match ParseRepr(c, d, buf)
      case More =>
        EmptyAfter(ParseAll(c, d, buf + q));
      case Failed(d', e) =>
      case Parsed(d', rest, out) =>
        var d1 := d'.(first := false);
        ParseAllSplit(c, d1, rest, q);
        var r1 := ParseAll(c, d1, rest);
        AfterAfter(out, r1.out, ParseAll(c, r1.d, r1.save + q));
    }
  }

  lemma {:induction false} EmptyAfter(r: Run)
    ensures After([], r) == r
  {
    assert [] + r.out == r.out;
  }

  lemma {:induction false} AfterEnd(out: seq<HeaderField>, r: Run)
    requires r.out == []
    ensures After(out, r) == r.(out := out)
  {
  }

  lemma {:induction false} AfterAfter(a: seq<HeaderField>, b: seq<HeaderField>, r: Run)
    ensures After(a, After(b, r)) == After(a + b, r)
  {
    assert a + (b + r.out) == a + b + r.out;
  }

  //
  // Chunking
  //

  function Concat(chunks: seq<seq<byte>>): (p: seq<byte>) {
    if chunks == [] then [] else chunks[0] + Concat(chunks[1..])
  }

  /** Successive Write calls, up to the first error. */
  ghost function WriteAll(c: Context, d: Decoder, save: seq<byte>, chunks: seq<seq<byte>>): (r: Run)
    requires Huffman.Shaped(c.huffman)
    decreases |chunks|
  {
    if chunks == [] then Run(d, save, [], None)
    else
      var r := Write(c, d, save, chunks[0]);
      if r.err.Some? then r else After(r.out, WriteAll(c, r.d, r.save, chunks[1..]))
  }

  lemma {:induction false} WriteSplit(c: Context, d: Decoder, save: seq<byte>, p: seq<byte>, q: seq<byte>)
    requires Huffman.Shaped(c.huffman) && (p != [] ==> Calm(c, d, save + p))
    ensures var r := Write(c, d, save, p);
            SameConfig(d, r.d) &&
            Write(c, d, save, p + q) == if r.err.Some? then r else After(r.out, Write(c, r.d, r.save, q))
  {
    hide ParseAll, Calm;
    var r := Write(c, d, save, p);
    if p == [] {
      assert p + q == q;
      EmptyAfter(Write(c, d, save, q));
    } else {
      assert save + (p + q) == save + p + q;
      ParseAllSplit(c, d, save + p, q);
      if q == [] {
        assert p + q == p;
        assert r.out + [] == r.out;
      }
    }
  }

  /** No Write call of the run has more octets left over than may be kept. */
  ghost predicate Roomy(c: Context, d: Decoder, save: seq<byte>, chunks: seq<seq<byte>>)
    requires Huffman.Shaped(c.huffman)
    decreases |chunks|
  {
    chunks == [] ||
    ((chunks[0] != [] ==> Calm(c, d, save + chunks[0])) &&
     var r := Write(c, d, save, chunks[0]);
     r.err.None? ==> Roomy(c, r.d, r.save, chunks[1..]))
  }

  /** Without a string limit every run is. */
  lemma {:induction false} UnlimitedIsRoomy(c: Context, d: Decoder, save: seq<byte>, chunks: seq<seq<byte>>)
    requires Huffman.Shaped(c.huffman) && d.maxStrLen == 0
    ensures Roomy(c, d, save, chunks)
    decreases |chunks|
  {
    hide Write;
    if chunks != [] {
      WriteSplit(c, d, save, chunks[0], []);
      var r := Write(c, d, save, chunks[0]);
      UnlimitedIsRoomy(c, r.d, r.save, chunks[1..]);
    }
  }

  /**
   However a block is cut into Write calls, the fields emitted, the table, the first-field
   flag, the octets kept and the error are those of a single Write.
   */
  lemma {:induction false} ChunkingDoesNotMatter(c: Context, d: Decoder, save: seq<byte>, chunks: seq<seq<byte>>)
    requires Huffman.Shaped(c.huffman) && Roomy(c, d, save, chunks)
    ensures WriteAll(c, d, save, chunks) == Write(c, d, save, Concat(chunks))
    decreases |chunks|
  {
    hide Write, Calm;
    if chunks == [] {
      WriteNothing(c, d, save);
    } else {
      WriteSplit(c, d, save, chunks[0], Concat(chunks[1..]));
      var r := Write(c, d, save, chunks[0]);
      if r.err.None? {
        ChunkingDoesNotMatter(c, r.d, r.save, chunks[1..]);
      }
    }
  }

  /** Under any string limit: calls that all succeed do what a single Write does. */
  lemma {:induction false} AcceptedChunks(c: Context, d: Decoder, save: seq<byte>, chunks: seq<seq<byte>>)
    requires Huffman.Shaped(c.huffman) && WriteAll(c, d, save, chunks).err.None?
    ensures WriteAll(c, d, save, chunks) == Write(c, d, save, Concat(chunks))
    decreases |chunks|
  {
    hide Write, Calm;
    if chunks == [] {
      WriteNothing(c, d, save);
    } else {
      var r := Write(c, d, save, chunks[0]);
      AcceptedWrite(c, d, save, chunks[0]);
      WriteSplit(c, d, save, chunks[0], Concat(chunks[1..]));
      AcceptedChunks(c, r.d, r.save, chunks[1..]);
    }
  }

  lemma {:induction false} AcceptedWrite(c: Context, d: Decoder, save: seq<byte>, p: seq<byte>)
    requires Huffman.Shaped(c.huffman) && Write(c, d, save, p).err.None?
    ensures p != [] ==> Calm(c, d, save + p)
  {
    hide ParseAll, Calm;
    if p != [] {
      AcceptedIsCalm(c, d, save + p);
    }
  }

  lemma {:induction false} WriteNothing(c: Context, d: Decoder, save: seq<byte>)
    requires Huffman.Shaped(c.huffman)
    ensures Write(c, d, save, []) == Run(d, save, [], None)
  {
  }
}
