/** The incremental decoder of hpack.go, proved against module HpackWire. */
module HpackDecoder {
  import opened Wrappers
  import opened Bytes
  import opened HpackTables
  import W = HpackWire
  import VarInt
  import Huffman
  import HuffmanTrie
  import HuffmanDecoder

  datatype Status = Done | NeedMore | Refused(e: W.Error)

  datatype FieldRead = Field(f: HeaderField) | Missing

  datatype TextRead = Text(s: seq<byte>) | Bad(e: W.Error)

  class Decoder {
    const statics: HeaderFieldTable
    const huffman: Huffman.Table
    const root: HuffmanTrie.Trie
    const dynTab: DynamicTable
    var emitted: seq<HeaderField>  // what the emit callback was given
    var emitEnabled: bool
    var maxStrLen: nat
    var buf: seq<byte>
    var saveBuf: seq<byte>
    var firstField: bool

    ghost predicate Valid()
      reads this, dynTab, dynTab.table, statics
    {
      dynTab.Valid() && statics != dynTab.table
    }

    /** The code table and the lookup tree built from it. */
    ghost predicate ValidCode() {
      Huffman.WellFormed(huffman) && HuffmanTrie.Built(huffman, root)
    }

    ghost function Context(): (c: W.Context)
      reads this, statics
    {
      W.Context(statics.ents, huffman)
    }

    ghost function View(): (d: W.Decoder)
      reads this, dynTab, dynTab.table
    {
      W.Decoder(dynTab.table.ents, dynTab.maxSize, dynTab.allowedMaxSize, emitEnabled, maxStrLen, firstField)
    }

    /** NewDecoder */
    constructor (statics: HeaderFieldTable, huffman: Huffman.Table, root: HuffmanTrie.Trie, maxDynamicTableSize: nat)
      requires Huffman.WellFormed(huffman) && HuffmanTrie.Built(huffman, root)
      ensures Valid() && ValidCode() && fresh(dynTab) && fresh(dynTab.table)
      ensures this.statics == statics && this.huffman == huffman
      ensures View() == W.Decoder([], maxDynamicTableSize, maxDynamicTableSize, true, 0, true)
      ensures emitted == [] && saveBuf == []
    {
      this.statics, this.huffman, this.root := statics, huffman, root;
      dynTab := new DynamicTable(maxDynamicTableSize, maxDynamicTableSize);
      emitted, emitEnabled, maxStrLen, buf, saveBuf, firstField := [], true, 0, [], [], true;
    }

    /** at */
    method At(i: nat) returns (r: FieldRead)
      requires Valid()
      ensures match W.At(statics.ents, dynTab.table.ents, i)
              case None => r == Missing
              case Some(f) => r == Field(f)
    {
      if i == 0 {
        return Missing;
      }
      if i <= |statics.ents| {
        return Field(statics.ents[i - 1]);
      }
      if i > |dynTab.table.ents| + |statics.ents| {
        return Missing;
      }
      return Field(dynTab.table.ents[|dynTab.table.ents| - (i - |statics.ents|)]);
    }

    /** readString */
    method ReadString(p: seq<byte>) returns (r: W.StringRead)
      ensures r == W.ReadString(maxStrLen, p)
    {
      if |p| == 0 {
        return W.StrMore;
      }
      var isHuff := p[0] >= 128;
      var v := VarInt.ReadVarInt(7, p);
      match v
      case NeedMore => return W.StrMore;
      case Overflow => return W.StrFailed(W.VarintOverflow);
      case Value(n, rest) =>
        if maxStrLen != 0 && n > maxStrLen {
          return W.StrFailed(W.StringLength);
        }
        if |rest| < n {
          return W.StrMore;
        }
        return W.Str(W.Undecoded(isHuff, rest[..n]), rest[n..]);
    }

    /** decodeString */
    method DecodeString(u: W.Undecoded) returns (r: TextRead)
      requires Valid() && ValidCode()
      ensures var d := W.DecodeString(huffman, maxStrLen, u);
              r == if d.Text? then Text(d.s) else Bad(W.StringError(d))
    {
      if !u.isHuff {
        return Text(u.b);
      }
      var d := HuffmanDecoder.HuffmanDecode(huffman, root, maxStrLen, u.b);
      if d.Text? {
        return Text(d.s);
      }
      return Bad(W.StringError(d));
    }

    /** What a step does to the decoder and what it reports. */
    twostate predicate Did(r: W.Step, st: Status)
      reads this, dynTab, dynTab.table
    {
      && maxStrLen == old(maxStrLen) && saveBuf == old(saveBuf)
      && match r
         case Parsed(d, rest, out) => st == Done && View() == d && buf == rest && emitted == old(emitted) + out
         case More => st == NeedMore && View() == old(View()) && buf == old(buf) && emitted == old(emitted)
         case Failed(d, e) => st == Refused(e) && View() == d && emitted == old(emitted)
    }

    /** callEmit, for a field whose octets were already consumed */
    method CallEmit(f: HeaderField) returns (st: Status)
      requires Valid()
      modifies this`emitted
      ensures Valid() && Did(W.Emit(old(View()), buf, f), st)
    {
      if maxStrLen != 0 {
        if |f.name| > maxStrLen || |f.value| > maxStrLen {
          return Refused(W.StringLength);
        }
      }
      if emitEnabled {
        emitted := emitted + [f];
      }
      return Done;
    }

    /** parseFieldIndexed */
    method ParseFieldIndexed() returns (st: Status)
      requires Valid()
      modifies this`buf, this`emitted
      ensures Valid() && Did(W.ParseIndexed(Context(), old(View()), old(buf)), st)
    {
      var v := VarInt.ReadVarInt(7, buf);
      match v
      case NeedMore => return NeedMore;
      case Overflow => return Refused(W.VarintOverflow);
      case Value(i, rest) =>
        var hf := At(i);
        if hf.Missing? {
          return Refused(W.InvalidIndex(i));
        }
        buf := rest;
        st := CallEmit(HeaderField(hf.f.name, hf.f.value, false));
    }

    /** The tail of parseFieldLiteral, once both strings are known. */
    method FinishLiteral(it: W.IndexType, name: seq<byte>, value: seq<byte>, rest: seq<byte>) returns (st: Status)
      requires Valid()
      modifies this`buf, this`emitted, dynTab, dynTab.table
      ensures Valid() && Did(W.Finish(old(View()), it, name, value, rest), st)
    {
      buf := rest;
      if it.IndexedTrue? {
        dynTab.Add(HeaderField(name, value, false));
      }
      st := CallEmit(HeaderField(name, value, it.IndexedNever?));
    }

    /** parseFieldLiteral, from the value string on */
    method ParseValue(it: W.IndexType, name: Option<seq<byte>>, uname: W.Undecoded, p: seq<byte>) returns (st: Status)
      requires Valid() && ValidCode()
      modifies this`buf, this`emitted, dynTab, dynTab.table
      ensures Valid() && Did(W.ParseValue(Context(), old(View()), it, name, uname, p), st)
    {
      var s := ReadString(p);
      match s
      case StrMore => return NeedMore;
      case StrFailed(e) => return Refused(e);
      case Str(uvalue, rest) =>
        var hn, hv: seq<byte> := if name.Some? then name.value else [], [];
        if emitEnabled || it.IndexedTrue? {
          if name.None? {
            var n := DecodeString(uname);
            if n.Bad? {
              return Refused(n.e);
            }
            hn := n.s;
          }
          var v := DecodeString(uvalue);
          if v.Bad? {
            return Refused(v.e);
          }
          hv := v.s;
        }
        st := FinishLiteral(it, hn, hv, rest);
    }

    /** parseFieldLiteral */
    method ParseFieldLiteral(n: nat, it: W.IndexType) returns (st: Status)
      requires Valid() && ValidCode() && 1 <= n <= 8
      modifies this`buf, this`emitted, dynTab, dynTab.table
      ensures Valid() && Did(W.ParseLiteral(Context(), old(View()), n, it, old(buf)), st)
    {
      var v := VarInt.ReadVarInt(n, buf);
      match v
      case NeedMore => return NeedMore;
      case Overflow => return Refused(W.VarintOverflow);
      case Value(i, rest) =>
        if i > 0 {
          var hf := At(i);
          if hf.Missing? {
            return Refused(W.InvalidIndex(i));
          }
          st := ParseValue(it, Some(hf.f.name), W.Undecoded(false, []), rest);
        } else {
          var s := ReadString(rest);
          match s
          case StrMore => return NeedMore;
          case StrFailed(e) => return Refused(e);
          case Str(u, rest') => st := ParseValue(it, None, u, rest');
        }
    }

    /** parseDynamicTableSizeUpdate */
    method ParseDynamicTableSizeUpdate() returns (st: Status)
      requires Valid()
      modifies this`buf, dynTab, dynTab.table
      ensures Valid() && Did(W.ParseSizeUpdate(old(View()), old(buf)), st)
    {
      if !firstField && dynTab.size > 0 {
        return Refused(W.MisplacedUpdate);
      }
      var v := VarInt.ReadVarInt(5, buf);
      match v
      case NeedMore => return NeedMore;
      case Overflow => return Refused(W.VarintOverflow);
      case Value(size, rest) =>
        if size > dynTab.allowedMaxSize {
          return Refused(W.UpdateTooLarge);
        }
        dynTab.SetMaxSize(size);
        buf := rest;
        assert emitted == old(emitted) + [];
        return Done;
    }

    /** parseHeaderFieldRepr */
    method ParseHeaderFieldRepr() returns (st: Status)
      requires Valid() && ValidCode() && buf != []
      modifies this`buf, this`emitted, dynTab, dynTab.table
      ensures Valid() && Did(W.ParseRepr(Context(), old(View()), old(buf)), st)
    {
      var b := buf[0];
      if b >= 128 {
        st := ParseFieldIndexed();
      } else if b >= 64 {
        st := ParseFieldLiteral(6, W.IndexedTrue);
      } else if b < 16 {
        st := ParseFieldLiteral(4, W.IndexedFalse);
      } else if b < 32 {
        st := ParseFieldLiteral(4, W.IndexedNever);
      } else {
        st := ParseDynamicTableSizeUpdate();
      }
    }

    ghost function ErrOf(st: Status): (e: Option<W.Error>) {
      if st.Refused? then Some(st.e) else None
    }

    /** Write */
    method Write(p: seq<byte>) returns (st: Status)
      requires Valid() && ValidCode()
      modifies this`buf, this`saveBuf, this`firstField, this`emitted, dynTab, dynTab.table
      ensures Valid()
      ensures var r := W.Write(Context(), old(View()), old(saveBuf), p);
              View() == r.d && saveBuf == r.save && emitted == old(emitted) + r.out && ErrOf(st) == r.err
    {
      if |p| == 0 {
        assert emitted + [] == emitted;
        return Done;
      }
      if |saveBuf| == 0 {
        buf := p;
        assert saveBuf + p == p;
      } else {
        buf := saveBuf + p;
        saveBuf := [];
      }
      st := ParseBuffer(Context(), View(), buf);
    }

    /** One turn of the loop of Write, up to its test for errors. */
    method ParseNext() returns (st: Status, ghost out: seq<HeaderField>)
      requires Valid() && ValidCode() && buf != []
      modifies this`buf, this`firstField, this`emitted, dynTab, dynTab.table
      ensures Valid() && emitted == old(emitted) + out
      ensures var r := W.ParseAll(Context(), old(View()), old(buf));
              match st
              case NeedMore => View() == old(View()) && buf == old(buf) && out == [] &&
                r == if maxStrLen != 0 && |buf| > 2 * (maxStrLen + 8) then W.Run(View(), [], [], Some(W.StringLength))
                     else W.Run(View(), buf, [], None)
              case Refused(e) => out == [] && r == W.Run(View(), [], [], Some(e))
              case Done => |buf| < |old(buf)| && r == W.After(out, W.ParseAll(Context(), View(), buf))
    {
      ghost var step := W.ParseRepr(Context(), View(), buf);
      W.StepShape(Context(), View(), buf);
      st := ParseHeaderFieldRepr();
      out := if step.Parsed? then step.out else [];
      if st != NeedMore {
        firstField := false;
      }
    }

    /** Where the loop of Write stands. */
    ghost predicate Stands(c: W.Context, d: W.Decoder, b: seq<byte>)
      reads this, dynTab, dynTab.table, statics
    {
      Context() == c && View() == d && buf == b
    }

    /** A whole turn of the loop of Write; go says whether the loop goes on. */
    method Turn(ghost c: W.Context, ghost d: W.Decoder, ghost b: seq<byte>)
      returns (go: bool, st: Status, ghost out: seq<HeaderField>, ghost d': W.Decoder, ghost b': seq<byte>)
      requires Valid() && ValidCode() && saveBuf == [] && b != [] && Stands(c, d, b)
      modifies this`buf, this`saveBuf, this`firstField, this`emitted, dynTab, dynTab.table
      ensures Valid() && emitted == old(emitted) + out && Stands(c, d', b')
      ensures go ==> st == Done && saveBuf == [] && |b'| < |b| && W.ParseAll(c, d, b) == W.After(out, W.ParseAll(c, d', b'))
      ensures !go ==> W.ParseAll(c, d, b) == W.After(out, W.Run(d', saveBuf, [], ErrOf(st)))
    {
      st, out := ParseNext();
      if st == NeedMore {
        if maxStrLen != 0 && |buf| > 2 * (maxStrLen + 8) {
          st := Refused(W.StringLength);
        } else {
          saveBuf := buf;
          st := Done;
        }
        return false, st, out, View(), buf;
      }
      go, d', b' := st == Done, View(), buf;
    }

    /** The loop of Write. */
    method ParseBuffer(ghost c: W.Context, ghost d0: W.Decoder, ghost b0: seq<byte>) returns (st: Status)
      requires Valid() && ValidCode() && saveBuf == [] && Stands(c, d0, b0)
      modifies this`buf, this`saveBuf, this`firstField, this`emitted, dynTab, dynTab.table
      ensures Valid()
      ensures var r := W.ParseAll(c, d0, b0);
              View() == r.d && saveBuf == r.save && emitted == old(emitted) + r.out && ErrOf(st) == r.err
    {
      hide W.ParseAll, W.After, Evict, Total, Huffman.PrefixFree, Huffman.PaddingIsOpen, HuffmanTrie.Built;
      ghost var d, b, done: seq<HeaderField> := d0, b0, [];
      ghost var r := W.ParseAll(c, d0, b0);
      ghost var left := r;
      W.EmptyAfter(r);
      st := Done;
      var go := true;
      while go && |buf| > 0
        invariant Valid() && Stands(c, d, b) && emitted == old(emitted) + done && r == W.After(done, left)
        invariant go ==> saveBuf == [] && st == Done && left == W.ParseAll(c, d, b)
        invariant !go ==> left == W.Run(d, saveBuf, [], ErrOf(st))
        decreases go, |buf|
      {
        ghost var out: seq<HeaderField>;
        go, st, out, d, b := Turn(c, d, b);
        left := if go then W.ParseAll(c, d, b) else W.Run(d, saveBuf, [], ErrOf(st));
        W.AfterAfter(done, out, left);
        assert old(emitted) + (done + out) == old(emitted) + done + out;
        done := done + out;
      }
      if go {
        W.ParseAllEmpty(c, d);
      }
      W.AfterEnd(done, left);
    }

    /** Close */
    method Close() returns (ok: bool)
      requires Valid()
      modifies this`saveBuf, this`firstField
      ensures Valid() && saveBuf == [] && ok == (old(saveBuf) == [])
      ensures View() == old(View()).(first := ok || old(firstField))
    {
      if |saveBuf| > 0 {
        saveBuf := [];
        return false;
      }
      firstField := true;
      return true;
    }
  }
}
