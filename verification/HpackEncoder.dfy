/** The encoder of encode.go: what it writes, as functions on values, and the class itself. */
module HpackEncoder {
  import opened Bytes
  import opened HpackTables
  import VarInt
  import Huffman
  import HuffmanEncoder
  import HpackWire

  const UINT32_MAX := 0xffff_ffff
  const INITIAL_TABLE_SIZE := 4096

  datatype Encoder = Encoder(
    ents: seq<HeaderField>,
    maxSize: nat,
    minSize: nat,
    limit: nat,
    update: bool)

  function New(): (e: Encoder) {
    Encoder([], INITIAL_TABLE_SIZE, UINT32_MAX, INITIAL_TABLE_SIZE, false)
  }

  //
  // Octets
  //

  lemma {:induction false} TypeBits()
    ensures Pow2(4) == 16 && Pow2(5) == 32 && Pow2(6) == 64 && Pow2(7) == 128
    ensures Low(0x80, 7) == 0 && Low(0x20, 5) == 0 && Low(0x40, 6) == 0 && Low(0x10, 4) == 0
    ensures Low(0, 4) == 0 && Low(0, 7) == 0
  {
    Pow2Small();
    ShlConst(1);
    SplitUnique(1, 0, 7);
    SplitUnique(1, 0, 5);
    SplitUnique(1, 0, 6);
    SplitUnique(1, 0, 4);
    LowSmall(0, 4);
    LowSmall(0, 7);
  }

  /** appendHpackString: Huffman only when strictly shorter */
  function StringBytes(t: Huffman.Table, s: seq<byte>): (v: seq<byte>)
    requires Huffman.Shaped(t)
  {
    TypeBits();
    var h := Huffman.Encode(t, s);
    if |h| < |s| then VarInt.EncodeTyped(0x80, 7, |h|) + h else VarInt.EncodeTyped(0, 7, |s|) + s
  }

  function TypeByte(indexing: bool, sensitive: bool): (b: byte) {
    if sensitive then 0x10 else if indexing then 0x40 else 0
  }

  function IndexedBytes(i: nat): (v: seq<byte>)
    ensures |v| > 0
  {
    TypeBits();
    VarInt.EncodeTyped(0x80, 7, i)
  }

  function SizeUpdateBytes(size: nat): (v: seq<byte>)
    ensures |v| > 0
  {
    TypeBits();
    VarInt.EncodeTyped(0x20, 5, size)
  }

  /** appendNewName and appendIndexedName: the name is an index when there is one. */
  function LiteralBytes(t: Huffman.Table, f: HeaderField, i: nat, indexing: bool): (v: seq<byte>)
    requires Huffman.Shaped(t) && !(indexing && f.sensitive)
    ensures |v| > 0
  {
    TypeBits();
    if i == 0 then [TypeByte(indexing, f.sensitive)] + StringBytes(t, f.name) + StringBytes(t, f.value)
    else VarInt.EncodeTyped(TypeByte(indexing, f.sensitive), if indexing then 6 else 4, i) + StringBytes(t, f.value)
  }

  //
  // Fields
  //

  /** searchTable: static exact match, else dynamic exact match, else a name match, static first. */
  function SearchAll(statics: seq<HeaderField>, ents: seq<HeaderField>, f: HeaderField): (r: (nat, bool))
    ensures r.0 <= |statics| + |ents|
  {
    var s := Search(statics, f);
    var i := if s.0 == 0 then 0 else |statics| - s.0 + 1;
    if s.1 then (i, true)
    else
      var d := Search(ents, f);
      if d.1 || (i == 0 && d.0 != 0) then (d.0 + |statics|, d.1) else (i, false)
  }

  function ShouldIndex(e: Encoder, f: HeaderField): (b: bool) {
    !f.sensitive && Size(f) <= e.maxSize
  }

  /** The size updates that precede the next field. */
  function Announce(e: Encoder): (v: seq<byte>) {
    if !e.update then []
    else (if e.minSize < e.maxSize then SizeUpdateBytes(e.minSize) else []) + SizeUpdateBytes(e.maxSize)
  }

  function Announced(e: Encoder): (r: Encoder) {
    if e.update then e.(update := false, minSize := UINT32_MAX) else e
  }

  /** A field without the size updates before it. */
  function FieldBytes(c: HpackWire.Context, e: Encoder, f: HeaderField): (v: seq<byte>)
    requires Huffman.Shaped(c.huffman)
    ensures |v| > 0
  {
    var s := SearchAll(c.statics, e.ents, f);
    if s.1 then IndexedBytes(s.0) else LiteralBytes(c.huffman, f, s.0, ShouldIndex(e, f))
  }

  function FieldAdded(c: HpackWire.Context, e: Encoder, f: HeaderField): (r: Encoder) {
    if !SearchAll(c.statics, e.ents, f).1 && ShouldIndex(e, f) then e.(ents := Evict(e.ents + [f], e.maxSize)) else e
  }

  /** WriteField */
  function WriteBytes(c: HpackWire.Context, e: Encoder, f: HeaderField): (v: seq<byte>)
    requires Huffman.Shaped(c.huffman)
  {
    Announce(e) + FieldBytes(c, Announced(e), f)
  }

  function Written(c: HpackWire.Context, e: Encoder, f: HeaderField): (r: Encoder) {
    FieldAdded(c, Announced(e), f)
  }

  /** SetMaxDynamicTableSize */
  function SetMax(e: Encoder, v: nat): (r: Encoder) {
    var w := if v > e.limit then e.limit else v;
    e.(minSize := if w < e.minSize then w else e.minSize, update := true, maxSize := w, ents := Evict(e.ents, w))
  }

  /** SetMaxDynamicTableSizeLimit */
  function SetLimit(e: Encoder, v: nat): (r: Encoder) {
    if e.maxSize > v then e.(limit := v, update := true, maxSize := v, ents := Evict(e.ents, v))
    else e.(limit := v)
  }

  //
  // The class
  //

  /** appendHpackString */
  method AppendHpackString(t: Huffman.Table, dst: seq<byte>, s: seq<byte>) returns (r: seq<byte>)
    requires Huffman.Shaped(t) && |s| < TWO_63
    ensures r == dst + StringBytes(t, s)
  {
    TypeBits();
    var n := Huffman.EncodeLength(t, s);
    if n < |s| {
      r := AppendTyped(dst, 0x80, 7, n);
      r := HuffmanEncoder.AppendHuffmanString(t, r, s);
    } else {
      r := AppendTyped(dst, 0, 7, |s|);
      r := r + s;
    }
  }

  /** appendVarInt, then the type bits OR-ed into the first octet it appended */
  method AppendTyped(dst: seq<byte>, typeBits: byte, n: nat, i: nat) returns (r: seq<byte>)
    requires 1 <= n <= 8 && i < TWO_64 && Low(typeBits, n) == 0 && typeBits + Pow2(n) <= 256
    ensures r == dst + VarInt.EncodeTyped(typeBits, n, i)
  {
    var first := |dst|;
    r := VarInt.Append(dst, n, i);
    r := r[first := typeBits + r[first]];
  }

  /** appendNewName */
  method AppendNewName(t: Huffman.Table, dst: seq<byte>, f: HeaderField, indexing: bool) returns (r: seq<byte>)
    requires Huffman.Shaped(t) && !(indexing && f.sensitive) && |f.name| < TWO_63 && |f.value| < TWO_63
    ensures r == dst + LiteralBytes(t, f, 0, indexing)
  {
    hide StringBytes;
    r := dst + [TypeByte(indexing, f.sensitive)];
    r := AppendHpackString(t, r, f.name);
    r := AppendHpackString(t, r, f.value);
  }

  /** appendIndexedName */
  method AppendIndexedName(t: Huffman.Table, dst: seq<byte>, f: HeaderField, i: nat, indexing: bool) returns (r: seq<byte>)
    requires Huffman.Shaped(t) && !(indexing && f.sensitive) && 0 < i < TWO_64 && |f.value| < TWO_63
    ensures r == dst + LiteralBytes(t, f, i, indexing)
  {
    hide StringBytes, VarInt.EncodeTyped;
    TypeBits();
    r := AppendTyped(dst, TypeByte(indexing, f.sensitive), if indexing then 6 else 4, i);
    r := AppendHpackString(t, r, f.value);
  }

  /** appendTableSize */
  method AppendTableSize(dst: seq<byte>, v: nat) returns (r: seq<byte>)
    requires v <= UINT32_MAX
    ensures r == dst + SizeUpdateBytes(v)
  {
    TypeBits();
    r := AppendTyped(dst, 0x20, 5, v);
  }

  class EncoderObject {
    const statics: HeaderFieldTable
    const huffman: Huffman.Table
    const dynTab: DynamicTable
    var minSize: nat
    var maxSizeLimit: nat
    var tableSizeUpdate: bool
    var buf: seq<byte>
    var written: seq<byte>  // what the underlying writer was given

    ghost predicate Valid()
      reads this, dynTab, dynTab.table, statics
    {
      && dynTab.Valid() && statics.Valid() && statics.isStatic && statics != dynTab.table
      && Huffman.Shaped(huffman)
    }

    /** Indices and sizes fit the uint64 and uint32 of the program. */
    ghost predicate InRange()
      reads this, dynTab, dynTab.table, statics
    {
      |statics.ents| + |dynTab.table.ents| < TWO_63 && dynTab.maxSize <= UINT32_MAX && minSize <= UINT32_MAX
    }

    ghost function View(): (e: Encoder)
      reads this, dynTab, dynTab.table
    {
      Encoder(dynTab.table.ents, dynTab.maxSize, minSize, maxSizeLimit, tableSizeUpdate)
    }

    ghost function Context(): (c: HpackWire.Context)
      reads this, statics
    {
      HpackWire.Context(statics.ents, huffman)
    }

    /** NewEncoder */
    constructor (statics: HeaderFieldTable, huffman: Huffman.Table)
      requires statics.Valid() && statics.isStatic && Huffman.Shaped(huffman)
      ensures Valid() && View() == New() && fresh(dynTab) && fresh(dynTab.table)
      ensures this.statics == statics && this.huffman == huffman && written == []
    {
      this.statics, this.huffman := statics, huffman;
      dynTab := new DynamicTable(INITIAL_TABLE_SIZE, 0);
      minSize, maxSizeLimit, tableSizeUpdate := UINT32_MAX, INITIAL_TABLE_SIZE, false;
      buf, written := [], [];
    }

    /** searchTable */
    method SearchTable(f: HeaderField) returns (i: nat, nameValueMatch: bool)
      requires Valid()
      ensures (i, nameValueMatch) == SearchAll(statics.ents, dynTab.table.ents, f)
    {
      i, nameValueMatch := statics.SearchTable(f);
      if nameValueMatch {
        return;
      }
      var j, m := dynTab.table.SearchTable(f);
      if m || (i == 0 && j != 0) {
        return j + |statics.ents|, m;
      }
      return i, false;
    }

    /** The size updates at the start of WriteField. */
    method AnnounceSizes()
      requires Valid() && InRange()
      modifies this`buf, this`minSize, this`tableSizeUpdate
      ensures Valid() && InRange() && buf == Announce(old(View())) && View() == Announced(old(View()))
    {
      hide SizeUpdateBytes;
      buf := [];
      if tableSizeUpdate {
        tableSizeUpdate := false;
        if minSize < dynTab.maxSize {
          buf := AppendTableSize(buf, minSize);
        }
        minSize := UINT32_MAX;
        buf := AppendTableSize(buf, dynTab.maxSize);
      }
    }

    /** WriteField up to its Write: the octets are in buf. */
    method EncodeField(f: HeaderField)
      requires Valid() && InRange() && |f.name| < TWO_63 && |f.value| < TWO_63
      modifies this`buf, this`minSize, this`tableSizeUpdate, dynTab, dynTab.table
      ensures Valid()
      ensures View() == Written(Context(), old(View()), f)
      ensures buf == WriteBytes(Context(), old(View()), f)
    {
      hide LiteralBytes, VarInt.EncodeTyped, SearchAll, Announce;
      TypeBits();
      AnnounceSizes();
      var i, nameValueMatch := SearchTable(f);
      if nameValueMatch {
        buf := AppendTyped(buf, 0x80, 7, i);
      } else {
        var indexing := !f.sensitive && Size(f) <= dynTab.maxSize;
        if indexing {
          dynTab.Add(f);
        }
        if i == 0 {
          buf := AppendNewName(huffman, buf, f, indexing);
        } else {
          buf := AppendIndexedName(huffman, buf, f, i, indexing);
        }
      }
    }

    /**
     WriteField, on a writer that takes so many octets of one Write and may fail. The table
     and the announced sizes go on even when the octets do not arrive.
     */
    method WriteField(f: HeaderField, takes: nat, fails: bool) returns (ok: bool)
      requires Valid() && InRange() && |f.name| < TWO_63 && |f.value| < TWO_63
      modifies this`buf, this`minSize, this`tableSizeUpdate, this`written, dynTab, dynTab.table
      ensures Valid()
      ensures View() == Written(Context(), old(View()), f)
      ensures var v := WriteBytes(Context(), old(View()), f);
              && (ok <==> !fails && takes >= |v|)
              && written == old(written) + if takes < |v| then v[..takes] else v
    {
      hide WriteBytes, Written;
      EncodeField(f);
      var n := if takes < |buf| then takes else |buf|;
      assert buf[..|buf|] == buf;
      written := written + buf[..n];
      ok := !fails && n == |buf|;
    }

    /** SetMaxDynamicTableSize */
    method SetMaxDynamicTableSize(v: nat)
      requires Valid()
      modifies this`minSize, this`tableSizeUpdate, dynTab, dynTab.table
      ensures Valid() && View() == SetMax(old(View()), v)
    {
      var w := v;
      if w > maxSizeLimit {
        w := maxSizeLimit;
      }
      if w < minSize {
        minSize := w;
      }
      tableSizeUpdate := true;
      dynTab.SetMaxSize(w);
    }

    /** SetMaxDynamicTableSizeLimit */
    method SetMaxDynamicTableSizeLimit(v: nat)
      requires Valid()
      modifies this`maxSizeLimit, this`tableSizeUpdate, dynTab, dynTab.table
      ensures Valid() && View() == SetLimit(old(View()), v)
    {
      maxSizeLimit := v;
      if dynTab.maxSize > v {
        tableSizeUpdate := true;
        dynTab.SetMaxSize(v);
      }
    }
  }
}
