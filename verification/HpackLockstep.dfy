/**
 Encoder and decoder in lockstep: over every run of header blocks and size changes, the
 decoder emits exactly the fields that were encoded, and the encoder's entries are the
 newest of the decoder's. A block is refused in three cases, each characterised exactly: a
 gap before it lowered the table size and raised it again while entries survive, it announces
 a size the decoder does not allow, or one of its strings is over the decoder's limit.
 */
module HpackLockstep {
  import HuffmanCodes
  import opened Wrappers
  import opened Bytes
  import opened HpackTables
  import opened E = HpackEncoder
  import W = HpackWire
  import VarInt
  import Huffman

  /** e holds the newest entries of d. */
  predicate Suffix(e: seq<HeaderField>, d: seq<HeaderField>) {
    |e| <= |d| && d[|d| - |e|..] == e
  }

  /** Go strings are shorter than 2^63. */
  predicate FieldOk(f: HeaderField) {
    |f.name| < TWO_63 && |f.value| < TWO_63
  }

  /** Both strings are within the decoder's limit. */
  predicate FieldFits(max: nat, f: HeaderField) {
    Huffman.Fits(max, f.name) && Huffman.Fits(max, f.value)
  }

  predicate AllFit(max: nat, fs: seq<HeaderField>) {
    forall f <- fs :: FieldFits(max, f)
  }

  /** The fields before the first that does not fit. */
  function Leading(max: nat, fs: seq<HeaderField>): (r: seq<HeaderField>) {
    if fs == [] || !FieldFits(max, fs[0]) then [] else [fs[0]] + Leading(max, fs[1..])
  }

  /** A representation is refused for the length of a string. */
  ghost predicate Overlong(r: W.Step) {
    r.Failed? && r.e == W.StringLength
  }

  //
  // Strings
  //

  /** A string within the limit reads back; a longer one is refused when it is read or when it is decoded. */
  lemma {:induction false} StringRoundTrip(t: Huffman.Table, max: nat, s: seq<byte>, rest: seq<byte>)
    requires Huffman.WellFormed(t) && |s| < TWO_63
    ensures var r := W.ReadString(max, StringBytes(t, s) + rest);
            if r.Str? then r.rest == rest && W.DecodeString(t, max, r.u) == if Huffman.Fits(max, s) then Huffman.Text(s) else Huffman.TooLong
            else !Huffman.Fits(max, s) && r == W.StrFailed(W.StringLength)
  {
    hide Huffman.WellFormed, Huffman.Encode, Huffman.Decode;
    WellFormedIsShaped(t);
    TypeBits();
    var h := Huffman.Encode(t, s);
    if |h| < |s| {
      PrefixedRead(max, 0x80, h, rest);
      Huffman.DecodeInvertsEncode(t, max, s);
    } else {
      PrefixedRead(max, 0, s, rest);
    }
  }

  lemma {:induction false} PrefixedRead(max: nat, tb: byte, s: seq<byte>, rest: seq<byte>)
    requires |s| < TWO_63 && (tb == 0 || tb == 0x80)
    requires Low(tb, 7) == 0 && Pow2(7) == 128
    ensures W.ReadString(max, VarInt.EncodeTyped(tb, 7, |s|) + s + rest) ==
            if Huffman.Fits(max, s) then W.Str(W.Undecoded(tb == 0x80, s), rest) else W.StrFailed(W.StringLength)
  {
    var v := VarInt.EncodeTyped(tb, 7, |s|);
    assert v + s + rest == v + (s + rest);
    VarInt.ReadInvertsAppend(tb, 7, |s|, s + rest);
    assert (s + rest)[..|s|] == s && (s + rest)[|s|..] == rest;
    assert (v + s + rest)[0] == v[0];
  }

  //
  // Representations
  //

  /** The decoder's name for a literal representation. */
  function Kind(indexing: bool, sensitive: bool): (it: W.IndexType) {
    if sensitive then W.IndexedNever else if indexing then W.IndexedTrue else W.IndexedFalse
  }

  function Width(indexing: bool): (n: nat) {
    if indexing then 6 else 4
  }

  /** The first octet tells a literal and its kind. */
  lemma {:induction false} LiteralHead(c: W.Context, d: W.Decoder, indexing: bool, sensitive: bool, i: nat, tail: seq<byte>)
    requires Huffman.Shaped(c.huffman) && !(indexing && sensitive)
    requires Low(TypeByte(indexing, sensitive), Width(indexing)) == 0
    requires Pow2(4) == 16 && Pow2(6) == 64
    ensures var p := VarInt.EncodeTyped(TypeByte(indexing, sensitive), Width(indexing), i) + tail;
            W.ParseRepr(c, d, p) == W.ParseLiteral(c, d, Width(indexing), Kind(indexing, sensitive), p)
  {
    hide W.ParseLiteral, W.ParseIndexed, W.ParseSizeUpdate;
    var v := VarInt.EncodeTyped(TypeByte(indexing, sensitive), Width(indexing), i);
    assert (v + tail)[0] == v[0];
  }

  /** A literal that fits: a decoder that does not emit looks at its strings only to add it to the table. */
  function Landed(d: W.Decoder, it: W.IndexType, name: seq<byte>, value: seq<byte>, rest: seq<byte>): (r: W.Step) {
    if d.emitEnabled || it.IndexedTrue? then W.Finish(d, it, name, value, rest) else W.Parsed(d, rest, [])
  }

  lemma {:induction false} ValueRoundTrip(c: W.Context, d: W.Decoder, it: W.IndexType, name: Option<seq<byte>>, u: W.Undecoded, n: seq<byte>, value: seq<byte>, rest: seq<byte>)
    requires Huffman.WellFormed(c.huffman) && |value| < TWO_63
    requires if name.Some? then name.value == n
             else W.DecodeString(c.huffman, d.maxStrLen, u) == if Huffman.Fits(d.maxStrLen, n) then Huffman.Text(n) else Huffman.TooLong
    ensures var r := W.ParseValue(c, d, it, name, u, StringBytes(c.huffman, value) + rest);
            if Huffman.Fits(d.maxStrLen, n) && Huffman.Fits(d.maxStrLen, value) then r == Landed(d, it, n, value, rest) else d.emitEnabled ==> Overlong(r)
  {
    hide W.DecodeString, StringBytes, W.ReadString, Huffman.WellFormed, Evict;
    StringRoundTrip(c.huffman, d.maxStrLen, value, rest);
  }

  lemma {:induction false} NamedLiteral(c: W.Context, d: W.Decoder, f: HeaderField, i: nat, indexing: bool, rest: seq<byte>)
    requires Huffman.WellFormed(c.huffman) && FieldOk(f)
    requires !(indexing && f.sensitive) && 0 < i < TWO_63
    requires W.At(c.statics, d.ents, i).Some? && W.At(c.statics, d.ents, i).value.name == f.name
    ensures var r := W.ParseRepr(c, d, LiteralBytes(c.huffman, f, i, indexing) + rest);
            if FieldFits(d.maxStrLen, f) then r == Landed(d, Kind(indexing, f.sensitive), f.name, f.value, rest) else d.emitEnabled ==> Overlong(r)
  {
    hide W.ParseRepr, W.ParseValue, StringBytes, W.At, Huffman.WellFormed, Landed;
    TypeBits();
    var tb, n := TypeByte(indexing, f.sensitive), Width(indexing);
    WellFormedIsShaped(c.huffman);
    var v, s := VarInt.EncodeTyped(tb, n, i), StringBytes(c.huffman, f.value);
    assert v + s + rest == v + (s + rest);
    LiteralHead(c, d, indexing, f.sensitive, i, s + rest);
    VarInt.ReadInvertsAppend(tb, n, i, s + rest);
    var name := W.At(c.statics, d.ents, i).value.name;
    ValueRoundTrip(c, d, Kind(indexing, f.sensitive), Some(name), W.Undecoded(false, []), f.name, f.value, rest);
  }

  lemma {:induction false} WellFormedIsShaped(t: Huffman.Table)
    requires Huffman.WellFormed(t)
    ensures Huffman.Shaped(t)
  {
  }

  lemma {:induction false} NewNameLiteral(c: W.Context, d: W.Decoder, f: HeaderField, indexing: bool, rest: seq<byte>)
    requires Huffman.WellFormed(c.huffman) && FieldOk(f)
    requires !(indexing && f.sensitive)
    ensures var r := W.ParseRepr(c, d, LiteralBytes(c.huffman, f, 0, indexing) + rest);
            if FieldFits(d.maxStrLen, f) then r == Landed(d, Kind(indexing, f.sensitive), f.name, f.value, rest) else d.emitEnabled ==> Overlong(r)
  {
    hide W.ParseRepr, W.ParseValue, StringBytes, W.ReadString, Huffman.WellFormed, Landed;
    TypeBits();
    var tb, n := TypeByte(indexing, f.sensitive), Width(indexing);
    var v := VarInt.EncodeTyped(tb, n, 0);
    assert v == [tb];
    WellFormedIsShaped(c.huffman);
    var sn, sv := StringBytes(c.huffman, f.name), StringBytes(c.huffman, f.value);
    assert [tb] + sn + sv + rest == v + (sn + (sv + rest));
    LiteralHead(c, d, indexing, f.sensitive, 0, sn + (sv + rest));
    VarInt.ReadInvertsAppend(tb, n, 0, sn + (sv + rest));
    StringRoundTrip(c.huffman, d.maxStrLen, f.name, sv + rest);
    var s := W.ReadString(d.maxStrLen, sn + (sv + rest));
    if s.Str? {
      ValueRoundTrip(c, d, Kind(indexing, f.sensitive), None, s.u, f.name, f.value, rest);
    }
  }

  lemma {:induction false} IndexedRoundTrip(c: W.Context, d: W.Decoder, i: nat, rest: seq<byte>)
    requires Huffman.Shaped(c.huffman) && i < TWO_63
    requires W.At(c.statics, d.ents, i).Some?
    ensures var f := W.At(c.statics, d.ents, i).value;
            W.ParseRepr(c, d, IndexedBytes(i) + rest) ==
            if FieldFits(d.maxStrLen, f) then W.Parsed(d, rest, Shown(d, HeaderField(f.name, f.value, false))) else W.Failed(d, W.StringLength)
  {
    hide W.ParseLiteral, W.ParseSizeUpdate, W.At;
    TypeBits();
    var v := VarInt.EncodeTyped(0x80, 7, i);
    assert (v + rest)[0] == v[0];
    VarInt.ReadInvertsAppend(0x80, 7, i, rest);
  }

  lemma {:induction false} UpdateRoundTrip(c: W.Context, d: W.Decoder, size: nat, rest: seq<byte>)
    requires Huffman.Shaped(c.huffman) && size < TWO_63
    ensures W.ParseRepr(c, d, SizeUpdateBytes(size) + rest) ==
            if !d.first && d.ents != [] then W.Failed(d, W.MisplacedUpdate)
            else if size > d.allowed then W.Failed(d, W.UpdateTooLarge)
            else W.Parsed(d.(maxSize := size, ents := Evict(d.ents, size)), rest, [])
  {
    hide W.ParseLiteral, W.ParseIndexed, Evict;
    TypeBits();
    var v := VarInt.EncodeTyped(0x20, 5, size);
    assert (v + rest)[0] == v[0];
    VarInt.ReadInvertsAppend(0x20, 5, size, rest);
  }

  //
  // Tables
  //

  /** An index the encoder finds names the same entry in the decoder. */
  lemma {:induction false} SameEntry(statics: seq<HeaderField>, e: seq<HeaderField>, d: seq<HeaderField>, i: nat)
    requires Suffix(e, d) && i <= |statics| + |e|
    ensures W.At(statics, d, i) == W.At(statics, e, i)
  {
    if i > |statics| {
      assert e[|e| - (i - |statics|)] == d[|d| - |e|..][|e| - (i - |statics|)];
    }
  }

  /** The index of a search yields a field of that name, and of that value on a full match. */
  lemma {:induction false} SearchFinds(statics: seq<HeaderField>, ents: seq<HeaderField>, f: HeaderField)
    ensures var r := SearchAll(statics, ents, f);
            var a := W.At(statics, ents, r.0);
            (r.0 != 0 ==> a.Some? && a.value.name == f.name) &&
            (r.1 ==> r.0 != 0 && a.value.value == f.value && !f.sensitive)
  {
  }

  lemma {:induction false} SuffixAppend(e: seq<HeaderField>, d: seq<HeaderField>, f: HeaderField)
    requires Suffix(e, d)
    ensures Suffix(e + [f], d + [f])
  {
    assert (d + [f])[|d| - |e|..] == d[|d| - |e|..] + [f];
  }

  /** A smaller table evicts down to the newest entries of a larger one. */
  lemma {:induction false} SuffixEvict(e: seq<HeaderField>, d: seq<HeaderField>, m: nat, n: nat)
    requires Suffix(e, d) && m <= n
    ensures Suffix(Evict(e, m), Evict(d, n))
  {
    var e', d' := Evict(e, m), Evict(d, n);
    EvictLongest(e, m, |e|);
    var j := |d| - |e'|;
    assert d[j..] == e' by {
      assert d[|d| - |e|..][|e| - |e'|..] == d[j..];
    }
    EvictLongest(d, n, j);
    assert d[|d| - |d'|..][|d'| - |e'|..] == d[j..];
  }

  /** Entries that already fit stay the newest entries of what another eviction leaves. */
  lemma {:induction false} SuffixSurvives(e: seq<HeaderField>, d: seq<HeaderField>, n: nat)
    requires Suffix(e, d) && Total(e) <= n
    ensures Suffix(e, Evict(d, n))
  {
    SuffixEvict(e, d, Total(e), n);
    assert e[0..] == e;
  }

  //
  // One field
  //

  /** What the decoder is after reading what the encoder wrote for f. */
  function Mirror(c: W.Context, e: Encoder, d: W.Decoder, f: HeaderField): (r: W.Decoder) {
    if !SearchAll(c.statics, e.ents, f).1 && ShouldIndex(e, f) then d.(ents := Evict(d.ents + [f], d.maxSize)) else d
  }

  /** What is emitted of a field. */
  function Shown(d: W.Decoder, f: HeaderField): (out: seq<HeaderField>) {
    if d.emitEnabled then [f] else []
  }

  /** The two tables agree while no size change is pending. */
  predicate Agree(c: W.Context, e: Encoder, d: W.Decoder) {
    && Suffix(e.ents, d.ents) && e.maxSize <= d.maxSize && !e.update
    && |c.statics| + |e.ents| < TWO_63
  }

  /** A field that fits is emitted as it was encoded, or only added to the table; any other is refused by a decoder that emits. */
  lemma {:induction false} FieldRoundTrip(c: W.Context, e: Encoder, d: W.Decoder, f: HeaderField, rest: seq<byte>)
    requires Huffman.WellFormed(c.huffman) && Agree(c, e, d) && FieldOk(f)
    ensures var r := W.ParseRepr(c, d, FieldBytes(c, e, f) + rest);
            if FieldFits(d.maxStrLen, f) then r == W.Parsed(Mirror(c, e, d, f), rest, Shown(d, f)) else d.emitEnabled ==> Overlong(r)
  {
    hide W.ParseRepr, LiteralBytes, IndexedBytes, SearchAll, W.At, Evict, Huffman.WellFormed;
    WellFormedIsShaped(c.huffman);
    var s := SearchAll(c.statics, e.ents, f);
    SearchFinds(c.statics, e.ents, f);
    SameEntry(c.statics, e.ents, d.ents, s.0);
    if s.1 {
      IndexedRoundTrip(c, d, s.0, rest);
    } else if s.0 == 0 {
      NewNameLiteral(c, d, f, ShouldIndex(e, f), rest);
    } else {
      NamedLiteral(c, d, f, s.0, ShouldIndex(e, f), rest);
    }
  }

  /** Adding a field keeps the encoder's entries the newest of the decoder's. */
  lemma {:induction false} FieldAgree(c: W.Context, e: Encoder, d: W.Decoder, f: HeaderField)
    requires Agree(c, e, d)
    ensures var e', d' := FieldAdded(c, e, f), Mirror(c, e, d, f);
            Suffix(e'.ents, d'.ents) && e'.maxSize == e.maxSize && d'.maxSize == d.maxSize && !e'.update
  {
    hide SearchAll, Evict;
    SuffixAppend(e.ents, d.ents, f);
    SuffixEvict(e.ents + [f], d.ents + [f], e.maxSize, d.maxSize);
  }

  //
  // Fields of a block, once the decoder knows the table size
  //

  function FieldsBytes(c: W.Context, e: Encoder, fs: seq<HeaderField>): (v: seq<byte>)
    requires Huffman.Shaped(c.huffman)
    decreases |fs|
  {
    if fs == [] then [] else FieldBytes(c, e, fs[0]) + FieldsBytes(c, FieldAdded(c, e, fs[0]), fs[1..])
  }

  function FieldsAdded(c: W.Context, e: Encoder, fs: seq<HeaderField>): (r: Encoder)
    decreases |fs|
  {
    if fs == [] then e else FieldsAdded(c, FieldAdded(c, e, fs[0]), fs[1..])
  }

  function MirrorAll(c: W.Context, e: Encoder, d: W.Decoder, fs: seq<HeaderField>): (r: W.Decoder)
    decreases |fs|
  {
    if fs == [] then d
    else MirrorAll(c, FieldAdded(c, e, fs[0]), Mirror(c, e, d, fs[0]).(first := false), fs[1..])
  }

  /** Few enough entries that every index fits. */
  predicate Indexable(c: W.Context, e: Encoder) {
    |c.statics| < TWO_63 - UINT32_MAX && Total(e.ents) <= e.maxSize <= UINT32_MAX
  }

  lemma {:induction false} CountBound(ents: seq<HeaderField>)
    ensures |ents| <= Total(ents)
  {
    if ents != [] {
      CountBound(ents[1..]);
    }
  }

  lemma {:induction false} AddedFits(c: W.Context, e: Encoder, f: HeaderField)
    requires Indexable(c, e)
    ensures Indexable(c, FieldAdded(c, e, f))
  {
    hide SearchAll;
    EvictLongest(e.ents + [f], e.maxSize, 0);
  }

  /** Fields that fit come back in order; otherwise exactly those before the first that does not. */
  lemma {:induction false} FieldsRoundTrip(c: W.Context, e: Encoder, d: W.Decoder, fs: seq<HeaderField>)
    requires Huffman.WellFormed(c.huffman) && Agree(c, e, d) && Indexable(c, e) && d.emitEnabled
    requires forall f <- fs :: FieldOk(f)
    ensures var r := W.ParseAll(c, d, FieldsBytes(c, e, fs));
            if AllFit(d.maxStrLen, fs) then r == W.Run(MirrorAll(c, e, d, fs), [], fs, None)
            else r.out == Leading(d.maxStrLen, fs) && r.err == Some(W.StringLength)
    ensures Agree(c, FieldsAdded(c, e, fs), MirrorAll(c, e, d, fs)) && Indexable(c, FieldsAdded(c, e, fs))
    ensures FieldsAdded(c, e, fs).minSize == e.minSize
    ensures W.SameConfig(d, MirrorAll(c, e, d, fs))
    decreases |fs|
  {
    hide W.ParseRepr, FieldBytes, Evict, SearchAll, Huffman.WellFormed, FieldFits, Total;
    WellFormedIsShaped(c.huffman);
    if fs != [] {
      var f := fs[0];
      var e', d' := FieldAdded(c, e, f), Mirror(c, e, d, f).(first := false);
      var rest := FieldsBytes(c, e', fs[1..]);
      FieldRoundTrip(c, e, d, f, rest);
      FieldAgree(c, e, d, f);
      AddedFits(c, e, f);
      CountBound(e'.ents);
      FieldsRoundTrip(c, e', d', fs[1..]);
      assert [f] + fs[1..] == fs;
      assert AllFit(d.maxStrLen, fs) <==> FieldFits(d.maxStrLen, f) && AllFit(d.maxStrLen, fs[1..]);
    }
  }

  //
  // Size updates
  //

  /** The invariant between blocks. */
  predicate Sync(c: W.Context, e: Encoder, d: W.Decoder) {
    && Suffix(e.ents, d.ents) && Indexable(c, e)
    && (if e.update then Total(e.ents) <= e.minSize <= UINT32_MAX else e.minSize == UINT32_MAX && e.maxSize <= d.maxSize)
    && d.emitEnabled && d.first
  }

  /** Two updates are due and an entry survives the first: the second comes too late. */
  predicate Clash(e: Encoder, d: W.Decoder) {
    e.update && e.minSize < e.maxSize && d.ents != [] && Size(d.ents[|d.ents| - 1]) <= e.minSize
  }

  /** The announced sizes are refused: the last is over the decoder's bound, or they clash. */
  predicate Refused(e: Encoder, d: W.Decoder) {
    e.update && (e.maxSize > d.allowed || Clash(e, d))
  }

  function Refusal(e: Encoder, d: W.Decoder): (err: W.Error) {
    if Clash(e, d) && e.minSize <= d.allowed then W.MisplacedUpdate else W.UpdateTooLarge
  }

  function Resized(d: W.Decoder, size: nat): (r: W.Decoder) {
    d.(maxSize := size, ents := Evict(d.ents, size), first := false)
  }

  /** The decoder after the announced sizes. */
  function Informed(e: Encoder, d: W.Decoder): (r: W.Decoder) {
    if !e.update then d
    else Resized(if e.minSize < e.maxSize then Resized(d, e.minSize) else d, e.maxSize)
  }

  lemma {:induction false} NewestSurvives(ents: seq<HeaderField>, size: nat)
    ensures Evict(ents, size) != [] <==> ents != [] && Size(ents[|ents| - 1]) <= size
  {
    if ents != [] {
      var k := |ents| - 1;
      EvictLongest(ents, size, k);
      assert ents[k..] == [ents[k]];
      var r := Evict(ents, size);
      if r != [] {
        assert r[|r| - 1] == ents[k];
        TotalSplit(r[..|r| - 1], [ents[k]]);
        assert r == r[..|r| - 1] + [ents[k]];
      }
    }
  }

  lemma {:induction false} UpdateStep(c: W.Context, d: W.Decoder, size: nat, rest: seq<byte>)
    requires Huffman.Shaped(c.huffman) && size <= d.allowed && size < TWO_63 && (d.first || d.ents == [])
    ensures W.ParseAll(c, d, SizeUpdateBytes(size) + rest) == W.ParseAll(c, Resized(d, size), rest)
  {
    hide W.ParseRepr, SizeUpdateBytes, Evict;
    UpdateRoundTrip(c, d, size, rest);
    W.EmptyAfter(W.ParseAll(c, Resized(d, size), rest));
  }

  lemma {:induction false} BadUpdate(c: W.Context, d: W.Decoder, size: nat, rest: seq<byte>)
    requires Huffman.Shaped(c.huffman) && size < TWO_63 && (size > d.allowed || (!d.first && d.ents != []))
    ensures var r := W.ParseAll(c, d, SizeUpdateBytes(size) + rest);
            r.out == [] && r.err == Some(if !d.first && d.ents != [] then W.MisplacedUpdate else W.UpdateTooLarge)
  {
    hide W.ParseRepr, SizeUpdateBytes, Evict;
    UpdateRoundTrip(c, d, size, rest);
  }

  /** The decoder accepts the announced sizes unless they are refused, and then nothing is emitted. */
  lemma {:induction false} AnnounceParses(c: W.Context, e: Encoder, d: W.Decoder, rest: seq<byte>)
    requires Huffman.Shaped(c.huffman) && Sync(c, e, d)
    ensures var r := W.ParseAll(c, d, Announce(e) + rest);
            if Refused(e, d) then r.out == [] && r.err == Some(Refusal(e, d))
            else r == W.ParseAll(c, Informed(e, d), rest)
  {
    hide W.ParseAll, SizeUpdateBytes, Evict, Total, Size;
    if !e.update {
      assert [] + rest == rest;
    } else if e.minSize < e.maxSize {
      TwoUpdates(c, e, d, rest);
    } else {
      var last := SizeUpdateBytes(e.maxSize);
      assert [] + last == last;
      if e.maxSize <= d.allowed {
        UpdateStep(c, d, e.maxSize, rest);
      } else {
        BadUpdate(c, d, e.maxSize, rest);
      }
    }
  }

  lemma {:induction false} TwoUpdates(c: W.Context, e: Encoder, d: W.Decoder, rest: seq<byte>)
    requires Huffman.Shaped(c.huffman) && Sync(c, e, d) && e.update && e.minSize < e.maxSize
    ensures var r := W.ParseAll(c, d, Announce(e) + rest);
            if Refused(e, d) then r.out == [] && r.err == Some(Refusal(e, d))
            else r == W.ParseAll(c, Informed(e, d), rest)
  {
    hide W.ParseAll, SizeUpdateBytes, Evict, Total, Size;
    var first, last := SizeUpdateBytes(e.minSize), SizeUpdateBytes(e.maxSize);
    assert first + last + rest == first + (last + rest);
    if e.minSize > d.allowed {
      BadUpdate(c, d, e.minSize, last + rest);
    } else {
      UpdateStep(c, d, e.minSize, last + rest);
      NewestSurvives(d.ents, e.minSize);
      if Refused(e, d) {
        BadUpdate(c, Resized(d, e.minSize), e.maxSize, rest);
      } else {
        UpdateStep(c, Resized(d, e.minSize), e.maxSize, rest);
      }
    }
  }

  /** Once informed, the decoder agrees with the encoder. */
  lemma {:induction false} InformedAgrees(c: W.Context, e: Encoder, d: W.Decoder)
    requires Sync(c, e, d)
    ensures Agree(c, Announced(e), Informed(e, d)) && Indexable(c, Announced(e))
    ensures W.SameConfig(d, Informed(e, d)) && Announced(e).minSize == UINT32_MAX
  {
    hide Evict, Total;
    CountBound(e.ents);
    if e.update {
      if e.minSize < e.maxSize {
        SuffixSurvives(e.ents, d.ents, e.minSize);
        SuffixSurvives(e.ents, Evict(d.ents, e.minSize), e.maxSize);
      } else {
        SuffixSurvives(e.ents, d.ents, e.maxSize);
      }
    }
  }

  //
  // Blocks
  //

  /** What a sequence of WriteField calls writes, and the encoder after them. */
  function BlockBytes(c: W.Context, e: Encoder, fs: seq<HeaderField>): (v: seq<byte>)
    requires Huffman.Shaped(c.huffman)
    decreases |fs|
  {
    if fs == [] then [] else WriteBytes(c, e, fs[0]) + BlockBytes(c, Written(c, e, fs[0]), fs[1..])
  }

  function BlockWritten(c: W.Context, e: Encoder, fs: seq<HeaderField>): (r: Encoder)
    decreases |fs|
  {
    if fs == [] then e else BlockWritten(c, Written(c, e, fs[0]), fs[1..])
  }

  lemma {:induction false} NoAnnounce(c: W.Context, e: Encoder, fs: seq<HeaderField>)
    requires Huffman.Shaped(c.huffman) && !e.update
    ensures BlockBytes(c, e, fs) == FieldsBytes(c, e, fs) && BlockWritten(c, e, fs) == FieldsAdded(c, e, fs)
    decreases |fs|
  {
    hide FieldBytes, Evict, SearchAll;
    if fs != [] {
      NoAnnounce(c, FieldAdded(c, e, fs[0]), fs[1..]);
      assert [] + FieldBytes(c, e, fs[0]) == FieldBytes(c, e, fs[0]);
    }
  }

  /** A block is its size updates followed by its fields. */
  lemma {:induction false} BlockIsAnnounced(c: W.Context, e: Encoder, fs: seq<HeaderField>)
    requires Huffman.Shaped(c.huffman) && fs != []
    ensures BlockBytes(c, e, fs) == Announce(e) + FieldsBytes(c, Announced(e), fs)
    ensures BlockWritten(c, e, fs) == FieldsAdded(c, Announced(e), fs)
  {
    hide FieldBytes, Evict, SearchAll, Announce;
    var e', b := Announced(e), FieldBytes(c, Announced(e), fs[0]);
    NoAnnounce(c, FieldAdded(c, e', fs[0]), fs[1..]);
    assert Announce(e) + b + FieldsBytes(c, FieldAdded(c, e', fs[0]), fs[1..]) ==
           Announce(e) + (b + FieldsBytes(c, FieldAdded(c, e', fs[0]), fs[1..]));
  }

  /** The decoder after Write of a block and Close. */
  function Received(c: W.Context, e: Encoder, d: W.Decoder, fs: seq<HeaderField>): (r: W.Decoder) {
    if fs == [] then d else MirrorAll(c, Announced(e), Informed(e, d), fs).(first := true)
  }

  /**
   A block decodes to exactly its fields, and the invariant holds again, unless its size
   updates are refused, and then nothing of it is emitted, or a string is over the limit,
   and then the fields before it are.
   */
  lemma {:induction false} BlockDecodes(c: W.Context, e: Encoder, d: W.Decoder, fs: seq<HeaderField>)
    requires Huffman.WellFormed(c.huffman) && Sync(c, e, d)
    requires forall f <- fs :: FieldOk(f)
    ensures var r := W.Write(c, d, [], BlockBytes(c, e, fs));
            if fs != [] && Refused(e, d) then r.out == [] && r.err == Some(Refusal(e, d))
            else if !AllFit(d.maxStrLen, fs) then r.out == Leading(d.maxStrLen, fs) && r.err == Some(W.StringLength)
            else r.d.(first := true) == Received(c, e, d, fs) && r.save == [] && r.out == fs && r.err == None
    ensures !(fs != [] && Refused(e, d)) ==> Sync(c, BlockWritten(c, e, fs), Received(c, e, d, fs))
    ensures W.SameConfig(d, Received(c, e, d, fs))
  {
    hide W.ParseAll, FieldBytes, Evict, SearchAll, Announce, Total, Clash, FieldFits, Huffman.WellFormed;
    WellFormedIsShaped(c.huffman);
    if fs != [] {
      var e', d' := Announced(e), Informed(e, d);
      var fields := FieldsBytes(c, e', fs);
      BlockIsAnnounced(c, e, fs);
      AnnounceParses(c, e, d, fields);
      InformedAgrees(c, e, d);
      FieldsRoundTrip(c, e', d', fs);
      var b := BlockBytes(c, e, fs);
      assert |b| > 0 by {
        BlockNotEmpty(c, e, fs);
      }
      assert [] + b == b;
    }
  }

  lemma {:induction false} BlockNotEmpty(c: W.Context, e: Encoder, fs: seq<HeaderField>)
    requires Huffman.Shaped(c.huffman) && fs != []
    ensures |BlockBytes(c, e, fs)| > 0
  {
    hide FieldBytes, Announce;
  }

  //
  // Runs
  //

  datatype Event =
    | SetMaxSize(v: nat)
    | SetSizeLimit(v: nat)
    | Block(fs: seq<HeaderField>)

  predicate EventOk(ev: Event) {
    match ev
    case SetMaxSize(v) => v <= UINT32_MAX
    case SetSizeLimit(v) => v <= UINT32_MAX
    case Block(fs) => forall f <- fs :: FieldOk(f)
  }

  function EncoderAfter(c: W.Context, e: Encoder, ev: Event): (r: Encoder) {
    match ev
    case SetMaxSize(v) => SetMax(e, v)
    case SetSizeLimit(v) => SetLimit(e, v)
    case Block(fs) => BlockWritten(c, e, fs)
  }

  /** A decoder that reads whole blocks, up to the first it cannot decode. */
  datatype Session = Session(d: W.Decoder, blocks: seq<seq<HeaderField>>, failed: bool)

  ghost function DecoderAfter(c: W.Context, e: Encoder, s: Session, ev: Event): (r: Session)
    requires Huffman.Shaped(c.huffman)
  {
    if s.failed || !ev.Block? then s
    else
      var w := W.Write(c, s.d, [], BlockBytes(c, e, ev.fs));
      if w.err.Some? || w.save != [] then s.(failed := true)
      else Session(w.d.(first := true), s.blocks + [w.out], false)
  }

  /** Encoder and decoder after a run. */
  ghost function Play(c: W.Context, e: Encoder, s: Session, evs: seq<Event>): (r: (Encoder, Session))
    requires Huffman.Shaped(c.huffman)
    decreases |evs|
  {
    if evs == [] then (e, s)
    else Play(c, EncoderAfter(c, e, evs[0]), DecoderAfter(c, e, s, evs[0]), evs[1..])
  }

  /** No block of the run is refused. */
  ghost predicate Smooth(c: W.Context, e: Encoder, d: W.Decoder, evs: seq<Event>)
    decreases |evs|
  {
    evs == [] ||
    match evs[0]
    case Block(fs) =>
      && (fs != [] ==> !Refused(e, d)) && AllFit(d.maxStrLen, fs)
      && Smooth(c, BlockWritten(c, e, fs), Received(c, e, d, fs), evs[1..])
    case _ => Smooth(c, EncoderAfter(c, e, evs[0]), d, evs[1..])
  }

  function Blocks(evs: seq<Event>): (r: seq<seq<HeaderField>>) {
    if evs == [] then []
    else if evs[0].Block? then [evs[0].fs] + Blocks(evs[1..])
    else Blocks(evs[1..])
  }

  lemma {:induction false} TotalOfSuffix(ents: seq<HeaderField>, max: nat)
    ensures Total(Evict(ents, max)) <= Total(ents)
  {
    var k := FirstFit(ents, 0, max);
    TotalSplit(ents[..k], ents[k..]);
    assert ents == ents[..k] + ents[k..];
  }

  lemma {:induction false} ResizeKeepsSync(c: W.Context, e: Encoder, d: W.Decoder, v: nat)
    requires Sync(c, e, d) && v <= UINT32_MAX
    ensures Suffix(Evict(e.ents, v), d.ents)
    ensures Total(Evict(e.ents, v)) <= v && Total(Evict(e.ents, v)) <= e.minSize
  {
    hide Total;
    EvictLongest(e.ents, v, 0);
    TotalOfSuffix(e.ents, v);
    var e' := Evict(e.ents, v);
    assert d.ents[|d.ents| - |e.ents|..][|e.ents| - |e'|..] == d.ents[|d.ents| - |e'|..];
  }

  /** Size and limit changes keep the invariant. */
  lemma {:induction false} SettersKeepSync(c: W.Context, e: Encoder, d: W.Decoder, v: nat)
    requires Sync(c, e, d) && v <= UINT32_MAX
    ensures Sync(c, SetMax(e, v), d) && Sync(c, SetLimit(e, v), d)
  {
    hide Total, Evict;
    ResizeKeepsSync(c, e, d, v);
    if v > e.limit {
      ResizeKeepsSync(c, e, d, e.limit);
    }
  }

  /**
   Lockstep: the decoder fails over a run exactly when some block is refused. Whatever it
   emits are the encoded blocks in order; over a run without a refusal it emits all of them,
   and at the end the encoder's entries are the newest of the decoder's.
   */
  lemma {:induction false} Lockstep(c: W.Context, e: Encoder, s: Session, evs: seq<Event>)
    requires Huffman.WellFormed(c.huffman) && Sync(c, e, s.d) && !s.failed
    requires forall ev <- evs :: EventOk(ev)
    ensures var r := Play(c, e, s, evs);
            && (r.1.failed <==> !Smooth(c, e, s.d, evs))
            && r.1.blocks <= s.blocks + Blocks(evs)
            && (!r.1.failed ==> r.1.blocks == s.blocks + Blocks(evs) && Sync(c, r.0, r.1.d) && Suffix(r.0.ents, r.1.d.ents))
    decreases |evs|
  {
    hide W.Write, BlockBytes, BlockWritten, Sync, Refused, Received, AllFit, Suffix, SetMax, SetLimit, Evict, Huffman.WellFormed, Huffman.Shaped;
    WellFormedIsShaped(c.huffman);
    if evs == [] {
      assert Suffix(e.ents, s.d.ents) by {
        SyncMeansSuffix(c, e, s.d);
      }
      assert s.blocks + [] == s.blocks;
    } else {
      assert EventOk(evs[0]);
      match evs[0]
      case Block(fs) =>
        BlockDecodes(c, e, s.d, fs);
        var s' := DecoderAfter(c, e, s, evs[0]);
        var e' := BlockWritten(c, e, fs);
        if s'.failed {
          FailedStays(c, e', s', evs[1..]);
        } else {
          assert s' == Session(Received(c, e, s.d, fs), s.blocks + [fs], false);
          Lockstep(c, e', s', evs[1..]);
          assert s.blocks + [fs] + Blocks(evs[1..]) == s.blocks + ([fs] + Blocks(evs[1..]));
        }
      case SetMaxSize(v) =>
        SettersKeepSync(c, e, s.d, v);
        Lockstep(c, SetMax(e, v), s, evs[1..]);
      case SetSizeLimit(v) =>
        SettersKeepSync(c, e, s.d, v);
        Lockstep(c, SetLimit(e, v), s, evs[1..]);
    }
  }

  lemma {:induction false} FailedStays(c: W.Context, e: Encoder, s: Session, evs: seq<Event>)
    requires Huffman.Shaped(c.huffman) && s.failed
    ensures Play(c, e, s, evs).1 == s
    decreases |evs|
  {
    hide EncoderAfter;
    if evs != [] {
      FailedStays(c, EncoderAfter(c, e, evs[0]), s, evs[1..]);
    }
  }

  lemma {:induction false} SyncMeansSuffix(c: W.Context, e: Encoder, d: W.Decoder)
    requires Sync(c, e, d)
    ensures Suffix(e.ents, d.ents)
  {
  }

  /** A new decoder of the given table size, with a string limit or none. */
  function NewDecoder(size: nat, max: nat): (d: W.Decoder) {
    W.Decoder([], size, size, true, max, true)
  }

  /** A new encoder and a new decoder of at least 4096 octets start in step. */
  lemma {:induction false} StartsInSync(c: W.Context, size: nat, max: nat)
    requires |c.statics| < TWO_63 - UINT32_MAX && size >= INITIAL_TABLE_SIZE
    ensures Sync(c, New(), NewDecoder(size, max))
  {
  }

  //
  // A condition on the encoder's calls alone
  //

  /**
   At no block has the size been lowered below its final value in the gap before, and the
   size it announces is at most a.
   */
  ghost predicate NoDip(c: W.Context, e: Encoder, evs: seq<Event>, a: nat)
    decreases |evs|
  {
    evs == [] ||
    ((evs[0].Block? && evs[0].fs != [] && e.update ==> e.maxSize <= e.minSize && e.maxSize <= a)
     && NoDip(c, EncoderAfter(c, e, evs[0]), evs[1..], a))
  }

  /** Every string of the run is within the limit. */
  predicate Brief(max: nat, evs: seq<Event>) {
    forall ev <- evs :: ev.Block? ==> AllFit(max, ev.fs)
  }

  lemma {:induction false} MirrorKeepsConfig(c: W.Context, e: Encoder, d: W.Decoder, fs: seq<HeaderField>)
    ensures W.SameConfig(d, MirrorAll(c, e, d, fs))
    decreases |fs|
  {
    hide SearchAll, Evict;
    if fs != [] {
      MirrorKeepsConfig(c, FieldAdded(c, e, fs[0]), Mirror(c, e, d, fs[0]).(first := false), fs[1..]);
    }
  }

  lemma {:induction false} NoDipIsSmooth(c: W.Context, e: Encoder, d: W.Decoder, evs: seq<Event>)
    requires NoDip(c, e, evs, d.allowed) && Brief(d.maxStrLen, evs)
    ensures Smooth(c, e, d, evs)
    decreases |evs|
  {
    hide Evict, BlockWritten, MirrorAll, AllFit, Size;
    if evs != [] {
      assert evs[0] in evs;
      match evs[0]
      case Block(fs) =>
        MirrorKeepsConfig(c, Announced(e), Informed(e, d), fs);
        NoDipIsSmooth(c, BlockWritten(c, e, fs), Received(c, e, d, fs), evs[1..]);
      case SetMaxSize(v) =>
        NoDipIsSmooth(c, SetMax(e, v), d, evs[1..]);
      case SetSizeLimit(v) =>
        NoDipIsSmooth(c, SetLimit(e, v), d, evs[1..]);
    }
  }

  /** The same from the start, for every run of calls that never dips. */
  lemma {:induction false} LockstepFromStart(c: W.Context, size: nat, max: nat, evs: seq<Event>)
    requires Huffman.WellFormed(c.huffman) && |c.statics| < TWO_63 - UINT32_MAX && size >= INITIAL_TABLE_SIZE
    requires NoDip(c, New(), evs, size) && Brief(max, evs) && forall ev <- evs :: EventOk(ev)
    ensures var r := Play(c, New(), Session(NewDecoder(size, max), [], false), evs);
            !r.1.failed && r.1.blocks == Blocks(evs) && Suffix(r.0.ents, r.1.d.ents)
  {
    hide Play, Smooth, NoDip, Brief;
    var d := NewDecoder(size, max);
    StartsInSync(c, size, max);
    NoDipIsSmooth(c, New(), d, evs);
    Lockstep(c, New(), Session(d, [], false), evs);
    assert [] + Blocks(evs) == Blocks(evs);
  }

  /** The same with the code table of the program, and no assumption about it. */
  lemma {:induction false} LockstepWithHpackTable(c: W.Context, size: nat, max: nat, evs: seq<Event>)
    requires c.huffman == HuffmanCodes.HpackTable() && |c.statics| < TWO_63 - UINT32_MAX && size >= INITIAL_TABLE_SIZE
    requires NoDip(c, New(), evs, size) && Brief(max, evs) && forall ev <- evs :: EventOk(ev)
    ensures Huffman.WellFormed(c.huffman)
    ensures var r := Play(c, New(), Session(NewDecoder(size, max), [], false), evs);
            !r.1.failed && r.1.blocks == Blocks(evs) && Suffix(r.0.ents, r.1.d.ents)
  {
    hide Play, NoDip, Brief, HuffmanCodes.HpackTable, Huffman.WellFormed;
    HuffmanCodes.HpackTableIsWellFormed();
    LockstepFromStart(c, size, max, evs);
  }

  /** The clash is real: size 100, then 4096 again, with one small entry, is rejected. */
  lemma {:induction false} ClashExample(c: W.Context, e: Encoder, d: W.Decoder, fs: seq<HeaderField>)
    requires Huffman.WellFormed(c.huffman) && Sync(c, e, d) && !e.update && e.limit >= 4096 && d.allowed >= 4096
    requires d.ents != [] && Size(d.ents[|d.ents| - 1]) <= 100
    requires fs != [] && forall f <- fs :: FieldOk(f)
    ensures var e' := SetMax(SetMax(e, 100), 4096);
            W.Write(c, d, [], BlockBytes(c, e', fs)).err == Some(W.MisplacedUpdate)
  {
    hide W.Write, BlockBytes, Evict, Total;
    SettersKeepSync(c, e, d, 100);
    SettersKeepSync(c, SetMax(e, 100), d, 4096);
    BlockDecodes(c, SetMax(SetMax(e, 100), 4096), d, fs);
  }
}
