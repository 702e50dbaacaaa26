/**
 Parts of an encoded block: which fields end within its first octets, and how long what is left
 can be for the fields that do not.
 */
module HpackPrefix {
  import opened Wrappers
  import opened Bytes
  import opened HpackTables
  import opened E = HpackEncoder
  import opened HpackLockstep
  import W = HpackWire
  import VarInt
  import Huffman

  //
  // Lengths
  //

  /** 2^(7k) */
  function Cap(k: nat): (n: nat) {
    if k == 0 then 1 else 128 * Cap(k - 1)
  }

  lemma {:induction false} GroupsLength(i: nat, k: nat)
    requires k > 0 && i < Cap(k)
    ensures |VarInt.Groups(i)| <= k
    decreases k
  {
    if i >= 128 {
      GroupsLength(i / 128, k - 1);
    }
  }

  lemma {:induction false} CapIs()
    ensures Cap(5) == 0x8_0000_0000 && Cap(9) == TWO_63
  {
    assert Cap(3) == 0x20_0000;
    assert Cap(6) == 0x400_0000_0000;
  }

  lemma {:induction false} TypedLength(tb: byte, n: nat, i: nat)
    requires 1 <= n <= 8 && Low(tb, n) == 0 && tb + Pow2(n) <= 256 && i < TWO_63
    ensures |VarInt.EncodeTyped(tb, n, i)| <= 10
    ensures i <= UINT32_MAX ==> |VarInt.EncodeTyped(tb, n, i)| <= 6
  {
    hide Low, Pow2, Cap, VarInt.Groups;
    CapIs();
    var k := Pow2(n) - 1;
    if i >= k {
      GroupsLength(i - k, 9);
      if i <= UINT32_MAX {
        GroupsLength(i - k, 5);
      }
    }
  }

  lemma {:induction false} StringLength(t: Huffman.Table, s: seq<byte>)
    requires Huffman.Shaped(t) && |s| < TWO_63
    ensures |StringBytes(t, s)| <= |s| + 10
    ensures |s| <= UINT32_MAX ==> |StringBytes(t, s)| <= |s| + 6
  {
    hide VarInt.EncodeTyped, Huffman.Encode, Huffman.Shaped, Low, Pow2;
    TypeBits();
    var h := Huffman.Encode(t, s);
    if |h| < |s| {
      TypedLength(0x80, 7, |h|);
    } else {
      TypedLength(0, 7, |s|);
    }
  }

  /** n octets are few for the field f, and under a string limit not too many to keep. */
  predicate Short(max: nat, f: HeaderField, n: nat) {
    n <= Size(f) && (max != 0 ==> n <= 2 * max + 17)
  }

  lemma {:induction false} LiteralLength(t: Huffman.Table, f: HeaderField, i: nat, indexing: bool, max: nat)
    requires Huffman.Shaped(t) && !(indexing && f.sensitive) && FieldOk(f) && i < TWO_63
    requires max <= UINT32_MAX && FieldFits(max, f)
    ensures Short(max, f, |LiteralBytes(t, f, i, indexing)|)
  {
    hide VarInt.EncodeTyped, StringBytes, Huffman.Shaped, Low, Pow2;
    TypeBits();
    StringLength(t, f.name);
    StringLength(t, f.value);
    if i > 0 {
      TypedLength(TypeByte(indexing, f.sensitive), if indexing then 6 else 4, i);
    }
  }

  lemma {:induction false} FieldLength(c: W.Context, e: Encoder, f: HeaderField, max: nat)
    requires Huffman.Shaped(c.huffman) && FieldOk(f) && |c.statics| + |e.ents| < TWO_63
    requires max <= UINT32_MAX && FieldFits(max, f)
    ensures Short(max, f, |FieldBytes(c, e, f)|)
  {
    hide LiteralBytes, VarInt.EncodeTyped, SearchAll, Huffman.Shaped, W.At, Low, Pow2;
    var s := SearchAll(c.statics, e.ents, f);
    SearchFinds(c.statics, e.ents, f);
    if s.1 {
      TypeBits();
      TypedLength(0x80, 7, s.0);
    } else {
      LiteralLength(c.huffman, f, s.0, ShouldIndex(e, f), max);
    }
  }

  lemma {:induction false} UpdateLength(size: nat)
    requires size <= UINT32_MAX
    ensures |SizeUpdateBytes(size)| <= 6
  {
    hide VarInt.EncodeTyped, Low, Pow2;
    TypeBits();
    TypedLength(0x20, 5, size);
  }

  //
  // Parts of a representation
  //

  /** Octets of a representation that is not whole ask for more. */
  lemma {:induction false} Partial(c: W.Context, d: W.Decoder, buf: seq<byte>, s: seq<byte>, d': W.Decoder, out: seq<HeaderField>)
    requires Huffman.Shaped(c.huffman) && buf != [] && s != []
    requires W.ParseRepr(c, d, buf + s) == W.Parsed(d', [], out)
    ensures W.ParseRepr(c, d, buf) == W.More
  {
    hide W.ParseRepr;
    W.ReprExtend(c, d, buf, s);
  }

  /** The decoder asks for more, and has not too much to keep. */
  ghost predicate Waits(c: W.Context, d: W.Decoder, buf: seq<byte>)
    requires Huffman.Shaped(c.huffman)
  {
    buf != [] && W.ParseRepr(c, d, buf) == W.More && (d.maxStrLen != 0 ==> |buf| <= 2 * (d.maxStrLen + 8))
  }

  lemma {:induction false} PartialField(c: W.Context, e: Encoder, d: W.Decoder, f: HeaderField, n: nat)
    requires Huffman.WellFormed(c.huffman) && Agree(c, e, d)
    requires FieldOk(f) && FieldFits(d.maxStrLen, f) && d.maxStrLen <= UINT32_MAX
    requires 0 < n < |FieldBytes(c, e, f)|
    ensures Waits(c, d, FieldBytes(c, e, f)[..n])
  {
    hide W.ParseRepr, FieldBytes, Evict, SearchAll, Huffman.WellFormed, FieldFits;
    WellFormedIsShaped(c.huffman);
    var head := FieldBytes(c, e, f);
    FieldLength(c, e, f, d.maxStrLen);
    FieldRoundTrip(c, e, d, f, []);
    assert head + [] == head && head[..n] + head[n..] == head;
    Partial(c, d, head[..n], head[n..], Mirror(c, e, d, f), Shown(d, f));
  }

  lemma {:induction false} PartialUpdate(c: W.Context, d: W.Decoder, size: nat, n: nat)
    requires Huffman.Shaped(c.huffman) && size <= d.allowed && size <= UINT32_MAX && (d.first || d.ents == [])
    requires 0 < n < |SizeUpdateBytes(size)|
    ensures Waits(c, d, SizeUpdateBytes(size)[..n])
  {
    hide W.ParseRepr, SizeUpdateBytes, Evict;
    var head := SizeUpdateBytes(size);
    UpdateLength(size);
    assert head[..n] + head[n..] == head && head + [] == head;
    UpdateRoundTrip(c, d, size, []);
    Partial(c, d, head[..n], head[n..], d.(maxSize := size, ents := Evict(d.ents, size)), []);
  }

  //
  // Parts of a block
  //

  /** How many of the fields end within the first n octets. */
  function Finished(c: W.Context, e: Encoder, fs: seq<HeaderField>, n: nat): (k: nat)
    requires Huffman.Shaped(c.huffman)
    ensures k <= |fs|
    decreases |fs|
  {
    if fs == [] || n < |FieldBytes(c, e, fs[0])| then 0
    else 1 + Finished(c, FieldAdded(c, e, fs[0]), fs[1..], n - |FieldBytes(c, e, fs[0])|)
  }

  /** The same within a block with its size updates. */
  function Ended(c: W.Context, e: Encoder, fs: seq<HeaderField>, n: nat): (k: nat)
    requires Huffman.Shaped(c.huffman)
    ensures k <= |fs|
  {
    if n < |Announce(e)| then 0 else Finished(c, Announced(e), fs, n - |Announce(e)|)
  }

  lemma {:induction false} FieldsLength(c: W.Context, e: Encoder, fs: seq<HeaderField>)
    requires Huffman.Shaped(c.huffman) && Indexable(c, e) && forall f <- fs :: FieldOk(f)
    ensures |FieldsBytes(c, e, fs)| <= Total(fs)
    decreases |fs|
  {
    hide FieldBytes, FieldAdded, Huffman.Shaped;
    if fs != [] {
      CountBound(e.ents);
      FieldLength(c, e, fs[0], 0);
      AddedFits(c, e, fs[0]);
      FieldsLength(c, FieldAdded(c, e, fs[0]), fs[1..]);
    }
  }

  /** What is left of the octets of some fields is no longer than the sizes of the fields that have not ended. */
  lemma {:induction false} FieldsLeft(c: W.Context, e: Encoder, fs: seq<HeaderField>, n: nat)
    requires Huffman.Shaped(c.huffman) && Indexable(c, e) && (forall f <- fs :: FieldOk(f)) && n <= |FieldsBytes(c, e, fs)|
    ensures |FieldsBytes(c, e, fs)| - n <= Total(fs[Finished(c, e, fs, n)..])
    ensures n == |FieldsBytes(c, e, fs)| ==> Finished(c, e, fs, n) == |fs|
    decreases |fs|
  {
    hide FieldBytes, FieldAdded, Huffman.Shaped, Total, Indexable, FieldOk;
    if fs == [] || n < |FieldBytes(c, e, fs[0])| {
      FieldsLength(c, e, fs);
      assert fs[0..] == fs;
    } else {
      AddedFits(c, e, fs[0]);
      var e', m := FieldAdded(c, e, fs[0]), n - |FieldBytes(c, e, fs[0])|;
      FieldsLeft(c, e', fs[1..], m);
      var k := Finished(c, e', fs[1..], m);
      assert fs[1..][k..] == fs[k + 1..];
    }
  }

  lemma {:induction false} AtLeastOneField(fs: seq<HeaderField>)
    requires fs != []
    ensures Total(fs) >= 32
  {
  }

  lemma {:induction false} AnnounceLength(c: W.Context, e: Encoder, d: W.Decoder)
    requires Sync(c, e, d)
    ensures |Announce(e)| <= 12
  {
    hide SizeUpdateBytes, Evict, Total, Suffix;
    if e.update {
      UpdateLength(e.maxSize);
      if e.minSize < e.maxSize {
        UpdateLength(e.minSize);
      }
    }
  }

  /** What is left of a block is no longer than twice the sizes of the fields that have not ended. */
  lemma {:induction false} BlockLeft(c: W.Context, e: Encoder, d: W.Decoder, fs: seq<HeaderField>, n: nat)
    requires Huffman.Shaped(c.huffman) && Sync(c, e, d) && fs != [] && (forall f <- fs :: FieldOk(f)) && n <= |BlockBytes(c, e, fs)|
    ensures |BlockBytes(c, e, fs)| - n <= 2 * Total(fs[Ended(c, e, fs, n)..])
    ensures n == |BlockBytes(c, e, fs)| ==> Ended(c, e, fs, n) == |fs|
  {
    hide Evict, SearchAll, Huffman.Shaped, Total, Announce, FieldsBytes, BlockBytes, Indexable, Finished, FieldOk, Agree, Sync;
    BlockIsAnnounced(c, e, fs);
    InformedAgrees(c, e, d);
    AnnounceLength(c, e, d);
    AtLeastOneField(fs);
    if n < |Announce(e)| {
      FieldsLength(c, Announced(e), fs);
      assert fs[0..] == fs;
    } else {
      FieldsLeft(c, Announced(e), fs, n - |Announce(e)|);
    }
  }
}
