/** The bit-buffer loops of huffmanDecode, proved against Huffman.Decode. */
module HuffmanDecoder {
  import opened Sequences
  import opened Bytes
  import opened BitStrings
  import opened Huffman
  import opened HuffmanEncoder
  import opened HuffmanTrie

  /**
   The variables of huffmanDecode: the octets written, the node reached (by its path),
   the bit buffer, how many of its low bits are valid, and how many bits belong to the
   symbol being decoded.
   */
  datatype Cursor = Cursor(out: seq<byte>, path: seq<byte>, cur: nat, cbits: nat, sbits: nat)

  datatype Progress =
    | Go(c: Cursor)
    | Fail(d: Decoded)

  ghost predicate IsNode(m: Trie, path: seq<byte>) {
    path == [] || (path in m && m[path] == Internal)
  }

  ghost predicate Valid(m: Trie, c: Cursor) {
    IsNode(m, c.path) && c.sbits == 8 * |c.path| + c.cbits
  }

  /** The bits not yet decoded to symbols. */
  ghost function Pending(c: Cursor, rest: bits): (b: bits) {
    ByteBits(c.path) + (Bits(c.cur, c.cbits) + rest)
  }

  ghost function Finish(out: seq<byte>, d: Decoded): (r: Decoded) {
    if d.Text? then Text(out + d.s) else d
  }

  /** What the reference decoder makes of the whole input, seen from a cursor. */
  ghost function Outcome(t: Table, max: nat, c: Cursor, rest: bits): (r: Decoded)
    requires Shaped(t)
  {
    Finish(c.out, DecodeBits(t, Pending(c, rest), |c.out|, max))
  }

  //
  // What a lookup says about the codes
  //

  lemma {:induction false} NodeDepth(t: Table, m: Trie, path: seq<byte>)
    requires Built(t, m) && IsNode(m, path)
    ensures |path| <= 3
  {
    if path != [] {
      assert Justified(t, 256, path, m[path]);
    }
  }

  /** A symbol never ends at or above a node. */
  lemma {:induction false} NodeIsOpen(t: Table, m: Trie, path: seq<byte>, s: byte)
    requires Built(t, m) && PrefixFree(t) && IsNode(m, path)
    ensures !Prefix(Code(t, s), ByteBits(path))
  {
    if path != [] && Prefix(Code(t, s), ByteBits(path)) {
      assert Justified(t, 256, path, m[path]);
      var r: byte :| r < 256 && Passes(t, r, path);
      PrefixTrans(Code(t, s), ByteBits(path), Code(t, r));
    }
  }

  ghost predicate Overlap(a: bits, b: bits) {
    Prefix(a, b) || Prefix(b, a)
  }

  /** A code that starts b either ends in the octet looked up or goes on below it. */
  lemma {:induction false} LookedUp(t: Table, m: Trie, path: seq<byte>, i: byte, b: bits, s: byte)
    requires Built(t, m) && PrefixFree(t) && IsNode(m, path)
    requires Prefix(ByteBits(path), b) && Overlap(ByteBits(path + [i]), b) && Prefix(Code(t, s), b)
    ensures Ends(t, s, path + [i]) || Passes(t, s, path + [i])
  {
    var k := path + [i];
    var c := Code(t, s);
    if |c| <= 8 * |path| {
      PrefixChain(c, ByteBits(path), b);
      NodeIsOpen(t, m, path, s);
      assert false;
    }
    if Prefix(ByteBits(k), b) {
      if |c| <= 8 * |k| {
        PrefixChain(c, ByteBits(k), b);
      } else {
        PrefixChain(ByteBits(k), c, b);
      }
    } else {
      PrefixTrans(c, b, ByteBits(k));
    }
  }

  /** A nil child: no symbol starts here. */
  lemma {:induction false} NilChild(t: Table, m: Trie, path: seq<byte>, i: byte, b: bits)
    requires Built(t, m) && PrefixFree(t) && IsNode(m, path)
    requires Prefix(ByteBits(path), b) && Overlap(ByteBits(path + [i]), b)
    requires path + [i] !in m
    ensures !Starts(t, b)
  {
    if Starts(t, b) {
      LookedUp(t, m, path, i, b, Symbol(t, b));
      assert false;
    }
  }

  /** A leaf child whose code fits: its symbol starts here. */
  lemma {:induction false} LeafChild(t: Table, m: Trie, path: seq<byte>, i: byte, b: bits)
    requires Built(t, m) && PrefixFree(t) && Overlap(ByteBits(path + [i]), b)
    requires path + [i] in m && m[path + [i]].Leaf? && 8 * |path| + m[path + [i]].codeLen <= |b|
    ensures var s := m[path + [i]].sym;
            t.len[s] == 8 * |path| + m[path + [i]].codeLen && m[path + [i]].codeLen >= 1 && Starts(t, b) && Symbol(t, b) == s
  {
    var k := path + [i];
    assert Justified(t, 256, k, m[k]);
    var c := Code(t, m[k].sym);
    if Prefix(ByteBits(k), b) {
      PrefixTrans(c, ByteBits(k), b);
    } else {
      PrefixChain(c, b, ByteBits(k));
    }
    SymbolUnique(t, m[k].sym, b);
  }

  /** Too few bits left for the child: no symbol starts here. */
  lemma {:induction false} ShortChild(t: Table, m: Trie, path: seq<byte>, i: byte, b: bits)
    requires Built(t, m) && PrefixFree(t) && Prefix(b, ByteBits(path + [i]))
    requires path + [i] in m && (m[path + [i]].Leaf? ==> 8 * |path| + m[path + [i]].codeLen > |b|)
    ensures !Starts(t, b)
  {
    var k := path + [i];
    if Starts(t, b) {
      var s := Symbol(t, b);
      PrefixTrans(Code(t, s), b, ByteBits(k));
      assert Justified(t, 256, k, m[k]);
      if m[k].Leaf? {
        PrefixChain(Code(t, s), Code(t, m[k].sym), ByteBits(k));
      } else {
        var r: byte :| r < 256 && Passes(t, r, k);
        PrefixTrans(Code(t, s), ByteBits(k), Code(t, r));
      }
      assert false;
    }
  }

  //
  // Cursor steps
  //

  /** The octet looked up with at least eight valid bits: byte(cur >> (cbits - 8)). */
  lemma {:induction false} TopOctet(c: Cursor, rest: bits)
    requires c.cbits >= 8
    ensures var i := Octet(Shr(c.cur, c.cbits - 8));
            Bits(c.cur, c.cbits) == Bits(i, 8) + Bits(c.cur, c.cbits - 8)
    ensures var i := Octet(Shr(c.cur, c.cbits - 8));
            Pending(c, rest) == ByteBits(c.path + [i]) + (Bits(c.cur, c.cbits - 8) + rest)
  {
    var i := Octet(Shr(c.cur, c.cbits - 8));
    BitsSplit(c.cur, 8, c.cbits - 8);
    BitsLow(Shr(c.cur, c.cbits - 8), 8, 8);
    ByteBitsSnoc(c.path, i);
    var low := Bits(c.cur, c.cbits - 8);
    Assoc(Bits(i, 8), low, rest);
    Assoc(ByteBits(c.path), Bits(i, 8), low + rest);
  }

  /** Dropping l valid bits from the buffer drops l bits after the path. */
  lemma {:induction false} DropSymbol(c: Cursor, l: nat, rest: bits)
    requires l <= c.cbits
    ensures Pending(c, rest)[8 * |c.path| + l..] == Bits(c.cur, c.cbits - l) + rest
  {
    BitsSplit(c.cur, l, c.cbits - l);
    var h, low := Bits(Shr(c.cur, c.cbits - l), l), Bits(c.cur, c.cbits - l);
    Assoc(h, low, rest);
    Assoc(ByteBits(c.path), h, low + rest);
    assert (ByteBits(c.path) + h + (low + rest))[8 * |c.path| + l..] == low + rest;
  }

  function Written(c: Cursor, s: byte, l: nat): (r: Cursor)
    requires l <= c.cbits
  {
    Cursor(c.out + [s], [], c.cur, c.cbits - l, c.cbits - l)
  }

  lemma {:induction false} WriteSymbol(t: Table, max: nat, c: Cursor, s: byte, l: nat, rest: bits)
    requires Shaped(t) && l <= c.cbits && t.len[s] == 8 * |c.path| + l
    requires Starts(t, Pending(c, rest)) && Symbol(t, Pending(c, rest)) == s
    ensures Outcome(t, max, c, rest) ==
            if max != 0 && |c.out| == max then TooLong else Outcome(t, max, Written(c, s, l), rest)
  {
    DropSymbol(c, l, rest);
    var c' := Written(c, s, l);
    assert Pending(c', rest) == Bits(c'.cur, c'.cbits) + rest;
    var d := DecodeBits(t, Pending(c', rest), |c.out| + 1, max);
    if d.Text? {
      assert c.out + [s] + d.s == c.out + ([s] + d.s);
    }
  }

  /** One turn of the inner loop of huffmanDecode. */
  method Step(t: Table, m: Trie, max: nat, c: Cursor, ghost rest: bits) returns (p: Progress)
    requires Built(t, m) && WellFormed(t) && Valid(m, c) && c.cbits >= 8
    ensures p.Go? ==> Valid(m, p.c) && p.c.cbits < c.cbits && Outcome(t, max, p.c, rest) == Outcome(t, max, c, rest)
    ensures p.Fail? ==> Outcome(t, max, c, rest) == p.d && !p.d.Text?
  {
    var i := Octet(Shr(c.cur, c.cbits - 8));
    ghost var b := Pending(c, rest);
    TopOctet(c, rest);
    var k := c.path + [i];
    assert Overlap(ByteBits(k), b);
    if k !in m {
      assert |b| >= 8;
      NilChild(t, m, c.path, i, b);
      return Fail(Invalid);
    }
    match m[k]
    case Leaf(s, l) =>
      assert Justified(t, 256, k, m[k]);
      LeafChild(t, m, c.path, i, b);
      WriteSymbol(t, max, c, s, l, rest);
      if max != 0 && |c.out| == max {
        return Fail(TooLong);
      }
      return Go(Written(c, s, l));
    case Internal =>
      return Go(Cursor(c.out, k, c.cur, c.cbits - 8, c.sbits));
  }

  /** The inner loop of huffmanDecode. */
  method Drain(t: Table, m: Trie, max: nat, c0: Cursor, ghost rest: bits) returns (p: Progress)
    requires Built(t, m) && WellFormed(t) && Valid(m, c0)
    ensures p.Go? ==> Valid(m, p.c) && p.c.cbits < 8 && Outcome(t, max, p.c, rest) == Outcome(t, max, c0, rest)
    ensures p.Fail? ==> Outcome(t, max, c0, rest) == p.d
  {
    var c := c0;
    while c.cbits >= 8
      invariant Valid(m, c)
      invariant Outcome(t, max, c, rest) == Outcome(t, max, c0, rest)
      decreases c.cbits
    {
      p := Step(t, m, max, c, rest);
      if p.Fail? {
        return;
      }
      c := p.c;
    }
    return Go(c);
  }

  /** The octet looked up with fewer valid bits: byte(cur << (8 - cbits)). */
  lemma {:induction false} PaddedOctet(c: Cursor)
    requires 0 < c.cbits < 8
    ensures var i := Octet(Shl(c.cur, 8 - c.cbits));
            Bits(i, 8) == Bits(c.cur, c.cbits) + Zeros(8 - c.cbits)
            && Prefix(Pending(c, []), ByteBits(c.path + [i]))
  {
    var k := 8 - c.cbits;
    var i := Octet(Shl(c.cur, k));
    BitsLow(Shl(c.cur, k), 8, 8);
    BitsAppend(c.cur, c.cbits, 0, k);
    BitsZero(k);
    ByteBitsSnoc(c.path, i);
    var v := Bits(c.cur, c.cbits);
    assert v + [] == v;
    Assoc(ByteBits(c.path), v, Zeros(k));
  }

  /** One turn of the closing loop; None means the loop breaks. */
  datatype Closing = Next(p: Progress) | Break

  method CloseStep(t: Table, m: Trie, max: nat, c: Cursor) returns (r: Closing)
    requires Built(t, m) && WellFormed(t) && Valid(m, c) && 0 < c.cbits < 8
    ensures r.Break? ==> !Starts(t, Pending(c, []))
    ensures r.Next? && r.p.Go? ==>
      Valid(m, r.p.c) && r.p.c.cbits < c.cbits && Outcome(t, max, r.p.c, []) == Outcome(t, max, c, [])
    ensures r.Next? && r.p.Fail? ==> Outcome(t, max, c, []) == r.p.d && !r.p.d.Text?
  {
    var i := Octet(Shl(c.cur, 8 - c.cbits));
    ghost var b := Pending(c, []);
    PaddedOctet(c);
    var k := c.path + [i];
    assert |b| == 8 * |c.path| + c.cbits;
    if k !in m {
      NilChild(t, m, c.path, i, b);
      NilIsNotPadding(t, m, c);
      return Next(Fail(Invalid));
    }
    if m[k].Internal? || m[k].codeLen > c.cbits {
      ShortChild(t, m, c.path, i, b);
      return Break;
    }
    LeafChild(t, m, c.path, i, b);
    WriteSymbol(t, max, c, m[k].sym, m[k].codeLen, []);
    if max != 0 && |c.out| == max {
      return Next(Fail(TooLong));
    }
    return Next(Go(Written(c, m[k].sym, m[k].codeLen)));
  }

  lemma {:induction false} PaddingHasNode(t: Table, m: Trie, k: nat, i: byte)
    requires Built(t, m) && WellFormed(t) && 0 < k < 8 && Bits(i, 8) == PadOctet(k)
    ensures [i] in m
  {
    assert Touches(t, PadOctet(k));
    var s: byte :| Prefix(Code(t, s), PadOctet(k)) || Prefix(PadOctet(k), Code(t, s));
    assert ByteBits([i]) == Bits(i, 8);
    if t.len[s] <= 8 {
      assert Ends(t, s, [i]);
    } else {
      assert Passes(t, s, [i]);
    }
  }

  lemma {:induction false} NilIsNotPadding(t: Table, m: Trie, c: Cursor)
    requires Built(t, m) && WellFormed(t) && 0 < c.cbits < 8
    requires c.path + [Octet(Shl(c.cur, 8 - c.cbits))] !in m
    ensures var b := Pending(c, []);
            !(|b| < 8 && b == Ones(|b|))
  {
    var b := Pending(c, []);
    var i := Octet(Shl(c.cur, 8 - c.cbits));
    if |b| < 8 && b == Ones(|b|) {
      assert c.path == [];
      assert c.path + [i] == [i];
      PaddedOctet(c);
      assert b == Bits(c.cur, c.cbits) + [] == Bits(c.cur, c.cbits);
      PaddingHasNode(t, m, c.cbits, i);
      assert false;
    }
  }

  /** The closing loop and the two padding checks of huffmanDecode. */
  method Close(t: Table, m: Trie, max: nat, c0: Cursor) returns (r: Decoded)
    requires Built(t, m) && WellFormed(t) && Valid(m, c0) && c0.cbits < 8
    ensures r == Outcome(t, max, c0, [])
  {
    var c := c0;
    ghost var broke := false;
    while c.cbits > 0
      invariant Valid(m, c) && c.cbits < 8
      invariant Outcome(t, max, c, []) == Outcome(t, max, c0, [])
      decreases c.cbits
    {
      var next := CloseStep(t, m, max, c);
      if next.Break? {
        broke := true;
        break;
      }
      if next.p.Fail? {
        return next.p.d;
      }
      c := next.p.c;
    }
    ghost var b := Pending(c, []);
    if !broke {
      assert b == ByteBits(c.path);
      NoSymbolAtNode(t, m, c.path);
    }
    PaddingChecks(c);
    if c.sbits > 7 {
      return Invalid;
    }
    if Low(c.cur, c.cbits) != Pow2(c.cbits) - 1 {
      return Invalid;
    }
    assert c.out + [] == c.out;
    return Text(c.out);
  }

  lemma {:induction false} NoSymbolAtNode(t: Table, m: Trie, path: seq<byte>)
    requires Built(t, m) && PrefixFree(t) && IsNode(m, path)
    ensures !Starts(t, ByteBits(path))
  {
    if Starts(t, ByteBits(path)) {
      NodeIsOpen(t, m, path, Symbol(t, ByteBits(path)));
      assert false;
    }
  }

  lemma {:induction false} PaddingChecks(c: Cursor)
    requires c.sbits == 8 * |c.path| + c.cbits
    ensures var b := Pending(c, []);
            |b| == c.sbits &&
            (|b| < 8 && b == Ones(|b|) <==> c.sbits <= 7 && Low(c.cur, c.cbits) == Pow2(c.cbits) - 1)
  {
    BitsAllOnes(c.cur, c.cbits);
    var v := Bits(c.cur, c.cbits);
    assert v + [] == v;
    if c.sbits <= 7 {
      assert c.path == [];
      assert ByteBits([]) + v == v;
    }
  }

  /** One turn of the outer loop of huffmanDecode. The counters stay within a uint8. */
  method FeedOctet(t: Table, m: Trie, max: nat, c: Cursor, v: seq<byte>, j: nat) returns (p: Progress)
    requires Built(t, m) && WellFormed(t) && Valid(m, c) && c.cbits < 8 && j < |v|
    ensures p.Go? ==> Valid(m, p.c) && p.c.cbits < 8
    ensures p.Go? ==> Outcome(t, max, p.c, ByteBits(v[j + 1..])) == Outcome(t, max, c, ByteBits(v[j..]))
    ensures p.Fail? ==> Outcome(t, max, c, ByteBits(v[j..])) == p.d
  {
    hide Built, PrefixFree, PaddingIsOpen, DecodeBits, ByteBits, Low, Shl;
    LoadOctet(c, v, j);
    var c' := c.(cur := Low(Shl(c.cur, 8) + v[j], 64), cbits := c.cbits + 8, sbits := c.sbits + 8);
    NodeDepth(t, m, c'.path);
    assert c'.sbits < 256;
    p := Drain(t, m, max, c', ByteBits(v[j + 1..]));
  }

  /** huffmanDecode */
  method HuffmanDecode(t: Table, m: Trie, max: nat, v: seq<byte>) returns (r: Decoded)
    requires Built(t, m) && WellFormed(t)
    ensures r == Decode(t, max, v)
  {
    var c := Cursor([], [], 0, 0, 0);
    InitialOutcome(t, max, v);
    for j := 0 to |v|
      invariant Valid(m, c) && c.cbits < 8
      invariant Outcome(t, max, c, ByteBits(v[j..])) == Decode(t, max, v)
    {
      var p := FeedOctet(t, m, max, c, v, j);
      if p.Fail? {
        return p.d;
      }
      c := p.c;
    }
    assert v[|v|..] == [];
    r := Close(t, m, max, c);
  }

  lemma {:induction false} InitialOutcome(t: Table, max: nat, v: seq<byte>)
    requires Shaped(t)
    ensures Outcome(t, max, Cursor([], [], 0, 0, 0), ByteBits(v)) == Decode(t, max, v)
  {
    assert Pending(Cursor([], [], 0, 0, 0), ByteBits(v)) == ByteBits(v);
    var d := Decode(t, max, v);
    if d.Text? {
      assert [] + d.s == d.s;
    }
  }

  lemma {:induction false} LoadOctet(c: Cursor, v: seq<byte>, j: nat)
    requires j < |v| && c.cbits < 8
    ensures var c' := c.(cur := Low(Shl(c.cur, 8) + v[j], 64), cbits := c.cbits + 8, sbits := c.sbits + 8);
            Pending(c', ByteBits(v[j + 1..])) == Pending(c, ByteBits(v[j..]))
  {
    Pow2Small();
    BitsLow(Shl(c.cur, 8) + v[j], c.cbits + 8, 64);
    BitsAppend(c.cur, c.cbits, v[j], 8);
    assert v[j..][1..] == v[j + 1..];
    Assoc(Bits(c.cur, c.cbits), Bits(v[j], 8), ByteBits(v[j + 1..]));
  }
}
