/** The 64-bit buffer loop of AppendHuffmanString, proved against Huffman.Encode. */
module HuffmanEncoder {
  import opened Sequences
  import opened Bytes
  import opened BitStrings
  import opened Huffman

  /** The k low octets of a word, most significant first. */
  function WordBytes(x: nat, k: nat): (v: seq<byte>)
    ensures |v| == k
    decreases k, x
  {
    if k == 0 then [] else WordBytes(Shr(x, 8), k - 1) + [Octet(x)]
  }

  function Octet(x: nat): (b: byte) {
    Split(x, 8);
    Pow2Small();
    Low(x, 8)
  }

  lemma {:induction false} WordBits(x: nat, k: nat)
    ensures ByteBits(WordBytes(x, k)) == Bits(x, 8 * k)
    decreases k
  {
    if k != 0 {
      WordBits(Shr(x, 8), k - 1);
      ByteBitsSnoc(WordBytes(Shr(x, 8), k - 1), Octet(x));
      BitsLow(x, 8, 8);
      BitsSplit(x, 8 * (k - 1), 8);
    }
  }

  lemma {:induction false} ShrShr(x: nat, a: nat, b: nat)
    ensures Shr(Shr(x, a), b) == Shr(x, a + b)
    decreases a
  {
    if a != 0 {
      ShrShr(x / 2, a - 1, b);
    }
  }

  lemma {:induction false} LowLow(x: nat, a: nat, b: nat)
    requires a <= b
    ensures Low(Low(x, b), a) == Low(x, a)
    decreases a
  {
    if a != 0 {
      LowLow(x / 2, a - 1, b - 1);
      assert Low(x, b) / 2 == Low(x / 2, b - 1);
    }
  }

  /** An octet of a truncated word is the octet of the word. */
  lemma {:induction false} OctetOfTruncated(x: nat, k: nat, b: nat)
    requires k + 8 <= b
    ensures Octet(Shr(Low(x, b), k)) == Octet(Shr(x, k))
    decreases k
  {
    if k == 0 {
      LowLow(x, 8, b);
    } else {
      assert Low(x, b) / 2 == Low(x / 2, b - 1);
      OctetOfTruncated(x / 2, k - 1, b - 1);
    }
  }

  /** append(dst, byte(y>>24), byte(y>>16), byte(y>>8), byte(y)) with y := uint32(x) */
  method AppendUint32(dst: seq<byte>, x: nat) returns (r: seq<byte>)
    ensures r == dst + WordBytes(x, 4)
  {
    var y := Low(x, 32);
    r := dst + [Octet(Shr(y, 24)), Octet(Shr(y, 16)), Octet(Shr(y, 8)), Octet(y)];
    OctetOfTruncated(x, 24, 32);
    OctetOfTruncated(x, 16, 32);
    OctetOfTruncated(x, 8, 32);
    OctetOfTruncated(x, 0, 32);
    ShrShr(x, 8, 8);
    ShrShr(x, 16, 8);
    assert WordBytes(Shr(x, 24), 1) == [Octet(Shr(x, 24))];
    assert WordBytes(Shr(x, 16), 2) == WordBytes(Shr(x, 24), 1) + [Octet(Shr(x, 16))];
    assert WordBytes(Shr(x, 8), 3) == WordBytes(Shr(x, 16), 2) + [Octet(Shr(x, 8))];
  }

  /** append(dst, byte(y>>8), byte(y)) with y := uint16(x) */
  method AppendUint16(dst: seq<byte>, x: nat) returns (r: seq<byte>)
    ensures r == dst + WordBytes(x, 2)
  {
    var y := Low(x, 16);
    r := dst + [Octet(Shr(y, 8)), Octet(y)];
    OctetOfTruncated(x, 8, 16);
    OctetOfTruncated(x, 0, 16);
    assert WordBytes(Shr(x, 8), 1) == [Octet(Shr(x, 8))];
  }

  /** The last n / 8 octets of the buffer: the closing switch of AppendHuffmanString. */
  method Flush(dst: seq<byte>, x: nat, n: nat) returns (r: seq<byte>)
    requires n % 8 == 0 && n <= 32
    ensures r == dst + WordBytes(x, n / 8)
  {
    if n == 0 {
      r := dst;
    } else if n == 8 {
      r := dst + [Octet(x)];
      assert WordBytes(x, 1) == [Octet(x)];
    } else if n == 16 {
      r := AppendUint16(dst, x);
    } else if n == 24 {
      r := AppendUint16(dst, Shr(x, 8));
      r := r + [Octet(x)];
    } else {
      r := AppendUint32(dst, x);
    }
  }

  /**
   Shifting k bits into the 64-bit buffer: (x << k) | y for y of at most k bits, cut to
   64 bits. The low n + k bits of the result are the n pending bits, then the new ones.
   */
  function ShiftIn(x: nat, k: nat, y: nat): (r: nat) {
    Low(Shl(x, k) + y, 64)
  }

  lemma {:induction false} ShiftInBits(x: nat, n: nat, k: nat, y: nat)
    requires y < Pow2(k) && n + k <= 64
    ensures Bits(ShiftIn(x, k, y), n + k) == Bits(x, n) + Bits(y, k)
  {
    BitsLow(Shl(x, k) + y, n + k, 64);
    BitsAppend(x, n, y, k);
  }

  /** AppendHuffmanString */
  method AppendHuffmanString(t: Table, dst: seq<byte>, s: seq<byte>) returns (r: seq<byte>)
    requires Shaped(t)
    ensures r == dst + Encode(t, s)
  {
    var x, n: nat := 0, 0;
    r := dst;
    ghost var out: seq<byte> := [];
    for i := 0 to |s|
      invariant n < 32 && r == dst + out
      invariant ByteBits(out) + Bits(x, n) == CodeBits(t, s[..i])
    {
      var c := s[i];
      Absorb(t, s, i, out, x, n);
      n := n + t.len[c];
      x := ShiftIn(x, t.len[c], t.code[c]);
      if n >= 32 {
        n, r, out := EmitFull(r, x, n, dst, out);
      }
    }
    assert s[..|s|] == s;
    PackTail(out, Bits(x, n));
    r := PadAndFlush(r, x, n);
  }

  /** The end of AppendHuffmanString: pads the n pending bits and writes them. */
  method PadAndFlush(dst: seq<byte>, x: nat, n: nat) returns (r: seq<byte>)
    requires n < 32
    ensures r == dst + Pack(Bits(x, n) + Pad(n))
  {
    hide Bits, Pad, Pack, WordBytes;
    var x', n' := PadUp(x, n);
    r := Flush(dst, x', n');
    WordBits(x', n' / 8);
    PackInverts(WordBytes(x', n' / 8));
  }

  /** Pads the pending bits with ones to a whole number of octets. */
  method PadUp(x: nat, n: nat) returns (x': nat, n': nat)
    requires n < 32
    ensures n' % 8 == 0 && n' <= 32 && Bits(x', n') == Bits(x, n) + Pad(n)
  {
    hide Bits, Shr, Shl, Low;
    x', n' := x, n;
    var over := n % 8;
    if over > 0 {
      var pad := 8 - over;
      PadBits(x, n, pad);
      x' := ShiftIn(x, pad, Shr(0xff, over));
      n' := n + pad;
    }
    assert Bits(x', n') == Bits(x, n) + Pad(n);
  }

  lemma {:induction false} PackAppend(out: seq<byte>, b: bits)
    requires |b| % 8 == 0
    ensures Pack(ByteBits(out) + b) == out + Pack(b)
  {
    ByteBitsInverts(b);
    ByteBitsConcat(out, Pack(b));
    PackInverts(out + Pack(b));
  }

  lemma {:induction false} PackTail(out: seq<byte>, b: bits)
    ensures var all := ByteBits(out) + b;
            Pack(all + Pad(|all|)) == out + Pack(b + Pad(|b|))
  {
    var pad := Pad(|b|);
    PadDetermined(|ByteBits(out) + b|, |pad|);
    Assoc(ByteBits(out), b, pad);
    PackAppend(out, b + pad);
  }

  /** Moves the 32 oldest pending bits of the buffer to the output. */
  method EmitFull(r: seq<byte>, x: nat, n: nat, ghost dst: seq<byte>, ghost out: seq<byte>)
    returns (n': nat, r': seq<byte>, ghost out': seq<byte>)
    requires 32 <= n < 64 && r == dst + out
    ensures n' < 32 && r' == dst + out'
    ensures ByteBits(out') + Bits(x, n') == ByteBits(out) + Bits(x, n)
  {
    n' := n % 32;
    assert n == n' + 32;
    r' := AppendUint32(r, Shr(x, n'));
    EmitWord(out, x, n');
    out' := out + WordBytes(Shr(x, n'), 4);
  }

  lemma {:induction false} Absorb(t: Table, s: seq<byte>, i: nat, out: seq<byte>, x: nat, n: nat)
    requires Shaped(t) && i < |s| && n < 32
    requires ByteBits(out) + Bits(x, n) == CodeBits(t, s[..i])
    ensures var c := s[i];
            ByteBits(out) + Bits(ShiftIn(x, t.len[c], t.code[c]), n + t.len[c]) == CodeBits(t, s[..i + 1])
  {
    var c := s[i];
    assert s[..i + 1] == s[..i] + [c];
    CodeBitsSnoc(t, s[..i], c);
    ShiftInBits(x, n, t.len[c], t.code[c]);
    Assoc(ByteBits(out), Bits(x, n), Code(t, c));
  }

  lemma {:induction false} EmitWord(out: seq<byte>, x: nat, n: nat)
    ensures ByteBits(out + WordBytes(Shr(x, n), 4)) + Bits(x, n) == ByteBits(out) + Bits(x, n + 32)
  {
    var w := WordBytes(Shr(x, n), 4);
    ByteBitsConcat(out, w);
    WordBits(Shr(x, n), 4);
    BitsSplit(x, 32, n);
    Assoc(ByteBits(out), ByteBits(w), Bits(x, n));
  }

  lemma {:induction false} HighPart(x: nat, a: nat, b: nat)
    requires x < Pow2(a + b)
    ensures Shr(x, b) < Pow2(a)
    decreases b
  {
    if b != 0 {
      HighPart(x / 2, a, b - 1);
    }
  }

  /** 0xff shifted right by 8 - pad is pad one bits. */
  lemma {:induction false} PadBits(x: nat, n: nat, pad: nat)
    requires 1 <= pad < 8 && n + pad <= 64
    ensures Bits(ShiftIn(x, pad, Shr(0xff, 8 - pad)), n + pad) == Bits(x, n) + Ones(pad)
  {
    var y := Shr(0xff, 8 - pad);
    Pow2Small();
    BitsAllOnes(0xff, 8);
    LowSmall(0xff, 8);
    BitsSplit(0xff, pad, 8 - pad);
    assert Bits(y, pad) == Ones(8)[..pad];
    assert Ones(8)[..pad] == Ones(pad);
    HighPart(0xff, pad, 8 - pad);
    ShiftInBits(x, n, pad, y);
  }
}
