/**
 Huffman coding of HPACK strings (section 5.2 of RFC 7541).

 The code table is a parameter: 256 codes of 1 to 30 bits. `WellFormed` is what the
 algorithms rely on; module HuffmanCodes shows that the table of tables.go has it.
 `Encode` and `Decode` are reference definitions on bit strings. The bit-buffer loops of
 huffman.go, and the lookup tree they use, are proved against them.
 */
module Huffman {
  import opened Sequences
  import opened Bytes
  import opened BitStrings

  datatype Table = Table(code: seq<nat>, len: seq<nat>)

  ghost predicate Shaped(t: Table) {
    && |t.code| == 256 && |t.len| == 256
    && forall s: byte :: 1 <= t.len[s] <= 30 && t.code[s] < Pow2(t.len[s])
  }

  function Code(t: Table, s: byte): (b: bits)
    requires Shaped(t)
    ensures |b| == t.len[s]
  {
    Bits(t.code[s], t.len[s])
  }

  predicate Prefix(a: bits, b: bits) {
    |a| <= |b| && b[..|a|] == a
  }

  lemma {:induction false} PrefixChain(a: bits, b: bits, c: bits)
    requires Prefix(a, c) && Prefix(b, c) && |a| <= |b|
    ensures Prefix(a, b)
    ensures |a| == |b| ==> a == b
  {
    assert c[..|b|][..|a|] == c[..|a|];
  }

  lemma {:induction false} PrefixTrans(a: bits, b: bits, c: bits)
    requires Prefix(a, b) && Prefix(b, c)
    ensures Prefix(a, c)
  {
    assert c[..|b|][..|a|] == c[..|a|];
  }

  lemma {:induction false} PrefixSplit(a: bits, b: bits, c: bits, d: bits)
    requires |a| == |c|
    ensures Prefix(a + b, c + d) <==> a == c && Prefix(b, d)
  {
    if Prefix(a + b, c + d) {
      assert a == (a + b)[..|a|] && c == (c + d)[..|a|];
      assert b == (a + b)[|a|..] && (c + d)[|a|..|a| + |b|] == d[..|b|];
    }
  }

  ghost predicate PrefixFree(t: Table)
    requires Shaped(t)
  {
    forall r: byte, s: byte :: Prefix(Code(t, r), Code(t, s)) ==> r == s
  }

  /** A padding octet: k one bits, then zero bits. */
  function PadOctet(k: nat): (b: bits)
    requires k <= 8
    ensures |b| == 8
  {
    Ones(k) + Zeros(8 - k)
  }

  /** Some code is a prefix of b, or b of it. */
  ghost predicate Touches(t: Table, b: bits)
    requires Shaped(t)
  {
    exists s: byte :: Prefix(Code(t, s), b) || Prefix(b, Code(t, s))
  }

  /** One to seven padding bits are not a symbol and start some symbol's code. */
  ghost predicate PaddingIsOpen(t: Table)
    requires Shaped(t)
  {
    && (forall s: byte, k: nat :: k < 8 ==> !Prefix(Code(t, s), Ones(k)))
    && (forall k: nat :: 1 <= k < 8 ==> Touches(t, PadOctet(k)))
  }

  ghost predicate WellFormed(t: Table) {
    Shaped(t) && PrefixFree(t) && PaddingIsOpen(t)
  }

  //
  // Reference encoder
  //

  function CodeBits(t: Table, s: seq<byte>): (b: bits)
    requires Shaped(t)
  {
    if s == [] then [] else Code(t, s[0]) + CodeBits(t, s[1..])
  }

  /** One bits up to the next octet boundary. */
  function Pad(n: nat): (b: bits)
    ensures (n + |b|) % 8 == 0 && |b| < 8
  {
    Ones((8 - n % 8) % 8)
  }

  function Encode(t: Table, s: seq<byte>): (v: seq<byte>)
    requires Shaped(t)
  {
    var b := CodeBits(t, s);
    Pack(b + Pad(|b|))
  }

  //
  // Reference decoder
  //

  datatype Decoded =
    | Text(s: seq<byte>)
    | Invalid
    | TooLong

  function Prepend(s: byte, d: Decoded): (r: Decoded) {
    if d.Text? then Text([s] + d.s) else d
  }

  ghost predicate Starts(t: Table, b: bits)
    requires Shaped(t)
  {
    exists s: byte :: Prefix(Code(t, s), b)
  }

  ghost function Symbol(t: Table, b: bits): (s: byte)
    requires Shaped(t) && Starts(t, b)
    ensures Prefix(Code(t, s), b)
  {
    var s: byte :| Prefix(Code(t, s), b);
    s
  }

  /**
   The text of a bit string of which n octets were written already: symbols off the
   front, then fewer than eight padding bits, all one. A positive max bounds the text.
   */
  ghost function DecodeBits(t: Table, b: bits, n: nat, max: nat): (r: Decoded)
    requires Shaped(t)
    decreases |b|
  {
    if Starts(t, b) then
      var s := Symbol(t, b);
      if max != 0 && n == max then TooLong
      else Prepend(s, DecodeBits(t, b[t.len[s]..], n + 1, max))
    else if |b| < 8 && b == Ones(|b|) then Text([])
    else Invalid
  }

  ghost function Decode(t: Table, max: nat, v: seq<byte>): (r: Decoded)
    requires Shaped(t)
  {
    DecodeBits(t, ByteBits(v), 0, max)
  }

  //
  // The two inverses
  //

  lemma {:induction false} SymbolUnique(t: Table, s: byte, b: bits)
    requires Shaped(t) && PrefixFree(t) && Prefix(Code(t, s), b)
    ensures Starts(t, b) && Symbol(t, b) == s
  {
    assert Prefix(Code(t, s), b);
    var r := Symbol(t, b);
    if |Code(t, r)| <= |Code(t, s)| {
      PrefixChain(Code(t, r), Code(t, s), b);
    } else {
      PrefixChain(Code(t, s), Code(t, r), b);
    }
  }

  /** A positive max allows texts of at most max octets. */
  predicate Fits(max: nat, s: seq<byte>) {
    max == 0 || |s| <= max
  }

  lemma {:induction false} DecodePadding(t: Table, pad: bits, n: nat, max: nat)
    requires WellFormed(t) && |pad| < 8 && pad == Ones(|pad|)
    ensures DecodeBits(t, pad, n, max) == Text([])
  {
  }

  lemma {:induction false} DecodeCodeBits(t: Table, s: seq<byte>, pad: bits, n: nat, max: nat)
    requires WellFormed(t) && |pad| < 8 && pad == Ones(|pad|) && (max == 0 || n <= max)
    ensures DecodeBits(t, CodeBits(t, s) + pad, n, max) == if max == 0 || n + |s| <= max then Text(s) else TooLong
    decreases |s|
  {
    hide PaddingIsOpen, Ones, Starts, Prefix;
    var b := CodeBits(t, s) + pad;
    if s == [] {
      assert b == pad;
      DecodePadding(t, pad, n, max);
    } else {
      var c := Code(t, s[0]);
      Assoc(c, CodeBits(t, s[1..]), pad);
      assert b[|c|..] == CodeBits(t, s[1..]) + pad;
      CodeStarts(t, s, pad);
      SymbolUnique(t, s[0], b);
      if max == 0 || n < max {
        DecodeCodeBits(t, s[1..], pad, n + 1, max);
      }
      assert [s[0]] + s[1..] == s;
    }
  }

  lemma {:induction false} CodeStarts(t: Table, s: seq<byte>, pad: bits)
    requires Shaped(t) && s != []
    ensures Prefix(Code(t, s[0]), CodeBits(t, s) + pad)
  {
    Assoc(Code(t, s[0]), CodeBits(t, s[1..]), pad);
  }

  /** Decoding inverts encoding for every string within the limit, and reports every other one as too long. */
  lemma {:induction false} DecodeInvertsEncode(t: Table, max: nat, s: seq<byte>)
    requires WellFormed(t)
    ensures Decode(t, max, Encode(t, s)) == if Fits(max, s) then Text(s) else TooLong
  {
    var b := CodeBits(t, s);
    ByteBitsInverts(b + Pad(|b|));
    DecodeCodeBits(t, s, Pad(|b|), 0, max);
  }

  /** An accepted bit string is the codes of its text followed by its padding. */
  lemma {:induction false} AcceptedBits(t: Table, b: bits, n: nat, max: nat) returns (k: nat)
    requires Shaped(t) && DecodeBits(t, b, n, max).Text?
    ensures k < 8 && b == CodeBits(t, DecodeBits(t, b, n, max).s) + Ones(k)
    decreases |b|
  {
    if Starts(t, b) {
      var s := Symbol(t, b);
      var rest := b[t.len[s]..];
      k := AcceptedBits(t, rest, n + 1, max);
      var tail := DecodeBits(t, rest, n + 1, max).s;
      assert ([s] + tail)[1..] == tail;
      Assoc(Code(t, s), CodeBits(t, tail), Ones(k));
      assert b == Code(t, s) + rest;
    } else {
      k := |b|;
    }
  }

  lemma {:induction false} PadDetermined(n: nat, k: nat)
    requires k < 8 && (n + k) % 8 == 0
    ensures Pad(n) == Ones(k)
  {
  }

  /** Encoding inverts decoding on every accepted octet string. */
  lemma {:induction false} EncodeInvertsDecode(t: Table, max: nat, v: seq<byte>)
    requires Shaped(t) && Decode(t, max, v).Text?
    ensures Encode(t, Decode(t, max, v).s) == v
  {
    hide Shaped, CodeBits, DecodeBits, Ones, Pad;
    var s := Decode(t, max, v).s;
    var k := AcceptedBits(t, ByteBits(v), 0, max);
    var b := CodeBits(t, s);
    PadDetermined(|b|, k);
    PackInverts(v);
  }

  //
  // Lengths
  //

  lemma {:induction false} CodeBitsSnoc(t: Table, s: seq<byte>, c: byte)
    requires Shaped(t)
    ensures CodeBits(t, s + [c]) == CodeBits(t, s) + Code(t, c)
  {
    if s == [] {
      assert s + [c] == [c] && [c][1..] == [];
      assert CodeBits(t, [c]) == Code(t, c) + CodeBits(t, []);
    } else {
      assert (s + [c])[1..] == s[1..] + [c];
      CodeBitsSnoc(t, s[1..], c);
      Assoc(Code(t, s[0]), CodeBits(t, s[1..]), Code(t, c));
    }
  }

  /** HuffmanEncodeLength is the length of what AppendHuffmanString appends. */
  method EncodeLength(t: Table, s: seq<byte>) returns (n: nat)
    requires Shaped(t)
    ensures n == |Encode(t, s)|
  {
    n := 0;
    for i := 0 to |s|
      invariant n == |CodeBits(t, s[..i])|
    {
      assert s[..i + 1] == s[..i] + [s[i]];
      CodeBitsSnoc(t, s[..i], s[i]);
      n := n + t.len[s[i]];
    }
    assert s[..|s|] == s;
    n := (n + 7) / 8;
  }
}
