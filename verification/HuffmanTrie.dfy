/**
 The 256-way lookup tree of huffman.go. A node is named by the octets that lead to it
 from the root, so the tree is a map from octet paths to nodes.
 */
module HuffmanTrie {
  import opened Sequences
  import opened Bytes
  import opened BitStrings
  import opened Huffman
  import opened HuffmanEncoder

  datatype Node =
    | Internal
    | Leaf(sym: byte, codeLen: nat)

  type Trie = map<seq<byte>, Node>

  /** The octets k end within their last octet the code of s. */
  ghost predicate Ends(t: Table, s: byte, k: seq<byte>)
    requires Shaped(t)
  {
    8 * |k| - 8 < t.len[s] <= 8 * |k| && Prefix(Code(t, s), ByteBits(k))
  }

  /** The code of s goes on after the octets k. */
  ghost predicate Passes(t: Table, s: byte, k: seq<byte>)
    requires Shaped(t)
  {
    k != [] && 8 * |k| < t.len[s] && Prefix(ByteBits(k), Code(t, s))
  }

  ghost predicate Justified(t: Table, n: nat, k: seq<byte>, node: Node)
    requires Shaped(t)
  {
    match node
    case Leaf(s, l) => s < n && Ends(t, s, k) && l == t.len[s] - (8 * |k| - 8)
    case Internal => exists s: byte :: s < n && Passes(t, s, k)
  }

  /** Every node stands for one of the first n symbols. */
  ghost predicate Sound(t: Table, n: nat, m: Trie)
    requires Shaped(t)
  {
    forall k <- m :: Justified(t, n, k, m[k])
  }

  /** Every octet path along the codes of the first n symbols has its node. */
  ghost predicate Complete(t: Table, n: nat, m: Trie)
    requires Shaped(t)
  {
    && (forall s: byte, k :: s < n && Ends(t, s, k) ==> k in m && m[k] == Leaf(s, t.len[s] - (8 * |k| - 8)))
    && (forall s: byte, k :: s < n && Passes(t, s, k) ==> k in m && m[k] == Internal)
  }

  ghost predicate Built(t: Table, m: Trie) {
    Shaped(t) && Sound(t, 256, m) && Complete(t, 256, m)
  }

  //
  // Which octets a code covers
  //

  lemma {:induction false} CodeSplit(t: Table, s: byte, r: nat)
    requires Shaped(t) && r <= t.len[s]
    ensures Code(t, s) == Bits(Shr(t.code[s], r), t.len[s] - r) + Bits(t.code[s], r)
  {
    BitsSplit(t.code[s], t.len[s] - r, r);
  }

  /** uint8(code >> r) is the octet of the code that r bits follow. */
  lemma {:induction false} CodeOctet(t: Table, s: byte, path: seq<byte>, r: nat)
    requires Shaped(t) && 8 * |path| + 8 + r == t.len[s]
    requires Prefix(ByteBits(path), Code(t, s))
    ensures Prefix(ByteBits(path + [Octet(Shr(t.code[s], r))]), Code(t, s))
  {
    var x := Shr(t.code[s], r);
    CodeSplit(t, s, r);
    BitsSplit(x, 8 * |path|, 8);
    BitsLow(x, 8, 8);
    ByteBitsSnoc(path, Octet(x));
    var p := Bits(Shr(x, 8), 8 * |path|);
    Assoc(p, Bits(x, 8), Bits(t.code[s], r));
    assert Prefix(p, Code(t, s));
    PrefixChain(p, ByteBits(path), Code(t, s));
  }

  lemma {:induction false} LowShl(x: nat, a: nat, k: nat)
    ensures Low(Shl(x, k), a + k) == Shl(Low(x, a), k)
    decreases k
  {
    if k != 0 {
      LowShl(x, a, k - 1);
      assert Shl(x, k) / 2 == Shl(x, k - 1);
    }
  }

  /** start of the run of octets that begin with the last l bits of a code */
  function RunStart(code: nat, l: nat): (r: byte)
    requires 1 <= l <= 8
  {
    Octet(Shl(code, 8 - l))
  }

  lemma {:induction false} OctetRun(i: byte, code: nat, l: nat)
    requires 1 <= l <= 8
    ensures RunStart(code, l) + Pow2(8 - l) <= 256
    ensures RunStart(code, l) <= i < RunStart(code, l) + Pow2(8 - l) <==> Prefix(Bits(code, l), Bits(i, 8))
  {
    var k := 8 - l;
    var q := Low(code, l);
    Split(code, l);
    LowShl(code, l, k);
    assert RunStart(code, l) == Shl(q, k);
    ShlMonotone(q, Pow2(l), k);
    ShlShl(1, l, k);
    Pow2Small();
    RunMember(i, q, k);
    HighPart(i, l, k);
    BitsSplit(i, l, k);
    assert Bits(i, 8)[..l] == Bits(Shr(i, k), l);
    BitsLow(code, l, l);
    if Bits(Shr(i, k), l) == Bits(q, l) {
      BitsInjective(Shr(i, k), q, l);
    }
  }

  lemma {:induction false} RunMember(i: nat, q: nat, k: nat)
    ensures Shl(q, k) <= i < Shl(q, k) + Pow2(k) <==> Shr(i, k) == q
  {
    Split(i, k);
    if Shl(q, k) <= i < Shl(q, k) + Pow2(k) {
      SplitUnique(q, i - Shl(q, k), k);
    }
  }

  lemma {:induction false} ByteBitsInjective(u: seq<byte>, v: seq<byte>)
    requires ByteBits(u) == ByteBits(v)
    ensures u == v
  {
    PackInverts(u);
    PackInverts(v);
  }

  lemma {:induction false} ByteBitsTake(v: seq<byte>, n: nat)
    requires n <= |v|
    ensures ByteBits(v[..n]) == ByteBits(v)[..8 * n]
  {
    ByteBitsConcat(v[..n], v[n..]);
    assert v == v[..n] + v[n..];
  }

  /** The octets a code passes through are determined by the code. */
  lemma {:induction false} PassesAlong(c: bits, path: seq<byte>, k: seq<byte>)
    requires Prefix(ByteBits(path), c) && |k| <= |path| && Prefix(ByteBits(k), c)
    ensures k == path[..|k|]
  {
    var m, n := 8 * |k|, 8 * |path|;
    assert c[..n][..m] == c[..m];
    ByteBitsTake(path, |k|);
    assert ByteBits(path[..|k|]) == c[..m];
    ByteBitsInjective(k, path[..|k|]);
  }

  lemma {:induction false} EndsInRun(t: Table, s: byte, path: seq<byte>, k: seq<byte>)
    requires Shaped(t) && Prefix(ByteBits(path), Code(t, s))
    requires 8 * |path| < t.len[s] <= 8 * |path| + 8
    ensures var l := t.len[s] - 8 * |path|;
            Ends(t, s, k) <==>
            exists i: byte :: k == path + [i] && Prefix(Bits(t.code[s], l), Bits(i, 8))
  {
    var l := t.len[s] - 8 * |path|;
    var last := Bits(t.code[s], l);
    CodeSplit(t, s, l);
    var p := Bits(Shr(t.code[s], l), 8 * |path|);
    assert Prefix(p, Code(t, s));
    PrefixChain(p, ByteBits(path), Code(t, s));
    if Ends(t, s, k) {
      var i := k[|path|];
      assert k == k[..|path|] + [i];
      ByteBitsSnoc(k[..|path|], i);
      PrefixSplit(p, last, ByteBits(k[..|path|]), Bits(i, 8));
      ByteBitsInjective(path, k[..|path|]);
      assert Prefix(last, Bits(i, 8));
    }
    if i: byte :| k == path + [i] && Prefix(last, Bits(i, 8)) {
      ByteBitsSnoc(path, i);
      PrefixSplit(p, last, ByteBits(path), Bits(i, 8));
    }
  }

  //
  // buildRootHuffmanNode
  //

  predicate Along(k: seq<byte>, path: seq<byte>) {
    k != [] && k <= path
  }

  /** The internal nodes along a path, as the walk of buildRootHuffmanNode leaves them. */
  ghost predicate Walked(m: Trie, m': Trie, path: seq<byte>) {
    && (forall k <- m' :: (k in m && m[k] == m'[k]) || (Along(k, path) && m'[k] == Internal))
    && (forall k <- m :: k in m' && m'[k] == m[k])
    && (forall k :: Along(k, path) ==> k in m' && m'[k] == Internal)
  }

  /** One octet below path, with a value from start on and below start + end. */
  predicate InRun(k: seq<byte>, path: seq<byte>, start: nat, end: nat) {
    |k| == |path| + 1 && k[..|path|] == path && start <= k[|path|] < start + end
  }

  ghost predicate Filled(m: Trie, m': Trie, path: seq<byte>, start: nat, end: nat, leaf: Node) {
    && (forall k :: k in m' <==> k in m || InRun(k, path, start, end))
    && (forall k <- m' :: m'[k] == if InRun(k, path, start, end) then leaf else m[k])
  }

  /** No symbol but s has a node that a code passing or ending like that of s reaches. */
  lemma {:induction false} Disjoint(t: Table, s: byte, n: nat, k: seq<byte>, node: Node)
    requires Shaped(t) && PrefixFree(t) && n <= s && Justified(t, n, k, node)
    ensures !Ends(t, s, k)
    ensures Passes(t, s, k) ==> node == Internal
  {
    var c := Code(t, s);
    if Ends(t, s, k) || (Passes(t, s, k) && node.Leaf?) {
      var r: byte := if node.Leaf? then node.sym else var r: byte :| r < n && Passes(t, r, k); r;
      Comparable(Code(t, r), c, ByteBits(k));
      assert false;
    }
  }

  lemma {:induction false} Comparable(a: bits, b: bits, k: bits)
    requires Prefix(a, k) || Prefix(k, a)
    requires Prefix(b, k) || Prefix(k, b)
    requires Prefix(a, k) || Prefix(b, k)
    ensures Prefix(a, b) || Prefix(b, a)
  {
    if Prefix(a, k) && Prefix(b, k) {
      if |a| <= |b| {
        PrefixChain(a, b, k);
      } else {
        PrefixChain(b, a, k);
      }
    } else if Prefix(a, k) {
      PrefixTrans(a, k, b);
    } else {
      PrefixTrans(b, k, a);
    }
  }

  /** The first loop of buildRootHuffmanNode: down to the last octet of the code of s. */
  method Walk(t: Table, s: byte, m: Trie) returns (path: seq<byte>, codeLen: nat, m': Trie)
    requires Shaped(t) && PrefixFree(t) && Sound(t, s, m)
    ensures 1 <= codeLen <= 8 && 8 * |path| + codeLen == t.len[s]
    ensures Prefix(ByteBits(path), Code(t, s))
    ensures Walked(m, m', path)
  {
    codeLen, path, m' := t.len[s], [], m;
    while codeLen > 8
      invariant 1 <= codeLen && 8 * |path| + codeLen == t.len[s]
      invariant Prefix(ByteBits(path), Code(t, s))
      invariant Walked(m, m', path)
    {
      codeLen := codeLen - 8;
      var i := Octet(Shr(t.code[s], codeLen));
      CodeOctet(t, s, path, codeLen);
      var next := path + [i];
      if next !in m' {
        m' := m'[next := Internal];
      } else if next in m {
        assert Passes(t, s, next);
        Disjoint(t, s, s, next, m[next]);
      }
      assert forall k :: Along(k, next) ==> k == next || Along(k, path);
      path := next;
    }
  }

  /** The second loop: the run of octets that begin with the last bits of the code. */
  method Fill(m: Trie, path: seq<byte>, start: nat, end: nat, leaf: Node) returns (m': Trie)
    requires start + end <= 256
    ensures Filled(m, m', path, start, end, leaf)
  {
    m' := m;
    for i := start to start + end
      invariant Filled(m, m', path, start, i - start, leaf)
    {
      m' := m'[path + [i] := leaf];
      ghost var e, e' := i - start, i + 1 - start;
      forall k
        ensures InRun(k, path, start, e') <==> InRun(k, path, start, e) || k == path + [i]
      {
        if InRun(k, path, start, e') && k[|path|] == i {
          assert k == k[..|path|] + [i];
        }
      }
    }
  }

  /** The code of s ends exactly in the filled run. */
  lemma {:induction false} RunIsEnds(t: Table, s: byte, path: seq<byte>, l: nat, k: seq<byte>)
    requires Shaped(t) && Prefix(ByteBits(path), Code(t, s))
    requires 1 <= l <= 8 && 8 * |path| + l == t.len[s]
    ensures InRun(k, path, RunStart(t.code[s], l), Pow2(8 - l)) <==> Ends(t, s, k)
  {
    EndsInRun(t, s, path, k);
    if InRun(k, path, RunStart(t.code[s], l), Pow2(8 - l)) {
      assert k == path + [k[|path|]];
      OctetRun(k[|path|], t.code[s], l);
    }
    if Ends(t, s, k) {
      var i: byte :| k == path + [i] && Prefix(Bits(t.code[s], l), Bits(i, 8));
      OctetRun(i, t.code[s], l);
    }
  }

  lemma {:induction false} AlongIsPasses(t: Table, s: byte, path: seq<byte>, l: nat, k: seq<byte>)
    requires Shaped(t) && Prefix(ByteBits(path), Code(t, s))
    requires 1 <= l <= 8 && 8 * |path| + l == t.len[s]
    ensures Along(k, path) <==> Passes(t, s, k)
  {
    if Along(k, path) {
      ByteBitsTake(path, |k|);
      assert path[..|k|] == k;
      PrefixTrans(ByteBits(k), ByteBits(path), Code(t, s));
    }
    if Passes(t, s, k) {
      PassesAlong(Code(t, s), path, k);
    }
  }

  /** m' is m with the nodes of symbol s added. */
  ghost predicate Extends(t: Table, s: byte, m: Trie, m': Trie)
    requires Shaped(t)
  {
    && (forall k <- m :: k in m' && m'[k] == m[k])
    && (forall k <- m' :: k in m || (Ends(t, s, k) || Passes(t, s, k)))
    && (forall k :: Ends(t, s, k) ==> k in m' && m'[k] == Leaf(s, t.len[s] - (8 * |k| - 8)))
    && (forall k :: Passes(t, s, k) ==> k in m' && m'[k] == Internal)
  }

  lemma {:induction false} LoopsExtend(t: Table, s: byte, m: Trie, m1: Trie, m2: Trie, path: seq<byte>, l: nat)
    requires Shaped(t) && PrefixFree(t) && Sound(t, s, m)
    requires Prefix(ByteBits(path), Code(t, s)) && 1 <= l <= 8 && 8 * |path| + l == t.len[s]
    requires Walked(m, m1, path)
    requires Filled(m1, m2, path, RunStart(t.code[s], l), Pow2(8 - l), Leaf(s, l))
    ensures Extends(t, s, m, m2)
  {
    forall k ensures Along(k, path) <==> Passes(t, s, k)
    {
      AlongIsPasses(t, s, path, l, k);
    }
    forall k ensures InRun(k, path, RunStart(t.code[s], l), Pow2(8 - l)) <==> Ends(t, s, k)
    {
      RunIsEnds(t, s, path, l, k);
    }
    forall k | k in m
      ensures !Ends(t, s, k)
    {
      assert Justified(t, s, k, m[k]);
      Disjoint(t, s, s, k, m[k]);
    }
    assert forall k :: !(Ends(t, s, k) && Passes(t, s, k));
  }

  lemma {:induction false} ExtendedSound(t: Table, s: byte, m: Trie, m': Trie)
    requires Shaped(t) && Sound(t, s, m) && Extends(t, s, m, m')
    ensures Sound(t, s + 1, m')
  {
    forall k | k in m'
      ensures Justified(t, s + 1, k, m'[k])
    {
      if k in m {
        assert Justified(t, s, k, m[k]);
      }
    }
  }

  lemma {:induction false} ExtendedComplete(t: Table, s: byte, m: Trie, m': Trie)
    requires Shaped(t) && Complete(t, s, m) && Extends(t, s, m, m')
    ensures Complete(t, s + 1, m')
  {
  }

  /** buildRootHuffmanNode */
  method BuildRoot(t: Table) returns (m: Trie)
    requires Shaped(t) && PrefixFree(t)
    ensures Built(t, m)
  {
    m := map[];
    for s := 0 to 256
      invariant Sound(t, s, m) && Complete(t, s, m)
    {
      var path, l, m1 := Walk(t, s, m);
      OctetRun(0, t.code[s], l);
      var m2 := Fill(m1, path, RunStart(t.code[s], l), Pow2(8 - l), Leaf(s, l));
      LoopsExtend(t, s, m, m1, m2, path, l);
      ExtendedSound(t, s, m, m2);
      ExtendedComplete(t, s, m, m2);
      m := m2;
    }
  }
}
