/**
 Why a code table can be relied on.

 Sorted by their bits, the codes of HPACK leave no gap: each is the one after its predecessor,
 extended with zero bits to its own length, up to the single code of EOS, thirty one bits.
 Comparing neighbours is enough: every table that can be put in such an order is well formed.
 */
module HuffmanTable {
  import opened Bytes
  import opened BitStrings
  import opened Huffman
  import opened HuffmanEncoder

  /** The code of s comes right after the code of r. */
  predicate Follows(t: Table, r: byte, s: byte)
    requires |t.code| == 256 && |t.len| == 256
  {
    t.len[r] <= t.len[s] && t.code[s] == Shl(t.code[r] + 1, t.len[s] - t.len[r])
  }

  /** The symbols in the order of their codes. */
  ghost predicate Chained(t: Table, order: seq<byte>) {
    && |t.code| == 256 && |t.len| == 256 && |order| == 256
    && (forall s: byte :: 1 <= t.len[s] <= 30)
    && t.code[order[0]] == 0
    && (forall i | 0 <= i < 255 :: Follows(t, order[i], order[i + 1]))
    && t.len[order[255]] == 30 && t.code[order[255]] + 1 == Pow2(30) - 1
  }

  //
  // Each code is an interval of thirty-bit words
  //

  /** The first word that starts with the code of s, and the first one after them. */
  function Start(t: Table, s: byte): (x: nat)
    requires |t.code| == 256 && |t.len| == 256 && t.len[s] <= 30
  {
    Shl(t.code[s], 30 - t.len[s])
  }

  function Stop(t: Table, s: byte): (x: nat)
    requires |t.code| == 256 && |t.len| == 256 && t.len[s] <= 30
  {
    Shl(t.code[s] + 1, 30 - t.len[s])
  }

  lemma {:induction false} StartBeforeStop(t: Table, s: byte)
    requires |t.code| == 256 && |t.len| == 256 && t.len[s] <= 30
    ensures Start(t, s) < Stop(t, s)
  {
    ShlPlus(t.code[s], 1, 30 - t.len[s]);
  }

  lemma {:induction false} StopIsStart(t: Table, r: byte, s: byte)
    requires |t.code| == 256 && |t.len| == 256 && t.len[s] <= 30 && Follows(t, r, s)
    ensures Stop(t, r) == Start(t, s)
  {
    ShlShl(t.code[r] + 1, t.len[s] - t.len[r], 30 - t.len[s]);
  }

  /** The intervals are in order, and do not meet. */
  lemma {:induction false} Apart(t: Table, order: seq<byte>, i: nat, j: nat)
    requires Chained(t, order) && i < j < 256
    ensures Stop(t, order[i]) <= Start(t, order[j])
    decreases j
  {
    hide Shl, Follows, Start, Stop;
    assert Follows(t, order[j - 1], order[j - 1 + 1]);
    StopIsStart(t, order[j - 1], order[j]);
    if i < j - 1 {
      Apart(t, order, i, j - 1);
      StartBeforeStop(t, order[j - 1]);
    }
  }

  /** So no symbol is in two places, and every symbol is in one. */
  lemma {:induction false} Place(t: Table, order: seq<byte>, s: byte) returns (i: nat)
    requires Chained(t, order)
    ensures i < 256 && order[i] == s
  {
    hide Shl, Follows, Start, Stop;
    forall i: nat, j: nat | i < j < 256
      ensures order[i] != order[j]
    {
      Apart(t, order, i, j);
      StartBeforeStop(t, order[i]);
    }
    EverySymbol(order, s);
    i :| 0 <= i < 256 && order[i] == s;
  }

  function Octets(n: nat): (r: set<byte>)
    requires n <= 256
  {
    if n == 0 then {} else Octets(n - 1) + {n - 1}
  }

  lemma {:induction false} OctetsAre(n: nat)
    requires n <= 256
    ensures |Octets(n)| == n && forall b: byte :: b in Octets(n) <==> b < n
  {
    if n > 0 {
      OctetsAre(n - 1);
    }
  }

  ghost function Members(order: seq<byte>, n: nat): (r: set<byte>)
    requires n <= |order|
  {
    if n == 0 then {} else Members(order, n - 1) + {order[n - 1]}
  }

  lemma {:induction false} MembersAre(order: seq<byte>, n: nat)
    requires n <= |order| && forall i: nat, j: nat :: i < j < |order| ==> order[i] != order[j]
    ensures |Members(order, n)| == n && forall b :: b in Members(order, n) <==> exists i | 0 <= i < n :: order[i] == b
  {
    if n > 0 {
      MembersAre(order, n - 1);
    }
  }

  /** Two hundred and fifty-six different octets are all of them. */
  lemma {:induction false} EverySymbol(order: seq<byte>, s: byte)
    requires |order| == 256 && forall i: nat, j: nat :: i < j < |order| ==> order[i] != order[j]
    ensures exists i | 0 <= i < 256 :: order[i] == s
  {
    hide Members, Octets;
    MembersAre(order, 256);
    OctetsAre(256);
    var m := Members(order, 256);
    assert m <= Octets(256);
    if s !in m {
      MoreThanAll(m, Octets(256), s);
    }
  }

  lemma {:induction false} MoreThanAll(m: set<byte>, all: set<byte>, s: byte)
    requires m <= all && s in all && s !in m
    ensures |m| < |all|
  {
    assert m <= all - {s};
    Fewer(m, all - {s});
  }

  lemma {:induction false} Fewer(m: set<byte>, n: set<byte>)
    requires m <= n
    ensures |m| <= |n|
  {
    assert n == m + (n - m);
  }

  //
  // Codes
  //

  lemma {:induction false} Unscale(e: nat, l: nat, d: nat)
    requires Shl(e, d) < Pow2(l + d)
    ensures e < Pow2(l)
  {
    if e >= Pow2(l) {
      ShlMonotone(Pow2(l), e, d);
      ShlShl(1, l, d);
    }
  }

  /** A word whose high part is below e is below e shifted. */
  lemma {:induction false} BelowScaled(x: nat, d: nat, e: nat)
    ensures Shr(x, d) < e <==> x < Shl(e, d)
  {
    Split(x, d);
    if Shr(x, d) < e {
      ShlMonotone(Shr(x, d), e, d);
    } else {
      ShlMonotone(e, Shr(x, d), d);
    }
  }

  /** No code reaches the code of EOS. */
  lemma {:induction false} CodeBound(t: Table, order: seq<byte>, s: byte)
    requires Chained(t, order)
    ensures Stop(t, s) <= Pow2(30) - 1 && t.code[s] + 1 < Pow2(t.len[s])
  {
    hide Follows, Shl, Pow2;
    var i := Place(t, order, s);
    LastStop(t, order);
    if i < 255 {
      Apart(t, order, i, 255);
      StartBeforeStop(t, order[255]);
    }
    Unscale(t.code[s] + 1, t.len[s], 30 - t.len[s]);
  }

  lemma {:induction false} LastStop(t: Table, order: seq<byte>)
    requires Chained(t, order)
    ensures Stop(t, order[255]) == Pow2(30) - 1
  {
    hide Follows;
  }

  lemma {:induction false} ChainedIsShaped(t: Table, order: seq<byte>)
    requires Chained(t, order)
    ensures Shaped(t)
  {
    hide Follows, Shl, Pow2, Stop;
    forall s: byte
      ensures 1 <= t.len[s] <= 30 && t.code[s] < Pow2(t.len[s])
    {
      CodeBound(t, order, s);
    }
  }

  /** A prefix of a code is the code shifted right. */
  lemma {:induction false} PrefixIsShift(t: Table, s: byte, x: nat, n: nat)
    requires Shaped(t) && t.len[s] <= n && x < Pow2(n)
    ensures Prefix(Code(t, s), Bits(x, n)) <==> t.code[s] == Shr(x, n - t.len[s])
  {
    var d := n - t.len[s];
    BitsSplit(x, t.len[s], d);
    assert Bits(x, n)[..t.len[s]] == Bits(Shr(x, d), t.len[s]);
    HighPart(x, t.len[s], d);
    if Bits(Shr(x, d), t.len[s]) == Code(t, s) {
      BitsInjective(Shr(x, d), t.code[s], t.len[s]);
    }
  }

  /** A code whose bits start with the code of r lies in the interval of r. */
  lemma {:induction false} PrefixIsInside(t: Table, r: byte, s: byte)
    requires |t.code| == 256 && |t.len| == 256 && t.len[r] <= t.len[s] <= 30
    requires t.code[r] == Shr(t.code[s], t.len[s] - t.len[r])
    ensures Start(t, r) <= Start(t, s) < Stop(t, r)
  {
    hide Shl, Shr;
    var d, e := t.len[s] - t.len[r], 30 - t.len[s];
    BelowScaled(t.code[s], d, t.code[r]);
    BelowScaled(t.code[s], d, t.code[r] + 1);
    ShlShl(t.code[r], d, e);
    ShlShl(t.code[r] + 1, d, e);
    ShlMonotone(Shl(t.code[r], d), t.code[s], e);
    ShlMonotone(t.code[s] + 1, Shl(t.code[r] + 1, d), e);
    ShlPlus(t.code[s], 1, e);
  }

  lemma {:induction false} PrefixMeansEqual(t: Table, order: seq<byte>, r: byte, s: byte)
    requires Chained(t, order) && Shaped(t) && Prefix(Code(t, r), Code(t, s))
    ensures r == s
  {
    hide Shl, Follows, Start, Stop, Shr;
    PrefixIsShift(t, r, t.code[s], t.len[s]);
    PrefixIsInside(t, r, s);
    var i := Place(t, order, r);
    var j := Place(t, order, s);
    if i < j {
      Apart(t, order, i, j);
    } else if j < i {
      Apart(t, order, j, i);
      StartBeforeStop(t, s);
    }
  }

  /** Every thirty bits but all ones start with a code: the code is complete but for EOS. */
  lemma {:induction false} Complete(t: Table, order: seq<byte>, x: nat) returns (s: byte)
    requires Chained(t, order) && x < Pow2(30) - 1
    ensures t.code[s] == Shr(x, 30 - t.len[s])
  {
    hide Follows, Shl, Shr, Pow2;
    LastStop(t, order);
    s := Search(t, order, x, 255);
    BelowScaled(x, 30 - t.len[s], t.code[s]);
    BelowScaled(x, 30 - t.len[s], t.code[s] + 1);
  }

  /** The interval of x among the first ones. */
  lemma {:induction false} Search(t: Table, order: seq<byte>, x: nat, i: nat) returns (s: byte)
    requires Chained(t, order) && i < 256 && x < Stop(t, order[i])
    ensures Start(t, s) <= x < Stop(t, s)
  {
    hide Shl, Follows, Stop;
    if i == 0 {
      s := order[0];
      ShlZero(30 - t.len[s]);
    } else if x < Stop(t, order[i - 1]) {
      s := Search(t, order, x, i - 1);
    } else {
      s := order[i];
      assert Follows(t, order[i - 1], order[i - 1 + 1]);
      StopIsStart(t, order[i - 1], s);
    }
  }

  /** Padding bits begin some code. */
  lemma {:induction false} PadTouches(t: Table, order: seq<byte>, k: nat)
    requires Chained(t, order) && Shaped(t) && 1 <= k < 8
    ensures Touches(t, PadOctet(k))
  {
    var x := PadWord(k);
    var s := Complete(t, order, x);
    PrefixIsShift(t, s, x, 30);
    if t.len[s] <= 8 {
      PrefixChain(Code(t, s), PadOctet(k), Bits(x, 30));
    } else {
      PrefixChain(PadOctet(k), Code(t, s), Bits(x, 30));
    }
  }

  /** Thirty bits that start with a padding octet. */
  lemma {:induction false} PadWord(k: nat) returns (x: nat)
    requires 1 <= k < 8
    ensures x < Pow2(30) - 1 && Prefix(PadOctet(k), Bits(x, 30))
  {
    var p := Val(PadOctet(k));
    BitsOfVal(PadOctet(k));
    x := Shl(p, 22);
    BitsAppend(p, 8, 0, 22);
    PadIsNotOnes(k);
    RoomBelow(p, 8, 22);
  }

  lemma {:induction false} RoomBelow(p: nat, a: nat, b: nat)
    requires p + 1 < Pow2(a) && b >= 1
    ensures Shl(p, b) < Pow2(a + b) - 1
  {
    ShlMonotone(p + 1, Pow2(a), b);
    ShlPlus(p, 1, b);
    ShlShl(1, a, b);
    Pow2Monotone(1, b);
    Pow2Small();
  }

  lemma {:induction false} PadIsNotOnes(k: nat)
    requires k < 8
    ensures Val(PadOctet(k)) < Pow2(8) - 1
  {
    var p := Val(PadOctet(k));
    BitsOfVal(PadOctet(k));
    LowSmall(p, 8);
    BitsAllOnes(p, 8);
    assert !PadOctet(k)[7] && Ones(8)[7];
  }

  lemma {:induction false} NoCodeIsPadding(t: Table, order: seq<byte>, s: byte, k: nat)
    requires Chained(t, order) && Shaped(t)
    ensures !Prefix(Code(t, s), Ones(k))
  {
    if Prefix(Code(t, s), Ones(k)) {
      var l := t.len[s];
      assert Ones(k)[..l] == Ones(l);
      CodeBound(t, order, s);
      LowSmall(t.code[s], l);
      BitsAllOnes(t.code[s], l);
      assert false;
    }
  }

  /** Every table with such an order supports coding and decoding. */
  lemma {:induction false} ChainedIsWellFormed(t: Table, order: seq<byte>)
    requires Chained(t, order)
    ensures WellFormed(t)
  {
    hide Chained, Touches, Code;
    ChainedIsShaped(t, order);
    forall r: byte, s: byte | Prefix(Code(t, r), Code(t, s))
      ensures r == s
    {
      PrefixMeansEqual(t, order, r, s);
    }
    forall s: byte, k: nat | k < 8
      ensures !Prefix(Code(t, s), Ones(k))
    {
      NoCodeIsPadding(t, order, s, k);
    }
    forall k: nat | 1 <= k < 8
      ensures Touches(t, PadOctet(k))
    {
      PadTouches(t, order, k);
    }
  }
}
