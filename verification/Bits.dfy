/** Bit strings, most significant bit first, and the words and octets that hold them. */
module BitStrings {
  import opened Sequences
  import opened Bytes

  type bits = seq<bool>

  /** The low n bits of x. */
  function Bits(x: nat, n: nat): (b: bits)
    ensures |b| == n
    decreases n, x
  {
    if n == 0 then [] else Bits(x / 2, n - 1) + [x % 2 == 1]
  }

  function Val(b: bits): (x: nat)
    ensures x < Pow2(|b|)
  {
    if b == [] then 0
    else 2 * Val(b[..|b| - 1]) + (if b[|b| - 1] then 1 else 0)
  }

  function Ones(n: nat): (b: bits)
    ensures |b| == n
  {
    seq(n, _ => true)
  }

  function Zeros(n: nat): (b: bits)
    ensures |b| == n
  {
    seq(n, _ => false)
  }

  /** The bits of an octet string. */
  function ByteBits(v: seq<byte>): (b: bits)
    ensures |b| == 8 * |v|
  {
    if v == [] then [] else Bits(v[0], 8) + ByteBits(v[1..])
  }

  /** The octets of a bit string of whole octets. */
  function Pack(b: bits): (v: seq<byte>)
    requires |b| % 8 == 0
    ensures 8 * |v| == |b|
  {
    if b == [] then [] else (Pow2Small(); [Val(b[..8])] + Pack(b[8..]))
  }

  lemma {:induction false} BitsOfVal(b: bits)
    ensures Bits(Val(b), |b|) == b
  {
    if b != [] {
      BitsOfVal(b[..|b| - 1]);
      assert b == b[..|b| - 1] + [b[|b| - 1]];
    }
  }

  lemma {:induction false} BitsInjective(x: nat, y: nat, n: nat)
    requires x < Pow2(n) && y < Pow2(n) && Bits(x, n) == Bits(y, n)
    ensures x == y
  {
    if n != 0 {
      var p, q := Bits(x / 2, n - 1), Bits(y / 2, n - 1);
      assert p == Bits(x, n)[..n - 1] && q == Bits(y, n)[..n - 1];
      assert Bits(x, n)[n - 1] == Bits(y, n)[n - 1];
      BitsInjective(x / 2, y / 2, n - 1);
    }
  }

  lemma {:induction false} BitsAppend(x: nat, n: nat, y: nat, k: nat)
    requires y < Pow2(k)
    ensures Bits(Shl(x, k) + y, n + k) == Bits(x, n) + Bits(y, k)
    decreases k
  {
    if k != 0 {
      BitsAppend(x, n, y / 2, k - 1);
      assert (Shl(x, k) + y) / 2 == Shl(x, k - 1) + y / 2;
      assert Bits(x, n) + (Bits(y / 2, k - 1) + [y % 2 == 1]) == Bits(x, n) + Bits(y / 2, k - 1) + [y % 2 == 1];
    }
  }

  lemma {:induction false} BitsSplit(x: nat, n: nat, k: nat)
    ensures Bits(x, n + k) == Bits(Shr(x, k), n) + Bits(x, k)
    decreases k
  {
    if k != 0 {
      BitsSplit(x / 2, n, k - 1);
      var h := Bits(Shr(x, k), n);
      assert h + (Bits(x / 2, k - 1) + [x % 2 == 1]) == h + Bits(x / 2, k - 1) + [x % 2 == 1];
    }
  }

  lemma {:induction false} BitsLow(x: nat, n: nat, m: nat)
    requires n <= m
    ensures Bits(Low(x, m), n) == Bits(x, n)
    decreases n
  {
    if n != 0 {
      BitsLow(x / 2, n - 1, m - 1);
      assert Low(x, m) / 2 == Low(x / 2, m - 1);
    }
  }

  lemma {:induction false} BitsAllOnes(x: nat, n: nat)
    ensures Bits(x, n) == Ones(n) <==> Low(x, n) == Pow2(n) - 1
    decreases n
  {
    if n != 0 {
      BitsAllOnes(x / 2, n - 1);
      assert Ones(n) == Ones(n - 1) + [true];
      if Bits(x, n) == Ones(n) {
        assert Bits(x, n)[..n - 1] == Bits(x / 2, n - 1);
        assert Ones(n)[..n - 1] == Ones(n - 1);
        assert Bits(x, n)[n - 1] == (x % 2 == 1);
      }
    }
  }

  lemma {:induction false} BitsZero(n: nat)
    ensures Bits(0, n) == Zeros(n)
  {
    if n != 0 {
      BitsZero(n - 1);
    }
  }

  lemma {:induction false} ByteBitsConcat(u: seq<byte>, v: seq<byte>)
    ensures ByteBits(u + v) == ByteBits(u) + ByteBits(v)
  {
    if u == [] {
      assert u + v == v;
    } else {
      ByteBitsConcat(u[1..], v);
      assert (u + v)[1..] == u[1..] + v;
      Assoc(Bits(u[0], 8), ByteBits(u[1..]), ByteBits(v));
    }
  }

  lemma {:induction false} ByteBitsSnoc(u: seq<byte>, b: byte)
    ensures ByteBits(u + [b]) == ByteBits(u) + Bits(b, 8)
  {
    ByteBitsConcat(u, [b]);
    assert ByteBits([b]) == Bits(b, 8);
  }

  lemma {:induction false} PackInverts(v: seq<byte>)
    ensures Pack(ByteBits(v)) == v
  {
    if v != [] {
      var b := ByteBits(v);
      assert b[..8] == Bits(v[0], 8) && b[8..] == ByteBits(v[1..]);
      PackInverts(v[1..]);
      Pow2Small();
      BitsOfVal(b[..8]);
      BitsInjective(Val(b[..8]), v[0], 8);
    }
  }

  lemma {:induction false} ByteBitsInverts(b: bits)
    requires |b| % 8 == 0
    ensures ByteBits(Pack(b)) == b
  {
    if b != [] {
      BitsOfVal(b[..8]);
      ByteBitsInverts(b[8..]);
    }
  }
}
