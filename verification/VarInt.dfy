/**
 HPACK integers (section 5.1 of RFC 7541): appendVarInt and readVarInt.

 `Encode` and `Read` say what the two loops compute. The lemmas say that the reader
 inverts the writer exactly below 2^63, that it never wraps uint64, and that an
 outcome other than "need more" does not depend on the bytes that follow.
 */
module VarInt {
  import opened Bytes

  datatype Result =
    | Value(i: nat, rest: seq<byte>)
    | NeedMore
    | Overflow

  /** Little-endian groups of seven bits, each but the last with the high bit set. */
  function Groups(i: nat): (r: seq<byte>)
    ensures |r| > 0
  {
    if i < 128 then [i] else [128 + i % 128] + Groups(i / 128)
  }

  /** The octets of i under an n-bit prefix whose type bits are zero. */
  function Encode(n: nat, i: nat): (r: seq<byte>)
    requires 1 <= n <= 8
    ensures |r| > 0 && r[0] < Pow2(n) <= 256
  {
    Pow2Monotone(n, 8);
    Pow2Small();
    var k := Pow2(n) - 1;
    if i < k then [i] else [k] + Groups(i - k)
  }

  /** The same octets with type bits OR-ed into the first one. */
  function EncodeTyped(typeBits: byte, n: nat, i: nat): (r: seq<byte>)
    requires 1 <= n <= 8 && Low(typeBits, n) == 0
    requires typeBits + Pow2(n) <= 256
    ensures |r| > 0
  {
    var e := Encode(n, i);
    [typeBits + e[0]] + e[1..]
  }

  function ReadGroups(p: seq<byte>, acc: nat, m: nat): (r: Result)
    decreases |p|
  {
    if p == [] then NeedMore
    else
      var sum := acc + Shl(p[0] % 128, m);
      if p[0] < 128 then Value(sum, p[1..])
      else if m + 7 >= 63 then Overflow
      else ReadGroups(p[1..], sum, m + 7)
  }

  function Read(n: nat, p: seq<byte>): (r: Result)
    requires 1 <= n <= 8
  {
    if p == [] then NeedMore
    else
      var i := Low(p[0], n);
      if i < Pow2(n) - 1 then Value(i, p[1..]) else ReadGroups(p[1..], i, 0)
  }

  /** appendVarInt */
  method Append(dst: seq<byte>, n: nat, i: nat) returns (r: seq<byte>)
    requires 1 <= n <= 8 && i < TWO_64
    ensures r == dst + Encode(n, i)
  {
    hide Shl, Pow2, Groups;
    Pow2Monotone(n, 8);
    Pow2Small();
    var k := Pow2(n) - 1;
    if i < k {
      return dst + [i];
    }
    r := AppendGroups(dst + [k], i - k);
    assert r == dst + ([k] + Groups(i - k));
  }

  /** The loop of appendVarInt. */
  method AppendGroups(dst: seq<byte>, i: nat) returns (r: seq<byte>)
    ensures r == dst + Groups(i)
  {
    hide Groups;
    r := dst;
    var x := i;
    while x >= 128
      invariant x >= 0 && r + Groups(x) == dst + Groups(i)
    {
      GroupStep(r, x);
      r := r + [128 + x % 128];
      x := x / 128;
    }
    LastGroup(x);
    r := r + [x];
  }

  lemma {:induction false} LastGroup(x: nat)
    requires x < 128
    ensures Groups(x) == [x]
  {
  }

  lemma {:induction false} GroupStep(r: seq<byte>, x: nat)
    requires x >= 128
    ensures r + Groups(x) == r + [128 + x % 128] + Groups(x / 128)
  {
  }

  /**
   readVarInt. The accumulator is reduced modulo 2^64 as the uint64 of the program is;
   the invariant shows that the reduction never changes it.
   */
  method ReadVarInt(n: nat, p: seq<byte>) returns (r: Result)
    requires 1 <= n <= 8
    ensures r == Read(n, p)
  {
    Pow2Monotone(n, 8);
    Pow2Small();
    if |p| == 0 {
      return NeedMore;
    }
    var i: nat := p[0];
    if n < 8 {
      i := Low(i, n);
    } else {
      LowSmall(i, 8);
    }
    if i < Pow2(n) - 1 {
      return Value(i, p[1..]);
    }
    r := ReadContinuation(p[1..], i);
  }

  /** The loop of readVarInt over the octets after the prefix. */
  method ReadContinuation(p: seq<byte>, start: nat) returns (r: Result)
    requires start < 256
    ensures r == ReadGroups(p, start, 0)
  {
    hide Shl, Pow2, ReadGroups;
    Pow2Small();
    var q, i, m := p, start, 0;
    while |q| > 0
      invariant m % 7 == 0 && m <= 56
      invariant 0 <= i < 255 + Pow2(m)
      invariant ReadGroups(q, i, m) == ReadGroups(p, start, 0)
    {
      var b := q[0];
      AccumulatorBound(i, b, m);
      ReadGroupsStep(q, i, m);
      q := q[1..];
      i := (i + Shl(b % 128, m) % TWO_64) % TWO_64;
      if b < 128 {
        return Value(i, q);
      }
      m := m + 7;
      if m >= 63 {
        return Overflow;
      }
    }
    ReadGroupsEnd(i, m);
    return NeedMore;
  }

  lemma {:induction false} ReadGroupsEnd(acc: nat, m: nat)
    ensures ReadGroups([], acc, m) == NeedMore
  {
  }

  lemma {:induction false} ReadGroupsStep(p: seq<byte>, acc: nat, m: nat)
    requires p != []
    ensures var sum := acc + Shl(p[0] % 128, m);
            ReadGroups(p, acc, m) ==
            if p[0] < 128 then Value(sum, p[1..])
            else if m + 7 >= 63 then Overflow
            else ReadGroups(p[1..], sum, m + 7)
  {
  }

  lemma {:induction false} AccumulatorBound(i: nat, b: byte, m: nat)
    requires m <= 56 && i < 255 + Pow2(m)
    ensures i + Shl(b % 128, m) < 255 + Pow2(m + 7) <= 255 + TWO_63
  {
    Pow2Small();
    Pow2Words();
    Pow2Monotone(m + 7, 63);
    ShlMonotone(b % 128, 127, m);
    ShlPlus(127, 1, m);
    Shl7(1, m);
    ShlConst(1);
    ShlShl(1, 7, m);
  }

  /** What was read is a strict suffix, and fits a uint64. */
  lemma {:induction false} ReadGroupsShape(p: seq<byte>, acc: nat, m: nat)
    requires m % 7 == 0 && m <= 56 && acc < 255 + Pow2(m)
    ensures var r := ReadGroups(p, acc, m);
            r.Value? ==> r.i < TWO_64 && |r.rest| < |p| && r.rest == p[|p| - |r.rest|..]
    decreases |p|
  {
    if p != [] {
      AccumulatorBound(acc, p[0], m);
      if p[0] >= 128 && m + 7 < 63 {
        ReadGroupsShape(p[1..], acc + Shl(p[0] % 128, m), m + 7);
      }
    }
  }

  lemma {:induction false} ReadShape(n: nat, p: seq<byte>)
    requires 1 <= n <= 8
    ensures var r := Read(n, p);
            r.Value? ==> r.i < TWO_64 && |r.rest| < |p| && r.rest == p[|p| - |r.rest|..]
  {
    if p != [] {
      Pow2Monotone(n, 8);
      Pow2Small();
      if Low(p[0], n) >= Pow2(n) - 1 {
        ReadGroupsShape(p[1..], Low(p[0], n), 0);
      }
    }
  }

  /** Bytes appended after a decided integer do not change the outcome. */
  lemma {:induction false} ReadGroupsExtend(p: seq<byte>, s: seq<byte>, acc: nat, m: nat)
    ensures var r := ReadGroups(p, acc, m);
            var e := ReadGroups(p + s, acc, m);
            match r
            case Value(i, rest) => e == Value(i, rest + s)
            case Overflow => e == Overflow
            case NeedMore => true
    decreases |p|
  {
    if p != [] {
      assert (p + s)[1..] == p[1..] + s;
      if p[0] >= 128 && m + 7 < 63 {
        ReadGroupsExtend(p[1..], s, acc + Shl(p[0] % 128, m), m + 7);
      }
    }
  }

  lemma {:induction false} ReadExtend(n: nat, p: seq<byte>, s: seq<byte>)
    requires 1 <= n <= 8
    ensures var r := Read(n, p);
            var e := Read(n, p + s);
            match r
            case Value(i, rest) => e == Value(i, rest + s)
            case Overflow => e == Overflow
            case NeedMore => true
  {
    if p != [] {
      assert (p + s)[1..] == p[1..] + s;
      ReadGroupsExtend(p[1..], s, Low(p[0], n), 0);
    }
  }

  lemma {:induction false} ScaleGroup(x: nat, m: nat)
    ensures Shl(x % 128, m) + Shl(x / 128, m + 7) == Shl(x, m)
  {
    ShlShl(x / 128, 7, m);
    ShlConst(x / 128);
    ShlPlus(x % 128, 128 * (x / 128), m);
  }

  lemma {:induction false} DropGroup(x: nat, k: nat)
    requires k >= 7
    ensures x < Pow2(k) <==> x / 128 < Pow2(k - 7)
  {
    Shl7(1, k - 7);
  }

  /** The group reader inverts the group writer below 2^(63 - m), and rejects from there on. */
  lemma {:induction false} ReadGroupsInverts(x: nat, rest: seq<byte>, acc: nat, m: nat)
    requires m % 7 == 0 && m <= 56
    ensures ReadGroups(Groups(x) + rest, acc, m) ==
            if x < Pow2(63 - m) then Value(acc + Shl(x, m), rest) else Overflow
    decreases x
  {
    hide Shl, Pow2, ReadGroups;
    var g := Groups(x);
    ReadGroupsStep(g + rest, acc, m);
    if x < 128 {
      assert (g + rest)[1..] == rest;
      Pow2Small();
      Pow2Monotone(7, 63 - m);
    } else {
      assert (g + rest)[1..] == Groups(x / 128) + rest;
      ScaleGroup(x, m);
      if m + 7 < 63 {
        ReadGroupsInverts(x / 128, rest, acc + Shl(x % 128, m), m + 7);
        DropGroup(x, 63 - m);
      } else {
        Pow2Small();
      }
    }
  }

  lemma {:induction false} TypeBitsMasked(typeBits: byte, n: nat, r: nat)
    requires Low(typeBits, n) == 0 && r < Pow2(n)
    ensures Low(typeBits + r, n) == r
  {
    Split(typeBits, n);
    SplitUnique(Shr(typeBits, n), r, n);
  }

  /**
   readVarInt inverts appendVarInt for every prefix size and whatever type bits were
   OR-ed in, exactly when what exceeds the prefix is below 2^63; above, it reports
   overflow rather than a wrong value.
   */
  lemma {:induction false} ReadInvertsAppend(typeBits: byte, n: nat, i: nat, rest: seq<byte>)
    requires 1 <= n <= 8 && Low(typeBits, n) == 0 && typeBits + Pow2(n) <= 256
    ensures Read(n, EncodeTyped(typeBits, n, i) + rest) ==
            if i < Pow2(n) - 1 + TWO_63 then Value(i, rest) else Overflow
  {
    var e := Encode(n, i);
    var t := EncodeTyped(typeBits, n, i) + rest;
    TypeBitsMasked(typeBits, n, e[0]);
    assert t[1..] == e[1..] + rest;
    UntypedInverts(n, i, rest);
  }

  lemma {:induction false} UntypedInverts(n: nat, i: nat, rest: seq<byte>)
    requires 1 <= n <= 8
    ensures var e := Encode(n, i);
            (if e[0] < Pow2(n) - 1 then Value(e[0], e[1..] + rest)
             else ReadGroups(e[1..] + rest, e[0], 0)) ==
            if i < Pow2(n) - 1 + TWO_63 then Value(i, rest) else Overflow
  {
    var k := Pow2(n) - 1;
    if i < k {
      assert Encode(n, i)[1..] + rest == rest;
    } else {
      assert Encode(n, i)[1..] == Groups(i - k);
      ReadGroupsInverts(i - k, rest, k, 0);
      Pow2Words();
    }
  }
}
