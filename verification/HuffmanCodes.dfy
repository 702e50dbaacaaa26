/**
 The table of Appendix B of RFC 7541, symbol by symbol as in tables.go, and the order of its
 codes. Comparing neighbours in that order shows that the table is well formed.
 */
module HuffmanCodes {
  import opened Bytes
  import opened Huffman
  import opened HuffmanTable

  /** A code and its length in bits. */
  datatype Entry = E(code: nat, len: nat)

  datatype Eight<T> = Eight(a: T, b: T, c: T, d: T, e: T, f: T, g: T, h: T)

  function Pick<T>(r: Eight<T>, i: nat): (x: T)
    requires i < 8
  {
    match i
    case 0 => r.a
    case 1 => r.b
    case 2 => r.c
    case 3 => r.d
    case 4 => r.e
    case 5 => r.f
    case 6 => r.g
    case _ => r.h
  }

  // Codes and lengths of the symbols, eight by eight.

  const ROW_0 := Eight(
    E(0x1ff8, 13), E(0x7fffd8, 23), E(0xfffffe2, 28), E(0xfffffe3, 28),
    E(0xfffffe4, 28), E(0xfffffe5, 28), E(0xfffffe6, 28), E(0xfffffe7, 28))
  const ROW_1 := Eight(
    E(0xfffffe8, 28), E(0xffffea, 24), E(0x3ffffffc, 30), E(0xfffffe9, 28),
    E(0xfffffea, 28), E(0x3ffffffd, 30), E(0xfffffeb, 28), E(0xfffffec, 28))
  const ROW_2 := Eight(
    E(0xfffffed, 28), E(0xfffffee, 28), E(0xfffffef, 28), E(0xffffff0, 28),
    E(0xffffff1, 28), E(0xffffff2, 28), E(0x3ffffffe, 30), E(0xffffff3, 28))
  const ROW_3 := Eight(
    E(0xffffff4, 28), E(0xffffff5, 28), E(0xffffff6, 28), E(0xffffff7, 28),
    E(0xffffff8, 28), E(0xffffff9, 28), E(0xffffffa, 28), E(0xffffffb, 28))
  const ROW_4 := Eight(
    E(0x14, 6), E(0x3f8, 10), E(0x3f9, 10), E(0xffa, 12),
    E(0x1ff9, 13), E(0x15, 6), E(0xf8, 8), E(0x7fa, 11))
  const ROW_5 := Eight(
    E(0x3fa, 10), E(0x3fb, 10), E(0xf9, 8), E(0x7fb, 11),
    E(0xfa, 8), E(0x16, 6), E(0x17, 6), E(0x18, 6))
  const ROW_6 := Eight(
    E(0, 5), E(1, 5), E(2, 5), E(0x19, 6),
    E(0x1a, 6), E(0x1b, 6), E(0x1c, 6), E(0x1d, 6))
  const ROW_7 := Eight(
    E(0x1e, 6), E(0x1f, 6), E(0x5c, 7), E(0xfb, 8),
    E(0x7ffc, 15), E(0x20, 6), E(0xffb, 12), E(0x3fc, 10))
  const ROW_8 := Eight(
    E(0x1ffa, 13), E(0x21, 6), E(0x5d, 7), E(0x5e, 7),
    E(0x5f, 7), E(0x60, 7), E(0x61, 7), E(0x62, 7))
  const ROW_9 := Eight(
    E(0x63, 7), E(0x64, 7), E(0x65, 7), E(0x66, 7),
    E(0x67, 7), E(0x68, 7), E(0x69, 7), E(0x6a, 7))
  const ROW_10 := Eight(
    E(0x6b, 7), E(0x6c, 7), E(0x6d, 7), E(0x6e, 7),
    E(0x6f, 7), E(0x70, 7), E(0x71, 7), E(0x72, 7))
  const ROW_11 := Eight(
    E(0xfc, 8), E(0x73, 7), E(0xfd, 8), E(0x1ffb, 13),
    E(0x7fff0, 19), E(0x1ffc, 13), E(0x3ffc, 14), E(0x22, 6))
  const ROW_12 := Eight(
    E(0x7ffd, 15), E(3, 5), E(0x23, 6), E(4, 5),
    E(0x24, 6), E(5, 5), E(0x25, 6), E(0x26, 6))
  const ROW_13 := Eight(
    E(0x27, 6), E(6, 5), E(0x74, 7), E(0x75, 7),
    E(0x28, 6), E(0x29, 6), E(0x2a, 6), E(7, 5))
  const ROW_14 := Eight(
    E(0x2b, 6), E(0x76, 7), E(0x2c, 6), E(8, 5),
    E(9, 5), E(0x2d, 6), E(0x77, 7), E(0x78, 7))
  const ROW_15 := Eight(
    E(0x79, 7), E(0x7a, 7), E(0x7b, 7), E(0x7ffe, 15),
    E(0x7fc, 11), E(0x3ffd, 14), E(0x1ffd, 13), E(0xffffffc, 28))
  const ROW_16 := Eight(
    E(0xfffe6, 20), E(0x3fffd2, 22), E(0xfffe7, 20), E(0xfffe8, 20),
    E(0x3fffd3, 22), E(0x3fffd4, 22), E(0x3fffd5, 22), E(0x7fffd9, 23))
  const ROW_17 := Eight(
    E(0x3fffd6, 22), E(0x7fffda, 23), E(0x7fffdb, 23), E(0x7fffdc, 23),
    E(0x7fffdd, 23), E(0x7fffde, 23), E(0xffffeb, 24), E(0x7fffdf, 23))
  const ROW_18 := Eight(
    E(0xffffec, 24), E(0xffffed, 24), E(0x3fffd7, 22), E(0x7fffe0, 23),
    E(0xffffee, 24), E(0x7fffe1, 23), E(0x7fffe2, 23), E(0x7fffe3, 23))
  const ROW_19 := Eight(
    E(0x7fffe4, 23), E(0x1fffdc, 21), E(0x3fffd8, 22), E(0x7fffe5, 23),
    E(0x3fffd9, 22), E(0x7fffe6, 23), E(0x7fffe7, 23), E(0xffffef, 24))
  const ROW_20 := Eight(
    E(0x3fffda, 22), E(0x1fffdd, 21), E(0xfffe9, 20), E(0x3fffdb, 22),
    E(0x3fffdc, 22), E(0x7fffe8, 23), E(0x7fffe9, 23), E(0x1fffde, 21))
  const ROW_21 := Eight(
    E(0x7fffea, 23), E(0x3fffdd, 22), E(0x3fffde, 22), E(0xfffff0, 24),
    E(0x1fffdf, 21), E(0x3fffdf, 22), E(0x7fffeb, 23), E(0x7fffec, 23))
  const ROW_22 := Eight(
    E(0x1fffe0, 21), E(0x1fffe1, 21), E(0x3fffe0, 22), E(0x1fffe2, 21),
    E(0x7fffed, 23), E(0x3fffe1, 22), E(0x7fffee, 23), E(0x7fffef, 23))
  const ROW_23 := Eight(
    E(0xfffea, 20), E(0x3fffe2, 22), E(0x3fffe3, 22), E(0x3fffe4, 22),
    E(0x7ffff0, 23), E(0x3fffe5, 22), E(0x3fffe6, 22), E(0x7ffff1, 23))
  const ROW_24 := Eight(
    E(0x3ffffe0, 26), E(0x3ffffe1, 26), E(0xfffeb, 20), E(0x7fff1, 19),
    E(0x3fffe7, 22), E(0x7ffff2, 23), E(0x3fffe8, 22), E(0x1ffffec, 25))
  const ROW_25 := Eight(
    E(0x3ffffe2, 26), E(0x3ffffe3, 26), E(0x3ffffe4, 26), E(0x7ffffde, 27),
    E(0x7ffffdf, 27), E(0x3ffffe5, 26), E(0xfffff1, 24), E(0x1ffffed, 25))
  const ROW_26 := Eight(
    E(0x7fff2, 19), E(0x1fffe3, 21), E(0x3ffffe6, 26), E(0x7ffffe0, 27),
    E(0x7ffffe1, 27), E(0x3ffffe7, 26), E(0x7ffffe2, 27), E(0xfffff2, 24))
  const ROW_27 := Eight(
    E(0x1fffe4, 21), E(0x1fffe5, 21), E(0x3ffffe8, 26), E(0x3ffffe9, 26),
    E(0xffffffd, 28), E(0x7ffffe3, 27), E(0x7ffffe4, 27), E(0x7ffffe5, 27))
  const ROW_28 := Eight(
    E(0xfffec, 20), E(0xfffff3, 24), E(0xfffed, 20), E(0x1fffe6, 21),
    E(0x3fffe9, 22), E(0x1fffe7, 21), E(0x1fffe8, 21), E(0x7ffff3, 23))
  const ROW_29 := Eight(
    E(0x3fffea, 22), E(0x3fffeb, 22), E(0x1ffffee, 25), E(0x1ffffef, 25),
    E(0xfffff4, 24), E(0xfffff5, 24), E(0x3ffffea, 26), E(0x7ffff4, 23))
  const ROW_30 := Eight(
    E(0x3ffffeb, 26), E(0x7ffffe6, 27), E(0x3ffffec, 26), E(0x3ffffed, 26),
    E(0x7ffffe7, 27), E(0x7ffffe8, 27), E(0x7ffffe9, 27), E(0x7ffffea, 27))
  const ROW_31 := Eight(
    E(0x7ffffeb, 27), E(0xffffffe, 28), E(0x7ffffec, 27), E(0x7ffffed, 27),
    E(0x7ffffee, 27), E(0x7ffffef, 27), E(0x7fffff0, 27), E(0x3ffffee, 26))

  function RowAt(k: nat): (r: Eight<Entry>)
    requires k < 32
  {
    match k
    case 0 => ROW_0
    case 1 => ROW_1
    case 2 => ROW_2
    case 3 => ROW_3
    case 4 => ROW_4
    case 5 => ROW_5
    case 6 => ROW_6
    case 7 => ROW_7
    case 8 => ROW_8
    case 9 => ROW_9
    case 10 => ROW_10
    case 11 => ROW_11
    case 12 => ROW_12
    case 13 => ROW_13
    case 14 => ROW_14
    case 15 => ROW_15
    case 16 => ROW_16
    case 17 => ROW_17
    case 18 => ROW_18
    case 19 => ROW_19
    case 20 => ROW_20
    case 21 => ROW_21
    case 22 => ROW_22
    case 23 => ROW_23
    case 24 => ROW_24
    case 25 => ROW_25
    case 26 => ROW_26
    case 27 => ROW_27
    case 28 => ROW_28
    case 29 => ROW_29
    case 30 => ROW_30
    case _ => ROW_31
  }

  function EntryAt(s: byte): (x: Entry) {
    Pick(RowAt(s / 8), s % 8)
  }

  // The symbols in the order of their codes.

  const ORDER_0: Eight<byte> := Eight(48, 49, 50, 97, 99, 101, 105, 111)
  const ORDER_1: Eight<byte> := Eight(115, 116, 32, 37, 45, 46, 47, 51)
  const ORDER_2: Eight<byte> := Eight(52, 53, 54, 55, 56, 57, 61, 65)
  const ORDER_3: Eight<byte> := Eight(95, 98, 100, 102, 103, 104, 108, 109)
  const ORDER_4: Eight<byte> := Eight(110, 112, 114, 117, 58, 66, 67, 68)
  const ORDER_5: Eight<byte> := Eight(69, 70, 71, 72, 73, 74, 75, 76)
  const ORDER_6: Eight<byte> := Eight(77, 78, 79, 80, 81, 82, 83, 84)
  const ORDER_7: Eight<byte> := Eight(85, 86, 87, 89, 106, 107, 113, 118)
  const ORDER_8: Eight<byte> := Eight(119, 120, 121, 122, 38, 42, 44, 59)
  const ORDER_9: Eight<byte> := Eight(88, 90, 33, 34, 40, 41, 63, 39)
  const ORDER_10: Eight<byte> := Eight(43, 124, 35, 62, 0, 36, 64, 91)
  const ORDER_11: Eight<byte> := Eight(93, 126, 94, 125, 60, 96, 123, 92)
  const ORDER_12: Eight<byte> := Eight(195, 208, 128, 130, 131, 162, 184, 194)
  const ORDER_13: Eight<byte> := Eight(224, 226, 153, 161, 167, 172, 176, 177)
  const ORDER_14: Eight<byte> := Eight(179, 209, 216, 217, 227, 229, 230, 129)
  const ORDER_15: Eight<byte> := Eight(132, 133, 134, 136, 146, 154, 156, 160)
  const ORDER_16: Eight<byte> := Eight(163, 164, 169, 170, 173, 178, 181, 185)
  const ORDER_17: Eight<byte> := Eight(186, 187, 189, 190, 196, 198, 228, 232)
  const ORDER_18: Eight<byte> := Eight(233, 1, 135, 137, 138, 139, 140, 141)
  const ORDER_19: Eight<byte> := Eight(143, 147, 149, 150, 151, 152, 155, 157)
  const ORDER_20: Eight<byte> := Eight(158, 165, 166, 168, 174, 175, 180, 182)
  const ORDER_21: Eight<byte> := Eight(183, 188, 191, 197, 231, 239, 9, 142)
  const ORDER_22: Eight<byte> := Eight(144, 145, 148, 159, 171, 206, 215, 225)
  const ORDER_23: Eight<byte> := Eight(236, 237, 199, 207, 234, 235, 192, 193)
  const ORDER_24: Eight<byte> := Eight(200, 201, 202, 205, 210, 213, 218, 219)
  const ORDER_25: Eight<byte> := Eight(238, 240, 242, 243, 255, 203, 204, 211)
  const ORDER_26: Eight<byte> := Eight(212, 214, 221, 222, 223, 241, 244, 245)
  const ORDER_27: Eight<byte> := Eight(246, 247, 248, 250, 251, 252, 253, 254)
  const ORDER_28: Eight<byte> := Eight(2, 3, 4, 5, 6, 7, 8, 11)
  const ORDER_29: Eight<byte> := Eight(12, 14, 15, 16, 17, 18, 19, 20)
  const ORDER_30: Eight<byte> := Eight(21, 23, 24, 25, 26, 27, 28, 29)
  const ORDER_31: Eight<byte> := Eight(30, 31, 127, 220, 249, 10, 13, 22)

  function OrderAt(k: nat): (r: Eight<byte>)
    requires k < 32
  {
    match k
    case 0 => ORDER_0
    case 1 => ORDER_1
    case 2 => ORDER_2
    case 3 => ORDER_3
    case 4 => ORDER_4
    case 5 => ORDER_5
    case 6 => ORDER_6
    case 7 => ORDER_7
    case 8 => ORDER_8
    case 9 => ORDER_9
    case 10 => ORDER_10
    case 11 => ORDER_11
    case 12 => ORDER_12
    case 13 => ORDER_13
    case 14 => ORDER_14
    case 15 => ORDER_15
    case 16 => ORDER_16
    case 17 => ORDER_17
    case 18 => ORDER_18
    case 19 => ORDER_19
    case 20 => ORDER_20
    case 21 => ORDER_21
    case 22 => ORDER_22
    case 23 => ORDER_23
    case 24 => ORDER_24
    case 25 => ORDER_25
    case 26 => ORDER_26
    case 27 => ORDER_27
    case 28 => ORDER_28
    case 29 => ORDER_29
    case 30 => ORDER_30
    case _ => ORDER_31
  }

  /** y's code comes right after x's, and both have lengths in range. */
  predicate After(x: Entry, y: Entry) {
    1 <= x.len <= y.len <= 30 && y.code == Shl(x.code + 1, y.len - x.len)
  }

  predicate InOrder(o: Eight<byte>) {
    && After(EntryAt(o.a), EntryAt(o.b)) && After(EntryAt(o.b), EntryAt(o.c)) && After(EntryAt(o.c), EntryAt(o.d))
    && After(EntryAt(o.d), EntryAt(o.e)) && After(EntryAt(o.e), EntryAt(o.f)) && After(EntryAt(o.f), EntryAt(o.g))
    && After(EntryAt(o.g), EntryAt(o.h))
  }

  lemma {:induction false} EntryIs(k: nat, i: nat)
    requires k < 32 && i < 8
    ensures EntryAt(8 * k + i) == Pick(RowAt(k), i)
  {
  }

  lemma {:induction false} Order0()
    ensures InOrder(ORDER_0) && After(EntryAt(ORDER_0.h), EntryAt(ORDER_1.a))
  {
    hide EntryAt;
    EntryIs(6, 0); EntryIs(6, 1); EntryIs(6, 2); EntryIs(12, 1); EntryIs(12, 3);
    EntryIs(12, 5); EntryIs(13, 1); EntryIs(13, 7); EntryIs(14, 3);
  }

  lemma {:induction false} Order1()
    ensures InOrder(ORDER_1) && After(EntryAt(ORDER_1.h), EntryAt(ORDER_2.a))
  {
    hide EntryAt;
    EntryIs(14, 3); EntryIs(14, 4); EntryIs(4, 0); EntryIs(4, 5); EntryIs(5, 5);
    EntryIs(5, 6); EntryIs(5, 7); EntryIs(6, 3); EntryIs(6, 4);
  }

  lemma {:induction false} Order2()
    ensures InOrder(ORDER_2) && After(EntryAt(ORDER_2.h), EntryAt(ORDER_3.a))
  {
    hide EntryAt;
    EntryIs(6, 4); EntryIs(6, 5); EntryIs(6, 6); EntryIs(6, 7); EntryIs(7, 0);
    EntryIs(7, 1); EntryIs(7, 5); EntryIs(8, 1); EntryIs(11, 7);
  }

  lemma {:induction false} Order3()
    ensures InOrder(ORDER_3) && After(EntryAt(ORDER_3.h), EntryAt(ORDER_4.a))
  {
    hide EntryAt;
    EntryIs(11, 7); EntryIs(12, 2); EntryIs(12, 4); EntryIs(12, 6); EntryIs(12, 7);
    EntryIs(13, 0); EntryIs(13, 4); EntryIs(13, 5); EntryIs(13, 6);
  }

  lemma {:induction false} Order4()
    ensures InOrder(ORDER_4) && After(EntryAt(ORDER_4.h), EntryAt(ORDER_5.a))
  {
    hide EntryAt;
    EntryIs(13, 6); EntryIs(14, 0); EntryIs(14, 2); EntryIs(14, 5); EntryIs(7, 2);
    EntryIs(8, 2); EntryIs(8, 3); EntryIs(8, 4); EntryIs(8, 5);
  }

  lemma {:induction false} Order5()
    ensures InOrder(ORDER_5) && After(EntryAt(ORDER_5.h), EntryAt(ORDER_6.a))
  {
    hide EntryAt;
    EntryIs(8, 5); EntryIs(8, 6); EntryIs(8, 7); EntryIs(9, 0); EntryIs(9, 1);
    EntryIs(9, 2); EntryIs(9, 3); EntryIs(9, 4); EntryIs(9, 5);
  }

  lemma {:induction false} Order6()
    ensures InOrder(ORDER_6) && After(EntryAt(ORDER_6.h), EntryAt(ORDER_7.a))
  {
    hide EntryAt;
    EntryIs(9, 5); EntryIs(9, 6); EntryIs(9, 7); EntryIs(10, 0); EntryIs(10, 1);
    EntryIs(10, 2); EntryIs(10, 3); EntryIs(10, 4); EntryIs(10, 5);
  }

  lemma {:induction false} Order7()
    ensures InOrder(ORDER_7) && After(EntryAt(ORDER_7.h), EntryAt(ORDER_8.a))
  {
    hide EntryAt;
    EntryIs(10, 5); EntryIs(10, 6); EntryIs(10, 7); EntryIs(11, 1); EntryIs(13, 2);
    EntryIs(13, 3); EntryIs(14, 1); EntryIs(14, 6); EntryIs(14, 7);
  }

  lemma {:induction false} Order8()
    ensures InOrder(ORDER_8) && After(EntryAt(ORDER_8.h), EntryAt(ORDER_9.a))
  {
    hide EntryAt;
    EntryIs(14, 7); EntryIs(15, 0); EntryIs(15, 1); EntryIs(15, 2); EntryIs(4, 6);
    EntryIs(5, 2); EntryIs(5, 4); EntryIs(7, 3); EntryIs(11, 0);
  }

  lemma {:induction false} Order9()
    ensures InOrder(ORDER_9) && After(EntryAt(ORDER_9.h), EntryAt(ORDER_10.a))
  {
    hide EntryAt;
    EntryIs(11, 0); EntryIs(11, 2); EntryIs(4, 1); EntryIs(4, 2); EntryIs(5, 0);
    EntryIs(5, 1); EntryIs(7, 7); EntryIs(4, 7); EntryIs(5, 3);
  }

  lemma {:induction false} Order10()
    ensures InOrder(ORDER_10) && After(EntryAt(ORDER_10.h), EntryAt(ORDER_11.a))
  {
    hide EntryAt;
    EntryIs(5, 3); EntryIs(15, 4); EntryIs(4, 3); EntryIs(7, 6); EntryIs(0, 0);
    EntryIs(4, 4); EntryIs(8, 0); EntryIs(11, 3); EntryIs(11, 5);
  }

  lemma {:induction false} Order11()
    ensures InOrder(ORDER_11) && After(EntryAt(ORDER_11.h), EntryAt(ORDER_12.a))
  {
    hide EntryAt;
    EntryIs(11, 5); EntryIs(15, 6); EntryIs(11, 6); EntryIs(15, 5); EntryIs(7, 4);
    EntryIs(12, 0); EntryIs(15, 3); EntryIs(11, 4); EntryIs(24, 3);
  }

  lemma {:induction false} Order12()
    ensures InOrder(ORDER_12) && After(EntryAt(ORDER_12.h), EntryAt(ORDER_13.a))
  {
    hide EntryAt;
    EntryIs(24, 3); EntryIs(26, 0); EntryIs(16, 0); EntryIs(16, 2); EntryIs(16, 3);
    EntryIs(20, 2); EntryIs(23, 0); EntryIs(24, 2); EntryIs(28, 0);
  }

  lemma {:induction false} Order13()
    ensures InOrder(ORDER_13) && After(EntryAt(ORDER_13.h), EntryAt(ORDER_14.a))
  {
    hide EntryAt;
    EntryIs(28, 0); EntryIs(28, 2); EntryIs(19, 1); EntryIs(20, 1); EntryIs(20, 7);
    EntryIs(21, 4); EntryIs(22, 0); EntryIs(22, 1); EntryIs(22, 3);
  }

  lemma {:induction false} Order14()
    ensures InOrder(ORDER_14) && After(EntryAt(ORDER_14.h), EntryAt(ORDER_15.a))
  {
    hide EntryAt;
    EntryIs(22, 3); EntryIs(26, 1); EntryIs(27, 0); EntryIs(27, 1); EntryIs(28, 3);
    EntryIs(28, 5); EntryIs(28, 6); EntryIs(16, 1); EntryIs(16, 4);
  }

  lemma {:induction false} Order15()
    ensures InOrder(ORDER_15) && After(EntryAt(ORDER_15.h), EntryAt(ORDER_16.a))
  {
    hide EntryAt;
    EntryIs(16, 4); EntryIs(16, 5); EntryIs(16, 6); EntryIs(17, 0); EntryIs(18, 2);
    EntryIs(19, 2); EntryIs(19, 4); EntryIs(20, 0); EntryIs(20, 3);
  }

  lemma {:induction false} Order16()
    ensures InOrder(ORDER_16) && After(EntryAt(ORDER_16.h), EntryAt(ORDER_17.a))
  {
    hide EntryAt;
    EntryIs(20, 3); EntryIs(20, 4); EntryIs(21, 1); EntryIs(21, 2); EntryIs(21, 5);
    EntryIs(22, 2); EntryIs(22, 5); EntryIs(23, 1); EntryIs(23, 2);
  }

  lemma {:induction false} Order17()
    ensures InOrder(ORDER_17) && After(EntryAt(ORDER_17.h), EntryAt(ORDER_18.a))
  {
    hide EntryAt;
    EntryIs(23, 2); EntryIs(23, 3); EntryIs(23, 5); EntryIs(23, 6); EntryIs(24, 4);
    EntryIs(24, 6); EntryIs(28, 4); EntryIs(29, 0); EntryIs(29, 1);
  }

  lemma {:induction false} Order18()
    ensures InOrder(ORDER_18) && After(EntryAt(ORDER_18.h), EntryAt(ORDER_19.a))
  {
    hide EntryAt;
    EntryIs(29, 1); EntryIs(0, 1); EntryIs(16, 7); EntryIs(17, 1); EntryIs(17, 2);
    EntryIs(17, 3); EntryIs(17, 4); EntryIs(17, 5); EntryIs(17, 7);
  }

  lemma {:induction false} Order19()
    ensures InOrder(ORDER_19) && After(EntryAt(ORDER_19.h), EntryAt(ORDER_20.a))
  {
    hide EntryAt;
    EntryIs(17, 7); EntryIs(18, 3); EntryIs(18, 5); EntryIs(18, 6); EntryIs(18, 7);
    EntryIs(19, 0); EntryIs(19, 3); EntryIs(19, 5); EntryIs(19, 6);
  }

  lemma {:induction false} Order20()
    ensures InOrder(ORDER_20) && After(EntryAt(ORDER_20.h), EntryAt(ORDER_21.a))
  {
    hide EntryAt;
    EntryIs(19, 6); EntryIs(20, 5); EntryIs(20, 6); EntryIs(21, 0); EntryIs(21, 6);
    EntryIs(21, 7); EntryIs(22, 4); EntryIs(22, 6); EntryIs(22, 7);
  }

  lemma {:induction false} Order21()
    ensures InOrder(ORDER_21) && After(EntryAt(ORDER_21.h), EntryAt(ORDER_22.a))
  {
    hide EntryAt;
    EntryIs(22, 7); EntryIs(23, 4); EntryIs(23, 7); EntryIs(24, 5); EntryIs(28, 7);
    EntryIs(29, 7); EntryIs(1, 1); EntryIs(17, 6); EntryIs(18, 0);
  }

  lemma {:induction false} Order22()
    ensures InOrder(ORDER_22) && After(EntryAt(ORDER_22.h), EntryAt(ORDER_23.a))
  {
    hide EntryAt;
    EntryIs(18, 0); EntryIs(18, 1); EntryIs(18, 4); EntryIs(19, 7); EntryIs(21, 3);
    EntryIs(25, 6); EntryIs(26, 7); EntryIs(28, 1); EntryIs(29, 4);
  }

  lemma {:induction false} Order23()
    ensures InOrder(ORDER_23) && After(EntryAt(ORDER_23.h), EntryAt(ORDER_24.a))
  {
    hide EntryAt;
    EntryIs(29, 4); EntryIs(29, 5); EntryIs(24, 7); EntryIs(25, 7); EntryIs(29, 2);
    EntryIs(29, 3); EntryIs(24, 0); EntryIs(24, 1); EntryIs(25, 0);
  }

  lemma {:induction false} Order24()
    ensures InOrder(ORDER_24) && After(EntryAt(ORDER_24.h), EntryAt(ORDER_25.a))
  {
    hide EntryAt;
    EntryIs(25, 0); EntryIs(25, 1); EntryIs(25, 2); EntryIs(25, 5); EntryIs(26, 2);
    EntryIs(26, 5); EntryIs(27, 2); EntryIs(27, 3); EntryIs(29, 6);
  }

  lemma {:induction false} Order25()
    ensures InOrder(ORDER_25) && After(EntryAt(ORDER_25.h), EntryAt(ORDER_26.a))
  {
    hide EntryAt;
    EntryIs(29, 6); EntryIs(30, 0); EntryIs(30, 2); EntryIs(30, 3); EntryIs(31, 7);
    EntryIs(25, 3); EntryIs(25, 4); EntryIs(26, 3); EntryIs(26, 4);
  }

  lemma {:induction false} Order26()
    ensures InOrder(ORDER_26) && After(EntryAt(ORDER_26.h), EntryAt(ORDER_27.a))
  {
    hide EntryAt;
    EntryIs(26, 4); EntryIs(26, 6); EntryIs(27, 5); EntryIs(27, 6); EntryIs(27, 7);
    EntryIs(30, 1); EntryIs(30, 4); EntryIs(30, 5); EntryIs(30, 6);
  }

  lemma {:induction false} Order27()
    ensures InOrder(ORDER_27) && After(EntryAt(ORDER_27.h), EntryAt(ORDER_28.a))
  {
    hide EntryAt;
    EntryIs(30, 6); EntryIs(30, 7); EntryIs(31, 0); EntryIs(31, 2); EntryIs(31, 3);
    EntryIs(31, 4); EntryIs(31, 5); EntryIs(31, 6); EntryIs(0, 2);
  }

  lemma {:induction false} Order28()
    ensures InOrder(ORDER_28) && After(EntryAt(ORDER_28.h), EntryAt(ORDER_29.a))
  {
    hide EntryAt;
    EntryIs(0, 2); EntryIs(0, 3); EntryIs(0, 4); EntryIs(0, 5); EntryIs(0, 6);
    EntryIs(0, 7); EntryIs(1, 0); EntryIs(1, 3); EntryIs(1, 4);
  }

  lemma {:induction false} Order29()
    ensures InOrder(ORDER_29) && After(EntryAt(ORDER_29.h), EntryAt(ORDER_30.a))
  {
    hide EntryAt;
    EntryIs(1, 4); EntryIs(1, 6); EntryIs(1, 7); EntryIs(2, 0); EntryIs(2, 1);
    EntryIs(2, 2); EntryIs(2, 3); EntryIs(2, 4); EntryIs(2, 5);
  }

  lemma {:induction false} Order30()
    ensures InOrder(ORDER_30) && After(EntryAt(ORDER_30.h), EntryAt(ORDER_31.a))
  {
    hide EntryAt;
    EntryIs(2, 5); EntryIs(2, 7); EntryIs(3, 0); EntryIs(3, 1); EntryIs(3, 2);
    EntryIs(3, 3); EntryIs(3, 4); EntryIs(3, 5); EntryIs(3, 6);
  }

  lemma {:induction false} Order31()
    ensures InOrder(ORDER_31)
  {
    hide EntryAt;
    EntryIs(3, 6); EntryIs(3, 7); EntryIs(15, 7); EntryIs(27, 4); EntryIs(31, 1);
    EntryIs(1, 2); EntryIs(1, 5); EntryIs(2, 6);
  }

  lemma {:induction false} OrderedAt(k: nat)
    requires k < 32
    ensures InOrder(OrderAt(k))
    ensures k < 31 ==> After(EntryAt(OrderAt(k).h), EntryAt(OrderAt(k + 1).a))
  {
    hide InOrder, After, EntryAt;
    match k
    case 0 => Order0();
    case 1 => Order1();
    case 2 => Order2();
    case 3 => Order3();
    case 4 => Order4();
    case 5 => Order5();
    case 6 => Order6();
    case 7 => Order7();
    case 8 => Order8();
    case 9 => Order9();
    case 10 => Order10();
    case 11 => Order11();
    case 12 => Order12();
    case 13 => Order13();
    case 14 => Order14();
    case 15 => Order15();
    case 16 => Order16();
    case 17 => Order17();
    case 18 => Order18();
    case 19 => Order19();
    case 20 => Order20();
    case 21 => Order21();
    case 22 => Order22();
    case 23 => Order23();
    case 24 => Order24();
    case 25 => Order25();
    case 26 => Order26();
    case 27 => Order27();
    case 28 => Order28();
    case 29 => Order29();
    case 30 => Order30();
    case _ => Order31();
  }

  //
  // The table
  //

  function HpackTable(): (t: Table) {
    Table(seq(256, s requires 0 <= s < 256 => EntryAt(s).code), seq(256, s requires 0 <= s < 256 => EntryAt(s).len))
  }

  function HpackOrder(): (o: seq<byte>) {
    seq(256, i requires 0 <= i < 256 => Pick(OrderAt(i / 8), i % 8))
  }

  predicate LengthsOk(r: Eight<Entry>) {
    && 1 <= r.a.len <= 30 && 1 <= r.b.len <= 30 && 1 <= r.c.len <= 30 && 1 <= r.d.len <= 30
    && 1 <= r.e.len <= 30 && 1 <= r.f.len <= 30 && 1 <= r.g.len <= 30 && 1 <= r.h.len <= 30
  }

  lemma {:induction false} RowLengths(k: nat)
    requires k < 32
    ensures LengthsOk(RowAt(k))
  {
  }

  lemma {:induction false} Neighbours(i: nat)
    requires i < 255
    ensures After(EntryAt(HpackOrder()[i]), EntryAt(HpackOrder()[i + 1]))
  {
    hide After, EntryAt, OrderAt;
    var k := i / 8;
    OrderedAt(k);
    if i % 8 == 7 {
      assert (i + 1) / 8 == k + 1 && (i + 1) % 8 == 0;
    } else {
      assert (i + 1) / 8 == k && (i + 1) % 8 == i % 8 + 1;
    }
  }

  /** The order of the codes leaves no gap. */
  lemma {:induction false} HpackIsChained()
    ensures Chained(HpackTable(), HpackOrder())
  {
    hide EntryAt, OrderAt;
    var t, o := HpackTable(), HpackOrder();
    forall s: byte
      ensures 1 <= t.len[s] <= 30
    {
      EntryLength(s);
    }
    forall i | 0 <= i < 255
      ensures Follows(t, o[i], o[i + 1])
    {
      Neighbours(i);
    }
    Ends();
  }

  lemma {:induction false} EntryLength(s: byte)
    ensures 1 <= EntryAt(s).len <= 30
  {
    hide RowAt;
    RowLengths(s / 8);
  }

  lemma {:induction false} Ends()
    ensures EntryAt(HpackOrder()[0]).code == 0
    ensures EntryAt(HpackOrder()[255]).len == 30 && EntryAt(HpackOrder()[255]).code + 1 == Pow2(30) - 1
  {
    hide Shl;
    Pow2Words();
    Half();
    EntryIs(6, 0);
    EntryIs(2, 6);
  }

  lemma {:induction false} Half()
    ensures Pow2(31) == 2 * Pow2(30)
  {
  }

  /** So the table of HPACK supports coding and decoding. */
  lemma {:induction false} HpackTableIsWellFormed()
    ensures WellFormed(HpackTable())
  {
    hide Chained;
    HpackIsChained();
    ChainedIsWellFormed(HpackTable(), HpackOrder());
  }
}
