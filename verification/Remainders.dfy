/**
 What is left in the register when a single octet, or a single bit, is divided with octets of zero behind
 it.  Division goes together with XOR and with shifting, so it is enough to follow bit 0 through the 520
 octets of the longest frame.  The register after every fifth octet is written down, and the steps between
 are computed by shifts written as expressions, which a solver folds on constants.
 */
module Remainders {
  import opened Crc

  /** The register `c` after `n` zero octets. */
  function Steps(c: bv32, n: nat): bv32
    decreases n
  {
    if n == 0 then c else Steps(Shift8(c), n - 1)
  }

  function OneOctet(before: nat, x: bv8, after: nat): (d: seq<bv8>)
    ensures |d| == before + 1 + after
  {
    seq(before, _ => 0 as bv8) + [x] + seq(after, _ => 0 as bv8)
  }

  lemma {:induction false} DivideAppend(c: bv32, d: seq<bv8>, e: seq<bv8>)
    ensures Divide(c, d + e) == Divide(Divide(c, d), e)
    decreases |d|
  {
    hide Feed;
    if d == [] {
      assert d + e == e;
    } else {
      assert (d + e)[1..] == d[1..] + e;
      DivideAppend(Feed(d[0], c), d[1..], e);
    }
  }

  lemma FeedZero(c: bv32)
    ensures Feed(0, c) == Shift8(c)
  {
    hide Shift8;
    assert c ^ (0 as bv8) as bv32 == c;
  }

  lemma {:induction false} ZerosDivide(c: bv32, d: seq<bv8>)
    requires forall i :: 0 <= i < |d| ==> d[i] == 0
    ensures Divide(c, d) == Steps(c, |d|)
    decreases |d|
  {
    hide Feed, Shift8;
    if d != [] {
      FeedZero(c);
      ZerosDivide(Shift8(c), d[1..]);
    }
  }

  lemma ZeroStays()
    ensures Shift8(0) == 0
  {
  }

  lemma {:induction false} ZeroStaysZero(n: nat)
    ensures Steps(0, n) == 0
  {
    hide Shift8;
    ZeroStays();
    if n > 0 { ZeroStaysZero(n - 1); }
  }

  lemma OneOctetDivides(before: nat, x: bv8, after: nat)
    ensures Divide(0, OneOctet(before, x, after)) == Steps(x as bv32, after + 1)
  {
    hide Shift8, Feed;
    var d, e: seq<bv8> := seq(before, _ => 0 as bv8), [x] + seq(after, _ => 0 as bv8);
    assert OneOctet(before, x, after) == d + e;
    DivideAppend(0, d, e);
    ZerosDivide(0, d);
    ZeroStaysZero(before);
    assert e[1..] == seq(after, _ => 0 as bv8);
    FirstOctet(x);
    ZerosDivide(Shift8(x as bv32), e[1..]);
  }

  lemma FirstOctet(x: bv8)
    ensures Feed(x, 0) == Shift8(x as bv32)
  {
    hide Shift8;
    assert (0 as bv32) ^ x as bv32 == x as bv32;
  }

  // ---------------------------------------------------------------------------------------------
  // A single bit
  // ---------------------------------------------------------------------------------------------

  function Shifts(c: bv32, k: nat): bv32
    decreases k
  {
    if k == 0 then c else Shift(Shifts(c, k - 1))
  }

  lemma ShiftsEight(c: bv32)
    ensures Shifts(c, 8) == Shift8(c)
  {
    hide Shift;
  }

  lemma ShiftLast(c: bv32)
    ensures Shift8(Shift(c)) == Shift(Shift8(c))
  {
    hide Shift;
  }

  lemma {:induction false} StepsShift(c: bv32, n: nat)
    ensures Steps(Shift(c), n) == Shift(Steps(c, n))
    decreases n
  {
    hide Shift, Shift8;
    if n > 0 {
      ShiftLast(c);
      StepsShift(Shift8(c), n - 1);
    }
  }

  lemma {:induction false} StepsShifts(c: bv32, k: nat, n: nat)
    ensures Steps(Shifts(c, k), n) == Shifts(Steps(c, n), k)
  {
    hide Shift, Shift8;
    if k > 0 {
      StepsShift(Shifts(c, k - 1), n);
      StepsShifts(c, k - 1, n);
    }
  }

  /** Bit `i` comes out of the register in `i` shifts, so eight leave what `8 - i` make of bit 0. */
  lemma BitShifts(i: nat)
    requires i < 8
    ensures Shift8(Bit(i) as bv32) == Shifts(1, 8 - i)
  {
    ShiftsEight(Bit(i) as bv32);
    ShiftsAdd(Bit(i) as bv32, i, 8 - i);
    BitIsShiftedOut(i);
  }

  lemma BitIsShiftedOut(i: nat)
    requires i < 8
    ensures Shifts(Bit(i) as bv32, i) == 1
  {
    match i
    case 0 => assert Shifts(1, 0) == 1;
    case 1 => assert Shifts(2, 1) == 1;
    case 2 => assert Shifts(4, 2) == 1;
    case 3 => assert Shifts(8, 3) == 1;
    case 4 => assert Shifts(16, 4) == 1;
    case 5 => assert Shifts(32, 5) == 1;
    case 6 => assert Shifts(64, 6) == 1;
    case 7 => assert Shifts(128, 7) == 1;
  }

  function Bit(i: nat): bv8
    requires i < 8
  {
    match i case 0 => 1 case 1 => 2 case 2 => 4 case 3 => 8 case 4 => 16 case 5 => 32 case 6 => 64 case 7 => 128
  }

  lemma BitSteps(i: nat, n: nat)
    requires i < 8
    ensures Steps(Bit(i) as bv32, n + 1) == Shifts(Steps(1, n), 8 - i)
  {
    hide Shift, Shift8, Bit, Shifts;
    BitShifts(i);
    StepsShifts(1, 8 - i, n);
  }

  /** If the low half is empty, what is shifted out is nothing, and the low bits stay empty. */
  lemma LowStaysEmpty(d: bv32, k: nat)
    requires k < 8 && d & 0xffff == 0
    ensures Shifts(d, k) & 0x1ff == 0
  {
    hide Shift;
    var d1 := Shift(d);
    var d2 := Shift(d1);
    var d3 := Shift(d2);
    var d4 := Shift(d3);
    var d5 := Shift(d4);
    var d6 := Shift(d5);
    NoneShiftedOut(d, 0xffff, 0x7fff);
    NoneShiftedOut(d1, 0x7fff, 0x3fff);
    NoneShiftedOut(d2, 0x3fff, 0x1fff);
    NoneShiftedOut(d3, 0x1fff, 0xfff);
    NoneShiftedOut(d4, 0xfff, 0x7ff);
    NoneShiftedOut(d5, 0x7ff, 0x3ff);
    NoneShiftedOut(d6, 0x3ff, 0x1ff);
    assert Shifts(d, 0) == d && Shifts(d, 1) == d1 && Shifts(d, 2) == d2 && Shifts(d, 3) == d3;
    assert Shifts(d, 4) == d4 && Shifts(d, 5) == d5 && Shifts(d, 6) == d6;
  }

  lemma NoneShiftedOut(d: bv32, mask: bv32, mask': bv32)
    requires d & mask == 0 && mask & 1 == 1 && mask' == mask >> 1 && mask & 0x1ff == 0x1ff
    ensures Shift(d) & mask' == 0 && d & 0x1ff == 0
  {
  }

  lemma {:induction false} ShiftsAdd(c: bv32, j: nat, k: nat)
    ensures Shifts(c, j + k) == Shifts(Shifts(c, j), k)
    decreases k
  {
    hide Shift;
    if k > 0 { ShiftsAdd(c, j, k - 1); }
  }

  /** One of the low nine bits after eight shifts means that after none of them the low half was empty. */
  lemma LowWasNotEmpty(c: bv32, j: nat)
    requires 1 <= j <= 8 && Shift8(c) & 0x1ff != 0
    ensures Shifts(c, j) & 0xffff != 0
  {
    hide Shift, Shift8, Shifts;
    ShiftsEight(c);
    ShiftsAdd(c, j, 8 - j);
    if Shifts(c, j) & 0xffff == 0 { LowStaysEmpty(Shifts(c, j), 8 - j); }
  }

  // ---------------------------------------------------------------------------------------------
  // Bit 0, and up to 520 octets behind it
  // ---------------------------------------------------------------------------------------------

  /** A shift as one expression. */
  function One(c: bv32): bv32 { (c >> 1) ^ (if c & 1 == 1 then 0xedb88320 else 0) }

  function Eight(c: bv32): bv32 { One(One(One(One(One(One(One(One(c)))))))) }

  lemma XorNothing(x: bv32)
    ensures x ^ 0 == x
  {
  }

  lemma OneIs(c: bv32)
    ensures One(c) == Shift(c)
  {
    XorNothing(c >> 1);
  }

  lemma EightIsShift8(c: bv32)
    ensures Eight(c) == Shift8(c)
  {
    hide One, Shift;
    forall d: bv32 ensures One(d) == Shift(d) { OneIs(d); }
  }

  /** From `c`, `n` octets lead to `z`, and one of the low nine bits is set after each. */
  predicate Leads(c: bv32, n: nat, z: bv32)
    decreases n
  {
    if n == 0 then c == z else Eight(c) & 0x1ff != 0 && Leads(Eight(c), n - 1, z)
  }

  lemma {:induction false} Join(c: bv32, n: nat, z: bv32, m: nat, w: bv32)
    requires Leads(c, n, z) && Leads(z, m, w)
    ensures Leads(c, n + m, w)
    decreases n
  {
    hide Eight;
    if n > 0 { Join(Eight(c), n - 1, z, m, w); }
  }

  lemma {:induction false} LeadsToSteps(c: bv32, n: nat, z: bv32, m: nat)
    requires Leads(c, n, z) && m <= n
    ensures Leads(c, m, Steps(c, m)) && (m == n ==> Steps(c, m) == z)
    ensures m > 0 ==> Steps(c, m) & 0x1ff != 0
    decreases n
  {
    hide Eight, Shift8;
    if m > 0 {
      EightIsShift8(c);
      LeadsToSteps(Eight(c), n - 1, z, m - 1);
    }
  }

  lemma Piece0()
    ensures Leads(0x00000001, 5, 0x3d6029b0)
    ensures Leads(0x3d6029b0, 5, 0xefc26b3e)
    ensures Leads(0xefc26b3e, 5, 0xb9fbdbe8)
    ensures Leads(0xb9fbdbe8, 5, 0x65673b46)
  {
  }

  lemma Piece1()
    ensures Leads(0x65673b46, 5, 0xa58b900e)
    ensures Leads(0xa58b900e, 5, 0x3c60e308)
    ensures Leads(0x3c60e308, 5, 0xcf9e17c8)
    ensures Leads(0xcf9e17c8, 5, 0xaf449247)
  {
  }

  lemma Piece2()
    ensures Leads(0xaf449247, 5, 0xa396284c)
    ensures Leads(0xa396284c, 5, 0x843119f1)
    ensures Leads(0x843119f1, 5, 0x2203b310)
    ensures Leads(0x2203b310, 5, 0xcad38e8f)
  {
  }

  lemma Piece3()
    ensures Leads(0xcad38e8f, 5, 0x80ea52e6)
    ensures Leads(0x80ea52e6, 5, 0x5966386b)
    ensures Leads(0x5966386b, 5, 0xfc5ec79d)
    ensures Leads(0xfc5ec79d, 5, 0x1c279815)
  {
  }

  lemma Piece4()
    ensures Leads(0x1c279815, 5, 0x0b81dc81)
    ensures Leads(0x0b81dc81, 5, 0xe307377f)
    ensures Leads(0xe307377f, 5, 0x666201ac)
    ensures Leads(0x666201ac, 5, 0x759fc69d)
  {
  }

  lemma Piece5()
    ensures Leads(0x759fc69d, 5, 0xdeb72005)
    ensures Leads(0xdeb72005, 5, 0xb778204a)
    ensures Leads(0xb778204a, 5, 0x4317ee41)
    ensures Leads(0x4317ee41, 5, 0x910eeec1)
  {
  }

  lemma Piece6()
    ensures Leads(0x910eeec1, 5, 0x80116131)
    ensures Leads(0x80116131, 5, 0x39bc505c)
    ensures Leads(0x39bc505c, 5, 0xf42ea7a6)
    ensures Leads(0xf42ea7a6, 5, 0x6dd804d9)
  {
  }

  lemma Piece7()
    ensures Leads(0x6dd804d9, 5, 0x584efb1d)
    ensures Leads(0x584efb1d, 5, 0xc171b503)
    ensures Leads(0xc171b503, 5, 0xeade2010)
    ensures Leads(0xeade2010, 5, 0xe3543be0)
  {
  }

  lemma Piece8()
    ensures Leads(0xe3543be0, 5, 0x11189e3c)
    ensures Leads(0x11189e3c, 5, 0x78a212c8)
    ensures Leads(0x78a212c8, 5, 0x1e6f46fe)
    ensures Leads(0x1e6f46fe, 5, 0xdeb15a1f)
  {
  }

  lemma Piece9()
    ensures Leads(0xdeb15a1f, 5, 0x9d279323)
    ensures Leads(0x9d279323, 5, 0xd079bfac)
    ensures Leads(0xd079bfac, 5, 0x2adeba9b)
    ensures Leads(0x2adeba9b, 5, 0x3c656ced)
  {
  }

  lemma Piece10()
    ensures Leads(0x3c656ced, 5, 0x9c5b3be1)
    ensures Leads(0x9c5b3be1, 5, 0x8f839588)
    ensures Leads(0x8f839588, 5, 0x5460cb98)
    ensures Leads(0x5460cb98, 5, 0xd63a56a6)
  {
  }

  lemma Piece11()
    ensures Leads(0xd63a56a6, 5, 0xef9f3897)
    ensures Leads(0xef9f3897, 5, 0x79103ba0)
    ensures Leads(0x79103ba0, 5, 0xb5d681f9)
    ensures Leads(0xb5d681f9, 5, 0x0077f00d)
  {
  }

  lemma Piece12()
    ensures Leads(0x0077f00d, 5, 0x2f48acc3)
    ensures Leads(0x2f48acc3, 5, 0xc59dd0a3)
    ensures Leads(0xc59dd0a3, 5, 0x52955477)
    ensures Leads(0x52955477, 5, 0x7cc8e1e7)
  {
  }

  lemma Piece13()
    ensures Leads(0x7cc8e1e7, 5, 0xe801cc90)
    ensures Leads(0xe801cc90, 5, 0x7af8657d)
    ensures Leads(0x7af8657d, 5, 0x63bd905b)
    ensures Leads(0x63bd905b, 5, 0x71d54a59)
  {
  }

  lemma Piece14()
    ensures Leads(0x71d54a59, 5, 0x7cccaa8f)
    ensures Leads(0x7cccaa8f, 5, 0x0a5f87fc)
    ensures Leads(0x0a5f87fc, 5, 0x6045b2d9)
    ensures Leads(0x6045b2d9, 5, 0x2032bfb5)
  {
  }

  lemma Piece15()
    ensures Leads(0x2032bfb5, 5, 0x2f5dccf4)
    ensures Leads(0x2f5dccf4, 5, 0xf75722ad)
    ensures Leads(0xf75722ad, 5, 0xb08273dd)
    ensures Leads(0xb08273dd, 5, 0x0e9bd5cc)
  {
  }

  lemma Piece16()
    ensures Leads(0x0e9bd5cc, 5, 0x52aa36ee)
    ensures Leads(0x52aa36ee, 5, 0x1ec639a3)
    ensures Leads(0x1ec639a3, 5, 0xfbc78740)
    ensures Leads(0xfbc78740, 5, 0x4bd56e78)
  {
  }

  lemma Piece17()
    ensures Leads(0x4bd56e78, 5, 0x8a944a2b)
    ensures Leads(0x8a944a2b, 5, 0x79cec6a1)
    ensures Leads(0x79cec6a1, 5, 0x7bad7e09)
    ensures Leads(0x7bad7e09, 5, 0x9b9bdbd0)
  {
  }

  lemma Piece18()
    ensures Leads(0x9b9bdbd0, 5, 0x1b534501)
    ensures Leads(0x1b534501, 5, 0x5666dacc)
    ensures Leads(0x5666dacc, 5, 0xc5b71167)
    ensures Leads(0xc5b71167, 5, 0xb52b5039)
  {
  }

  lemma Piece19()
    ensures Leads(0xb52b5039, 5, 0xca9626a9)
    ensures Leads(0xca9626a9, 5, 0x30e5f683)
    ensures Leads(0x30e5f683, 5, 0x2524a781)
    ensures Leads(0x2524a781, 5, 0x8b8d8645)
  {
  }

  lemma Piece20()
    ensures Leads(0x8b8d8645, 5, 0x69bbf78d)
    ensures Leads(0x69bbf78d, 5, 0x2ff39b22)
    ensures Leads(0x2ff39b22, 5, 0x74deef25)
    ensures Leads(0x74deef25, 5, 0x4b7955d2)
  {
  }

  lemma Piece21()
    ensures Leads(0x4b7955d2, 5, 0x474b16b8)
    ensures Leads(0x474b16b8, 5, 0x9632f075)
    ensures Leads(0x9632f075, 5, 0xb7a0657a)
    ensures Leads(0xb7a0657a, 5, 0xcd669a40)
  {
  }

  lemma Piece22()
    ensures Leads(0xcd669a40, 5, 0xb8004718)
    ensures Leads(0xb8004718, 5, 0x7a4f9877)
    ensures Leads(0x7a4f9877, 5, 0x9d10ae15)
    ensures Leads(0x9d10ae15, 5, 0xdd7d21e3)
  {
  }

  lemma Piece23()
    ensures Leads(0xdd7d21e3, 5, 0x1f453505)
    ensures Leads(0x1f453505, 5, 0xb41ec656)
    ensures Leads(0xb41ec656, 5, 0x72646e77)
    ensures Leads(0x72646e77, 5, 0xc2dcc467)
  {
  }

  lemma Piece24()
    ensures Leads(0xc2dcc467, 5, 0xaf62ab94)
    ensures Leads(0xaf62ab94, 5, 0xdc20a0bc)
    ensures Leads(0xdc20a0bc, 5, 0x8d9c30e3)
    ensures Leads(0x8d9c30e3, 5, 0xe57be23c)
  {
  }

  lemma Piece25()
    ensures Leads(0xe57be23c, 5, 0x630a5c2c)
    ensures Leads(0x630a5c2c, 5, 0xc6adcfad)
    ensures Leads(0xc6adcfad, 5, 0xea991b8c)
    ensures Leads(0xea991b8c, 5, 0xa55d1514)
  {
  }

  lemma JoinFour(a: bv32, b: bv32, c: bv32, d: bv32, e: bv32, n: nat)
    requires Leads(a, n, b) && Leads(b, n, c) && Leads(c, n, d) && Leads(d, n, e)
    ensures Leads(a, 4 * n, e)
  {
    hide Leads;
    Join(a, n, b, n, c);
    Join(a, 2 * n, c, n, d);
    Join(a, 3 * n, d, n, e);
  }

  lemma Part0()
    ensures Leads(0x00000001, 160, 0xe3543be0)
  {
    hide Leads;
    Piece0();
    JoinFour(0x00000001, 0x3d6029b0, 0xefc26b3e, 0xb9fbdbe8, 0x65673b46, 5);
    Piece1();
    JoinFour(0x65673b46, 0xa58b900e, 0x3c60e308, 0xcf9e17c8, 0xaf449247, 5);
    Join(0x00000001, 20, 0x65673b46, 20, 0xaf449247);
    Piece2();
    JoinFour(0xaf449247, 0xa396284c, 0x843119f1, 0x2203b310, 0xcad38e8f, 5);
    Join(0x00000001, 40, 0xaf449247, 20, 0xcad38e8f);
    Piece3();
    JoinFour(0xcad38e8f, 0x80ea52e6, 0x5966386b, 0xfc5ec79d, 0x1c279815, 5);
    Join(0x00000001, 60, 0xcad38e8f, 20, 0x1c279815);
    Piece4();
    JoinFour(0x1c279815, 0x0b81dc81, 0xe307377f, 0x666201ac, 0x759fc69d, 5);
    Join(0x00000001, 80, 0x1c279815, 20, 0x759fc69d);
    Piece5();
    JoinFour(0x759fc69d, 0xdeb72005, 0xb778204a, 0x4317ee41, 0x910eeec1, 5);
    Join(0x00000001, 100, 0x759fc69d, 20, 0x910eeec1);
    Piece6();
    JoinFour(0x910eeec1, 0x80116131, 0x39bc505c, 0xf42ea7a6, 0x6dd804d9, 5);
    Join(0x00000001, 120, 0x910eeec1, 20, 0x6dd804d9);
    Piece7();
    JoinFour(0x6dd804d9, 0x584efb1d, 0xc171b503, 0xeade2010, 0xe3543be0, 5);
    Join(0x00000001, 140, 0x6dd804d9, 20, 0xe3543be0);
  }

  lemma Part1()
    ensures Leads(0xe3543be0, 160, 0x0e9bd5cc)
  {
    hide Leads;
    Piece8();
    JoinFour(0xe3543be0, 0x11189e3c, 0x78a212c8, 0x1e6f46fe, 0xdeb15a1f, 5);
    Piece9();
    JoinFour(0xdeb15a1f, 0x9d279323, 0xd079bfac, 0x2adeba9b, 0x3c656ced, 5);
    Join(0xe3543be0, 20, 0xdeb15a1f, 20, 0x3c656ced);
    Piece10();
    JoinFour(0x3c656ced, 0x9c5b3be1, 0x8f839588, 0x5460cb98, 0xd63a56a6, 5);
    Join(0xe3543be0, 40, 0x3c656ced, 20, 0xd63a56a6);
    Piece11();
    JoinFour(0xd63a56a6, 0xef9f3897, 0x79103ba0, 0xb5d681f9, 0x0077f00d, 5);
    Join(0xe3543be0, 60, 0xd63a56a6, 20, 0x0077f00d);
    Piece12();
    JoinFour(0x0077f00d, 0x2f48acc3, 0xc59dd0a3, 0x52955477, 0x7cc8e1e7, 5);
    Join(0xe3543be0, 80, 0x0077f00d, 20, 0x7cc8e1e7);
    Piece13();
    JoinFour(0x7cc8e1e7, 0xe801cc90, 0x7af8657d, 0x63bd905b, 0x71d54a59, 5);
    Join(0xe3543be0, 100, 0x7cc8e1e7, 20, 0x71d54a59);
    Piece14();
    JoinFour(0x71d54a59, 0x7cccaa8f, 0x0a5f87fc, 0x6045b2d9, 0x2032bfb5, 5);
    Join(0xe3543be0, 120, 0x71d54a59, 20, 0x2032bfb5);
    Piece15();
    JoinFour(0x2032bfb5, 0x2f5dccf4, 0xf75722ad, 0xb08273dd, 0x0e9bd5cc, 5);
    Join(0xe3543be0, 140, 0x2032bfb5, 20, 0x0e9bd5cc);
  }

  lemma Part2()
    ensures Leads(0x0e9bd5cc, 160, 0xc2dcc467)
  {
    hide Leads;
    Piece16();
    JoinFour(0x0e9bd5cc, 0x52aa36ee, 0x1ec639a3, 0xfbc78740, 0x4bd56e78, 5);
    Piece17();
    JoinFour(0x4bd56e78, 0x8a944a2b, 0x79cec6a1, 0x7bad7e09, 0x9b9bdbd0, 5);
    Join(0x0e9bd5cc, 20, 0x4bd56e78, 20, 0x9b9bdbd0);
    Piece18();
    JoinFour(0x9b9bdbd0, 0x1b534501, 0x5666dacc, 0xc5b71167, 0xb52b5039, 5);
    Join(0x0e9bd5cc, 40, 0x9b9bdbd0, 20, 0xb52b5039);
    Piece19();
    JoinFour(0xb52b5039, 0xca9626a9, 0x30e5f683, 0x2524a781, 0x8b8d8645, 5);
    Join(0x0e9bd5cc, 60, 0xb52b5039, 20, 0x8b8d8645);
    Piece20();
    JoinFour(0x8b8d8645, 0x69bbf78d, 0x2ff39b22, 0x74deef25, 0x4b7955d2, 5);
    Join(0x0e9bd5cc, 80, 0x8b8d8645, 20, 0x4b7955d2);
    Piece21();
    JoinFour(0x4b7955d2, 0x474b16b8, 0x9632f075, 0xb7a0657a, 0xcd669a40, 5);
    Join(0x0e9bd5cc, 100, 0x4b7955d2, 20, 0xcd669a40);
    Piece22();
    JoinFour(0xcd669a40, 0xb8004718, 0x7a4f9877, 0x9d10ae15, 0xdd7d21e3, 5);
    Join(0x0e9bd5cc, 120, 0xcd669a40, 20, 0xdd7d21e3);
    Piece23();
    JoinFour(0xdd7d21e3, 0x1f453505, 0xb41ec656, 0x72646e77, 0xc2dcc467, 5);
    Join(0x0e9bd5cc, 140, 0xdd7d21e3, 20, 0xc2dcc467);
  }

  lemma Chain480()
    ensures Leads(1, 480, 0xc2dcc467)
  {
    hide Leads;
    Part0();
    Part1();
    Part2();
    Join(1, 160, 0xe3543be0, 160, 0x0e9bd5cc);
    Join(1, 320, 0x0e9bd5cc, 160, 0xc2dcc467);
  }

  /** 520 octets is the longest frame. */
  lemma Chain()
    ensures Leads(1, 520, 0xa55d1514)
  {
    hide Leads;
    Chain480();
    Piece24();
    Piece25();
    JoinFour(0xc2dcc467, 0xaf62ab94, 0xdc20a0bc, 0x8d9c30e3, 0xe57be23c, 5);
    JoinFour(0xe57be23c, 0x630a5c2c, 0xc6adcfad, 0xea991b8c, 0xa55d1514, 5);
    Join(1, 480, 0xc2dcc467, 20, 0xe57be23c);
    Join(1, 500, 0xe57be23c, 20, 0xa55d1514);
  }

  /** A single bit is never lost: no frame is so long that the low half would be empty. */
  lemma BitIsSeen(i: nat, n: nat)
    requires i < 8 && 1 <= n <= 520
    ensures Steps(Bit(i) as bv32, n) & 0xffff != 0
  {
    hide Leads, Shift8, Shifts, Bit;
    Chain();
    LeadsToSteps(1, 520, 0xa55d1514, n);
    StepsLast(1, n - 1);
    BitSteps(i, n - 1);
    LowWasNotEmpty(Steps(1, n - 1), 8 - i);
  }

  lemma {:induction false} StepsLast(c: bv32, n: nat)
    ensures Steps(c, n + 1) == Shift8(Steps(c, n))
    decreases n
  {
    hide Shift8;
    if n > 0 { StepsLast(Shift8(c), n - 1); }
  }

  // ---------------------------------------------------------------------------------------------
  // The octet 0xf1, and 499 octets behind it
  // ---------------------------------------------------------------------------------------------

  lemma {:induction false} StepsSum(z: bv32, x: bv32, y: bv32, n: nat)
    requires Sum(z, x, y)
    ensures Sum(Steps(z, n), Steps(x, n), Steps(y, n))
    decreases n
  {
    hide Shift8, Sum;
    if n > 0 {
      Shift8Sum(z, x, y);
      StepsSum(Shift8(z), Shift8(x), Shift8(y), n - 1);
    }
  }

  lemma Steps499()
    ensures Steps(1, 499) == 0xae5c31cd
  {
    Piece24();
    FourMore();
    hide Leads;
    Chain480();
    Join(1, 480, 0xc2dcc467, 5, 0xaf62ab94);
    Join(1, 485, 0xaf62ab94, 5, 0xdc20a0bc);
    Join(1, 490, 0xdc20a0bc, 5, 0x8d9c30e3);
    Join(1, 495, 0x8d9c30e3, 4, 0xae5c31cd);
    LeadsToSteps(1, 499, 0xae5c31cd, 499);
  }

  lemma FourMore()
    ensures Leads(0x8d9c30e3, 4, 0xae5c31cd)
  {
  }

  lemma BitAfter499(i: nat, d: bv32)
    requires i < 8 && d == Shifts(0xae5c31cd, 8 - i)
    ensures Steps(Bit(i) as bv32, 500) == d
  {
    hide Shifts, Bit;
    Steps499();
    BitSteps(i, 499);
  }

  /** Here the low half is empty. */
  lemma OctetIsLost()
    ensures Steps(0xf1, 500) & 0xffff == 0
  {
    FiveBits();
    hide Shifts, Sum, Steps;
    BitAfter499(0, Shifts(0xae5c31cd, 8));
    BitAfter499(4, Shifts(0xae5c31cd, 4));
    BitAfter499(5, Shifts(0xae5c31cd, 3));
    BitAfter499(6, Shifts(0xae5c31cd, 2));
    BitAfter499(7, Shifts(0xae5c31cd, 1));
    AreSums();
    StepsSum(0x11, 0x01, 0x10, 500);
    StepsSum(0x31, 0x11, 0x20, 500);
    StepsSum(0x71, 0x31, 0x40, 500);
    StepsSum(0xf1, 0x71, 0x80, 500);
    SumsOf(Steps(0x11, 500), Steps(0x31, 500), Steps(0x71, 500), Steps(0xf1, 500));
  }

  lemma AreSums()
    ensures Sum(0x11, 0x01, 0x10) && Sum(0x31, 0x11, 0x20) && Sum(0x71, 0x31, 0x40) && Sum(0xf1, 0x71, 0x80)
  {
  }

  lemma FiveBits()
    ensures Shifts(0xae5c31cd, 8) == 0xe57be23c && Shifts(0xae5c31cd, 4) == 0x8c3611c8 && Shifts(0xae5c31cd, 3) == 0xc31d25d1
    ensures Shifts(0xae5c31cd, 2) == 0x5d4b4de3 && Shifts(0xae5c31cd, 1) == 0xba969bc6
  {
  }

  lemma SumsOf(a: bv32, b: bv32, c: bv32, d: bv32)
    requires Sum(a, 0xe57be23c, 0x8c3611c8) && Sum(b, a, 0xc31d25d1)
    requires Sum(c, b, 0x5d4b4de3) && Sum(d, c, 0xba969bc6)
    ensures d & 0xffff == 0
  {
  }
}
