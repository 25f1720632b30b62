/** What the checksum notices: which changes of a good frame the parser takes for a good frame. */
module Detection {
  import opened Bytes
  import opened Crc
  import opened Frames
  import opened Remainders

  // ---------------------------------------------------------------------------------------------
  // Any change
  // ---------------------------------------------------------------------------------------------

  /** The half of the register that is sent. */
  function Low(c: bv32): bv16 { (c & 0xffff) as bv16 }

  /** A checksum XOR a difference. */
  function Changed(sum: bv16, low: bv16): bv16 { sum ^ low }

  /** Where two frames differ, but for the checksum field. */
  function Difference(b: bytes, b': bytes): (d: seq<bv8>)
    requires |b| == |b'| >= HEADER
    ensures |d| == |b|
    ensures forall i :: 0 <= i < |b| ==> d[i] == if 4 <= i < 6 then 0 else (b[i] as bv8) ^ (b'[i] as bv8)
  {
    Xor(Octets(Zeroed(b)), Octets(Zeroed(b')))
  }

  lemma ThereAndBack(r: bv16)
    ensures (r as int) as bv16 == r
  {
  }

  lemma SameNumber(r: bv16, s: bv16)
    requires r as int == s as int
    ensures r == s
  {
    ThereAndBack(r);
    ThereAndBack(s);
  }

  lemma XorBack(r: bv16, s: bv16, low: bv16)
    requires r ^ s == low
    ensures s == Changed(r, low)
  {
    assert r ^ (r ^ s) == s;
  }

  /** The checksum of the frame's own bytes. */
  function SumOf(b: bytes): bv16
    requires |b| >= HEADER
  {
    Remainder(Octets(Zeroed(b)))
  }

  lemma PassesIs(b: bytes)
    requires |b| >= HEADER
    ensures Passes(b) <==> SumOf(b) as int == ShortAt(b, 4)
  {
    hide Remainder, Octets, Zeroed, ShortAt;
  }

  /**
   A good frame is changed, but not in its length field.  The parser takes it for a good frame exactly
   if its checksum field now holds the old checksum XOR the low half of what is left when the difference
   is divided; otherwise it finds nothing and flushes its input.
   */
  lemma UnnoticedExactlyIf(f: Frame, b': bytes, more: bytes)
    requires Sealed(f) && |b'| == |Encode(f)| && b'[2..4] == Encode(f)[2..4]
    ensures var b := Encode(f);
      && SumOf(b) as int == f.crc
      && var unnoticed := Changed(SumOf(b), Low(Divide(0, Difference(b, b')))) as int == ShortAt(b', 4);
      Parse(b' + more) == if unnoticed then Prepend(Decode(b'), Parse(more)) else Parsed([], [], true)
  {
    hide Encode, Parse, Passes, Insane, SizeOf, Difference, Divide, Low, SumOf, Changed;
    EncodedFrame(f);
    SameLengthField(Encode(f), b');
    FirstFrame(b', more);
    PassesIs(Encode(f));
    PassesIs(b');
    NewSum(Encode(f), b');
  }

  lemma NewSum(b: bytes, b': bytes)
    requires |b| == |b'| >= HEADER
    ensures SumOf(b') == Changed(SumOf(b), Low(Divide(0, Difference(b, b'))))
  {
    hide Zeroed, Octets, Remainder, Divide, Xor, Changed;
    ChecksumDifference(Octets(Zeroed(b)), Octets(Zeroed(b')));
    XorBack(SumOf(b), SumOf(b'), Low(Divide(0, Difference(b, b'))));
  }

  lemma SameLengthField(b: bytes, b': bytes)
    requires |b| == |b'| >= HEADER && b'[2..4] == b[2..4]
    ensures Insane(b') == Insane(b) && SizeOf(b') == SizeOf(b)
  {
    assert b[2] == b[2..4][0] && b[3] == b[2..4][1] && b'[2] == b'[2..4][0] && b'[3] == b'[2..4][1];
  }

  // ---------------------------------------------------------------------------------------------
  // A change of one byte
  // ---------------------------------------------------------------------------------------------

  lemma Unchanged(sum: bv16, low: bv16)
    ensures Changed(sum, low) == sum <==> low == 0
  {
  }

  lemma OneDifference(b: bytes, j: nat, v: byte)
    requires |b| >= HEADER && j < |b| && !(4 <= j < 6)
    ensures Difference(b, b[j := v]) == OneOctet(j, (b[j] as bv8) ^ (v as bv8), |b| - 1 - j)
    ensures ShortAt(b[j := v], 4) == ShortAt(b, 4)
  {
    hide Zeroed, Octets, Xor;
    var d, e := Difference(b, b[j := v]), OneOctet(j, (b[j] as bv8) ^ (v as bv8), |b| - 1 - j);
    forall i | 0 <= i < |b| ensures d[i] == e[i] {
      if i != j { Cancels(b[i] as bv8); }
    }
  }

  lemma Cancels(o: bv8)
    ensures o ^ o == 0
  {
  }

  lemma NoDifference(b: bytes, j: nat, v: byte)
    requires |b| >= HEADER && 4 <= j < 6 && v != b[j]
    ensures Divide(0, Difference(b, b[j := v])) == 0
    ensures ShortAt(b[j := v], 4) != ShortAt(b, 4)
  {
    hide Zeroed, Octets, Xor, Divide;
    var d := Difference(b, b[j := v]);
    forall i | 0 <= i < |d| ensures d[i] == 0 { Cancels(b[i] as bv8); }
    ZerosDivide(0, d);
    ZeroStaysZero(|d|);
  }

  /** The low half is empty when the octet `x` has been divided with so many octets behind it. */
  predicate Lost(x: bv8, behind: nat) { Low(Steps(x as bv32, behind + 1)) == 0 }

  /**
   One byte of a good frame is changed, not in the length field.  It goes unnoticed exactly if the
   change is lost, which depends on the bits changed and the number of bytes behind them and on nothing
   else; a change of the checksum itself is always noticed.
   */
  lemma ByteUnnoticedExactlyIf(f: Frame, j: nat, v: byte, more: bytes)
    requires Sealed(f) && j < |Encode(f)| && !(2 <= j < 4) && v != Encode(f)[j]
    ensures var b := Encode(f);
      Parse(b[j := v] + more) ==
        if !(4 <= j < 6) && Lost((b[j] as bv8) ^ (v as bv8), |b| - 1 - j) then Prepend(Decode(b[j := v]), Parse(more))
        else Parsed([], [], true)
  {
    hide Encode, Parse, Decode, Difference, Divide, Steps, OneOctet, SumOf, Changed, ShortAt, Low, Lost;
    var b := Encode(f);
    UnnoticedExactlyIf(f, b[j := v], more);
    EncodedFrame(f);
    PassesIs(b);
    if 4 <= j < 6 { FieldChanged(b, j, v); } else { ByteChanged(b, j, v); }
  }

  lemma FieldChanged(b: bytes, j: nat, v: byte)
    requires |b| >= HEADER && 4 <= j < 6 && v != b[j] && SumOf(b) as int == ShortAt(b, 4)
    ensures Changed(SumOf(b), Low(Divide(0, Difference(b, b[j := v])))) as int != ShortAt(b[j := v], 4)
  {
    hide Difference, Divide, SumOf, Changed, ShortAt, Low;
    NoDifference(b, j, v);
    LowIsEmpty(0);
    Unchanged(SumOf(b), 0);
  }

  lemma ByteChanged(b: bytes, j: nat, v: byte)
    requires |b| >= HEADER && j < |b| && !(4 <= j < 6) && SumOf(b) as int == ShortAt(b, 4)
    ensures Changed(SumOf(b), Low(Divide(0, Difference(b, b[j := v])))) as int == ShortAt(b[j := v], 4) <==>
      Lost((b[j] as bv8) ^ (v as bv8), |b| - 1 - j)
  {
    hide Difference, Divide, Steps, OneOctet, SumOf, Changed, ShortAt, Low;
    OneDifference(b, j, v);
    OneOctetDivides(j, (b[j] as bv8) ^ (v as bv8), |b| - 1 - j);
    SumStays(SumOf(b), Low(Divide(0, Difference(b, b[j := v]))), ShortAt(b, 4));
  }

  lemma SumStays(sum: bv16, low: bv16, n: nat)
    requires sum as int == n
    ensures Changed(sum, low) as int == n <==> low == 0
  {
    hide Changed;
    Unchanged(sum, low);
    if Changed(sum, low) as int == n { SameNumber(Changed(sum, low), sum); }
  }

  lemma LowIsEmpty(c: bv32)
    ensures Low(c) == 0 <==> c & 0xffff == 0
  {
  }

  lemma BitIsSet(i: nat)
    requires i < 8
    ensures Bit(i) != 0
  {
  }

  /** A change of a single bit outside the length field is always noticed. */
  lemma BitIsNoticed(f: Frame, j: nat, i: nat, v: byte, more: bytes)
    requires Sealed(f) && j < |Encode(f)| && !(2 <= j < 4)
    requires i < 8 && (Encode(f)[j] as bv8) ^ (v as bv8) == Bit(i)
    ensures Parse(Encode(f)[j := v] + more) == Parsed([], [], true)
  {
    hide Parse, Decode, Steps, Low;
    var b := Encode(f);
    Cancels(b[j] as bv8);
    BitIsSet(i);
    ByteUnnoticedExactlyIf(f, j, v, more);
    BitIsSeen(i, |b| - j);
    LowIsEmpty(Steps(Bit(i) as bv32, |b| - j));
  }

  /**
   A change of several bits of one byte is not: these five bits, with 499 bytes behind them, go unnoticed
   in every good frame that is long enough.
   */
  lemma ByteGoesUnnoticed(f: Frame, j: nat, v: byte, more: bytes)
    requires Sealed(f) && j + 500 == |Encode(f)| && !(2 <= j < 6) && (Encode(f)[j] as bv8) ^ (v as bv8) == 0xf1
    ensures var b := Encode(f); b[j := v] != b && Parse(b[j := v] + more) == Prepend(Decode(b[j := v]), Parse(more))
  {
    hide Parse, Decode, Steps, Low;
    Cancels(Encode(f)[j] as bv8);
    ByteUnnoticedExactlyIf(f, j, v, more);
    OctetIsLost();
    LowIsEmpty(Steps(0xf1, 500));
  }

  // ---------------------------------------------------------------------------------------------
  // The length field
  // ---------------------------------------------------------------------------------------------

  /** Dividing octet by octet. */
  lemma DivideNext(c: bv32, x: bv8, o: bv32, d: seq<bv8>, i: nat, z: bv32)
    requires i < |d| && d[i] == x && o == c ^ x as bv32 && z == Eight(o)
    ensures Divide(c, d[i..]) == Divide(z, d[i + 1..])
  {
    hide Eight, Shift8;
    EightIsShift8(o);
    assert d[i..][1..] == d[i + 1..];
  }

  lemma NothingDivides(c: bv32)
    ensures Divide(c, []) == c
  {
  }

  lemma LongSum0(d: seq<bv8>)
    requires d == [0, 0x90, 0, 0x01, 0, 0, 0, 0, 0xc7]
    ensures Divide(0x0000ffff, d[0..]) == Divide(0x5cfd4385, d[3..])
  {
    hide Divide;
    DivideNext(0x0000ffff, 0x00, 0x0000ffff, d, 0, 0x2d02ef72);
    DivideNext(0x2d02ef72, 0x90, 0x2d02efe2, d, 1, 0x4e2981bb);
    DivideNext(0x4e2981bb, 0x00, 0x4e2981bb, d, 2, 0x5cfd4385);
  }

  lemma LongSum1(d: seq<bv8>)
    requires d == [0, 0x90, 0, 0x01, 0, 0, 0, 0, 0xc7]
    ensures Divide(0x5cfd4385, d[3..]) == Divide(0xfe642167, d[6..])
  {
    hide Divide;
    DivideNext(0x5cfd4385, 0x01, 0x5cfd4384, d, 3, 0xea89ba7a);
    DivideNext(0xea89ba7a, 0x00, 0xea89ba7a, d, 4, 0xb03a1198);
    DivideNext(0xb03a1198, 0x00, 0xb03a1198, d, 5, 0xfe642167);
  }

  lemma LongSum2(d: seq<bv8>)
    requires d == [0, 0x90, 0, 0x01, 0, 0, 0, 0, 0xc7]
    ensures Divide(0xfe642167, d[6..]) == Divide(0x8ed83aea, d[9..])
  {
    hide Divide;
    DivideNext(0xfe642167, 0x00, 0xfe642167, d, 6, 0xd32890da);
    DivideNext(0xd32890da, 0x00, 0xd32890da, d, 7, 0x66d5135a);
    DivideNext(0x66d5135a, 0xc7, 0x66d5139d, d, 8, 0x8ed83aea);
  }

  lemma LongSum(b: bytes)
    requires b == [0, 144, 0, 1, 0, 0, 0, 0, 199]
    ensures Checksum(b) == 50453
  {
    hide Divide, Octets;
    var d: seq<bv8> := [0, 0x90, 0, 0x01, 0, 0, 0, 0, 0xc7];
    LongSumOctets(b);
    LongSum0(d);
    LongSum1(d);
    LongSum2(d);
    assert d[0..] == d && d[9..] == [];
    NothingDivides(0x8ed83aea);
  }

  lemma LongSumOctets(b: bytes)
    requires b == [0, 144, 0, 1, 0, 0, 0, 0, 199]
    ensures Octets(b) == [0, 0x90, 0, 0x01, 0, 0, 0, 0, 0xc7]
  {
  }

  lemma ShortSum0(d: seq<bv8>)
    requires d == [0, 0x90, 0, 0, 0, 0, 0, 0]
    ensures Divide(0x0000ffff, d[0..]) == Divide(0x9d8e8aec, d[4..])
  {
    hide Divide;
    DivideNext(0x0000ffff, 0x00, 0x0000ffff, d, 0, 0x2d02ef72);
    DivideNext(0x2d02ef72, 0x90, 0x2d02efe2, d, 1, 0x4e2981bb);
    DivideNext(0x4e2981bb, 0x00, 0x4e2981bb, d, 2, 0x5cfd4385);
    DivideNext(0x5cfd4385, 0x00, 0x5cfd4385, d, 3, 0x9d8e8aec);
  }

  lemma ShortSum1(d: seq<bv8>)
    requires d == [0, 0x90, 0, 0, 0, 0, 0, 0]
    ensures Divide(0x9d8e8aec, d[4..]) == Divide(0x5bb53aea, d[8..])
  {
    hide Divide;
    DivideNext(0x9d8e8aec, 0x00, 0x9d8e8aec, d, 4, 0xa92120d9);
    DivideNext(0xa92120d9, 0x00, 0xa92120d9, d, 5, 0xffa64b50);
    DivideNext(0xffa64b50, 0x00, 0xffa64b50, d, 6, 0x6b94f7bf);
    DivideNext(0x6b94f7bf, 0x00, 0x6b94f7bf, d, 7, 0x5bb53aea);
  }

  lemma ShortSum(b: bytes)
    requires b == [0, 144, 0, 0, 0, 0, 0, 0]
    ensures Checksum(b) == 50453
  {
    hide Divide, Octets;
    var d: seq<bv8> := [0, 0x90, 0, 0, 0, 0, 0, 0];
    ShortSumOctets(b);
    ShortSum0(d);
    ShortSum1(d);
    assert d[0..] == d && d[8..] == [];
    NothingDivides(0x5bb53aea);
  }

  lemma ShortSumOctets(b: bytes)
    requires b == [0, 144, 0, 0, 0, 0, 0, 0]
    ensures Octets(b) == [0, 0x90, 0, 0, 0, 0, 0, 0]
  {
  }

  /**
   Nor is a change of the length always noticed, not even of one bit: without it this good frame of one
   byte is a good frame of none, and its byte the start of the next.
   */
  lemma LengthBitGoesUnnoticed()
    ensures var f := Frame(144, 50453, PT_DATA, [199]);
      && Sealed(f)
      && Parse(Encode(f)[3 := 0]) == Parsed([f.(data := [])], [199], false)
  {
    var f, g := Frame(144, 50453, PT_DATA, [199]), Frame(144, 50453, PT_DATA, []);
    assert Encode(f.(crc := 0)) == [0, 144, 0, 1, 0, 0, 0, 0, 199];
    assert Encode(g.(crc := 0)) == [0, 144, 0, 0, 0, 0, 0, 0];
    assert Encode(f)[3 := 0] == Encode(g) + [199];
    hide Encode, Parse, Decode, Passes, Insane, SizeOf, Checksum;
    LongSum(Encode(f.(crc := 0)));
    ShortSum(Encode(g.(crc := 0)));
    EncodedFrame(g);
    FirstFrame(Encode(g), [199]);
    NotYet([199]);
  }
}
