/**
 The checksum of packet.c: a 32-bit division whose low 16 bits are sent.  The program divides byte by
 byte with a table of 256 remainders; here it is proved that every entry is what eight steps of bitwise
 division make of its index, that one step with the table is eight such steps whatever the register
 holds, and so that CalcCRC divides the data bit by bit.  Division and XOR go together, which gives
 what a difference of two checksums depends on.
 */
module Crc {
  import opened Bytes

  const POLYNOMIAL: bv32 := 0xedb88320

  /** crc_32_tab, eight entries to a line as in the source. */
  function Table(i: bv8): bv32 {
    match i >> 3
    case 0 => Line(i & 7, 0x00000000, 0x77073096, 0xee0e612c, 0x990951ba, 0x076dc419, 0x706af48f, 0xe963a535, 0x9e6495a3)
    case 1 => Line(i & 7, 0x0edb8832, 0x79dcb8a4, 0xe0d5e91e, 0x97d2d988, 0x09b64c2b, 0x7eb17cbd, 0xe7b82d07, 0x90bf1d91)
    case 2 => Line(i & 7, 0x1db71064, 0x6ab020f2, 0xf3b97148, 0x84be41de, 0x1adad47d, 0x6ddde4eb, 0xf4d4b551, 0x83d385c7)
    case 3 => Line(i & 7, 0x136c9856, 0x646ba8c0, 0xfd62f97a, 0x8a65c9ec, 0x14015c4f, 0x63066cd9, 0xfa0f3d63, 0x8d080df5)
    case 4 => Line(i & 7, 0x3b6e20c8, 0x4c69105e, 0xd56041e4, 0xa2677172, 0x3c03e4d1, 0x4b04d447, 0xd20d85fd, 0xa50ab56b)
    case 5 => Line(i & 7, 0x35b5a8fa, 0x42b2986c, 0xdbbbc9d6, 0xacbcf940, 0x32d86ce3, 0x45df5c75, 0xdcd60dcf, 0xabd13d59)
    case 6 => Line(i & 7, 0x26d930ac, 0x51de003a, 0xc8d75180, 0xbfd06116, 0x21b4f4b5, 0x56b3c423, 0xcfba9599, 0xb8bda50f)
    case 7 => Line(i & 7, 0x2802b89e, 0x5f058808, 0xc60cd9b2, 0xb10be924, 0x2f6f7c87, 0x58684c11, 0xc1611dab, 0xb6662d3d)
    case 8 => Line(i & 7, 0x76dc4190, 0x01db7106, 0x98d220bc, 0xefd5102a, 0x71b18589, 0x06b6b51f, 0x9fbfe4a5, 0xe8b8d433)
    case 9 => Line(i & 7, 0x7807c9a2, 0x0f00f934, 0x9609a88e, 0xe10e9818, 0x7f6a0dbb, 0x086d3d2d, 0x91646c97, 0xe6635c01)
    case 10 => Line(i & 7, 0x6b6b51f4, 0x1c6c6162, 0x856530d8, 0xf262004e, 0x6c0695ed, 0x1b01a57b, 0x8208f4c1, 0xf50fc457)
    case 11 => Line(i & 7, 0x65b0d9c6, 0x12b7e950, 0x8bbeb8ea, 0xfcb9887c, 0x62dd1ddf, 0x15da2d49, 0x8cd37cf3, 0xfbd44c65)
    case 12 => Line(i & 7, 0x4db26158, 0x3ab551ce, 0xa3bc0074, 0xd4bb30e2, 0x4adfa541, 0x3dd895d7, 0xa4d1c46d, 0xd3d6f4fb)
    case 13 => Line(i & 7, 0x4369e96a, 0x346ed9fc, 0xad678846, 0xda60b8d0, 0x44042d73, 0x33031de5, 0xaa0a4c5f, 0xdd0d7cc9)
    case 14 => Line(i & 7, 0x5005713c, 0x270241aa, 0xbe0b1010, 0xc90c2086, 0x5768b525, 0x206f85b3, 0xb966d409, 0xce61e49f)
    case 15 => Line(i & 7, 0x5edef90e, 0x29d9c998, 0xb0d09822, 0xc7d7a8b4, 0x59b33d17, 0x2eb40d81, 0xb7bd5c3b, 0xc0ba6cad)
    case 16 => Line(i & 7, 0xedb88320, 0x9abfb3b6, 0x03b6e20c, 0x74b1d29a, 0xead54739, 0x9dd277af, 0x04db2615, 0x73dc1683)
    case 17 => Line(i & 7, 0xe3630b12, 0x94643b84, 0x0d6d6a3e, 0x7a6a5aa8, 0xe40ecf0b, 0x9309ff9d, 0x0a00ae27, 0x7d079eb1)
    case 18 => Line(i & 7, 0xf00f9344, 0x8708a3d2, 0x1e01f268, 0x6906c2fe, 0xf762575d, 0x806567cb, 0x196c3671, 0x6e6b06e7)
    case 19 => Line(i & 7, 0xfed41b76, 0x89d32be0, 0x10da7a5a, 0x67dd4acc, 0xf9b9df6f, 0x8ebeeff9, 0x17b7be43, 0x60b08ed5)
    case 20 => Line(i & 7, 0xd6d6a3e8, 0xa1d1937e, 0x38d8c2c4, 0x4fdff252, 0xd1bb67f1, 0xa6bc5767, 0x3fb506dd, 0x48b2364b)
    case 21 => Line(i & 7, 0xd80d2bda, 0xaf0a1b4c, 0x36034af6, 0x41047a60, 0xdf60efc3, 0xa867df55, 0x316e8eef, 0x4669be79)
    case 22 => Line(i & 7, 0xcb61b38c, 0xbc66831a, 0x256fd2a0, 0x5268e236, 0xcc0c7795, 0xbb0b4703, 0x220216b9, 0x5505262f)
    case 23 => Line(i & 7, 0xc5ba3bbe, 0xb2bd0b28, 0x2bb45a92, 0x5cb36a04, 0xc2d7ffa7, 0xb5d0cf31, 0x2cd99e8b, 0x5bdeae1d)
    case 24 => Line(i & 7, 0x9b64c2b0, 0xec63f226, 0x756aa39c, 0x026d930a, 0x9c0906a9, 0xeb0e363f, 0x72076785, 0x05005713)
    case 25 => Line(i & 7, 0x95bf4a82, 0xe2b87a14, 0x7bb12bae, 0x0cb61b38, 0x92d28e9b, 0xe5d5be0d, 0x7cdcefb7, 0x0bdbdf21)
    case 26 => Line(i & 7, 0x86d3d2d4, 0xf1d4e242, 0x68ddb3f8, 0x1fda836e, 0x81be16cd, 0xf6b9265b, 0x6fb077e1, 0x18b74777)
    case 27 => Line(i & 7, 0x88085ae6, 0xff0f6a70, 0x66063bca, 0x11010b5c, 0x8f659eff, 0xf862ae69, 0x616bffd3, 0x166ccf45)
    case 28 => Line(i & 7, 0xa00ae278, 0xd70dd2ee, 0x4e048354, 0x3903b3c2, 0xa7672661, 0xd06016f7, 0x4969474d, 0x3e6e77db)
    case 29 => Line(i & 7, 0xaed16a4a, 0xd9d65adc, 0x40df0b66, 0x37d83bf0, 0xa9bcae53, 0xdebb9ec5, 0x47b2cf7f, 0x30b5ffe9)
    case 30 => Line(i & 7, 0xbdbdf21c, 0xcabac28a, 0x53b39330, 0x24b4a3a6, 0xbad03605, 0xcdd70693, 0x54de5729, 0x23d967bf)
    case _ => Line(i & 7, 0xb3667a2e, 0xc4614ab8, 0x5d681b02, 0x2a6f2b94, 0xb40bbe37, 0xc30c8ea1, 0x5a05df1b, 0x2d02ef8d)
  }

  function Line(k: bv8, a0: bv32, a1: bv32, a2: bv32, a3: bv32, a4: bv32, a5: bv32, a6: bv32, a7: bv32): bv32 {
    match k
    case 0 => a0
    case 1 => a1
    case 2 => a2
    case 3 => a3
    case 4 => a4
    case 5 => a5
    case 6 => a6
    case _ => a7
  }

  /** UPDC32. */
  function Update(octet: bv8, crc: bv32): bv32 {
    Table(Index(octet, crc)) ^ (crc >> 8)
  }

  function Index(octet: bv8, crc: bv32): bv8 {
    ((crc ^ octet as bv32) & 0xff) as bv8
  }

  // ---------------------------------------------------------------------------------------------
  // The reference: polynomial division one bit at a time
  // ---------------------------------------------------------------------------------------------

  /** One step of division, bits reflected. */
  function Shift(c: bv32): bv32 {
    if c & 1 == 1 then (c >> 1) ^ POLYNOMIAL else c >> 1
  }

  function Shift2(c: bv32): bv32 { Shift(Shift(c)) }
  function Shift4(c: bv32): bv32 { Shift2(Shift2(c)) }
  function Shift8(c: bv32): bv32 { Shift4(Shift4(c)) }

  function Divide(c: bv32, data: seq<bv8>): bv32
    decreases |data|
  {
    if data == [] then c else Divide(Feed(data[0], c), data[1..])
  }

  /** Eight steps of division bring in one octet. */
  function Feed(octet: bv8, c: bv32): bv32 { Shift8(c ^ octet as bv32) }

  // The table, column by column.

  lemma Column0(i: bv8)
    requires i & 7 == 0
    ensures Table(i) == Shift8(i as bv32)
  {
  }

  lemma Column1(i: bv8)
    requires i & 7 == 1
    ensures Table(i) == Shift8(i as bv32)
  {
  }

  lemma Column2(i: bv8)
    requires i & 7 == 2
    ensures Table(i) == Shift8(i as bv32)
  {
  }

  lemma Column3(i: bv8)
    requires i & 7 == 3
    ensures Table(i) == Shift8(i as bv32)
  {
  }

  lemma Column4(i: bv8)
    requires i & 7 == 4
    ensures Table(i) == Shift8(i as bv32)
  {
  }

  lemma Column5(i: bv8)
    requires i & 7 == 5
    ensures Table(i) == Shift8(i as bv32)
  {
  }

  lemma Column6(i: bv8)
    requires i & 7 == 6
    ensures Table(i) == Shift8(i as bv32)
  {
  }

  lemma Column7(i: bv8)
    requires i & 7 == 7
    ensures Table(i) == Shift8(i as bv32)
  {
  }

  lemma TableDivides(i: bv8)
    ensures Table(i) == Shift8(i as bv32)
  {
    hide Table, Shift8;
    match i & 7
    case 0 => Column0(i);
    case 1 => Column1(i);
    case 2 => Column2(i);
    case 3 => Column3(i);
    case 4 => Column4(i);
    case 5 => Column5(i);
    case 6 => Column6(i);
    case _ => Column7(i);
  }

  // ---------------------------------------------------------------------------------------------
  // Division is linear
  // ---------------------------------------------------------------------------------------------

  ghost predicate Sum(z: bv32, x: bv32, y: bv32) { z == x ^ y }

  lemma ShiftSum00(z: bv32, x: bv32, y: bv32)
    requires Sum(z, x, y) && x & 1 == 0 && y & 1 == 0
    ensures Sum(Shift(z), Shift(x), Shift(y))
  {
  }

  lemma ShiftSum01(z: bv32, x: bv32, y: bv32)
    requires Sum(z, x, y) && x & 1 == 0 && y & 1 == 1
    ensures Sum(Shift(z), Shift(x), Shift(y))
  {
  }

  lemma ShiftSum10(z: bv32, x: bv32, y: bv32)
    requires Sum(z, x, y) && x & 1 == 1 && y & 1 == 0
    ensures Sum(Shift(z), Shift(x), Shift(y))
  {
  }

  lemma ShiftSum11(z: bv32, x: bv32, y: bv32)
    requires Sum(z, x, y) && x & 1 == 1 && y & 1 == 1
    ensures Sum(Shift(z), Shift(x), Shift(y))
  {
  }

  lemma ShiftSum(z: bv32, x: bv32, y: bv32)
    requires Sum(z, x, y)
    ensures Sum(Shift(z), Shift(x), Shift(y))
  {
    if x & 1 == 0 {
      if y & 1 == 0 { ShiftSum00(z, x, y); } else { ShiftSum01(z, x, y); }
    } else {
      if y & 1 == 0 { ShiftSum10(z, x, y); } else { ShiftSum11(z, x, y); }
    }
  }

  lemma Shift2Sum(z: bv32, x: bv32, y: bv32)
    requires Sum(z, x, y)
    ensures Sum(Shift2(z), Shift2(x), Shift2(y))
  {
    ShiftSum(z, x, y);
    ShiftSum(Shift(z), Shift(x), Shift(y));
  }

  lemma Shift4Sum(z: bv32, x: bv32, y: bv32)
    requires Sum(z, x, y)
    ensures Sum(Shift4(z), Shift4(x), Shift4(y))
  {
    Shift2Sum(z, x, y);
    Shift2Sum(Shift2(z), Shift2(x), Shift2(y));
  }

  lemma Shift8Sum(z: bv32, x: bv32, y: bv32)
    requires Sum(z, x, y)
    ensures Sum(Shift8(z), Shift8(x), Shift8(y))
  {
    Shift4Sum(z, x, y);
    Shift4Sum(Shift4(z), Shift4(x), Shift4(y));
  }

  lemma ShiftsOut(x: bv32)
    requires x & 0xff == 0
    ensures Shift8(x) == x >> 8
  {
  }

  lemma Split(x: bv32)
    ensures Sum(x, x & 0xff, x & 0xffffff00)
    ensures (x & 0xffffff00) & 0xff == 0 && (x & 0xffffff00) >> 8 == x >> 8
    ensures ((x & 0xff) as bv8) as bv32 == x & 0xff
  {
  }

  lemma DivideLowByte(x: bv32, low: bv8, high: bv32)
    requires Sum(x, low as bv32, high) && high & 0xff == 0
    ensures Sum(Shift8(x), Shift8(low as bv32), high >> 8)
  {
    Shift8Sum(x, low as bv32, high);
    ShiftsOut(high);
  }

  lemma HighPart(octet: bv8, crc: bv32)
    ensures (crc ^ octet as bv32) >> 8 == crc >> 8
  {
  }

  lemma ByTable(octet: bv8, crc: bv32) returns (t: bv32)
    ensures t == Shift8(Index(octet, crc) as bv32)
    ensures Sum(Update(octet, crc), t, crc >> 8)
  {
    TableDivides(Index(octet, crc));
    t := Table(Index(octet, crc));
  }

  lemma ByDivision(octet: bv8, crc: bv32, t: bv32)
    requires t == Shift8(Index(octet, crc) as bv32)
    ensures Sum(Shift8(crc ^ octet as bv32), t, crc >> 8)
  {
    var x := crc ^ octet as bv32;
    Split(x);
    DivideLowByte(x, Index(octet, crc), x & 0xffffff00);
    HighPart(octet, crc);
  }

  lemma SameSum(u: bv32, s: bv32, t: bv32, h: bv32)
    requires Sum(u, t, h) && Sum(s, t, h)
    ensures u == s
  {
  }

  /** One table lookup does eight steps of division. */
  lemma UpdateDivides(octet: bv8, crc: bv32)
    ensures Update(octet, crc) == Feed(octet, crc)
  {
    var t := ByTable(octet, crc);
    ByDivision(octet, crc, t);
    SameSum(Update(octet, crc), Shift8(crc ^ octet as bv32), t, crc >> 8);
  }

  // ---------------------------------------------------------------------------------------------
  // The checksum
  // ---------------------------------------------------------------------------------------------

  function Cut(c: bv32): bv16 { (!c & 0xffff) as bv16 }

  /** CalcCRC: what the table-driven loop is meant to compute. */
  function Remainder(data: seq<bv8>): bv16 { Cut(Divide(0xffff, data)) }

  method CalcCRC(data: seq<bv8>, size: nat) returns (sum: bv16)
    requires size <= |data|
    ensures sum == Remainder(data[..size])
  {
    var crc: bv32 := 0xffff;
    var i := 0;
    while i < size
      invariant i <= size
      invariant Divide(crc, data[i..size]) == Divide(0xffff, data[..size])
    {
      UpdateDivides(data[i], crc);
      assert data[i..size][1..] == data[i + 1..size];
      crc := Update(data[i], crc);
      i := i + 1;
    }
    sum := Cut(crc);
  }

  function Xor(a: seq<bv8>, b: seq<bv8>): (c: seq<bv8>)
    requires |a| == |b|
    ensures |c| == |a|
    ensures forall i :: 0 <= i < |a| ==> c[i] == a[i] ^ b[i]
  {
    seq(|a|, i requires 0 <= i < |a| => a[i] ^ b[i])
  }

  lemma OctetSum(z: bv32, x: bv32, y: bv32, c: bv8, a: bv8, b: bv8)
    requires Sum(z, x, y) && c == a ^ b
    ensures Sum(z ^ c as bv32, x ^ a as bv32, y ^ b as bv32)
  {
  }

  lemma FeedSum(z: bv32, x: bv32, y: bv32, c: bv8, a: bv8, b: bv8)
    requires Sum(z, x, y) && c == a ^ b
    ensures Sum(Feed(c, z), Feed(a, x), Feed(b, y))
  {
    OctetSum(z, x, y, c, a, b);
    Shift8Sum(z ^ c as bv32, x ^ a as bv32, y ^ b as bv32);
  }

  lemma {:induction false} DivideSum(z: bv32, x: bv32, y: bv32, c: seq<bv8>, a: seq<bv8>, b: seq<bv8>)
    requires |c| == |a| == |b| && Sum(z, x, y)
    requires forall i :: 0 <= i < |a| ==> c[i] == a[i] ^ b[i]
    ensures Sum(Divide(z, c), Divide(x, a), Divide(y, b))
    decreases |a|
  {
    if a != [] {
      FeedSum(z, x, y, c[0], a[0], b[0]);
      DivideSum(Feed(c[0], z), Feed(a[0], x), Feed(b[0], y), c[1..], a[1..], b[1..]);
    }
  }

  lemma CutSum(z: bv32, x: bv32, y: bv32)
    requires Sum(z, x, y)
    ensures Cut(x) ^ Cut(y) == (z & 0xffff) as bv16
  {
  }

  /**
   The checksum is affine: for frames of one length, the difference of two checksums depends on
   nothing but the difference of the frames.
   */
  lemma ChecksumDifference(a: seq<bv8>, b: seq<bv8>)
    requires |a| == |b|
    ensures Remainder(a) ^ Remainder(b) == (Divide(0, Xor(a, b)) & 0xffff) as bv16
  {
    assert Sum(0, 0xffff, 0xffff);
    DivideSum(0, 0xffff, 0xffff, Xor(a, b), a, b);
    CutSum(Divide(0, Xor(a, b)), Divide(0xffff, a), Divide(0xffff, b));
  }

  function Octets(data: bytes): (r: seq<bv8>)
    ensures |r| == |data| && forall i :: 0 <= i < |r| ==> r[i] == data[i] as bv8
  {
    seq(|data|, i requires 0 <= i < |data| => data[i] as bv8)
  }

  /** The checksum of a byte string as a 16-bit number. */
  function Checksum(data: bytes): (n: nat)
    ensures n < 0x10000
  {
    Remainder(Octets(data)) as int
  }
}
