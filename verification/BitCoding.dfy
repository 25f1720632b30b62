/** The line encodings E_6Bit and E_8NoHiCtrl of packet.c. */
module BitCoding {
  import opened Bytes

  // The bits of a frame are dealt out again, six or seven at a time, as printable characters; an '@' in
  // front realigns the receiver.

  /** nBitsCode. */
  type Width = n: int | 6 <= n <= 7 witness 6
  type bits = seq<bool>

  // ---------------------------------------------------------------------------------------------
  // Shifts and masks of non-negative numbers
  // ---------------------------------------------------------------------------------------------

  function Shl(v: nat, k: nat): nat { if k == 0 then v else 2 * Shl(v, k - 1) }
  function Shr(v: nat, k: nat): nat { if k == 0 then v else Shr(v / 2, k - 1) }

  /** v & ((1 << k) - 1). */
  function Mask(v: nat, k: nat): (m: nat)
    ensures m < Shl(1, k) && m <= v
  {
    if k == 0 then 0 else 2 * Mask(v / 2, k - 1) + v % 2
  }

  /** The low `n` bits of `v`, most significant first. */
  function Bits(v: nat, n: nat): (b: bits)
    ensures |b| == n
  {
    if n == 0 then [] else Bits(v / 2, n - 1) + [v % 2 == 1]
  }

  function Value(b: bits): (v: nat)
    ensures v < Shl(1, |b|)
  {
    if b == [] then 0 else 2 * Value(b[..|b| - 1]) + if b[|b| - 1] then 1 else 0
  }

  lemma {:induction false} ValueOfBits(v: nat, n: nat)
    ensures Value(Bits(v, n)) == Mask(v, n)
  {
    if n > 0 {
      ValueOfBits(v / 2, n - 1);
      assert Bits(v, n)[..n - 1] == Bits(v / 2, n - 1);
    }
  }

  lemma {:induction false} BitsOfValue(b: bits)
    ensures Bits(Value(b), |b|) == b
  {
    if b != [] {
      BitsOfValue(b[..|b| - 1]);
      assert b == b[..|b| - 1] + [b[|b| - 1]];
    }
  }

  lemma {:induction false} BitsOfMask(v: nat, m: nat, n: nat)
    requires n <= m
    ensures Bits(Mask(v, m), n) == Bits(v, n)
    decreases n
  {
    if n > 0 { BitsOfMask(v / 2, m - 1, n - 1); }
  }

  /** Shifting in `k` bits at the low end. */
  lemma {:induction false} BitsOfShl(v: nat, n: nat, t: nat, k: nat)
    requires t < Shl(1, k)
    ensures Bits(Shl(v, k) + t, n + k) == Bits(v, n) + Bits(t, k)
    decreases k
  {
    if k > 0 {
      assert (Shl(v, k) + t) / 2 == Shl(v, k - 1) + t / 2;
      BitsOfShl(v, n, t / 2, k - 1);
    }
  }

  /** Taking `n` bits apart into the upper `n - k` and the lower `k`. */
  lemma {:induction false} BitsSplit(v: nat, n: nat, k: nat)
    requires k <= n
    ensures Bits(v, n) == Bits(Shr(v, k), n - k) + Bits(v, k)
    decreases k
  {
    if k > 0 { BitsSplit(v / 2, n - 1, k - 1); }
  }

  // ---------------------------------------------------------------------------------------------
  // The alphabet
  // ---------------------------------------------------------------------------------------------

  /** ach6bit, which runs through A-Z, a-z, 0-9, '.', '/'. */
  function Letter(v: nat): (ch: byte)
    requires v < 64
  {
    if v < 26 then 65 + v
    else if v < 52 then 97 + (v - 26)
    else if v < 62 then 48 + (v - 52)
    else if v == 62 then 46
    else 47
  }

  /** A code of up to seven bits as a character; the seventh bit goes to the high bit. */
  function Symbol(v: nat): (ch: byte)
    requires v < 128
  {
    if v >= 64 then 128 + Letter(v - 64) else Letter(v)
  }

  datatype Code = NoCode | Code(v: nat)

  /** What PacketReceiveData makes of a character other than '@' and CAN. */
  function CodeOf(ch: byte): Code {
    var high, c := ch >= 128, ch % 128;
    var base :=
      if 65 <= c <= 90 then c - 65
      else if 97 <= c <= 122 then c - 97 + 26
      else if 48 <= c <= 57 then c - 48 + 52
      else if c == 46 then 62
      else if c == 47 then 63
      else -1;
    if base < 0 then NoCode else Code(if high then base + 64 else base)
  }

  lemma SymbolIsDecoded(v: nat)
    requires v < 128
    ensures CodeOf(Symbol(v)) == Code(v) && Symbol(v) != AT && Symbol(v) != CAN
  {
    var w := v % 64;
    LetterIsDecoded(w);
    hide Letter;
    assert Symbol(v) == Letter(w) + if v >= 64 then 128 else 0;
  }

  lemma LetterIsDecoded(w: nat)
    requires w < 64
    ensures Letter(w) < 128 && Letter(w) != AT && Letter(w) != CAN
    ensures CodeOf(Letter(w)) == Code(w) && CodeOf(Letter(w) + 128) == Code(w + 64)
  {
  }

  // ---------------------------------------------------------------------------------------------
  // The reference: what the encoded and decoded strings are
  // ---------------------------------------------------------------------------------------------

  function Unpack(data: bytes): (b: bits)
    ensures |b| == 8 * |data|
  {
    if data == [] then [] else Bits(data[0], 8) + Unpack(data[1..])
  }

  /** Whole bytes at the front of a bit string, and the bits left over. */
  datatype Packed = Packed(bytes: bytes, rest: bits)

  function Octet(b: bits): (v: byte)
    requires |b| == 8
  {
    assert Shl(1, 8) == 256;
    Value(b)
  }

  function Pack(b: bits): (p: Packed)
    ensures |p.rest| < 8
    decreases |b|
  {
    if |b| < 8 then Packed([], b)
    else
      var p := Pack(b[8..]);
      Packed([Octet(b[..8])] + p.bytes, p.rest)
  }

  /** A whole number of characters. */
  predicate Aligned(n: Width, len: nat) { if n == 6 then len % 6 == 0 else len % 7 == 0 }

  /** The characters for a bit string whose length is a multiple of the width. */
  function Symbols(n: Width, b: bits): (s: bytes)
    decreases |b|
  {
    if |b| < n then [] else (CodeInRange(n, b[..n]); [Symbol(Value(b[..n]))] + Symbols(n, b[n..]))
  }

  lemma CodeInRange(n: Width, b: bits)
    requires |b| == n
    ensures Value(b) < 128
  {
    assert Shl(1, 7) == 128 && Shl(1, 6) == 64;
  }

  /** nDataOut, the '@' included. */
  function EncodedSize(n: Width, len: nat): nat {
    (if n == 6 then len * 4 / 3 + 1 else len * 8 / 7 + 1) + if len % n != 0 then 1 else 0
  }

  function Zeros(k: nat): bits { seq(k, _ => false) }

  /** The bits of the data, filled up with zeros to whole characters. */
  function Padded(n: Width, data: bytes): (b: bits)
    ensures |b| == n * (EncodedSize(n, |data|) - 1)
    ensures 8 * |data| <= |b| < 8 * |data| + 8
  {
    PaddingFits(n, |data|);
    Unpack(data) + Zeros(n * (EncodedSize(n, |data|) - 1) - 8 * |data|)
  }

  /** The padding never makes up a byte, and the encoding fits the buffer of 2 * len + 1. */
  lemma PaddingFits(n: Width, len: nat)
    ensures 8 * len <= n * (EncodedSize(n, len) - 1) < 8 * len + 8
    ensures EncodedSize(n, len) <= 2 * len + 1
  {
  }

  function Encoding(n: Width, data: bytes): (s: bytes) { [AT] + Symbols(n, Padded(n, data)) }

  /** What PacketReceiveData hears, when `partial` are the bits of an unfinished byte. */
  function Heard(n: Width, partial: bits, s: bytes): (p: Packed)
    requires |partial| < 8
    ensures |p.rest| < 8
    decreases |s|
  {
    if s == [] then Packed([], partial)
    else
      var p := HeardOne(n, partial, s[0]);
      var q := Heard(n, p.rest, s[1..]);
      Packed(p.bytes + q.bytes, q.rest)
  }

  function HeardOne(n: Width, partial: bits, ch: byte): (p: Packed)
    requires |partial| < 8
    ensures |p.rest| < 8
  {
    if ch == CAN then Packed([], partial)
    else if ch == AT then Packed([], [])
    else
      match CodeOf(ch)
      case NoCode => Packed([], partial)
      case Code(v) => Pack(partial + Bits(v, n))
  }

  // ---------------------------------------------------------------------------------------------
  // Round trips
  // ---------------------------------------------------------------------------------------------

  function Join(p: Packed, q: Packed): Packed { Packed(p.bytes + q.bytes, q.rest) }

  lemma PackStep(a: bits, b: bits)
    requires |a| == 8
    ensures Pack(a + b) == Join(Packed([Octet(a)], []), Pack(b))
  {
    assert (a + b)[..8] == a && (a + b)[8..] == b;
  }

  lemma {:induction false} PackResumes(a: bits, b: bits)
    ensures Pack(a + b) == Join(Pack(a), Pack(Pack(a).rest + b))
    decreases |a|
  {
    hide Pack, Octet;
    if |a| < 8 {
      PackOfFew(a);
      JoinNothing(Pack(a + b));
    } else {
      var front, back := a[..8], a[8..];
      assert a == front + back;
      Regroup(front, back, b);
      PackStep(front, back + b);
      PackStep(front, back);
      PackResumes(back, b);
      Regroup([Octet(front)], Pack(back).bytes, Pack(Pack(back).rest + b).bytes);
    }
  }

  /** Symbol by symbol the receiver packs the bits of the codes. */
  lemma {:induction false} HeardSymbols(n: Width, partial: bits, b: bits)
    requires |partial| < 8 && Aligned(n, |b|)
    ensures Heard(n, partial, Symbols(n, b)) == Pack(partial + b)
    decreases |b|
  {
    hide Pack, CodeOf, Symbol, Value, Bits;
    if |b| < n {
      assert b == [] && partial + b == partial;
      PackOfFew(partial);
    } else {
      var front, back := b[..n], b[n..];
      CodeInRange(n, front);
      SymbolIsDecoded(Value(front));
      BitsOfValue(front);
      assert b == front + back;
      Regroup(partial, front, back);
      PackResumes(partial + front, back);
      HeardSymbols(n, Pack(partial + front).rest, back);
    }
  }

  lemma PackOfFew(b: bits)
    requires |b| < 8
    ensures Pack(b) == Packed([], b)
  {
  }

  lemma {:induction false} PackUnpack(data: bytes, z: bits)
    requires |z| < 8
    ensures Pack(Unpack(data) + z) == Packed(data, z)
    decreases |data|
  {
    hide Pack;
    if data == [] {
      assert Unpack(data) + z == z;
      PackOfFew(z);
    } else {
      var b := Bits(data[0], 8);
      ValueOfBits(data[0], 8);
      MaskOfByte(data[0]);
      Regroup(b, Unpack(data[1..]), z);
      PackStep(b, Unpack(data[1..]) + z);
      PackUnpack(data[1..], z);
    }
  }

  lemma {:induction false} MaskOfSmall(v: nat, k: nat)
    requires v < Shl(1, k)
    ensures Mask(v, k) == v
  {
    if k > 0 { MaskOfSmall(v / 2, k - 1); }
  }

  lemma MaskOfByte(v: byte)
    ensures Mask(v, 8) == v
  {
    assert Shl(1, 8) == 256;
    MaskOfSmall(v, 8);
  }

  /** From any state of the decoder, the encoding of `data` is heard as `data`, with nothing more. */
  lemma RoundTrip(n: Width, partial: bits, data: bytes)
    requires |partial| < 8
    ensures Heard(n, partial, Encoding(n, data)).bytes == data
  {
    hide Symbols, Heard, Padded, Unpack, Pack;
    var z := PaddedParts(n, data);
    HeardRealigned(n, partial, Symbols(n, Padded(n, data)));
    HeardSymbols(n, [], Padded(n, data));
    assert [] + Padded(n, data) == Padded(n, data);
    PackUnpack(data, z);
  }

  lemma PaddedParts(n: Width, data: bytes) returns (z: bits)
    ensures |z| < 8 && Padded(n, data) == Unpack(data) + z && Aligned(n, |Padded(n, data)|)
  {
    hide Padded, Unpack, EncodedSize, Zeros, Aligned;
    PaddedIs(n, data);
    z := Zeros(|Padded(n, data)| - 8 * |data|);
    Multiples(n, EncodedSize(n, |data|) - 1);
  }

  lemma PaddedIs(n: Width, data: bytes)
    ensures |Padded(n, data)| == n * (EncodedSize(n, |data|) - 1)
    ensures 0 <= |Padded(n, data)| - 8 * |data| < 8
    ensures Padded(n, data) == Unpack(data) + Zeros(|Padded(n, data)| - 8 * |data|)
    ensures forall k: nat :: |Zeros(k)| == k
  {
    hide EncodedSize;
    PaddingFits(n, |data|);
  }

  lemma Multiples(n: Width, k: int)
    requires n * k >= 0
    ensures Aligned(n, n * k)
  {
    if n == 6 {
      assert (6 * k) % 6 == 0;
    } else {
      assert (7 * k) % 7 == 0;
    }
  }

  /** The leading '@' makes the decoder forget an unfinished byte. */
  lemma HeardRealigned(n: Width, partial: bits, s: bytes)
    requires |partial| < 8
    ensures Heard(n, partial, [AT] + s) == Heard(n, [], s)
  {
    assert ([AT] + s)[1..] == s;
    assert [] + Heard(n, [], s).bytes == Heard(n, [], s).bytes;
  }

  lemma {:induction false} HeardAppend(n: Width, partial: bits, s: bytes, t: bytes)
    requires |partial| < 8
    ensures Heard(n, partial, s + t) == Join(Heard(n, partial, s), Heard(n, Heard(n, partial, s).rest, t))
    decreases |s|
  {
    hide HeardOne;
    if s == [] {
      assert s + t == t;
      assert [] + Heard(n, partial, t).bytes == Heard(n, partial, t).bytes;
    } else {
      var p := HeardOne(n, partial, s[0]);
      assert (s + t)[1..] == s[1..] + t;
      HeardAppend(n, p.rest, s[1..], t);
      Regroup(p.bytes, Heard(n, p.rest, s[1..]).bytes, Heard(n, Heard(n, p.rest, s[1..]).rest, t).bytes);
    }
  }

  /** PacketReceiveData called once for each piece of the input. */
  function HeardInPieces(n: Width, partial: bits, pieces: seq<bytes>): Packed
    requires |partial| < 8
    decreases |pieces|
  {
    if pieces == [] then Packed([], partial)
    else
      var p := Heard(n, partial, pieces[0]);
      Join(p, HeardInPieces(n, p.rest, pieces[1..]))
  }

  lemma {:induction false} PiecesDoNotMatter(n: Width, partial: bits, pieces: seq<bytes>)
    requires |partial| < 8
    ensures HeardInPieces(n, partial, pieces) == Heard(n, partial, Concat(pieces))
    decreases |pieces|
  {
    if pieces != [] {
      HeardAppend(n, partial, pieces[0], Concat(pieces[1..]));
      PiecesDoNotMatter(n, Heard(n, partial, pieces[0]).rest, pieces[1..]);
    }
  }

  function EncodeAll(n: Width, datas: seq<bytes>): bytes {
    if datas == [] then [] else Encoding(n, datas[0]) + EncodeAll(n, datas[1..])
  }

  lemma {:induction false} HeardAll(n: Width, partial: bits, datas: seq<bytes>)
    requires |partial| < 8
    ensures Heard(n, partial, EncodeAll(n, datas)).bytes == Concat(datas)
    decreases |datas|
  {
    hide Encoding;
    if datas != [] {
      RoundTrip(n, partial, datas[0]);
      HeardAppend(n, partial, Encoding(n, datas[0]), EncodeAll(n, datas[1..]));
      HeardAll(n, Heard(n, partial, Encoding(n, datas[0])).rest, datas[1..]);
    }
  }

  /** '@', letters, digits, '.' and '/', the last four sorts with the high bit too. */
  predicate InAlphabet(ch: byte) {
    var c := ch % 128;
    ch == 64 || 65 <= c <= 90 || 97 <= c <= 122 || 48 <= c <= 57 || c == 46 || c == 47
  }

  lemma SymbolInAlphabet(v: nat)
    requires v < 128
    ensures InAlphabet(Symbol(v)) && (v < 64 ==> Symbol(v) < 128)
  {
  }

  lemma {:induction false} SymbolsInAlphabet(n: Width, b: bits)
    ensures forall ch <- Symbols(n, b) :: InAlphabet(ch) && (n == 6 ==> ch < 128)
    decreases |b|
  {
    if |b| >= n {
      hide InAlphabet, Symbol;
      CodeInRange(n, b[..n]);
      SymbolInAlphabet(Value(b[..n]));
      assert Shl(1, 6) == 64;
      SymbolsInAlphabet(n, b[n..]);
    }
  }

  /** Nothing else is ever sent, and in E_6Bit no character with the high bit. */
  lemma {:induction false} OnlyAlphabetIsSent(n: Width, datas: seq<bytes>)
    ensures forall ch <- EncodeAll(n, datas) :: InAlphabet(ch) && (n == 6 ==> ch < 128)
    decreases |datas|
  {
    if datas != [] {
      hide InAlphabet, Symbols, Padded;
      AtInAlphabet();
      SymbolsInAlphabet(n, Padded(n, datas[0]));
      OnlyAlphabetIsSent(n, datas[1..]);
    }
  }

  lemma AtInAlphabet()
    ensures InAlphabet(AT) && AT < 128
  {
  }

  function Cleaned(s: bytes): bytes
    decreases |s|
  {
    if s == [] then [] else (if InAlphabet(s[0]) then [s[0]] else []) + Cleaned(s[1..])
  }

  /** Characters that the line adds, if they are no part of the alphabet, do no harm. */
  lemma {:induction false} NoiseIsIgnored(n: Width, partial: bits, s: bytes)
    requires |partial| < 8
    ensures Heard(n, partial, s) == Heard(n, partial, Cleaned(s))
    decreases |s|
  {
    if s != [] {
      var p := HeardOne(n, partial, s[0]);
      NoiseIsIgnored(n, p.rest, s[1..]);
      NoiseIsNothing(n, partial, s[0]);
      hide HeardOne, InAlphabet;
      if InAlphabet(s[0]) {
        assert Cleaned(s)[0] == s[0] && Cleaned(s)[1..] == Cleaned(s[1..]);
      } else {
        assert Cleaned(s) == Cleaned(s[1..]);
        assert [] + Heard(n, partial, s[1..]).bytes == Heard(n, partial, s[1..]).bytes;
      }
    }
  }

  lemma NoiseIsNothing(n: Width, partial: bits, ch: byte)
    requires |partial| < 8
    ensures !InAlphabet(ch) ==> HeardOne(n, partial, ch) == Packed([], partial)
  {
  }

  lemma {:induction false} NoCanIsSymbol(n: Width, b: bits)
    ensures CAN !in Symbols(n, b)
    decreases |b|
  {
    if |b| >= n { NoCanIsSymbol(n, b[n..]); }
  }

  /** CAN, of which five end the session, is never sent. */
  lemma {:induction false} NoCanIsSent(n: Width, datas: seq<bytes>)
    ensures CAN !in EncodeAll(n, datas)
    decreases |datas|
  {
    if datas != [] {
      NoCanIsSymbol(n, Padded(n, datas[0]));
      NoCanIsSent(n, datas[1..]);
    }
  }

  /**
   Any number of byte strings encoded one after the other and delivered in any pieces, to a decoder
   in any state, come out unchanged.
   */
  lemma LineIsTransparent(n: Width, partial: bits, datas: seq<bytes>, pieces: seq<bytes>)
    requires |partial| < 8 && Concat(pieces) == EncodeAll(n, datas)
    ensures HeardInPieces(n, partial, pieces).bytes == Concat(datas)
  {
    PiecesDoNotMatter(n, partial, pieces);
    HeardAll(n, partial, datas);
  }

  // ---------------------------------------------------------------------------------------------
  // TransmitData
  // ---------------------------------------------------------------------------------------------

  lemma {:induction false} ShlFits(v: nat, a: nat, t: nat, b: nat)
    requires v < Shl(1, a) && t < Shl(1, b)
    ensures Shl(v, b) + t < Shl(1, a + b)
    decreases b
  {
    if b > 0 { ShlFits(v, a, t / 2, b - 1); }
  }

  /** Moves `now` of the `left` low bits of `c`, the upper ones, to the low end of `code`. */
  function Move(code: nat, c: nat, left: nat, now: nat): (r: nat)
    requires now <= left
  {
    Shl(code, now) + Mask(Shr(Mask(c, left), left - now), now)
  }

  lemma MoveKeepsBits(code: nat, nBits: nat, c: nat, left: nat, now: nat)
    requires now <= left
    ensures Bits(code, nBits) + Bits(c, left) == Bits(Move(code, c, left, now), nBits + now) + Bits(c, left - now)
    ensures code < Shl(1, nBits) ==> Move(code, c, left, now) < Shl(1, nBits + now)
  {
    var low := Mask(c, left);
    var t := Mask(Shr(low, left - now), now);
    BitsOfMask(c, left, left);
    BitsOfMask(c, left, left - now);
    BitsSplit(low, left, left - now);
    BitsOfMask(Shr(low, left - now), now, now);
    BitsOfShl(code, nBits, t, now);
    if code < Shl(1, nBits) { ShlFits(code, nBits, t, now); }
    Regroup(Bits(code, nBits), Bits(t, now), Bits(c, left - now));
  }

  lemma SymbolsStep(n: Width, a: bits, b: bits)
    requires |a| == n
    ensures Value(a) < 128 && Symbols(n, a + b) == [Symbol(Value(a))] + Symbols(n, b)
  {
    CodeInRange(n, a);
    assert (a + b)[..n] == a && (a + b)[n..] == b;
  }

  lemma SymbolsOfFew(n: Width, b: bits)
    requires |b| < n
    ensures Symbols(n, b) == []
  {
  }

  lemma {:induction false} SymbolsAppend(n: Width, b: bits, code: nat)
    requires Aligned(n, |b|) && code < Shl(1, n)
    ensures code < 128 && Symbols(n, b + Bits(code, n)) == Symbols(n, b) + [Symbol(code)]
    decreases |b|
  {
    hide Symbol, Symbols, Bits, Value, Shl, Mask;
    var last := Bits(code, n);
    ValueOfBits(code, n);
    MaskOfSmall(code, n);
    if |b| < n {
      assert b == [] && b + last == last + [];
      SymbolsStep(n, last, []);
      SymbolsOfFew(n, []);
    } else {
      var front, back := b[..n], b[n..];
      assert b == front + back;
      Regroup(front, back, last);
      SymbolsStep(n, front, back + last);
      SymbolsStep(n, front, back);
      SymbolsAppend(n, back, code);
    }
  }

  /** Bits taken from the input and not yet written: those gathered in cNow, and those left in c. */
  function Pending(cNow: nat, nBits: nat, c: nat, nBitsLeft: nat): bits {
    Bits(cNow, nBits) + Bits(c, nBitsLeft)
  }

  /** The branch of TransmitData's loop that is taken while bits of `c` are left. */
  method Deal(n: Width, nBits: nat, cNow: nat, c: nat, nBitsLeft: nat)
      returns (nBits': nat, cNow': nat, nBitsLeft': nat, out: bytes)
    requires nBits < n && 0 < nBitsLeft <= 8 && cNow < Shl(1, nBits)
    ensures nBits' < n && nBitsLeft' < nBitsLeft && cNow' < Shl(1, nBits')
    ensures if out == [] then
        Pending(cNow', nBits', c, nBitsLeft') == Pending(cNow, nBits, c, nBitsLeft) && nBits' > nBits
      else exists code: nat ::
        && code < Shl(1, n) && code < 128 && out == [Symbol(code)] && nBits' == 0
        && Pending(cNow, nBits, c, nBitsLeft) == Bits(code, n) + Pending(cNow', nBits', c, nBitsLeft')
  {
    hide Bits, Mask, Move, Symbol;
    var nBitsNow := n - nBits;
    if nBitsLeft < nBitsNow {
      nBitsNow := nBitsLeft;
    }
    MoveKeepsBits(cNow, nBits, c, nBitsLeft, nBitsNow);
    cNow' := Move(cNow, c, nBitsLeft, nBitsNow);
    nBits' := nBits + nBitsNow;
    nBitsLeft' := nBitsLeft - nBitsNow;
    out := [];
    if nBits' == n {
      assert Shl(1, 6) == 64 && Shl(1, 7) == 128;
      out := [Symbol(cNow')];
      assert Bits(0, 0) + Bits(c, nBitsLeft') == Bits(c, nBitsLeft');
      cNow' := 0;
      nBits' := 0;
    }
  }

  /** The input read so far, and `zeros` more bytes of nothing after its end. */
  function Taken(data: bytes, iIn: nat, zeros: nat): bits
    requires iIn <= |data|
  {
    Unpack(data[..iIn]) + Zeros(8 * zeros)
  }

  lemma {:induction false} UnpackAppend(data: bytes, v: byte)
    ensures Unpack(data + [v]) == Unpack(data) + Bits(v, 8)
    decreases |data|
  {
    if data == [] {
      assert data + [v] == [v] && Unpack([v]) == Bits(v, 8) + Unpack([]);
    } else {
      assert (data + [v])[1..] == data[1..] + [v];
      UnpackAppend(data[1..], v);
    }
  }

  lemma {:induction false} BitsOfZero(n: nat)
    ensures Bits(0, n) == Zeros(n)
  {
    if n > 0 { BitsOfZero(n - 1); }
  }

  lemma TakeOne(data: bytes, iIn: nat)
    requires iIn < |data|
    ensures Taken(data, iIn + 1, 0) == Taken(data, iIn, 0) + Bits(data[iIn], 8)
  {
    UnpackAppend(data[..iIn], data[iIn]);
    assert data[..iIn + 1] == data[..iIn] + [data[iIn]];
  }

  lemma TakeZero(data: bytes, zeros: nat)
    ensures Taken(data, |data|, zeros + 1) == Taken(data, |data|, zeros) + Bits(0, 8)
  {
    BitsOfZero(8);
  }

  lemma NothingTaken(n: Width, data: bytes)
    ensures Taken(data, 0, 0) == [] && Pending(0, 0, 0, 0) == [] && Symbols(n, []) == [] && Written(n, [], 0)
    ensures Shl(1, 0) == 1
  {
  }

  /** `written` are the bits of `k` characters. */
  ghost predicate Written(n: Width, written: bits, k: int) { |written| == n * k && Aligned(n, |written|) }

  lemma WriteNext(n: Width, written: bits, k: int, code: nat)
    requires Written(n, written, k) && code < Shl(1, n)
    ensures Written(n, written + Bits(code, n), k + 1) && code < 128
    ensures Symbols(n, written + Bits(code, n)) == Symbols(n, written) + [Symbol(code)]
  {
    hide Symbols, Symbol, Bits, Shl;
    SymbolsAppend(n, written, code);
    if n == 6 {
    } else {
    }
  }

  lemma LoadByte(cNow: nat, nBits: nat, before: nat, c: nat)
    ensures Pending(cNow, nBits, c, 8) == Pending(cNow, nBits, before, 0) + Bits(c, 8)
  {
    assert Pending(cNow, nBits, before, 0) == Bits(cNow, nBits);
  }

  lemma AllWritten(n: Width, data: bytes, written: bits, pending: bits, iIn: nat, zeros: nat)
    requires iIn <= |data| && (zeros > 0 ==> iIn == |data|)
    requires Written(n, written, EncodedSize(n, |data|) - 1) && written + pending == Taken(data, iIn, zeros)
    ensures written == Padded(n, data) && Encoding(n, data) == [AT] + Symbols(n, written)
  {
    PaddingFits(n, |data|);
    assert |Taken(data, iIn, zeros)| == 8 * iIn + 8 * zeros;
    assert iIn == |data| && data[..iIn] == data;
    assert written == Taken(data, iIn, zeros)[..|written|];
  }

  /** The other branch of the loop: eight more bits from the input, or of nothing. */
  method NextByte(data: bytes, iIn: nat, ghost zeros: nat) returns (c: nat, iIn': nat, ghost zeros': nat)
    requires iIn <= |data| && (zeros > 0 ==> iIn == |data|)
    ensures iIn' <= |data| && (zeros' > 0 ==> iIn' == |data|)
    ensures Taken(data, iIn', zeros') == Taken(data, iIn, zeros) + Bits(c, 8)
  {
    hide Taken, Bits;
    iIn', zeros' := iIn, zeros;
    if iIn < |data| {
      TakeOne(data, iIn);
      c := data[iIn];
      iIn' := iIn + 1;
    } else {
      TakeZero(data, zeros);
      c := 0;
      zeros' := zeros + 1;
    }
  }

  /** TransmitData in the two rotating encodings. */
  method TransmitData(n: Width, data: bytes) returns (out: bytes)
    ensures out == Encoding(n, data)
  {
    hide Encoding, Unpack, Symbols, Symbol, Bits, Padded, Taken, Written, Pending, Shl, EncodedSize;
    var pchDataOut := new byte[2 * |data| + 1];
    var nDataOut := EncodedSize(n, |data|);
    PaddingFits(n, |data|);
    pchDataOut[0] := AT;
    var nBits: nat, cNow: nat, nBitsLeft: nat, c: nat := 0, 0, 0, 0;
    var iIn: nat, iOut := 0, 1;
    ghost var zeros: nat, written: bits := 0, [];
    NothingTaken(n, data);
    while iOut < nDataOut
      invariant 1 <= iOut <= nDataOut
      invariant pchDataOut[..iOut] == [AT] + Symbols(n, written)
      invariant Written(n, written, iOut - 1)
      invariant nBits < n && nBitsLeft <= 8 && cNow < Shl(1, nBits)
      invariant iIn <= |data| && (zeros > 0 ==> iIn == |data|)
      invariant written + Pending(cNow, nBits, c, nBitsLeft) == Taken(data, iIn, zeros)
      decreases nDataOut - iOut, n - nBits, if nBitsLeft == 0 then 1 else 0
    {
      ghost var before := Pending(cNow, nBits, c, nBitsLeft);
      if nBitsLeft > 0 {
        var next: bytes;
        nBits, cNow, nBitsLeft, next := Deal(n, nBits, cNow, c, nBitsLeft);
        if next != [] {
          ghost var code: nat :| code < Shl(1, n) && code < 128 && next == [Symbol(code)]
            && before == Bits(code, n) + Pending(cNow, nBits, c, nBitsLeft);
          WriteNext(n, written, iOut - 1, code);
          Regroup(written, Bits(code, n), Pending(cNow, nBits, c, nBitsLeft));
          written := written + Bits(code, n);
          pchDataOut[iOut] := next[0];
          iOut := iOut + 1;
        }
      } else {
        ghost var was := c;
        c, iIn, zeros := NextByte(data, iIn, zeros);
        LoadByte(cNow, nBits, was, c);
        Regroup(written, before, Bits(c, 8));
        nBitsLeft := 8;
      }
    }
    AllWritten(n, data, written, Pending(cNow, nBits, c, nBitsLeft), iIn, zeros);
    out := pchDataOut[..iOut];
  }

  // ---------------------------------------------------------------------------------------------
  // PacketReceiveData
  // ---------------------------------------------------------------------------------------------

  /**
   Moves the upper `now` of the `left` low bits of `cIn` to the low end of the 8-bit `c`; bits of a
   byte already handed on fall off at the top.
   */
  function MoveIn(c: byte, cIn: nat, left: nat, now: nat): (r: byte)
    requires now <= left
  {
    assert Shl(1, 8) == 256;
    Mask(Shl(c, now) + Mask(Shr(cIn, left - now), now), 8)
  }

  lemma MoveInKeepsBits(c: byte, nBits: nat, cIn: nat, left: nat, now: nat)
    requires now <= left && nBits + now <= 8
    ensures Bits(c, nBits) + Bits(cIn, left) == Bits(MoveIn(c, cIn, left, now), nBits + now) + Bits(cIn, left - now)
  {
    var t := Mask(Shr(cIn, left - now), now);
    BitsSplit(cIn, left, left - now);
    BitsOfMask(Shr(cIn, left - now), now, now);
    BitsOfShl(c, nBits, t, now);
    BitsOfMask(Shl(c, now) + t, 8, nBits + now);
    Regroup(Bits(c, nBits), Bits(t, now), Bits(cIn, left - now));
  }

  class LineDecoder {
    const nBitsCode: Width
    var nBits: nat
    var c: byte
    var nCtlX: nat

    ghost predicate Valid()
      reads this
    {
      nBits < 8
    }

    /** The bits of the byte being put together. */
    ghost function Partial(): (b: bits)
      reads this
      requires Valid()
      ensures |b| < 8
    {
      Bits(c, nBits)
    }

    constructor (n: Width)
      ensures nBitsCode == n && Valid() && Partial() == [] && nCtlX == 0
    {
      nBitsCode := n;
      nBits, c, nCtlX := 0, 0, 0;
    }

    /** A receive timeout: the unfinished byte is forgotten. */
    method ReceiveTimeout()
      modifies this
      ensures Valid() && Partial() == [] && nCtlX == old(nCtlX)
    {
      nBits := 0;
    }

    /** The branch of the loop that is taken while bits of `cIn` are left. */
    method Collect(cIn: nat, nBitsLeft: nat) returns (nBitsLeft': nat, out: bytes)
      requires Valid() && nBitsLeft > 0
      modifies `nBits, `c
      ensures Valid() && nBitsLeft' < nBitsLeft
      ensures |out| <= 1 && 8 * |out| + nBits + nBitsLeft' == old(nBits) + nBitsLeft
      ensures Pack(old(Partial()) + Bits(cIn, nBitsLeft)) ==
        Join(Packed(out, []), Pack(Partial() + Bits(cIn, nBitsLeft')))
    {
      hide Pack, Bits, Mask, MoveIn;
      var nBitsNow := 8 - nBits;
      if nBitsLeft < nBitsNow {
        nBitsNow := nBitsLeft;
      }
      MoveInKeepsBits(c, nBits, cIn, nBitsLeft, nBitsNow);
      c := MoveIn(c, cIn, nBitsLeft, nBitsNow);
      nBits := nBits + nBitsNow;
      nBitsLeft' := nBitsLeft - nBitsNow;
      out := [];
      JoinNothing(Pack(Bits(c, nBits) + Bits(cIn, nBitsLeft')));
      if nBits == 8 {
        PackStep(Bits(c, 8), Bits(cIn, nBitsLeft'));
        ValueOfBits(c, 8);
        MaskOfByte(c);
        assert [] + Bits(cIn, nBitsLeft') == Bits(cIn, nBitsLeft');
        out := [c];
        nBits := 0;
      }
    }

    /**
     The other branch: one more character.  Its code, if it has one, is left in `cIn`; `exits` tells
     that Shutdown is called.
     */
    method NextCharacter(ch: byte) returns (cIn: nat, nBitsLeft: nat, exits: bool)
      requires Valid()
      modifies this
      ensures Cans(nCtlX, exits) == Count(Cans(old(nCtlX), false), ch)
      ensures Valid() && nBitsLeft <= nBitsCode && nBits <= old(nBits)
      ensures HeardOne(nBitsCode, old(Partial()), ch) == Pack(Partial() + Bits(cIn, nBitsLeft))
    {
      cIn, nBitsLeft, exits := 0, 0, false;
      if ch == CAN {
        nCtlX := nCtlX + 1;
        if nCtlX >= 5 {
          exits := true;
        }
      } else {
        nCtlX := 0;
        if ch == AT {
          c := 0;
          nBits := 0;
        } else {
          var code := CodeOf(ch);
          if code.Code? {
            cIn := code.v;
            nBitsLeft := nBitsCode;
          }
        }
      }
      assert Partial() + [] == Partial();
      if nBitsLeft == 0 { PackOfFew(Partial()); }
    }

    /**
     PacketReceiveData in the two rotating encodings.  The output never outgrows the input; five CANs in
     a row shut the program down.
     */
    method PacketReceiveData(data: bytes) returns (out: bytes, exits: bool)
      requires Valid()
      modifies this
      ensures Valid()
      ensures Cans(nCtlX, exits) == CountAll(Cans(old(nCtlX), false), data)
      ensures Packed(out, Partial()) == Heard(nBitsCode, old(Partial()), data)
      ensures |out| <= |data|
    {
      hide Pack, Bits, Heard, HeardOne, Count, CountAll;
      var pchDataOut := new byte[|data|];
      var i, iOut := 0, 0;
      exits := false;
      var cIn: nat, nBitsLeft: nat := 0, 0;
      ghost var start := Partial();
      StartsHearing(nBitsCode, start, data, cIn);
      while i < |data| || nBitsLeft > 0
        invariant i <= |data| && Valid() && nBitsLeft <= nBitsCode
        invariant 8 * iOut + nBits + nBitsLeft <= 7 * i + 7
        invariant iOut <= i
        invariant CountAll(Cans(nCtlX, exits), data[i..]) == CountAll(Cans(old(nCtlX), false), data)
        invariant Heard(nBitsCode, start, data)
          == Remaining(nBitsCode, pchDataOut[..iOut], Partial() + Bits(cIn, nBitsLeft), data[i..])
        decreases |data| - i, nBitsLeft
      {
        if nBitsLeft > 0 {
          ghost var before, done := Partial() + Bits(cIn, nBitsLeft), pchDataOut[..iOut];
          var next: bytes;
          nBitsLeft, next := Collect(cIn, nBitsLeft);
          HandsOn(nBitsCode, done, before, next, Partial() + Bits(cIn, nBitsLeft), data[i..]);
          if next != [] {
            pchDataOut[iOut] := next[0];
            iOut := iOut + 1;
          }
        } else {
          ghost var partial, done := Partial(), pchDataOut[..iOut];
          NoBitsLeft(partial, cIn);
          CountNext(Cans(nCtlX, exits), data, i);
          CountKeepsFive(Cans(nCtlX, exits), data[i]);
          var five;
          cIn, nBitsLeft, five := NextCharacter(data[i]);
          exits := exits || five;
          Hears(nBitsCode, done, partial, data[i..], Partial() + Bits(cIn, nBitsLeft));
          i := i + 1;
        }
      }
      NoBitsLeft(Partial(), cIn);
      out := pchDataOut[..iOut];
      CountNothing(Cans(nCtlX, exits), data[i..]);
      NothingRemains(nBitsCode, out, Partial(), data[i..]);
    }
  }

  /** Output so far, then what the bits at hand and the rest of the input will give. */
  ghost function Remaining(n: Width, done: bytes, atHand: bits, rest: bytes): Packed {
    var p := Pack(atHand);
    Join(Packed(done + p.bytes, []), Heard(n, p.rest, rest))
  }

  lemma JoinNothing(p: Packed)
    ensures Join(Packed([], []), p) == p
  {
    assert [] + p.bytes == p.bytes;
  }

  lemma NoBitsLeft(partial: bits, cIn: nat)
    ensures partial + Bits(cIn, 0) == partial
  {
  }

  lemma StartsHearing(n: Width, partial: bits, s: bytes, cIn: nat)
    requires |partial| < 8
    ensures Heard(n, partial, s) == Remaining(n, [], partial + Bits(cIn, 0), s[0..])
  {
    NoBitsLeft(partial, cIn);
    PackOfFew(partial);
    JoinNothing(Heard(n, partial, s));
    assert s[0..] == s && [] + Pack(partial).bytes == [];
  }

  lemma HandsOn(n: Width, done: bytes, before: bits, next: bytes, after: bits, rest: bytes)
    requires Pack(before) == Join(Packed(next, []), Pack(after))
    ensures Remaining(n, done, before, rest) == Remaining(n, done + next, after, rest)
  {
    hide Pack, Heard;
    Regroup(done, next, Pack(after).bytes);
  }

  lemma Hears(n: Width, done: bytes, partial: bits, s: bytes, after: bits)
    requires s != [] && |partial| < 8 && HeardOne(n, partial, s[0]) == Pack(after)
    ensures Remaining(n, done, partial, s) == Remaining(n, done, after, s[1..])
  {
    PackOfFew(partial);
    assert done + [] == done;
    Regroup(done, Pack(after).bytes, Heard(n, Pack(after).rest, s[1..]).bytes);
  }

  lemma NothingRemains(n: Width, done: bytes, partial: bits, rest: bytes)
    requires |partial| < 8 && rest == []
    ensures Remaining(n, done, partial, rest) == Packed(done, partial)
  {
    PackOfFew(partial);
    assert done + [] == done;
  }
}
