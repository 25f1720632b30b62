/** The escaping line encodings of packet.c: an '@' and a substitute for what the line cannot carry. */
module EscapeCoding {
  import opened Bytes

  const SPACE: byte := 32

  /**
   E_Explicit takes the characters to escape, the offset of their substitutes and the characters to
   ignore on reception from the user's settings.
   */
  datatype Mode = E8Bit | E8NoCtrl | E8NoX | E8NoHiX | Explicit(escaped: bytes, ignored: bytes, offset: int)

  /** Arithmetic on char wraps around. */
  function Add(c: byte, offset: int): byte { (c + offset) % 256 }

  // ---------------------------------------------------------------------------------------------
  // The reference
  // ---------------------------------------------------------------------------------------------

  /** Must `c` be escaped, other than '@'? */
  predicate Escapes(m: Mode, c: byte) {
    c == CAN ||
    match m
    case E8Bit => false
    case E8NoCtrl => c < 32
    case E8NoX => c == 19 || c == 17
    case E8NoHiX => c == 19 || c == 17 || c == 147 || c == 145
    case Explicit(escaped, _, _) => c in escaped
  }

  function OffsetOf(m: Mode): int { if m.Explicit? then m.offset else 64 }

  function Encode(m: Mode, c: byte): (s: bytes)
    ensures 0 < |s| <= 2
  {
    if c == AT then [AT, SPACE]
    else if Escapes(m, c) then [AT, Add(c, OffsetOf(m))]
    else [c]
  }

  function EncodeAll(m: Mode, data: bytes): bytes {
    if data == [] then [] else Encode(m, data[0]) + EncodeAll(m, data[1..])
  }

  predicate Ignores(m: Mode, ch: byte) { ch == CAN || (m.Explicit? && ch in m.ignored) }

  /** Bytes received, and whether the last character was an '@' that waits for its substitute. */
  datatype Heard = Heard(bytes: bytes, escaping: bool)

  function Decode(m: Mode, escaping: bool, ch: byte): Heard {
    if Ignores(m, ch) then Heard([], escaping)
    else if escaping then Heard([if ch == SPACE then AT else Add(ch, -OffsetOf(m))], false)
    else if ch == AT then Heard([], true)
    else Heard([ch], false)
  }

  function DecodeAll(m: Mode, escaping: bool, s: bytes): Heard
    decreases |s|
  {
    if s == [] then Heard([], escaping)
    else
      var h := Decode(m, escaping, s[0]);
      var t := DecodeAll(m, h.escaping, s[1..]);
      Heard(h.bytes + t.bytes, t.escaping)
  }

  // ---------------------------------------------------------------------------------------------
  // When the encoding can be undone
  // ---------------------------------------------------------------------------------------------

  /** Shifted by one offset and back by another, a byte is the same exactly if the offsets agree modulo 256. */
  lemma AddBack(c: byte, there: int, back: int)
    ensures Add(Add(c, there), -back) == c <==> (there - back) % 256 == 0
  {
  }

  /** What a byte puts on the line in mode `m` can be read back in mode `r`; the two ends may differ. */
  predicate Readable(m: Mode, r: Mode, c: byte) {
    && (forall ch <- Encode(m, c) :: !Ignores(r, ch))
    && (c != AT && Escapes(m, c) ==> Add(c, OffsetOf(m)) != SPACE && (OffsetOf(m) - OffsetOf(r)) % 256 == 0)
  }

  /** The offsets agree, no substitute is a space, and nothing that is ever sent is ignored. */
  ghost predicate Usable(m: Mode, r: Mode) { forall c: byte :: Readable(m, r, c) }

  lemma FixedModesAreUsable(m: Mode)
    requires !m.Explicit?
    ensures Usable(m, m)
  {
    forall c: byte
      ensures Readable(m, m, c)
    {
    }
  }

  lemma DecodePair(m: Mode, a: byte, b: byte)
    ensures DecodeAll(m, false, [a, b]) ==
      var h := Decode(m, false, a); var t := Decode(m, h.escaping, b); Heard(h.bytes + t.bytes, t.escaping)
  {
    assert [a, b][1..] == [b] && [b][1..] == [];
    var h := Decode(m, false, a);
    var t := Decode(m, h.escaping, b);
    assert DecodeAll(m, h.escaping, [b]) == Heard(t.bytes + [], t.escaping);
    assert t.bytes + [] == t.bytes;
  }

  lemma DecodeOne(m: Mode, escaping: bool, c: byte)
    ensures DecodeAll(m, escaping, [c]) == Decode(m, escaping, c)
  {
    var h := Decode(m, escaping, c);
    assert h.bytes + DecodeAll(m, h.escaping, []).bytes == h.bytes;
  }

  /** An escaped byte other than '@'. */
  lemma EscapedComesThrough(m: Mode, r: Mode, c: byte)
    requires c != AT && Escapes(m, c) && !Ignores(r, AT)
    ensures DecodeAll(r, false, Encode(m, c)) == Heard([c], false) <==> Readable(m, r, c)
  {
    hide Add, Ignores, Escapes, DecodeAll;
    var ch := Add(c, OffsetOf(m));
    DecodePair(r, AT, ch);
    AddBack(c, OffsetOf(m), OffsetOf(r));
    assert Encode(m, c)[0] == AT && Encode(m, c)[1] == ch;
    assert [] + Decode(r, true, ch).bytes == Decode(r, true, ch).bytes;
  }

  /** One byte comes through alone exactly if it is readable. */
  lemma ByteComesThrough(m: Mode, r: Mode, c: byte)
    requires c == AT || !Ignores(r, AT)
    ensures DecodeAll(r, false, Encode(m, c)) == Heard([c], false) <==> Readable(m, r, c)
  {
    hide Add, Ignores, Escapes, DecodeAll;
    if c == AT {
      DecodePair(r, AT, SPACE);
      assert Encode(m, c)[0] == AT && Encode(m, c)[1] == SPACE;
    } else if Escapes(m, c) {
      EscapedComesThrough(m, r, c);
    } else {
      DecodeOne(r, false, c);
      assert Encode(m, c)[0] == c;
    }
  }

  lemma {:induction false} DecodeAppend(m: Mode, escaping: bool, s: bytes, t: bytes)
    ensures DecodeAll(m, escaping, s + t) ==
      var h := DecodeAll(m, escaping, s); var k := DecodeAll(m, h.escaping, t); Heard(h.bytes + k.bytes, k.escaping)
    decreases |s|
  {
    hide Decode;
    if s == [] {
      assert s + t == t;
      assert [] + DecodeAll(m, escaping, t).bytes == DecodeAll(m, escaping, t).bytes;
    } else {
      var h := Decode(m, escaping, s[0]);
      assert (s + t)[1..] == s[1..] + t;
      DecodeAppend(m, h.escaping, s[1..], t);
      var k := DecodeAll(m, h.escaping, s[1..]);
      var l := DecodeAll(m, k.escaping, t);
      assert h.bytes + (k.bytes + l.bytes) == (h.bytes + k.bytes) + l.bytes;
    }
  }

  lemma {:induction false} DataComesThrough(m: Mode, r: Mode, data: bytes)
    requires Usable(m, r)
    ensures DecodeAll(r, false, EncodeAll(m, data)) == Heard(data, false)
    decreases |data|
  {
    hide Encode, Decode, Readable, Ignores, Usable;
    if data != [] {
      UsableForAll(m, r, data[0]);
      UsableForAll(m, r, AT);
      AtIsSent(m, r);
      ByteComesThrough(m, r, data[0]);
      DecodeAppend(r, false, Encode(m, data[0]), EncodeAll(m, data[1..]));
      DataComesThrough(m, r, data[1..]);
    }
  }

  lemma UsableForAll(m: Mode, r: Mode, c: byte)
    requires Usable(m, r)
    ensures Readable(m, r, c)
  {
  }

  lemma AtIsSent(m: Mode, r: Mode)
    ensures Readable(m, r, AT) ==> !Ignores(r, AT)
  {
    assert Encode(m, AT)[0] == AT;
  }

  /**
   An escaping encoding carries every byte string if and only if the settings of the two ends are
   usable together.  The user's guide asks only that no substitute be CAN or a space.
   */
  lemma TransparentExactlyIfUsable(m: Mode, r: Mode)
    ensures (forall data: bytes :: DecodeAll(r, false, EncodeAll(m, data)) == Heard(data, false)) <==> Usable(m, r)
  {
    if Usable(m, r) {
      forall data: bytes
        ensures DecodeAll(r, false, EncodeAll(m, data)) == Heard(data, false)
      {
        DataComesThrough(m, r, data);
      }
    } else {
      AtIsSent(m, r);
      var c: byte :| !Readable(m, r, c) && (Ignores(r, AT) ==> c == AT);
      ByteComesThrough(m, r, c);
      assert EncodeAll(m, [c]) == Encode(m, c) + EncodeAll(m, []) == Encode(m, c);
      assert DecodeAll(r, false, EncodeAll(m, [c])) != Heard([c], false);
    }
  }

  /** The user's guide's own condition is not enough: an ignored character that is also sent is lost. */
  lemma IgnoringSentCharactersLosesData()
    ensures var m := Explicit([], [65], 64);
      (forall c: byte :: Escapes(m, c) ==> Add(c, 64) != CAN && Add(c, 64) != SPACE) &&
      DecodeAll(m, false, EncodeAll(m, [65])) == Heard([], false)
  {
    var m := Explicit([], [65], 64);
    assert EncodeAll(m, [65]) == [65] + EncodeAll(m, []) == [65];
    DecodeOne(m, false, 65);
  }

  /** Nor is it enough that each end meets it: different offsets garble CAN itself. */
  lemma DifferentOffsetsGarble()
    ensures Usable(Explicit([], [], 64), Explicit([], [], 64)) && Usable(Explicit([], [], 65), Explicit([], [], 65))
    ensures DecodeAll(Explicit([], [], 65), false, EncodeAll(Explicit([], [], 64), [CAN])) == Heard([CAN - 1], false)
  {
    var m, r := Explicit([], [], 64), Explicit([], [], 65);
    forall c: byte ensures Readable(m, m, c) && Readable(r, r, c) {
    }
    assert EncodeAll(m, [CAN]) == Encode(m, CAN) + EncodeAll(m, []) == [AT, 88];
    DecodePair(r, AT, 88);
    assert [] + [CAN - 1] == [CAN - 1];
  }

  // ---------------------------------------------------------------------------------------------
  // What never goes over the line
  // ---------------------------------------------------------------------------------------------

  predicate Forbidden(m: Mode, ch: byte)
    requires !m.Explicit?
  {
    ch == CAN ||
    match m
    case E8Bit => false
    case E8NoCtrl => ch < 32
    case E8NoX => ch == 17 || ch == 19
    case E8NoHiX => ch % 128 == 17 || ch % 128 == 19
  }

  lemma {:induction false} NothingForbiddenIsSent(m: Mode, data: bytes)
    requires !m.Explicit?
    ensures forall ch <- EncodeAll(m, data) :: !Forbidden(m, ch)
    decreases |data|
  {
    if data != [] {
      hide Forbidden, Encode;
      NothingForbiddenIsSent(m, data[1..]);
      NoneForbidden(m, data[0]);
    }
  }

  lemma NoneForbidden(m: Mode, c: byte)
    requires !m.Explicit?
    ensures forall ch <- Encode(m, c) :: !Forbidden(m, ch)
  {
  }

  /** PacketReceiveData called once for each piece of the input. */
  function DecodeInPieces(m: Mode, escaping: bool, pieces: seq<bytes>): Heard
    decreases |pieces|
  {
    if pieces == [] then Heard([], escaping)
    else
      var h := DecodeAll(m, escaping, pieces[0]);
      var k := DecodeInPieces(m, h.escaping, pieces[1..]);
      Heard(h.bytes + k.bytes, k.escaping)
  }

  lemma {:induction false} PiecesDoNotMatter(m: Mode, escaping: bool, pieces: seq<bytes>)
    ensures DecodeInPieces(m, escaping, pieces) == DecodeAll(m, escaping, Concat(pieces))
    decreases |pieces|
  {
    if pieces != [] {
      DecodeAppend(m, escaping, pieces[0], Concat(pieces[1..]));
      PiecesDoNotMatter(m, DecodeAll(m, escaping, pieces[0]).escaping, pieces[1..]);
    }
  }

  /** From the reset state, with usable settings, the data come through whatever the pieces. */
  lemma LineIsTransparent(m: Mode, r: Mode, data: bytes, pieces: seq<bytes>)
    requires Usable(m, r) && Concat(pieces) == EncodeAll(m, data)
    ensures DecodeInPieces(r, false, pieces) == Heard(data, false)
  {
    PiecesDoNotMatter(r, false, pieces);
    DataComesThrough(m, r, data);
  }

  /**
   What a byte becomes in the fixed modes: '@' and a space for '@' itself, '@' and a character 64 further on
   for what the mode avoids, and otherwise the byte.
   */
  lemma FixedSubstitutes(m: Mode, c: byte)
    requires !m.Explicit?
    ensures Encode(m, c) ==
      if c == 64 then [64, 32] else if Forbidden(m, c) then [64, (c + 64) % 256] else [c]
    ensures Forbidden(m, c) <==>
      c == 24 || (m.E8NoCtrl? && c < 32) || (m.E8NoX? && (c == 17 || c == 19))
      || (m.E8NoHiX? && (c == 17 || c == 19 || c == 145 || c == 147))
  {
  }

  /** Nor does CAN, in any settings that can be used. */
  lemma {:induction false} NoCanIsSent(m: Mode, r: Mode, data: bytes)
    requires Usable(m, r)
    ensures CAN !in EncodeAll(m, data)
    decreases |data|
  {
    if data != [] {
      hide Usable, Encode;
      UsableForAll(m, r, data[0]);
      NoCanIsSent(m, r, data[1..]);
    }
  }

  // ---------------------------------------------------------------------------------------------
  // A pending '@'
  // ---------------------------------------------------------------------------------------------

  /** The characters of the input that are not ignored. */
  function Kept(m: Mode, s: bytes): bytes {
    if s == [] then [] else Kept(m, s[..|s| - 1]) + if Ignores(m, s[|s| - 1]) then [] else [s[|s| - 1]]
  }

  function AtsAtEnd(s: bytes): (n: nat)
    ensures n <= |s|
  {
    if s == [] || s[|s| - 1] != AT then 0 else 1 + AtsAtEnd(s[..|s| - 1])
  }

  /** The input ends in an odd number of '@', one that was pending counted if there is nothing else. */
  predicate EndsOdd(m: Mode, escaping: bool, s: bytes) {
    var k := Kept(m, s);
    AtsAtEnd(k) % 2 == if escaping && AtsAtEnd(k) == |k| then 0 else 1
  }

  /** One more character that is not ignored. */
  lemma AtsStep(k: bytes, c: byte)
    ensures AtsAtEnd(k + [c]) == if c == AT then 1 + AtsAtEnd(k) else 0
  {
    assert (k + [c])[..|k|] == k;
  }

  lemma EndsOddStep(m: Mode, escaping: bool, s: bytes, c: byte)
    ensures EndsOdd(m, escaping, s + [c]) <==>
      if Ignores(m, c) then EndsOdd(m, escaping, s) else c == AT && !EndsOdd(m, escaping, s)
  {
    hide Ignores, AtsAtEnd;
    assert (s + [c])[..|s|] == s;
    AtsStep(Kept(m, s), c);
    assert Kept(m, s) + [] == Kept(m, s);
  }

  /** What the input must look like for an '@' to be pending after it. */
  lemma {:induction false} PendingExactlyIf(m: Mode, escaping: bool, s: bytes)
    ensures DecodeAll(m, escaping, s).escaping <==> EndsOdd(m, escaping, s)
  {
    if s != [] {
      hide DecodeAll, EndsOdd, Ignores;
      var front, c := s[..|s| - 1], s[|s| - 1];
      PendingExactlyIf(m, escaping, front);
      assert s == front + [c];
      DecodeAppend(m, escaping, front, [c]);
      DecodeOne(m, DecodeAll(m, escaping, front).escaping, c);
      EndsOddStep(m, escaping, front, c);
    }
  }

  lemma {:induction false} PlainIsDecoded(s: bytes)
    requires AT !in s && CAN !in s
    ensures DecodeAll(E8Bit, false, s) == Heard(s, false)
    decreases |s|
  {
    if s != [] { PlainIsDecoded(s[1..]); }
  }

  /** What is ignored might as well not have come. */
  lemma {:induction false} IgnoredIsIgnored(m: Mode, escaping: bool, s: bytes)
    ensures DecodeAll(m, escaping, s) == DecodeAll(m, escaping, Kept(m, s))
  {
    if s != [] {
      hide DecodeAll, Ignores;
      var front, c := s[..|s| - 1], s[|s| - 1];
      IgnoredIsIgnored(m, escaping, front);
      assert s == front + [c];
      DecodeAppend(m, escaping, front, [c]);
      DecodeAppend(m, escaping, Kept(m, front), [c]);
      DecodeOne(m, DecodeAll(m, escaping, front).escaping, c);
      var h := DecodeAll(m, escaping, front);
      assert h.bytes + [] == h.bytes && Kept(m, front) + [] == Kept(m, front);
    }
  }

  /** A byte whose substitute is an '@' itself. */
  predicate SentAsTwoAts(m: Mode, c: byte) { Encode(m, c) == [AT, AT] }

  lemma DifferentSubstitutes(m: Mode, a: byte, b: byte)
    requires a != b
    ensures !(SentAsTwoAts(m, a) && SentAsTwoAts(m, b))
  {
    hide Add, Escapes;
    if Encode(m, a) == Encode(m, b) == [AT, AT] { AddSame(a, b, OffsetOf(m)); }
  }

  lemma AddSame(a: byte, b: byte, offset: int)
    requires Add(a, offset) == Add(b, offset)
    ensures a == b
  {
    assert a - b == 256 * ((a + offset) / 256 - (b + offset) / 256);
  }

  lemma ThereAndBack(c: byte, d: byte, there: int, back: int)
    requires (there - back) % 256 == 0
    ensures Add(c, there) == d <==> Add(d, -back) == c
  {
  }

  lemma Unmoved(c: byte, offset: int)
    ensures Add(c, offset) == c <==> offset % 256 == 0
  {
  }

  /** CAN is always escaped, and its substitute is another character: so the offset moves every byte. */
  lemma OffsetMoves(m: Mode, r: Mode, c: byte)
    requires Usable(m, r)
    ensures Add(c, -OffsetOf(r)) != c && (Add(c, OffsetOf(m)) == AT <==> Add(AT, -OffsetOf(r)) == c)
  {
    assert Readable(m, r, CAN) && Encode(m, CAN)[1] == Add(CAN, OffsetOf(m)) && Add(CAN, OffsetOf(m)) in Encode(m, CAN);
    Unmoved(CAN, OffsetOf(m));
    Unmoved(c, OffsetOf(m));
    ThereAndBack(c, AT, OffsetOf(m), OffsetOf(r));
    ThereAndBack(c, c, OffsetOf(m), OffsetOf(r));
  }

  /** The first character of a byte's encoding, read behind a pending '@'. */
  lemma FirstBehindAt(m: Mode, r: Mode, c: byte, more: bytes)
    requires Usable(m, r)
    ensures var d := DecodeAll(r, true, Encode(m, c) + more);
      && d.bytes != []
      && (d.bytes[0] == c <==> SentAsTwoAts(m, c))
      && (SentAsTwoAts(m, c) ==> d.bytes == [c] + DecodeAll(r, true, more).bytes)
  {
    hide Add, Ignores, Usable, DecodeAll;
    UsableForAll(m, r, c);
    OffsetMoves(m, r, c);
    OffsetMoves(m, r, AT);
    var ch, s := Encode(m, c)[0], Encode(m, c)[1..] + more;
    assert Encode(m, c) + more == [ch] + s;
    assert ch in Encode(m, c);
    DecodeFirstOf(r, true, ch, s);
    if SentAsTwoAts(m, c) {
      assert s == [AT] + more;
      DecodeFirstOf(r, false, AT, more);
    }
  }

  lemma DecodeFirstOf(m: Mode, escaping: bool, ch: byte, s: bytes)
    ensures var h := Decode(m, escaping, ch); var t := DecodeAll(m, h.escaping, s);
      DecodeAll(m, escaping, [ch] + s) == Heard(h.bytes + t.bytes, t.escaping)
  {
    assert ([ch] + s)[1..] == s;
  }

  /**
   Behind a pending '@' the encoding of `data` is not read as `data`, whatever comes after it, unless
   the substitutes of all its bytes are '@'.
   */
  lemma {:induction false} GarbledBehindAt(m: Mode, r: Mode, data: bytes, more: bytes)
    requires Usable(m, r)
    ensures data <= DecodeAll(r, true, EncodeAll(m, data) + more).bytes <==> forall c <- data :: SentAsTwoAts(m, c)
    decreases |data|
  {
    hide Usable, Encode, DecodeAll, SentAsTwoAts;
    if data != [] {
      var c, rest := data[0], data[1..];
      FirstBehindAt(m, r, c, EncodeAll(m, rest) + more);
      Regroup(Encode(m, c), EncodeAll(m, rest), more);
      GarbledBehindAt(m, r, rest, more);
      assert data == [c] + rest;
    }
  }

  // ---------------------------------------------------------------------------------------------
  // TransmitData and PacketReceiveData
  // ---------------------------------------------------------------------------------------------

  lemma {:induction false} EncodeAppend(m: Mode, data: bytes, more: bytes)
    ensures EncodeAll(m, data + more) == EncodeAll(m, data) + EncodeAll(m, more)
    decreases |data|
  {
    hide Encode;
    if data == [] {
      assert data + more == more;
    } else {
      assert (data + more)[1..] == data[1..] + more;
      EncodeAppend(m, data[1..], more);
      Regroup(Encode(m, data[0]), EncodeAll(m, data[1..]), EncodeAll(m, more));
    }
  }

  lemma EncodeOne(m: Mode, c: byte)
    ensures EncodeAll(m, [c]) == Encode(m, c)
  {
    assert Encode(m, c) + EncodeAll(m, []) == Encode(m, c);
  }

  /** The search of TransmitData and PacketReceiveData through a list of characters. */
  method Search(list: bytes, c: byte) returns (i: nat)
    ensures i <= |list| && (i < |list| <==> c in list)
  {
    i := 0;
    while i < |list|
      invariant i <= |list| && c !in list[..i]
    {
      if list[i] == c {
        break;
      }
      i := i + 1;
    }
  }

  /** The characters for one byte are stored at `at`; strcpy stores a NUL after its two. */
  method Store(m: Mode, c: byte, out: array<byte>, at: nat) returns (at': nat)
    requires at + 2 < out.Length
    modifies out
    ensures at' <= at + 2
    ensures out[..at'] == old(out[..at]) + Encode(m, c)
  {
    if c == AT {
      StrCpy(out, at, AT, SPACE);
      at' := at + 2;
    } else if c == CAN && m.Explicit? {
      out[at] := AT;
      out[at + 1] := Add(c, m.offset);
      at' := at + 2;
    } else if m.Explicit? {
      var i := Search(m.escaped, c);
      if i < |m.escaped| {
        out[at] := AT;
        out[at + 1] := Add(c, m.offset);
        at' := at + 2;
      } else {
        out[at] := c;
        at' := at + 1;
      }
    } else if c == CAN {
      StrCpy(out, at, AT, 88);
      at' := at + 2;
    } else if (m.E8NoX? || m.E8NoHiX?) && c == 19 {
      StrCpy(out, at, AT, 83);
      at' := at + 2;
    } else if (m.E8NoX? || m.E8NoHiX?) && c == 17 {
      StrCpy(out, at, AT, 81);
      at' := at + 2;
    } else if m.E8NoHiX? && c == 147 {
      StrCpy(out, at, AT, 211);
      at' := at + 2;
    } else if m.E8NoHiX? && c == 145 {
      StrCpy(out, at, AT, 209);
      at' := at + 2;
    } else if m.E8NoCtrl? && c < 32 {
      out[at] := AT;
      out[at + 1] := Add(c, 64);
      at' := at + 2;
    } else {
      out[at] := c;
      at' := at + 1;
    }
  }

  method StrCpy(out: array<byte>, at: nat, a: byte, b: byte)
    requires at + 2 < out.Length
    modifies out
    ensures out[..at + 2] == old(out[..at]) + [a, b]
  {
    out[at] := a;
    out[at + 1] := b;
    out[at + 2] := 0;
  }

  /** TransmitData in the escaping encodings. */
  method TransmitData(m: Mode, data: bytes) returns (s: bytes)
    ensures s == EncodeAll(m, data)
  {
    hide Encode;
    var pchDataOut := new byte[2 * |data| + 1];
    var iIn: nat, iOut: nat := 0, 0;
    while iIn < |data|
      invariant iIn <= |data| && iOut <= 2 * iIn
      invariant pchDataOut[..iOut] == EncodeAll(m, data[..iIn])
    {
      EncodeAppend(m, data[..iIn], [data[iIn]]);
      EncodeOne(m, data[iIn]);
      assert data[..iIn + 1] == data[..iIn] + [data[iIn]];
      iOut := Store(m, data[iIn], pchDataOut, iOut);
      iIn := iIn + 1;
    }
    assert data[..iIn] == data;
    s := pchDataOut[..iOut];
  }

  lemma DecodeFirst(m: Mode, escaping: bool, data: bytes, i: nat)
    requires i < |data|
    ensures var h := Decode(m, escaping, data[i]);
      var t := DecodeAll(m, h.escaping, data[i + 1..]);
      DecodeAll(m, escaping, data[i..]) == Heard(h.bytes + t.bytes, t.escaping)
  {
    assert data[i..][1..] == data[i + 1..];
  }

  lemma DecodeNothing(m: Mode, escaping: bool, s: bytes)
    requires s == []
    ensures DecodeAll(m, escaping, s) == Heard([], escaping)
  {
  }

  class EscapeDecoder {
    const mode: Mode
    /** nBits: 1 after an '@'.  (The values 2 and 3 the program also tests for are never stored.) */
    var nBits: nat
    var nCtlX: nat

    ghost predicate Valid()
      reads this
    {
      nBits <= 1
    }

    constructor (m: Mode)
      ensures mode == m && Valid() && nBits == 0 && nCtlX == 0
    {
      mode := m;
      nBits, nCtlX := 0, 0;
    }

    /** PacketReceiveData(0, 0), for this part: a pending '@' is forgotten. */
    method ReceiveTimeout()
      requires Valid()
      modifies this
      ensures Valid() && nBits == 0 && nCtlX == old(nCtlX)
    {
      nBits := 0;
    }

    /** One character of the input; `exits` tells that Shutdown is called. */
    method Receive(cIn: byte) returns (out: bytes, exits: bool)
      requires Valid()
      modifies this
      ensures Valid() && |out| <= 1
      ensures Cans(nCtlX, exits) == Count(Cans(old(nCtlX), false), cIn)
      ensures Heard(out, nBits == 1) == Decode(mode, old(nBits) == 1, cIn)
    {
      out, exits := [], false;
      if cIn == CAN {
        nCtlX := nCtlX + 1;
        if nCtlX >= 5 {
          exits := true;
        }
        return;
      }
      nCtlX := 0;
      if mode.Explicit? {
        var i := Search(mode.ignored, cIn);
        if i < |mode.ignored| {
          return;
        }
      }
      if nBits == 1 {
        out := [if cIn == SPACE then AT else Add(cIn, -OffsetOf(mode))];
        nBits := 0;
      } else if cIn == AT {
        nBits := 1;
      } else {
        out := [cIn];
      }
    }

    /** PacketReceiveData in the escaping encodings; five CANs in a row shut the program down. */
    method PacketReceiveData(data: bytes) returns (out: bytes, exits: bool)
      requires Valid()
      modifies this
      ensures Valid() && |out| <= |data|
      ensures Cans(nCtlX, exits) == CountAll(Cans(old(nCtlX), false), data)
      ensures Heard(out, nBits == 1) == DecodeAll(mode, old(nBits) == 1, data)
    {
      hide Decode, DecodeAll, Count, CountAll;
      var pchDataOut := new byte[|data|];
      var i, iOut := 0, 0;
      exits := false;
      assert data[i..] == data && pchDataOut[..iOut] == [];
      while i < |data|
        invariant iOut <= i <= |data| && Valid()
        invariant CountAll(Cans(nCtlX, exits), data[i..]) == CountAll(Cans(old(nCtlX), false), data)
        invariant var h := DecodeAll(mode, nBits == 1, data[i..]);
          Heard(pchDataOut[..iOut] + h.bytes, h.escaping) == DecodeAll(mode, old(nBits) == 1, data)
      {
        ghost var done := pchDataOut[..iOut];
        DecodeFirst(mode, nBits == 1, data, i);
        CountNext(Cans(nCtlX, exits), data, i);
        CountKeepsFive(Cans(nCtlX, exits), data[i]);
        var next, five := Receive(data[i]);
        exits := exits || five;
        if next != [] {
          pchDataOut[iOut] := next[0];
          iOut := iOut + 1;
        }
        i := i + 1;
        assert pchDataOut[..iOut] == done + next;
        Regroup(done, next, DecodeAll(mode, nBits == 1, data[i..]).bytes);
      }
      out := pchDataOut[..iOut];
      DecodeNothing(mode, nBits == 1, data[i..]);
      CountNothing(Cans(nCtlX, exits), data[i..]);
      assert out + [] == out;
    }
  }
}
