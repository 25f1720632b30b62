/** A call as a message: winsock.c lays it out, commands.c finds its arguments and drops one in place. */
module Requests {
  import opened Wrappers
  import opened Bytes

  const HEADER := REQUEST_HEADER

  const AT_Int16: word := 1
  const AT_Int32: word := 2
  const AT_Int16Ptr: word := 3
  const AT_Int32Ptr: word := 4
  const AT_Char: word := 5

  /** An argument or a result: its type and its value, as bytes. */
  datatype Arg = Arg(kind: word, data: bytes)

  predicate Sized(a: Arg) { |a.data| < 0x10000 }

  // ---------------------------------------------------------------------------------------------
  // Layout
  // ---------------------------------------------------------------------------------------------

  function ArgBytes(a: Arg): (b: bytes)
    requires Sized(a)
    ensures |b| == 4 + |a.data|
  {
    Short(a.kind) + Short(|a.data|) + a.data
  }

  predicate AllSized(all: seq<Arg>) { forall a <- all :: Sized(a) }

  function Body(all: seq<Arg>): bytes
    requires AllSized(all)
  {
    if all == [] then [] else ArgBytes(all[0]) + Body(all[1..])
  }

  /** The whole message for a call; the length field keeps only the low 16 bits. */
  function Message(fn: word, args: seq<Arg>, result: Arg, id: word): bytes
    requires AllSized(args) && Sized(result) && |args| < 0x10000
  {
    Short(fn) + Short(|args|) + Short((HEADER + |Body(args + [result])|) % 0x10000) + Short(id) + Short(0)
    + Body(args + [result])
  }

  /** The first `n` arguments of `b`, if they are all there. */
  function Parse(b: bytes, n: nat): Option<seq<Arg>> {
    if n == 0 then Some([])
    else if |b| < 4 || |b| < 4 + ShortAt(b, 2) then None
    else
      var len := ShortAt(b, 2);
      match Parse(b[4 + len..], n - 1)
      case None => None
      case Some(all) => Some([Arg(ShortAt(b, 0), b[4..4 + len])] + all)
  }

  lemma ParseOne(a: Arg, rest: bytes)
    requires Sized(a)
    ensures var b := ArgBytes(a) + rest;
      && |b| >= 4 && ShortAt(b, 0) == a.kind && ShortAt(b, 2) == |a.data|
      && b[4..4 + |a.data|] == a.data && b[4 + |a.data|..] == rest
  {
  }

  /** What was laid out is found again, whatever follows. */
  lemma {:induction false} ParseBody(all: seq<Arg>, rest: bytes)
    requires AllSized(all)
    ensures Parse(Body(all) + rest, |all|) == Some(all)
  {
    hide ArgBytes, Sized;
    if all == [] {
      Nothing(Body(all) + rest);
    } else {
      BodyStep(all, 0);
      var more := Body(all[1..]) + rest;
      ParseOne(all[0], more);
      Regroup(ArgBytes(all[0]), Body(all[1..]), rest);
      ParseBody(all[1..], rest);
      assert all[0..] == all && all == [all[0]] + all[1..];
    }
  }

  /** And what is found is what was laid out. */
  lemma {:induction false} BodyOfParse(b: bytes, n: nat)
    requires Parse(b, n).Some?
    ensures var all := Parse(b, n).value;
      && |all| == n && AllSized(all)
      && Body(all) <= b
  {
    hide Parse, ArgBytes, ShortAt;
    if n > 0 {
      ParseFirst(b, n);
      var len := ShortAt(b, 2);
      BodyOfParse(b[4 + len..], n - 1);
      LaidOutAsRead(b);
      InFront(Arg(ShortAt(b, 0), b[4..4 + len]), Parse(b[4 + len..], n - 1).value, b);
    } else {
      Nothing(b);
    }
  }

  lemma InFront(a: Arg, all: seq<Arg>, b: bytes)
    requires Sized(a) && AllSized(all) && ArgBytes(a) <= b && Body(all) <= b[|ArgBytes(a)|..]
    ensures AllSized([a] + all) && Body([a] + all) <= b
  {
    hide ArgBytes;
    assert ([a] + all)[1..] == all;
    assert b == ArgBytes(a) + b[|ArgBytes(a)|..];
  }

  lemma LaidOutAsRead(b: bytes)
    requires |b| >= 4 && |b| >= 4 + ShortAt(b, 2)
    ensures var len := ShortAt(b, 2); ArgBytes(Arg(ShortAt(b, 0), b[4..4 + len])) == b[..4 + len]
  {
    assert b[0..2] == Short(ShortAt(b, 0)) && b[2..4] == Short(ShortAt(b, 2));
    assert b[..4 + ShortAt(b, 2)] == b[0..2] + b[2..4] + b[4..4 + ShortAt(b, 2)];
  }

  lemma {:induction false} BodyAppend(xs: seq<Arg>, ys: seq<Arg>)
    requires AllSized(xs) && AllSized(ys)
    ensures AllSized(xs + ys) && Body(xs + ys) == Body(xs) + Body(ys)
  {
    if xs == [] {
      assert xs + ys == ys;
    } else {
      assert (xs + ys)[1..] == xs[1..] + ys;
      BodyAppend(xs[1..], ys);
    }
  }

  lemma BodyOne(a: Arg)
    requires Sized(a)
    ensures Body([a]) == ArgBytes(a)
  {
    assert [a][1..] == [];
  }

  // ---------------------------------------------------------------------------------------------
  // Values
  // ---------------------------------------------------------------------------------------------

  /** How many bytes a value of this type has; a string or a block may have any number. */
  predicate HasWidth(a: Arg) {
    && (a.kind in {AT_Int16, AT_Int16Ptr} ==> |a.data| == 2)
    && (a.kind in {AT_Int32, AT_Int32Ptr} ==> |a.data| == 4)
    && (a.kind == AT_Char ==> |a.data| == 1)
  }

  /** CopyDataOut and CopyDataIn: Windows has the low byte first, the network the high byte. */
  function Swapped(a: Arg): (r: Arg)
    requires HasWidth(a)
    ensures r.kind == a.kind && |r.data| == |a.data|
  {
    if a.kind in {AT_Int16, AT_Int16Ptr} then Arg(a.kind, [a.data[1], a.data[0]])
    else if a.kind in {AT_Int32, AT_Int32Ptr} then Arg(a.kind, [a.data[3], a.data[2], a.data[1], a.data[0]])
    else a
  }

  function AllSwapped(all: seq<Arg>): (r: seq<Arg>)
    requires forall a <- all :: HasWidth(a)
    ensures |r| == |all| && forall i :: 0 <= i < |all| ==> r[i] == Swapped(all[i])
  {
    seq(|all|, i requires 0 <= i < |all| => Swapped(all[i]))
  }

  /** The host finds each argument's type and value, and a reply that echoes them gives the caller its own back. */
  lemma ArgumentsArrive(fn: word, args: seq<Arg>, result: Arg, id: word)
    requires |args| < 0x10000 && AllSized(args) && Sized(result)
    requires HasWidth(result) && forall a <- args :: HasWidth(a)
    ensures AllSized(AllSwapped(args)) && Sized(Swapped(result))
    ensures var m := Message(fn, AllSwapped(args), Swapped(result), id);
      && |m| >= HEADER && ShortAt(m, 0) == fn && ShortAt(m, 2) == |args| && ShortAt(m, 6) == id
      && (|m| < 0x10000 ==> ShortAt(m, 4) == |m|)
      && var all := Parse(m[HEADER..], ShortAt(m, 2) + 1);
      && all.Some?
      && |all.value| == |args| + 1
      && (forall i :: 0 <= i < |args| ==> HasWidth(all.value[i]) && Swapped(all.value[i]) == args[i])
      && HasWidth(all.value[|args|]) && Swapped(all.value[|args|]) == result
  {
    hide Parse, Body;
    var sent, back := AllSwapped(args), Swapped(result);
    var m := Message(fn, sent, back, id);
    ParseBody(sent + [back], []);
    assert m[HEADER..] == Body(sent + [back]) + [];
  }

  /** A number as Windows has it in memory, low byte first. */
  function LowFirst(b: bytes): nat { if b == [] then 0 else b[0] + 256 * LowFirst(b[1..]) }

  /** And as it comes over the line, high byte first. */
  function HighFirst(b: bytes): nat { if b == [] then 0 else 256 * HighFirst(b[..|b| - 1]) + b[|b| - 1] }

  /** What the caller's value is on the line: an integer, by value or by reference, is the same number; else the same bytes. */
  predicate Carries(sent: bytes, a: Arg) {
    |sent| == |a.data| && if 1 <= a.kind <= 4 then HighFirst(sent) == LowFirst(a.data) else sent == a.data
  }

  lemma SwappedIsSame(a: Arg)
    requires HasWidth(a)
    ensures Carries(Swapped(a).data, a)
  {
    var b, s := a.data, Swapped(a).data;
    if |b| == 2 {
      TwoBytes(b);
      TwoBytes(s);
    } else if |b| == 4 {
      FourBytes(b);
      FourBytes(s);
    }
  }

  lemma OneByte(b: bytes)
    requires |b| == 1
    ensures LowFirst(b) == HighFirst(b) == b[0]
  {
  }

  lemma TwoBytes(b: bytes)
    requires |b| == 2
    ensures LowFirst(b) == b[0] as int + 256 * b[1] as int && HighFirst(b) == 256 * b[0] as int + b[1] as int
  {
    OneByte(b[1..]);
    OneByte(b[..1]);
  }

  lemma FourBytes(b: bytes)
    requires |b| == 4
    ensures LowFirst(b) == b[0] as int + 256 * (b[1] as int + 256 * (b[2] as int + 256 * b[3] as int))
    ensures HighFirst(b) == 256 * (256 * (256 * b[0] as int + b[1] as int) + b[2] as int) + b[3] as int
  {
    TwoBytes(b[2..]);
    TwoBytes(b[..2]);
    assert b[1..][1..] == b[2..] && b[..3][..2] == b[..2];
    assert LowFirst(b[1..]) == b[1] + 256 * LowFirst(b[2..]) && HighFirst(b[..3]) == 256 * HighFirst(b[..2]) + b[2];
  }

  /** Where the `i`th argument starts. */
  function PlaceOf(args: seq<Arg>, i: nat): (at: nat)
    requires i <= |args|
    ensures at >= 10
  {
    if i == 0 then 10 else PlaceOf(args, i - 1) + 4 + |args[i - 1].data|
  }

  /** At `at` lie the argument's type, its length and its value. */
  predicate Arrives(m: bytes, at: nat, a: Arg) {
    && at + 4 + |a.data| <= |m|
    && HighFirst(m[at..at + 2]) == a.kind && HighFirst(m[at + 2..at + 4]) == |a.data|
    && Carries(m[at + 4..at + 4 + |a.data|], a)
  }

  /** The arguments and the result lie in the message one after the other, integers high byte first. */
  lemma ValuesArrive(fn: word, args: seq<Arg>, result: Arg, id: word)
    requires |args| < 0x10000 && AllSized(args) && Sized(result)
    requires HasWidth(result) && forall a <- args :: HasWidth(a)
    ensures AllSized(AllSwapped(args)) && Sized(Swapped(result))
    ensures var m, all := Message(fn, AllSwapped(args), Swapped(result), id), args + [result];
      |m| == PlaceOf(all, |all|) && forall i :: 0 <= i < |all| ==> Arrives(m, PlaceOf(all, i), all[i])
  {
    hide Parse, Body, ArgBytes, Swapped, Arrives, HasWidth, Sized;
    ArgumentsArrive(fn, args, result, id);
    var all := args + [result];
    assert AllSwapped(all) == AllSwapped(args) + [Swapped(result)];
    var m := Message(fn, AllSwapped(args), Swapped(result), id);
    forall i | 0 <= i < |all|
      ensures Arrives(m, PlaceOf(all, i), all[i])
    {
      LiesThere(all, i);
      RegroupBody(m[..HEADER], Body(AllSwapped(all)[..i]), ArgBytes(Swapped(all[i])), Body(AllSwapped(all)[i + 1..]));
      ArrivesThere(m, m[..HEADER] + Body(AllSwapped(all)[..i]), all[i], Body(AllSwapped(all)[i + 1..]));
    }
    PlaceIs(all, |all|);
    assert AllSwapped(all)[..|all|] == AllSwapped(all);
  }

  lemma RegroupBody(h: bytes, x: bytes, y: bytes, z: bytes)
    ensures h + (x + y + z) == (h + x) + y + z
  {
  }

  lemma LiesThere(all: seq<Arg>, i: nat)
    requires AllSized(all) && (forall a <- all :: HasWidth(a)) && i < |all|
    ensures HasWidth(all[i]) && Sized(all[i]) && AllSized(AllSwapped(all))
    ensures var s := AllSwapped(all);
      && AllSized(s[..i]) && AllSized(s[i + 1..]) && Sized(s[i])
      && Body(s) == Body(s[..i]) + ArgBytes(s[i]) + Body(s[i + 1..])
      && PlaceOf(all, i) == HEADER + |Body(s[..i])|
  {
    hide Body, ArgBytes, Swapped, HasWidth;
    var s := AllSwapped(all);
    assert all[i] in all;
    Prefix(all, 0);
    PlaceIs(all, i);
    SizeUpTo(s, i);
    assert s == s[..i + 1] + s[i + 1..];
    BodyAppend(s[..i + 1], s[i + 1..]);
  }

  lemma {:induction false} PlaceIs(args: seq<Arg>, i: nat)
    requires AllSized(args) && (forall a <- args :: HasWidth(a)) && i <= |args|
    ensures AllSized(AllSwapped(args)[..i]) && PlaceOf(args, i) == HEADER + |Body(AllSwapped(args)[..i])|
  {
    hide Body, ArgBytes, Swapped, HasWidth;
    Prefix(args, i);
    if i > 0 {
      PlaceIs(args, i - 1);
      Prefix(args, i - 1);
    } else {
      assert AllSwapped(args)[..0] == [];
    }
  }

  lemma ArrivesThere(m: bytes, front: bytes, a: Arg, rest: bytes)
    requires HasWidth(a) && Sized(a) && m == front + ArgBytes(Swapped(a)) + rest
    ensures Arrives(m, |front|, a)
  {
    hide HasWidth, Carries;
    SwappedIsSame(a);
    var b, n := ArgBytes(Swapped(a)), |front|;
    PartOf(front, b, rest, 0, 2);
    PartOf(front, b, rest, 2, 4);
    PartOf(front, b, rest, 4, |b|);
    assert b[0..2] == Short(a.kind) && b[2..4] == Short(|a.data|) && b[4..|b|] == Swapped(a).data;
    TwoBytes(m[n..n + 2]);
    TwoBytes(m[n + 2..n + 4]);
  }

  lemma PartOf(front: bytes, b: bytes, rest: bytes, i: nat, j: nat)
    requires i <= j <= |b|
    ensures (front + b + rest)[|front| + i..|front| + j] == b[i..j]
  {
  }

  // ---------------------------------------------------------------------------------------------
  // TransmitFunction
  // ---------------------------------------------------------------------------------------------

  /** CopyDataOut. */
  method CopyDataOut(m: array<byte>, at: nat, a: Arg)
    requires HasWidth(a) && at + |a.data| <= m.Length
    modifies m
    ensures m[at..at + |a.data|] == Swapped(a).data
    ensures forall i | 0 <= i < m.Length && !(at <= i < at + |a.data|) :: m[i] == old(m[i])
  {
    var data := Swapped(a).data;
    for i := 0 to |data|
      invariant m[at..at + i] == data[..i]
      invariant forall k | 0 <= k < m.Length && !(at <= k < at + |a.data|) :: m[k] == old(m[k])
    {
      m[at + i] := data[i];
    }
  }

  /** One argument is laid out at `at`. */
  method PutArg(m: array<byte>, at: nat, a: Arg) returns (at': nat)
    requires HasWidth(a) && Sized(a) && at + 4 + |a.data| <= m.Length
    modifies m
    ensures at' == at + 4 + |a.data| && m[..at'] == old(m[..at]) + ArgBytes(Swapped(a))
  {
    PutShort(m, at, a.kind);
    PutShort(m, at + 2, |a.data|);
    CopyDataOut(m, at + 4, a);
    at' := at + 4 + |a.data|;
    assert m[..at'] == m[..at] + m[at..at + 2] + m[at + 2..at + 4] + m[at + 4..at'];
  }

  lemma SizeUpTo(all: seq<Arg>, i: nat)
    requires AllSized(all) && i < |all|
    ensures AllSized(all[..i]) && AllSized(all[..i + 1]) && AllSized([all[i]])
    ensures Body(all[..i + 1]) == Body(all[..i]) + ArgBytes(all[i])
    ensures |Body(all[..i + 1])| <= |Body(all)|
  {
    assert all == all[..i + 1] + all[i + 1..];
    BodyAppend(all[..i + 1], all[i + 1..]);
    assert all[i] in all;
    assert all[..i + 1] == all[..i] + [all[i]];
    BodyAppend(all[..i], [all[i]]);
    BodyOne(all[i]);
  }

  /** Every way to lay out the first `i` of them. */
  lemma Prefix(args: seq<Arg>, i: nat)
    requires AllSized(args) && (forall a <- args :: HasWidth(a)) && i <= |args|
    ensures var all := AllSwapped(args);
      && AllSized(all) && AllSized(all[..i]) && Body([]) == []
      && (i < |args| ==>
            && args[i] in args && Sized(args[i]) && Sized(Swapped(args[i]))
            && Body(all[..i + 1]) == Body(all[..i]) + ArgBytes(Swapped(args[i]))
            && |Body(all[..i + 1])| == |Body(all[..i])| + 4 + |args[i].data|
            && |Body(all[..i + 1])| <= |Body(all)|)
  {
    hide Body, ArgBytes, Swapped;
    var all := AllSwapped(args);
    forall k | 0 <= k < |all| ensures Sized(all[k]) { assert args[k] in args; }
    Nothing([]);
    if i < |args| { SizeUpTo(all, i); }
  }

  /** The room for the arguments and the result. */
  method SizeOf(args: seq<Arg>, result: Arg) returns (size: nat)
    requires AllSized(args) && Sized(result) && HasWidth(result) && forall a <- args :: HasWidth(a)
    ensures AllSized(AllSwapped(args)) && size == HEADER + |Body(AllSwapped(args))| + 4 + |result.data|
  {
    hide Body, ArgBytes, Swapped, HasWidth, AllSized;
    size := HEADER;
    Prefix(args, 0);
    ghost var all := AllSwapped(args);
    assert all[..0] == [];
    for i := 0 to |args|
      invariant AllSized(all[..i]) && size == HEADER + |Body(all[..i])|
    {
      Prefix(args, i);
      size := size + |args[i].data| + 4;
      Prefix(args, i + 1);
    }
    assert all[..|args|] == all;
    size := size + |result.data| + 4;
  }

  method PutHeader(m: array<byte>, fn: word, nArgs: word, len: word, id: word)
    requires m.Length >= HEADER
    modifies m
    ensures m[..HEADER] == Short(fn) + Short(nArgs) + Short(len) + Short(id) + Short(0)
  {
    PutShort(m, 0, fn);
    PutShort(m, 2, nArgs);
    PutShort(m, 8, 0);
    PutShort(m, 4, len);
    PutShort(m, 6, id);
    assert m[..HEADER] == m[0..2] + m[2..4] + m[4..6] + m[6..8] + m[8..10];
  }

  /** The arguments are laid out one after the other from `at` on. */
  method PutArgs(m: array<byte>, args: seq<Arg>, at: nat) returns (at': nat)
    requires AllSized(args) && forall a <- args :: HasWidth(a)
    requires AllSized(AllSwapped(args)) && at + |Body(AllSwapped(args))| <= m.Length
    modifies m
    ensures at' == at + |Body(AllSwapped(args))| && m[..at'] == old(m[..at]) + Body(AllSwapped(args))
  {
    hide Body, ArgBytes, Swapped, HasWidth, AllSized, Sized;
    at' := at;
    ghost var all, before := AllSwapped(args), m[..at];
    Prefix(args, 0);
    assert all[..0] == [] && before + [] == before;
    for i := 0 to |args|
      invariant AllSized(all[..i]) && at' == at + |Body(all[..i])| <= m.Length
      invariant m[..at'] == before + Body(all[..i])
    {
      Prefix(args, i);
      at' := PutArg(m, at', args[i]);
      Prefix(args, i + 1);
      Regroup(before, Body(all[..i]), ArgBytes(Swapped(args[i])));
    }
    assert all[..|args|] == all;
  }

  /** The size is added up, and the message filled in from front to back. */
  method TransmitFunction(fn: word, args: seq<Arg>, result: Arg, id: word) returns (m: array<byte>)
    requires |args| < 0x10000 && AllSized(args) && Sized(result)
    requires HasWidth(result) && forall a <- args :: HasWidth(a)
    ensures fresh(m) && AllSized(AllSwapped(args)) && Sized(Swapped(result))
    ensures m[..] == Message(fn, AllSwapped(args), Swapped(result), id)
  {
    hide Body, ArgBytes, Swapped, HasWidth, AllSized;
    var size := SizeOf(args, result);
    m := new byte[size](_ => 0);
    ghost var all, back := AllSwapped(args), Swapped(result);
    Whole(all, result);
    PutHeader(m, fn, |args|, size % 0x10000, id);
    ghost var header := m[..HEADER];
    var at := PutArgs(m, args, HEADER);
    at := PutArg(m, at, result);
    assert m[..at] == m[..];
    Regroup(header, Body(all), ArgBytes(back));
  }

  lemma Whole(all: seq<Arg>, result: Arg)
    requires AllSized(all) && Sized(result) && HasWidth(result)
    ensures Sized(Swapped(result)) && AllSized(all + [Swapped(result)])
    ensures Body(all + [Swapped(result)]) == Body(all) + ArgBytes(Swapped(result))
    ensures |Body(all + [Swapped(result)])| == |Body(all)| + 4 + |result.data|
  {
    BodyAppend(all, [Swapped(result)]);
    BodyOne(Swapped(result));
  }

  // ---------------------------------------------------------------------------------------------
  // Get_Arguments
  // ---------------------------------------------------------------------------------------------

  /** Where an argument's value lies in its message. */
  datatype Field = Field(kind: word, at: nat, len: nat)

  /** The field describes the argument. */
  predicate Holds(m: bytes, f: Field, a: Arg) {
    f.kind == a.kind && f.len == |a.data| && f.at + f.len <= |m| && m[f.at..f.at + f.len] == a.data
  }

  predicate AllHold(m: bytes, fields: seq<Field>, all: seq<Arg>) {
    |fields| == |all| && forall i :: 0 <= i < |all| ==> Holds(m, fields[i], all[i])
  }

  lemma ParseFirst(b: bytes, n: nat)
    requires n > 0 && Parse(b, n).Some?
    ensures |b| >= 4 && |b| >= 4 + ShortAt(b, 2)
    ensures var len := ShortAt(b, 2);
      && Parse(b[4 + len..], n - 1).Some?
      && Parse(b, n).value == [Arg(ShortAt(b, 0), b[4..4 + len])] + Parse(b[4 + len..], n - 1).value
  {
  }

  lemma SameShorts(m: bytes, at: nat)
    requires at + 4 <= |m|
    ensures ShortAt(m[at..], 0) == ShortAt(m, at) && ShortAt(m[at..], 2) == ShortAt(m, at + 2)
  {
  }

  lemma ParseStep(m: bytes, at: nat, n: nat)
    requires n > 0 && at <= |m| && Parse(m[at..], n).Some?
    ensures at + 4 <= |m| && at + 4 + ShortAt(m, at + 2) <= |m|
    ensures var len := ShortAt(m, at + 2);
      var a := Arg(ShortAt(m, at), m[at + 4..at + 4 + len]);
      && Holds(m, Field(ShortAt(m, at), at + 4, len), a)
      && Parse(m[at + 4 + len..], n - 1).Some?
      && Parse(m[at..], n).value == [a] + Parse(m[at + 4 + len..], n - 1).value
  {
    hide Parse, ShortAt;
    var b := m[at..];
    ParseFirst(b, n);
    var len := ShortAt(b, 2);
    SameShorts(m, at);
    assert b[4 + len..] == m[at + 4 + len..];
    assert b[4..4 + len] == m[at + 4..at + 4 + len];
  }

  /** The arguments and, last, the result are found in the message; their values stay where they are. */
  method GetArguments(m: array<byte>) returns (fields: array<Field>)
    requires m.Length >= HEADER && Parse(m[HEADER..], ShortAt(m[..], 2) + 1).Some?
    ensures fresh(fields)
    ensures AllHold(m[..], fields[..], Parse(m[HEADER..], ShortAt(m[..], 2) + 1).value)
  {
    hide Parse, Holds;
    var n := ShortAt(m[..], 2) + 1;
    ghost var all := Parse(m[HEADER..], n).value;
    fields := new Field[n](_ => Field(0, 0, 0));
    var at: nat := HEADER;
    assert m[..][at..] == m[at..];
    ghost var done: seq<Arg> := [];
    for i := 0 to n
      invariant at <= m.Length && Parse(m[..][at..], n - i).Some?
      invariant all == done + Parse(m[..][at..], n - i).value
      invariant |done| == i && forall k :: 0 <= k < i ==> Holds(m[..], fields[k], done[k])
    {
      ParseStep(m[..], at, n - i);
      var len := ShortAt(m[..], at + 2);
      fields[i] := Field(ShortAt(m[..], at), at + 4, len);
      done := done + [Arg(ShortAt(m[..], at), m[..][at + 4..at + 4 + len])];
      at := at + 4 + len;
    }
    Nothing(m[..][at..]);
    assert done + [] == done;
  }

  lemma Nothing(b: bytes)
    ensures Body([]) == [] && Parse(b, 0) == Some([])
  {
  }

  // ---------------------------------------------------------------------------------------------
  // CompressArg
  // ---------------------------------------------------------------------------------------------

  /** The same, but one argument has lost its value. */
  function Emptied(all: seq<Arg>, k: nat): (r: seq<Arg>)
    ensures |r| == |all|
    ensures AllSized(all) ==> AllSized(r)
  {
    if k < |all| then all[k := Arg(all[k].kind, [])] else all
  }

  lemma EmptiedIs(all: seq<Arg>, k: nat)
    ensures var r := Emptied(all, k);
      && |r| == |all| && (AllSized(all) ==> AllSized(r))
      && forall i :: 0 <= i < |all| ==> r[i] == if i == k then Arg(all[i].kind, []) else all[i]
  {
  }

  /** Bytes move down, over themselves if need be. */
  method CopyDown(m: array<byte>, to: nat, from: nat, n: nat)
    requires to <= from && from + n <= m.Length
    modifies m
    ensures m[..to] == old(m[..to])
    ensures m[to..to + n] == old(m[from..from + n])
    ensures m[from + n..] == old(m[from + n..])
  {
    for j := 0 to n
      invariant m[..to] == old(m[..to])
      invariant m[to..to + j] == old(m[from..from + j])
      invariant m[from + j..] == old(m[from + j..])
    {
      assert m[from + j] == m[from + j..][0];
      m[to + j] := m[from + j];
    }
  }

  lemma BodyStep(all: seq<Arg>, i: nat)
    requires AllSized(all) && i < |all|
    ensures Sized(all[i]) && AllSized(all[i..]) && AllSized(all[i + 1..])
    ensures Body(all[i..]) == ArgBytes(all[i]) + Body(all[i + 1..])
  {
    assert all[i] in all;
    assert all[i..][1..] == all[i + 1..];
  }

  /** An argument loses its value where it stands. */
  method EmptyArg(m: array<byte>, at: nat, ghost a: Arg)
    requires Sized(a) && at + 4 + |a.data| <= m.Length && m[at..at + 4 + |a.data|] == ArgBytes(a)
    modifies m
    ensures m[..at] == old(m[..at]) && m[at + 4..] == old(m[at + 4..])
    ensures m[at..at + 4] == ArgBytes(Arg(a.kind, []))
  {
    assert m[at..at + 2] == ArgBytes(a)[..2] == Short(a.kind);
    PutShort(m, at + 2, 0);
    assert m[at..at + 4] == m[at..at + 2] + m[at + 2..at + 4];
  }

  lemma FrontOf(b: bytes, x: bytes, rest: bytes)
    requires x + rest <= b
    ensures |x| <= |b| && b[..|x|] == x && rest <= b[|x|..]
  {
  }

  /** One argument moves down, and loses its value if `empty`. */
  method MoveArg(m: array<byte>, to: nat, from: nat, len: nat, empty: bool, ghost a: Arg, ghost rest: bytes)
      returns (to': nat)
    requires Sized(a) && len == |a.data| && to <= from <= m.Length && ArgBytes(a) + rest <= m[from..]
    modifies m
    ensures var kept := if empty then Arg(a.kind, []) else a;
      to' == to + 4 + |kept.data| <= from + 4 + len <= m.Length && m[..to'] == old(m[..to]) + ArgBytes(kept)
    ensures rest <= m[from + 4 + len..]
  {
    hide ArgBytes;
    FrontOf(m[from..], ArgBytes(a), rest);
    assert m[from..][..4 + len] == m[from..from + 4 + len] && m[from..][4 + len..] == m[from + 4 + len..];
    CopyDown(m, to, from, len + 4);
    to' := to + 4 + len;
    if empty {
      EmptyArg(m, to, a);
      assert m[from + 4 + len..] == m[to + 4..][from + len - to..];
      to' := to + 4;
    }
    assert m[..to'] == m[..to] + m[to..to'];
  }

  /**
   The arguments move down over the one that is dropped.  The message now holds the same arguments
   and result, that one empty, and its length field says how long it has become.
   */
  method CompressArg(m: array<byte>, fields: array<Field>, k: nat, ghost all: seq<Arg>) returns (len: nat)
    requires m.Length >= HEADER && AllSized(all) && Body(all) <= m[HEADER..]
    requires fields.Length == |all| && forall i :: 0 <= i < |all| ==> fields[i].len == |all[i].data|
    modifies m, fields
    ensures len == HEADER + |Body(Emptied(all, k))| <= m.Length
    ensures m[HEADER..len] == Body(Emptied(all, k))
    ensures m[..HEADER] == old(m[..4]) + Short(len % 0x10000) + old(m[6..HEADER])
    ensures forall i :: 0 <= i < |all| ==> fields[i].len == |Emptied(all, k)[i].data|
  {
    hide Body, ArgBytes, Sized, Emptied;
    ghost var all' := Emptied(all, k);
    EmptiedIs(all, k);
    ghost var header := m[..HEADER];
    var from, to := HEADER, HEADER;
    Nothing([]);
    assert all[0..] == all && all'[..0] == [] && header + [] == header;
    for i := 0 to fields.Length
      invariant HEADER <= to <= from <= m.Length && AllSized(all[i..]) && Body(all[i..]) <= m[from..]
      invariant AllSized(all'[..i]) && m[..to] == header + Body(all'[..i])
      invariant forall j :: 0 <= j < |all| ==> fields[j].len == |(if j < i then all' else all)[j].data|
    {
      BodyStep(all, i);
      SizeUpTo(all', i);
      var n := fields[i].len;
      to := MoveArg(m, to, from, n, i == k, all[i], Body(all[i + 1..]));
      Regroup(header, Body(all'[..i]), ArgBytes(all'[i]));
      from := from + 4 + n;
      if i == k {
        fields[i] := fields[i].(len := 0);
      }
    }
    assert all'[..|all|] == all';
    len := to;
    assert m[..HEADER] == m[..to][..HEADER] && m[HEADER..len] == m[..to][HEADER..];
    SetLength(m, len);
  }

  method SetLength(m: array<byte>, len: nat)
    requires HEADER <= len <= m.Length
    modifies m
    ensures m[..HEADER] == old(m[..4]) + Short(len % 0x10000) + old(m[6..HEADER])
    ensures m[HEADER..len] == old(m[HEADER..len])
  {
    PutShort(m, 4, len % 0x10000);
    assert m[..HEADER] == m[..4] + m[4..6] + m[6..HEADER];
  }

  /** What CompressArg leaves behind parses to the same arguments and result, but for the one. */
  lemma CompressedParses(m: bytes, all: seq<Arg>, k: nat, rest: bytes)
    requires AllSized(all) && m == Body(Emptied(all, k)) + rest
    ensures Parse(m, |all|) == Some(Emptied(all, k))
  {
    ParseBody(Emptied(all, k), rest);
  }
}
