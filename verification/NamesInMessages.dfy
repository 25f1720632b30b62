/** dn_comp and dn_expand together: what one reads of the names that the other wrote in a message. */
module NamesInMessages {
  import opened Wrappers
  import opened Bytes
  import opened Names
  import opened Compression
  import opened ResComp

  /** How many offsets the list has room for; none are added without `update`. */
  function Capacity(dnptrs: array?<int>, update: bool): nat {
    if dnptrs != null && update && dnptrs.Length >= 2 then dnptrs.Length - 2 else 0
  }

  lemma SameSlots(dnptrs: array?<int>, update: bool, entries: nat)
    ensures SlotsOf(dnptrs, update, entries) ==
      var capacity := Capacity(dnptrs, update); if entries < capacity then capacity - entries else 0
  {
  }

  // ---------------------------------------------------------------------------------------------
  // Where the names end
  // ---------------------------------------------------------------------------------------------

  /** The name at `at` takes up `size` bytes, whatever comes after the message. */
  ghost predicate TakesUp(m: bytes, at: nat, size: nat) {
    forall more: bytes {:trigger EndOf(m + more, at)} :: EndOf(m + more, at) == Some(at + size)
  }

  lemma StillTakesUp(m: bytes, w: bytes, at: nat, size: nat)
    requires TakesUp(m, at, size)
    ensures TakesUp(m + w, at, size)
  {
    hide EndOf;
    forall more: bytes
      ensures EndOf(m + w + more, at) == Some(at + size)
    {
      Regroup(m, w, more);
      assert EndOf(m + (w + more), at) == Some(at + size);
    }
  }

  lemma NewTakesUp(m: bytes, table: seq<nat>, text: bytes, slots: nat)
    requires TableOk(m, table) && |m| <= OFFSETS && Compressed(m, table, text, |m|, slots).Some?
    ensures var w := Compressed(m, table, text, |m|, slots).value; TakesUp(m + w.bytes, |m|, |w.bytes|)
  {
    hide EndOf, Compressed;
    var w := Compressed(m, table, text, |m|, slots).value;
    assert m + [] == m;
    forall more: bytes
      ensures EndOf(m + w.bytes + more, |m|) == Some(|m| + |w.bytes|)
    {
      CompressedEnds(m, table, text, [], slots, more);
    }
  }

  /** So many bytes does each name take up. */
  ghost predicate AllTakeUp(x: Message, sizes: seq<nat>) {
    |sizes| == |x.offsets| && forall i :: 0 <= i < |sizes| ==> TakesUp(x.bytes, x.offsets[i], sizes[i])
  }

  lemma AppendTakesUp(x: Message, item: Item, capacity: nat, sizes: seq<nat>)
    requires TableOk(x.bytes, x.table) && AllTakeUp(x, sizes) && Append(x, item, capacity).Some?
    ensures var y := Append(x, item, capacity).value;
      && |x.bytes| <= |y.bytes|
      && AllTakeUp(y, sizes + if item.Name? then [|y.bytes| - |x.bytes|] else [])
  {
    hide Compressed, TakesUp;
    var y := Append(x, item, capacity).value;
    forall i | 0 <= i < |sizes|
      ensures TakesUp(y.bytes, y.offsets[i], sizes[i])
    {
      StillTakesUp(x.bytes, y.bytes[|x.bytes|..], x.offsets[i], sizes[i]);
      assert y.bytes == x.bytes + y.bytes[|x.bytes|..];
    }
    if item.Name? {
      NewTakesUp(x.bytes, x.table, item.text, if |x.table| < capacity then capacity - |x.table| else 0);
    }
  }

  // ---------------------------------------------------------------------------------------------
  // Putting a message together
  // ---------------------------------------------------------------------------------------------

  /** The message in the buffer, and its names in the list. */
  ghost predicate InPlace(x: Message, buf: array<byte>, end: nat, dnptrs: array?<int>)
    reads buf, dnptrs
  {
    end <= buf.Length && x.bytes == buf[..end] && IsListOrNull(dnptrs, x.table)
  }

  /** One dn_comp, with all the room there is; it is Append, if the result fits. */
  method PutName(text: bytes, buf: array<byte>, at: nat, eob: nat, dnptrs: array?<int>, update: bool, ghost x: Message)
      returns (size: int)
    requires NoNul(text) && at <= eob <= buf.Length && buf as object? != dnptrs
    requires TableOk(x.bytes, x.table) && InPlace(x, buf, at, dnptrs)
    modifies buf, dnptrs
    ensures var y := Append(x, Name(text), Capacity(dnptrs, update));
      if y.Some? && |y.value.bytes| <= eob then
        && 0 <= size == |y.value.bytes| - at && y.value.offsets == x.offsets + [at]
        && InPlace(y.value, buf, at + size, dnptrs)
      else size == -1
    ensures forall k | eob <= k < buf.Length :: buf[k] == old(buf[k])
  {
    hide Compressed, TableOk, IsListOrNull, SlotsOf, NoNul;
    SameSlots(dnptrs, update, |x.table|);
    if at > OFFSETS {
      return -1;
    }
    ghost var was := buf[..at];
    size := DnComp(text, buf, at, eob - at, dnptrs, update, x.table);
    assert buf[..at] == was;
    if size >= 0 { assert buf[..at + size] == buf[..at] + buf[at..at + size]; }
  }

  /** Any other data. */
  method PutData(data: bytes, buf: array<byte>, at: nat)
    requires at + |data| <= buf.Length
    modifies buf
    ensures buf[..at + |data|] == old(buf[..at]) + data
    ensures forall k | at + |data| <= k < buf.Length :: buf[k] == old(buf[k])
  {
    var i := 0;
    while i < |data|
      invariant i <= |data|
      invariant buf[..at + i] == old(buf[..at]) + data[..i]
      invariant forall k | at + i <= k < buf.Length :: buf[k] == old(buf[k])
    {
      buf[at + i] := data[i];
      i := i + 1;
    }
    assert data[..i] == data;
  }

  lemma BuildStep(items: seq<Item>, i: nat, capacity: nat)
    requires i < |items| && Build(items[..i], capacity).Some?
    ensures var x := Build(items[..i], capacity).value;
      && TableOk(x.bytes, x.table) && Build(items[..i + 1], capacity) == Append(x, items[i], capacity)
  {
    assert items[..i + 1][..i] == items[..i];
  }

  /** A message that comes about has come about step by step, and has grown. */
  lemma {:induction false} BuildPrefix(items: seq<Item>, i: nat, capacity: nat)
    requires i <= |items| && Build(items, capacity).Some?
    ensures Build(items[..i], capacity).Some?
    ensures |Build(items[..i], capacity).value.bytes| <= |Build(items, capacity).value.bytes|
    decreases |items|
  {
    if i < |items| {
      hide Compressed, TableOk;
      BuildPrefix(items[..|items| - 1], i, capacity);
      assert items[..|items| - 1][..i] == items[..i];
    } else {
      assert items[..i] == items;
    }
  }

  /** How many bytes each name was written in. */
  function Sizes(items: seq<Item>, capacity: nat): (s: seq<nat>)
    requires Build(items, capacity).Some?
    ensures |s| == |Texts(items)| == |Build(items, capacity).value.offsets|
    ensures AllTakeUp(Build(items, capacity).value, s)
  {
    if items == [] then []
    else
      var before, item := items[..|items| - 1], items[|items| - 1];
      var x := Build(before, capacity).value;
      AppendTakesUp(x, item, capacity, Sizes(before, capacity));
      Sizes(before, capacity)
        + if item.Name? then [|Build(items, capacity).value.bytes| - |x.bytes|] else []
  }

  /** A caller of dn_comp, such as res_mkquery: the message is the one that Build yields, if there is one and it fits. */
  method WriteMessage(items: seq<Item>, buf: array<byte>, eob: nat, dnptrs: array?<int>, update: bool)
      returns (end: int, offsets: seq<nat>)
    requires forall item <- items :: item.Name? ==> NoNul(item.text)
    requires eob <= buf.Length && buf as object? != dnptrs && IsListOrNull(dnptrs, [])
    modifies buf, dnptrs
    ensures var x := Build(items, Capacity(dnptrs, update));
      if x.Some? && |x.value.bytes| <= eob then
        end == |x.value.bytes| && offsets == x.value.offsets && InPlace(x.value, buf, end, dnptrs)
      else end == -1
  {
    hide Build, Append, TableOk, IsListOrNull, NoNul;
    ghost var capacity := Capacity(dnptrs, update);
    NothingBuilt(capacity);
    ghost var x := Message([], [], []);
    var at: nat, i: nat := 0, 0;
    offsets := [];
    assert buf[..0] == [];
    while i < |items|
      invariant i <= |items| && at <= eob
      invariant Build(items[..i], capacity) == Some(x) && InPlace(x, buf, at, dnptrs) && offsets == x.offsets
    {
      BuildStep(items, i, capacity);
      if Build(items, capacity).Some? { BuildPrefix(items, i + 1, capacity); }
      ghost var y := Append(x, items[i], capacity);
      match items[i] {
        case Name(text) =>
          var size := PutName(text, buf, at, eob, dnptrs, update, x);
          if size < 0 {
            return -1, [];
          }
          offsets := offsets + [at];
          at := at + size;
        case Data(data) =>
          AppendData(x, data, capacity);
          if at + |data| > eob {
            return -1, [];
          }
          PutData(data, buf, at);
          at := at + |data|;
      }
      x := y.value;
      i := i + 1;
    }
    assert items[..i] == items;
    end := at;
  }

  lemma NothingBuilt(capacity: nat)
    ensures forall items :: items == [] ==> Build(items, capacity) == Some(Message([], [], []))
  {
  }

  lemma AppendData(x: Message, data: bytes, capacity: nat)
    requires TableOk(x.bytes, x.table)
    ensures Append(x, Data(data), capacity) == Some(x.(bytes := x.bytes + data))
  {
  }

  // ---------------------------------------------------------------------------------------------
  // Reading it
  // ---------------------------------------------------------------------------------------------

  lemma BuiltName(items: seq<Item>, capacity: nat, i: nat)
    requires Build(items, capacity).Some? && i < |Texts(items)|
    ensures var x := Build(items, capacity).value;
      && |x.offsets| == |Texts(items)| && x.offsets[i] < |x.bytes|
      && NameOf(Texts(items)[i]).Some?
      && NameAt(x.bytes, x.offsets[i], x.offsets[i]) == NameOf(Texts(items)[i])
      && EndOf(x.bytes, x.offsets[i]) == Some(x.offsets[i] + Sizes(items, capacity)[i])
  {
    hide Build, Sizes, Texts, EndOf, NameAt, NameOf, TakesUp, TableOk;
    var x, sizes := Build(items, capacity).value, Sizes(items, capacity);
    IsThere(x.bytes, x.offsets[i]);
    EndsThere(x.bytes, x.offsets[i], sizes[i]);
  }

  lemma IsThere(m: bytes, at: nat)
    ensures NameAt(m, at, at).Some? ==> at < |m|
  {
  }

  lemma EndsThere(m: bytes, at: nat, size: nat)
    requires TakesUp(m, at, size)
    ensures EndOf(m, at) == Some(at + size)
  {
    assert m + [] == m;
  }

  /**
   dn_comp's names are what dn_expand reads: of any message that its callers put together, each name is
   expanded to the print of the labels that dn_comp read in its text, if that fits, and is found to
   take up the bytes that dn_comp wrote.
   */
  method WriteAndExpand(items: seq<Item>, buf: array<byte>, eob: nat, dnptrs: array?<int>, update: bool, i: nat,
                        exp: array<byte>)
      returns (end: int, size: int)
    requires forall item <- items :: item.Name? ==> NoNul(item.text)
    requires eob < buf.Length && buf as object? != dnptrs && IsListOrNull(dnptrs, [])
    requires i < |Texts(items)| && exp != buf && exp as object? != dnptrs && exp.Length > 0
    modifies buf, dnptrs, exp
    ensures var x := Build(items, Capacity(dnptrs, update));
      && (end >= 0 <==> x.Some? && |x.value.bytes| <= eob)
      && (end >= 0 ==>
            && NameOf(Texts(items)[i]).Some?
            && var p := Print(NameOf(Texts(items)[i]).value);
               && (size >= 0 <==> |p| < exp.Length)
               && (size >= 0 ==>
                     && size == Sizes(items, Capacity(dnptrs, update))[i]
                     && exp[..|p|] == p && exp[|p|] == 0))
  {
    hide Build, NameAt, EndOf, NameOf, Print, Texts, Sizes, IsListOrNull, LeadsToRoot;
    var offsets;
    end, offsets := WriteMessage(items, buf, eob, dnptrs, update);
    size := -1;
    if end >= 0 {
      BuiltName(items, Capacity(dnptrs, update), i);
      RootPrintsNothing();
      size := DnExpand(buf, end, offsets[i], exp, exp.Length);
    }
  }

  lemma RootPrintsNothing()
    ensures forall ls :: ls == [] ==> Print(ls) == []
  {
  }
}
