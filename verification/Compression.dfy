/** Compressed names, section 4.1.4 of RFC 1035: labels, and pointers back to names written earlier. */
module Compression {
  import opened Wrappers
  import opened Bytes
  import opened Names

  const INDIR := 192

  /** A pointer's offset has 14 bits. */
  const OFFSETS := 0x4000

  /** The pointer that starts at `at`. */
  function PointerAt(m: bytes, at: nat): nat
    requires at + 1 < |m| && m[at] >= INDIR
  {
    (m[at] - INDIR) * 256 + m[at + 1]
  }

  /**
   The labels of the name at `at`.  Its bytes belong to a name that starts at `lo` or later, and its
   pointer, if it has one, must lead to a name that lies wholly before `lo`.
   */
  function NameAt(m: bytes, at: nat, lo: nat): Option<name>
    requires lo <= at
    decreases |m|, |m| - at
  {
    if at >= |m| then None
    else if m[at] == 0 then Some([])
    else if m[at] < 64 then
      if at + 1 + m[at] >= |m| then None
      else
        match NameAt(m, at + 1 + m[at], lo)
        case None => None
        case Some(ls) => Some([m[at + 1..at + 1 + m[at]]] + ls)
    else if m[at] >= INDIR then
      if at + 1 >= |m| || PointerAt(m, at) >= lo then None
      else
        var r := NameAt(m[..lo], PointerAt(m, at), PointerAt(m, at));
        if r == Some([]) then None else r
    else None
  }

  /** A name stays what it is when the message grows. */
  lemma {:induction false} NameStays(m: bytes, m': bytes, at: nat, lo: nat, lo': nat)
    requires m <= m' && lo <= lo' <= at && NameAt(m, at, lo).Some?
    ensures NameAt(m', at, lo') == NameAt(m, at, lo)
    decreases |m|, |m| - at
  {
    if 0 < m[at] < 64 {
      NameStays(m, m', at + 1 + m[at], lo, lo');
      assert m[at + 1..at + 1 + m[at]] == m'[at + 1..at + 1 + m[at]];
    } else if m[at] >= INDIR {
      var t := PointerAt(m, at);
      assert m[..lo] <= m'[..lo'];
      NameStays(m[..lo], m'[..lo'], t, t, t);
    }
  }

  /** dnptrs: every offset listed is that of a good name. */
  ghost predicate TableOk(m: bytes, table: seq<nat>) {
    forall e <- table :: e < |m| && NameAt(m, e, e).Some? && GoodName(NameAt(m, e, e).value)
  }

  lemma TableStays(m: bytes, m': bytes, table: seq<nat>)
    requires m <= m' && TableOk(m, table)
    ensures TableOk(m', table)
    ensures forall e <- table :: NameAt(m', e, e) == NameAt(m, e, e)
  {
    forall e | e in table
      ensures NameAt(m', e, e) == NameAt(m, e, e)
    {
      NameStays(m, m', e, e, e);
    }
  }

  /** What dn_find finds: the first name in the list that the text spells. */
  function FirstMatch(m: bytes, table: seq<nat>, text: bytes): (r: Option<nat>)
    requires TableOk(m, table)
    ensures r.Some? ==> r.value in table && Matches(NameAt(m, r.value, r.value).value, text)
    ensures r.None? ==> forall e <- table :: !Matches(NameAt(m, e, e).value, text)
    decreases |table|
  {
    if table == [] then None
    else if Matches(NameAt(m, table[0], table[0]).value, text) then Some(table[0])
    else
      assert forall e <- table[1..] :: e in table;
      FirstMatch(m, table[1..], text)
  }

  /** A plain name on the list is found when its print is searched, trailing dot or not. */
  lemma ListedNamesAreFound(m: bytes, table: seq<nat>, e: nat, ls: name, k: nat)
    requires TableOk(m, table) && e in table && NameAt(m, e, e) == Some(ls)
    requires Plain(ls) && ls != [] && k <= 1
    ensures var r := FirstMatch(m, table, Print(ls) + Dots(k));
      r.Some? && r.value in table && NameAt(m, r.value, r.value) == Some(ls)
  {
    hide NameAt, Matches;
    PrintMatches(ls, k);
    Regroup(PrintLabel(ls[0]), PrintRest(ls[1..]), Dots(k));
    PrintedIsRead(ls, k);
    var r := FirstMatch(m, table, Print(ls) + Dots(k));
    MatchIsName(NameAt(m, r.value, r.value).value, Print(ls) + Dots(k));
  }

  /** dn_comp's output, the offsets it adds to the list, and whether it ends in a pointer. */
  datatype Written = Written(bytes: bytes, added: seq<nat>, pointer: bool)

  /** The name ends in a pointer or in a NUL. */
  function LastSize(w: Written): nat { if w.pointer then 2 else 1 }

  /**
   The compressed form of `text` when `pos` is the offset of its first byte, `m` the message before
   the whole name and `slots` the room left in the list.
   */
  function Compressed(m: bytes, table: seq<nat>, text: bytes, pos: nat, slots: nat): (w: Option<Written>)
    requires TableOk(m, table) && |m| <= OFFSETS
    ensures w.Some? ==> |w.value.bytes| >= LastSize(w.value)
    decreases |text|
  {
    if text == [] then Some(Written([0], [], false))
    else
      match FirstMatch(m, table, text)
      case Some(e) => Some(Written([INDIR + e / 256, e % 256], [], true))
      case None =>
        var added: seq<nat> := if slots > 0 then [pos] else [];
        var s := ScanLabel(text);
        if s.chars == [] && s.rest == [] then Some(Written([0], added, false))
        else if s.chars == [] || |s.chars| > MAXLABEL then None
        else
          match Compressed(m, table, s.rest, pos + 1 + |s.chars|, if slots > 0 then slots - 1 else 0)
          case None => None
          case Some(w) => Some(Written([|s.chars|] + s.chars + w.bytes, added + w.added, w.pointer))
  }

  /** The list with its additions is good in the message `m`. */
  ghost predicate Added(m: bytes, added: seq<nat>, from: nat) {
    TableOk(m, added) && forall e <- added :: from <= e
  }

  lemma LabelInFront(m: bytes, pos: nat, lo: nat, l: bytes, rest: bytes, ls: name)
    requires lo <= pos <= |m| && GoodLabel(l) && rest != []
    requires NameAt(m + [|l|] + l + rest, pos + 1 + |l|, lo) == Some(ls) && pos == |m|
    ensures NameAt(m + [|l|] + l + rest, pos, lo) == Some([l] + ls)
  {
    var m' := m + [|l|] + l + rest;
    assert m'[pos] == |l| && m'[pos + 1..pos + 1 + |l|] == l;
  }

  lemma PointerInFront(m: bytes, pos: nat, lo: nat, e: nat)
    requires lo <= pos == |m| && e < lo <= OFFSETS && NameAt(m[..lo], e, e).Some? && NameAt(m[..lo], e, e) != Some([])
    ensures NameAt(m + [INDIR + e / 256, e % 256], pos, lo) == NameAt(m[..lo], e, e)
  {
    var m' := m + [INDIR + e / 256, e % 256];
    assert m'[..lo] == m[..lo];
    assert PointerAt(m', pos) == e;
  }

  /** What dn_comp writes after `pre` spells exactly the labels of the text. */
  ghost predicate Spells(m: bytes, table: seq<nat>, text: bytes, pre: bytes, slots: nat)
    requires TableOk(m, table) && |m| <= OFFSETS
  {
    var w := Compressed(m, table, text, |m| + |pre|, slots);
    && (w.Some? <==> NameOf(text).Some?)
    && (w.Some? ==>
          && NameAt(m + pre + w.value.bytes, |m| + |pre|, |m|) == NameOf(text)
          && Added(m + pre + w.value.bytes, w.value.added, |m| + |pre|))
  }

  lemma PointerSpells(m: bytes, table: seq<nat>, text: bytes, pre: bytes, slots: nat)
    requires TableOk(m, table) && |m| <= OFFSETS && text != [] && FirstMatch(m, table, text).Some?
    ensures Spells(m, table, text, pre, slots)
  {
    hide NameAt, Matches, NameOf;
    var e := FirstMatch(m, table, text).value;
    MatchIsName(NameAt(m, e, e).value, text);
    NothingMatchesText(NameAt(m, e, e).value, text);
    assert (m + pre)[..|m|] == m;
    PointerInFront(m + pre, |m| + |pre|, |m|, e);
  }

  lemma NothingMatchesText(ls: name, text: bytes)
    requires Matches(ls, text) && text != []
    ensures ls != []
  {
  }

  lemma EndSpells(m: bytes, table: seq<nat>, text: bytes, pre: bytes, slots: nat)
    requires TableOk(m, table) && |m| <= OFFSETS
    requires text == [] || (FirstMatch(m, table, text).None? && ScanLabel(text) == Scan([], []))
    ensures Spells(m, table, text, pre, slots)
  {
    hide FirstMatch, ScanLabel;
    assert (m + pre + [0])[|m| + |pre|] == 0;
  }

  lemma BadLabelSpells(m: bytes, table: seq<nat>, text: bytes, pre: bytes, slots: nat)
    requires TableOk(m, table) && |m| <= OFFSETS && text != [] && FirstMatch(m, table, text).None?
    requires var s := ScanLabel(text); s != Scan([], []) && (s.chars == [] || |s.chars| > MAXLABEL)
    ensures Spells(m, table, text, pre, slots)
  {
    hide FirstMatch, ScanLabel, NameAt;
  }

  lemma LabelSpells(m: bytes, table: seq<nat>, text: bytes, pre: bytes, slots: nat)
    requires TableOk(m, table) && |m| <= OFFSETS && text != [] && FirstMatch(m, table, text).None?
    requires var s := ScanLabel(text);
      GoodLabel(s.chars) && Spells(m, table, s.rest, pre + [|s.chars|] + s.chars, if slots > 0 then slots - 1 else 0)
    requires NameOf(text).Some? ==> GoodName(NameOf(text).value)
    ensures Spells(m, table, text, pre, slots)
  {
    hide FirstMatch, ScanLabel, NameAt;
    var s, pos := ScanLabel(text), |m| + |pre|;
    var w := Compressed(m, table, text, pos, slots);
    var v := Compressed(m, table, s.rest, pos + 1 + |s.chars|, if slots > 0 then slots - 1 else 0);
    NameStep(text, s.chars, s.rest);
    if v.Some? {
      var m' := m + pre + w.value.bytes;
      RegroupAll(m, pre, [|s.chars|], s.chars, v.value.bytes);
      assert w.value.bytes == [|s.chars|] + s.chars + v.value.bytes;
      LabelInFront(m + pre, pos, |m|, s.chars, v.value.bytes, NameOf(s.rest).value);
      NameStays(m', m', pos, |m|, pos);
      forall e | e in w.value.added
        ensures e < |m'| && NameAt(m', e, e).Some? && GoodName(NameAt(m', e, e).value)
      {
        if e !in v.value.added { assert e == pos; }
      }
    }
  }

  lemma RegroupAll(m: bytes, pre: bytes, n: bytes, l: bytes, v: bytes)
    ensures m + (pre + n + l) + v == (m + pre) + n + l + v
    ensures m + pre + (n + l + v) == (m + pre) + n + l + v
  {
  }

  /** For every text, whatever was written before it and whatever the list holds. */
  lemma {:induction false} CompressedSpells(m: bytes, table: seq<nat>, text: bytes, pre: bytes, slots: nat)
    requires TableOk(m, table) && |m| <= OFFSETS && NoNul(text)
    ensures Spells(m, table, text, pre, slots)
    decreases |text|
  {
    hide Spells, FirstMatch, NameAt, TableOk;
    var s := ScanLabel(text);
    if text == [] {
      EndSpells(m, table, text, pre, slots);
    } else if FirstMatch(m, table, text).Some? {
      PointerSpells(m, table, text, pre, slots);
    } else if s == Scan([], []) {
      EndSpells(m, table, text, pre, slots);
    } else if s.chars == [] || |s.chars| > MAXLABEL {
      BadLabelSpells(m, table, text, pre, slots);
    } else {
      ScanNoNul(text);
      if NameOf(text).Some? { NameIsGood(text); }
      CompressedSpells(m, table, s.rest, pre + [|s.chars|] + s.chars, if slots > 0 then slots - 1 else 0);
      LabelSpells(m, table, text, pre, slots);
    }
  }

  // ---------------------------------------------------------------------------------------------
  // Whole messages
  // ---------------------------------------------------------------------------------------------

  /** A message is put together from names and other data. */
  datatype Item = Name(text: bytes) | Data(data: bytes)

  /** The message so far, its list of names, and where each name was put. */
  datatype Message = Message(bytes: bytes, table: seq<nat>, offsets: seq<nat>)

  ghost predicate Intact(x: Message, texts: seq<bytes>) {
    && TableOk(x.bytes, x.table)
    && |x.offsets| == |texts|
    && forall i :: 0 <= i < |texts| ==>
         NameOf(texts[i]).Some? && NameAt(x.bytes, x.offsets[i], x.offsets[i]) == NameOf(texts[i])
  }

  /** One dn_comp with room enough, or an append; `capacity` is how many offsets the list can hold. */
  function Append(x: Message, item: Item, capacity: nat): Option<Message>
    requires TableOk(x.bytes, x.table)
  {
    match item
    case Data(data) => Some(x.(bytes := x.bytes + data))
    case Name(text) =>
      if |x.bytes| > OFFSETS || !NoNul(text) then None
      else
        var slots := if |x.table| < capacity then capacity - |x.table| else 0;
        match Compressed(x.bytes, x.table, text, |x.bytes|, slots)
        case None => None
        case Some(w) => Some(Message(x.bytes + w.bytes, x.table + w.added, x.offsets + [|x.bytes|]))
  }

  function Texts(items: seq<Item>): seq<bytes> {
    if items == [] then []
    else
      Texts(items[..|items| - 1]) +
      match items[|items| - 1]
      case Name(text) => [text]
      case Data(_) => []
  }

  lemma AppendKeepsIntact(x: Message, item: Item, capacity: nat, texts: seq<bytes>)
    requires Intact(x, texts) && Append(x, item, capacity).Some?
    ensures Intact(Append(x, item, capacity).value, texts + if item.Name? then [item.text] else [])
  {
    hide NameAt, Compressed;
    var y := Append(x, item, capacity).value;
    TableStays(x.bytes, y.bytes, x.table);
    forall i | 0 <= i < |texts|
      ensures NameAt(y.bytes, x.offsets[i], x.offsets[i]) == NameAt(x.bytes, x.offsets[i], x.offsets[i])
    {
      NameStays(x.bytes, y.bytes, x.offsets[i], x.offsets[i], x.offsets[i]);
    }
    if item.Name? {
      var slots := if |x.table| < capacity then capacity - |x.table| else 0;
      CompressedSpells(x.bytes, x.table, item.text, [], slots);
      assert x.bytes + [] == x.bytes;
    } else {
      assert texts + [] == texts;
    }
  }

  /**
   The message built from the items, if every dn_comp succeeds.  Every name ever put in it can be
   read back at its offset, from the finished message, as exactly the labels that dn_comp read in its
   text: names share their tails, and nothing that is appended later disturbs them.
   */
  function Build(items: seq<Item>, capacity: nat): (x: Option<Message>)
    ensures x.Some? ==> Intact(x.value, Texts(items))
  {
    if items == [] then Some(Message([], [], []))
    else
      match Build(items[..|items| - 1], capacity)
      case None => None
      case Some(x) =>
        var y := Append(x, items[|items| - 1], capacity);
        if y.Some? then
          AppendKeepsIntact(x, items[|items| - 1], capacity, Texts(items[..|items| - 1]));
          y
        else y
  }

  /** A plain name in its printed form, with as many trailing dots as are read, comes back as itself. */
  lemma PlainNamesComeBack(items: seq<Item>, capacity: nat, i: nat, ls: name, k: nat)
    requires Build(items, capacity).Some? && i < |Texts(items)| && Plain(ls) && k <= Trailing(ls)
    requires Texts(items)[i] == Print(ls) + Dots(k)
    ensures var x := Build(items, capacity).value;
      && i < |x.offsets|
      && NameAt(x.bytes, x.offsets[i], x.offsets[i]) == Some(ls)
  {
    hide NameAt, NameOf, Print;
    PrintedIsRead(ls, k);
  }

  /**
   The second time a plain name is put in a message, with or without a trailing dot, it takes two bytes,
   if the list had a place left the first time.
   */
  lemma RepeatedIsPointer(x: Message, ls: name, j: nat, k: nat, capacity: nat, texts: seq<bytes>)
    requires Intact(x, texts) && Plain(ls) && ls != [] && j <= 1 && k <= 1 && |x.table| < capacity
    requires Append(x, Name(Print(ls) + Dots(j)), capacity).Some?
    ensures var y := Append(x, Name(Print(ls) + Dots(j)), capacity).value;
      TableOk(y.bytes, y.table) &&
      (|y.bytes| <= OFFSETS ==>
         var z := Append(y, Name(Print(ls) + Dots(k)), capacity);
         z.Some? && |z.value.bytes| == |y.bytes| + 2 && z.value.table == y.table)
  {
    hide NameAt, FirstMatch, ScanLabel, Matches, Print;
    var text := Print(ls) + Dots(j);
    var y := Append(x, Name(text), capacity).value;
    PrintedIsRead(ls, j);
    AppendKeepsIntact(x, Name(text), capacity, texts);
    var e := WhereItIs(x, text, capacity, texts);
    assert Print(ls) <= text && Dots(0) == [] && Dots(1) == [DOT] + [];
    ListedNamesAreFound(y.bytes, y.table, e, ls, k);
  }

  /** Once a text is in the message its labels are on the list. */
  lemma WhereItIs(x: Message, text: bytes, capacity: nat, texts: seq<bytes>) returns (e: nat)
    requires Intact(x, texts) && Append(x, Name(text), capacity).Some? && |x.table| < capacity
    requires text != [] && NameOf(text).Some? && NameOf(text) != Some([])
    ensures var y := Append(x, Name(text), capacity).value;
      TableOk(y.bytes, y.table) && e in y.table && NameAt(y.bytes, e, e) == NameOf(text)
  {
    hide NameAt, FirstMatch, ScanLabel, Matches;
    var y := Append(x, Name(text), capacity).value;
    AppendKeepsIntact(x, Name(text), capacity, texts);
    match FirstMatch(x.bytes, x.table, text) {
      case Some(f) =>
        e := f;
        MatchIsName(NameAt(x.bytes, f, f).value, text);
        TableStays(x.bytes, y.bytes, x.table);
      case None =>
        e := |x.bytes|;
        assert y.offsets[|texts|] == e && (texts + [text])[|texts|] == text;
    }
  }

  // ---------------------------------------------------------------------------------------------
  // How many bytes a name takes up
  // ---------------------------------------------------------------------------------------------

  /** Where the bytes of the name at `at` end, pointers not followed. */
  function EndOf(m: bytes, at: nat): (e: Option<nat>)
    ensures e.Some? ==> e.value >= at
    decreases |m| - at
  {
    if at >= |m| then Some(at)
    else if m[at] == 0 then Some(at + 1)
    else if m[at] < 64 then EndOf(m, at + 1 + m[at])
    else if m[at] >= INDIR then Some(at + 2)
    else None
  }

  /** A name's bytes end within the message, and a length byte that is neither a length nor a pointer is refused. */
  lemma {:induction false} NamesEnd(m: bytes, at: nat, lo: nat)
    requires lo <= at < |m|
    ensures NameAt(m, at, lo).Some? ==> EndOf(m, at).Some? && at < EndOf(m, at).value <= |m|
    ensures 64 <= m[at] < 192 ==> NameAt(m, at, lo).None? && EndOf(m, at).None?
    decreases |m| - at
  {
    if 0 < m[at] < 64 && at + 1 + m[at] < |m| { NamesEnd(m, at + 1 + m[at], lo); }
  }

  /** dn_comp's size is the length the readers consume. */
  lemma {:induction false} CompressedEnds(m: bytes, table: seq<nat>, text: bytes, pre: bytes, slots: nat, more: bytes)
    requires TableOk(m, table) && |m| <= OFFSETS
    requires Compressed(m, table, text, |m| + |pre|, slots).Some?
    ensures var w := Compressed(m, table, text, |m| + |pre|, slots).value;
      EndOf(m + pre + w.bytes + more, |m| + |pre|) == Some(|m| + |pre| + |w.bytes|)
    decreases |text|
  {
    hide FirstMatch, ScanLabel, EndOf;
    var s, pos := ScanLabel(text), |m| + |pre|;
    var w := Compressed(m, table, text, pos, slots).value;
    if text == [] || FirstMatch(m, table, text).Some? || s == Scan([], []) {
      LastEnds(m + pre, w.bytes, more);
    } else {
      var slots' := if slots > 0 then slots - 1 else 0;
      CompressedEnds(m, table, s.rest, pre + [|s.chars|] + s.chars, slots', more);
      var v := Compressed(m, table, s.rest, pos + 1 + |s.chars|, slots').value;
      RegroupAll(m, pre, [|s.chars|], s.chars, v.bytes);
      LabelEnds(m + pre, s.chars, v.bytes, more);
    }
  }

  lemma LastEnds(m: bytes, last: bytes, more: bytes)
    requires last == [0] || (|last| == 2 && last[0] >= INDIR)
    ensures EndOf(m + last + more, |m|) == Some(|m| + |last|)
  {
    assert (m + last + more)[|m|] == last[0];
  }

  lemma LabelEnds(m: bytes, l: bytes, rest: bytes, more: bytes)
    requires 0 < |l| <= MAXLABEL
    ensures EndOf(m + [|l|] + l + rest + more, |m|) == EndOf(m + [|l|] + l + rest + more, |m| + 1 + |l|)
  {
    assert (m + [|l|] + l + rest + more)[|m|] == |l|;
  }
}
