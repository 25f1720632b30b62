/**
 The four procedures of res_comp.c, on arrays: dn_expand prints a compressed name, dn_comp writes one and
 keeps the list of those written before, dn_skipname steps over one, and dn_find looks one up in the list.
 */
module ResComp {
  import opened Wrappers
  import opened Bytes
  import opened Names
  import opened Compression

  /** dn_skipname: the size of the compressed name, or -1. */
  method DnSkipname(msg: array<byte>, comp: nat, eom: nat) returns (size: int)
    requires eom <= msg.Length
    ensures var e := EndOf(msg[..eom], comp); size == if e.Some? then e.value - comp else -1
  {
    var cp := comp;
    while cp < eom
      invariant cp >= comp && EndOf(msg[..eom], cp) == EndOf(msg[..eom], comp)
    {
      var n := msg[cp];
      cp := cp + 1;
      if n == 0 {
        break;
      } else if n < 64 {
        cp := cp + n;
      } else if n >= INDIR {
        cp := cp + 1;
        break;
      } else {
        return -1;
      }
    }
    size := cp - comp;
  }

  /** One turn of dn_expand's inner loop, when `left` characters of the label are still to come. */
  method CopyChar(c: byte, left: nat, exp: array<byte>, dn: nat, length: nat) returns (ok: bool, dn': nat)
    requires dn + 1 + left < length <= exp.Length
    modifies exp
    ensures forall i :: length <= i < exp.Length ==> exp[i] == old(exp[i])
    ensures ok <==> dn + |PrintChar(c)| + left < length
    ensures ok ==> dn' == dn + |PrintChar(c)| && exp[..dn'] == old(exp[..dn]) + PrintChar(c)
  {
    dn' := dn;
    if c == DOT {
      if dn' + left + 2 >= length {
        return false, dn';
      }
      exp[dn'] := BACKSLASH;
      dn' := dn' + 1;
    }
    exp[dn'] := c;
    dn' := dn' + 1;
    ok := true;
  }

  /**
   dn_expand's inner loop: a label of `n` characters is copied, dots escaped.  It succeeds exactly if
   the label ends before the message does and its print leaves room for a NUL.
   */
  method CopyLabel(msg: array<byte>, eom: nat, cp: nat, n: nat, exp: array<byte>, dn: nat, length: nat)
      returns (ok: bool, dn': nat)
    requires msg != exp && n > 0 && cp <= eom < msg.Length && dn + n < length <= exp.Length
    modifies exp
    ensures forall i :: length <= i < exp.Length ==> exp[i] == old(exp[i])
    ensures ok ==> cp + n < eom
    ensures cp + n < eom ==>
      var p := PrintLabel(msg[cp..cp + n]);
      && (ok <==> dn + |p| < length)
      && (ok ==> dn' == dn + |p| && exp[..dn'] == old(exp[..dn]) + p)
  {
    hide PrintLabel, PrintChar;
    dn' := dn;
    var j := 0;
    NothingPrinted(msg[cp..cp]);
    while j < n
      invariant j <= n && cp + j <= eom && (j > 0 ==> cp + j < eom)
      invariant dn' + (n - j) < length
      invariant forall i :: length <= i < exp.Length ==> exp[i] == old(exp[i])
      invariant dn' == dn + |PrintLabel(msg[cp..cp + j])|
      invariant exp[..dn'] == old(exp[..dn]) + PrintLabel(msg[cp..cp + j])
    {
      var c := msg[cp + j];
      ghost var before := msg[cp..cp + j];
      PrintLabelSnoc(before, c);
      assert msg[cp..cp + j + 1] == before + [c];
      if cp + n < eom {
        assert msg[cp..cp + n][..j + 1] == before + [c];
        PrintLabelPrefix(msg[cp..cp + n], before + [c]);
      }
      j := j + 1;
      ok, dn' := CopyChar(c, n - j, exp, dn', length);
      if !ok {
        return;
      }
      if cp + j >= eom {
        return false, dn';
      }
    }
    ok := true;
  }

  lemma NothingPrinted(l: bytes)
    requires l == []
    ensures PrintLabel(l) == []
  {
  }

  /** What is left of a label prints to at least as many characters as it has. */
  lemma {:induction false} PrintLabelPrefix(l: bytes, front: bytes)
    requires front <= l
    ensures |PrintLabel(l)| >= |PrintLabel(front)| + (|l| - |front|)
    decreases |l|
  {
    if |front| < |l| {
      var k := |l| - 1;
      PrintLabelPrefix(l[..k], front);
      PrintLabelSnoc(l[..k], l[k]);
      assert l == l[..k] + [l[k]];
    } else {
      assert l == front;
    }
  }

  // ---------------------------------------------------------------------------------------------
  // dn_expand
  // ---------------------------------------------------------------------------------------------

  /** What remains to be printed once `printed` is there. */
  function Tail(printed: bytes, ls: name): bytes { if printed == [] then Print(ls) else PrintRest(ls) }

  /**
   dn_expand is on its way through a name, if it is one, whose labels are `full`: it has come to `at`
   in the part `cur` of the message, and what it has checked off lies outside what it can still visit.
   */
  ghost predicate OnTheWay(m: bytes, cur: bytes, at: nat, lo: nat, checked: nat, full: Option<name>, printed: bytes) {
    full.Some? ==>
      && cur <= m && lo <= at < |cur|
      && NameAt(cur, at, lo).Some?
      && checked + |cur| + lo <= |m| + at
      && Print(full.value) == printed + Tail(printed, NameAt(cur, at, lo).value)
      && if printed == [] then full == NameAt(cur, at, lo) else full.value != []
  }

  function Dot(printed: bytes): bytes { if printed == [] then [] else [DOT] }

  lemma LabelStep(m: bytes, cur: bytes, at: nat, lo: nat, checked: nat, full: Option<name>, printed: bytes)
    requires OnTheWay(m, cur, at, lo, checked, full, printed) && at < |m| && 0 < m[at] < 64
    ensures full.Some? ==> at + 1 + m[at] < |m| && full.value != []
    ensures at + 1 + m[at] <= |m| ==>
      var p := printed + (Dot(printed) + PrintLabel(m[at + 1..at + 1 + m[at]]));
      && OnTheWay(m, cur, at + 1 + m[at], lo, checked + m[at] + 1, full, p)
      && (full.Some? ==> p <= Print(full.value))
  {
    if full.Some? {
      var l := m[at + 1..at + 1 + m[at]];
      assert cur[at] == m[at] && l == cur[at + 1..at + 1 + m[at]];
      var ls := NameAt(cur, at + 1 + m[at], lo).value;
      assert NameAt(cur, at, lo).value == [l] + ls;
      LabelPrints(printed, l, ls);
    }
  }

  lemma LabelPrints(printed: bytes, l: bytes, ls: name)
    requires l != []
    ensures var p := printed + (Dot(printed) + PrintLabel(l));
      && p != []
      && printed + Tail(printed, [l] + ls) == p + Tail(p, ls)
  {
    Reassociate(printed, Dot(printed), PrintLabel(l), PrintRest(ls));
    assert ([l] + ls)[1..] == ls && |PrintLabel(l)| > 0;
  }

  lemma Reassociate(a: bytes, b: bytes, c: bytes, d: bytes)
    ensures a + (b + c + d) == (a + (b + c)) + d
    ensures b == [] ==> a + (c + d) == (a + (b + c)) + d
  {
  }

  lemma PointerStep(m: bytes, cur: bytes, at: nat, lo: nat, checked: nat, full: Option<name>, printed: bytes)
    requires OnTheWay(m, cur, at, lo, checked, full, printed) && at < |m| && m[at] >= INDIR
    ensures full.Some? ==> at + 1 < |m| && PointerAt(m, at) < |m| && checked + 2 < |m| && lo <= |cur|
    ensures lo <= |cur| && at + 1 < |m| ==>
      OnTheWay(m, cur[..lo], PointerAt(m, at), PointerAt(m, at), checked + 2, full, printed)
  {
    if full.Some? {
      assert cur[at] == m[at] && cur[at + 1] == m[at + 1];
      assert PointerAt(cur, at) == PointerAt(m, at);
    }
  }

  lemma NotAName(m: bytes, cur: bytes, at: nat, lo: nat, checked: nat, full: Option<name>, printed: bytes)
    requires full.None?
    ensures OnTheWay(m, cur, at, lo, checked, full, printed)
  {
  }

  lemma PointerHere(m: bytes, at: nat)
    requires at < |m| && m[at] >= INDIR
    ensures at + 1 < |m| ==> PointerAt(m, at) == (m[at] - INDIR) * 256 + m[at + 1]
  {
  }

  lemma NoOtherStep(m: bytes, cur: bytes, at: nat, lo: nat, checked: nat, full: Option<name>, printed: bytes)
    requires OnTheWay(m, cur, at, lo, checked, full, printed) && full.Some?
    ensures at < |m| && (m[at] < 64 || m[at] >= INDIR)
    ensures m[at] == 0 ==> Print(full.value) == printed && (full.value == [] <==> printed == [])
  {
    assert cur[at] == m[at];
    assert printed + [] == printed;
  }

  lemma StartsOnTheWay(m: bytes, at: nat)
    requires at < |m|
    ensures OnTheWay(m, m, at, at, 0, NameAt(m, at, at), [])
  {
    if NameAt(m, at, at).Some? {
      assert [] + Print(NameAt(m, at, at).value) == Print(NameAt(m, at, at).value);
    }
  }

  lemma EndStep(m: bytes, at: nat)
    requires at < |m|
    ensures 0 < m[at] < 64 ==> EndOf(m, at) == EndOf(m, at + 1 + m[at])
    ensures m[at] >= INDIR ==> EndOf(m, at) == Some(at + 2)
    ensures m[at] == 0 ==> EndOf(m, at) == Some(at + 1)
  {
  }

  /** A dot, unless it is the first, and a label. */
  method PutLabel(msg: array<byte>, eom: nat, cp: nat, n: nat, exp: array<byte>, dn: nat, length: nat)
      returns (ok: bool, dn': nat)
    requires msg != exp && n > 0 && cp <= eom < msg.Length && length <= exp.Length && (dn == 0 || dn < length)
    modifies exp
    ensures forall i :: length <= i < exp.Length ==> exp[i] == old(exp[i])
    ensures ok ==> cp + n < eom && dn < dn' < length
    ensures cp + n < eom ==>
      var p := (if dn == 0 then [] else [DOT]) + PrintLabel(msg[cp..cp + n]);
      && (ok <==> dn + |p| < length)
      && (ok ==> dn' == dn + |p| && exp[..dn'] == old(exp[..dn]) + p)
  {
    hide PrintLabel;
    dn' := dn;
    if dn' != 0 {
      if dn' >= length {
        return false, dn';
      }
      exp[dn'] := DOT;
      dn' := dn' + 1;
    }
    if dn' + n >= length {
      return false, dn';
    }
    ok, dn' := CopyLabel(msg, eom, cp, n, exp, dn', length);
  }

  /** One turn of dn_expand's outer loop on a label; 0 if it does not fit or runs over the end. */
  method ExpandLabel(msg: array<byte>, eom: nat, cp: nat, n: nat, exp: array<byte>, dn: nat, length: nat,
                     ghost cur: bytes, ghost lo: nat, ghost checked: nat, ghost full: Option<name>)
      returns (dn': nat)
    requires msg != exp && 0 < cp <= eom < msg.Length && length <= exp.Length && (dn == 0 || dn < length)
    requires n == msg[cp - 1] && 0 < n < 64
    requires OnTheWay(msg[..eom], cur, cp - 1, lo, checked, full, exp[..dn])
    modifies exp
    ensures forall i :: length <= i < exp.Length ==> exp[i] == old(exp[i])
    ensures dn' > 0 ==> dn' < length && cp + n < eom
    ensures dn' > 0 ==> OnTheWay(msg[..eom], cur, cp + n, lo, checked + n + 1, full, exp[..dn'])
    ensures dn' == 0 ==> full.Some? ==> |Print(full.value)| >= length && full.value != []
  {
    hide OnTheWay, PrintLabel, Print;
    LabelStep(msg[..eom], cur, cp - 1, lo, checked, full, exp[..dn]);
    assert cp + n < eom ==> msg[..eom][cp..cp + n] == msg[cp..cp + n];
    var ok;
    ok, dn' := PutLabel(msg, eom, cp, n, exp, dn, length);
    if !ok { dn' := 0; }
  }

  /** From `at` pointers alone lead to the root name, before they are taken for a loop. */
  predicate LeadsToRoot(b: bytes, eom: nat, at: nat, checked: nat)
    requires at < eom < |b|
    decreases eom - checked
  {
    if b[at] < INDIR then b[at] == 0
    else
      var t := PointerAt(b, at);
      t < eom && checked + 2 < eom && LeadsToRoot(b, eom, t, checked + 2)
  }

  lemma RootStep(b: bytes, eom: nat, at: nat, checked: nat)
    requires at < eom < |b|
    ensures b[at] == 0 ==> LeadsToRoot(b, eom, at, checked)
    ensures 0 < b[at] < INDIR ==> !LeadsToRoot(b, eom, at, checked)
    ensures b[at] >= INDIR ==>
      var t := (b[at] - INDIR) * 256 + b[at + 1];
      LeadsToRoot(b, eom, at, checked) <==> t < eom && checked + 2 < eom && LeadsToRoot(b, eom, t, checked + 2)
  {
  }

  /** Of the names only the root does. */
  lemma {:induction false} OnlyTheRoot(b: bytes, eom: nat, cur: bytes, at: nat, lo: nat, checked: nat)
    requires at < eom < |b| && cur <= b[..eom] && lo <= at && NameAt(cur, at, lo).Some?
    ensures LeadsToRoot(b, eom, at, checked) <==> NameAt(cur, at, lo) == Some([])
    decreases |cur|
  {
    assert cur[at] == b[at];
    if b[at] >= INDIR {
      var t := PointerAt(cur, at);
      assert cur[at + 1] == b[at + 1];
      if t < eom && checked + 2 < eom { OnlyTheRoot(b, eom, cur[..lo], t, t, checked + 2); }
    }
  }

  /** One turn of dn_expand's outer loop on a pointer; no name's pointer leads astray or is taken for a loop. */
  method FollowPointer(msg: array<byte>, eom: nat, cp: nat, checked: nat,
                       ghost cur: bytes, ghost lo: nat, ghost full: Option<name>, ghost printed: bytes)
      returns (ok: bool, cp': nat, checked': nat, ghost cur': bytes, ghost lo': nat)
    requires 0 < cp <= eom < msg.Length && msg[cp - 1] >= INDIR
    requires OnTheWay(msg[..eom], cur, cp - 1, lo, checked, full, printed)
    ensures full.Some? ==> ok
    ensures ok ==> cp' < eom && checked' == checked + 2 < eom
    ensures ok ==> OnTheWay(msg[..eom], cur', cp', lo', checked', full, printed)
    ensures LeadsToRoot(msg[..], eom, cp - 1, checked) <==> ok && LeadsToRoot(msg[..], eom, cp', checked')
  {
    hide OnTheWay, PointerAt, LeadsToRoot;
    PointerStep(msg[..eom], cur, cp - 1, lo, checked, full, printed);
    PointerHere(msg[..eom], cp - 1);
    RootStep(msg[..], eom, cp - 1, checked);
    cur', lo' := cur, lo;
    checked' := checked;
    cp' := (msg[cp - 1] - INDIR) * 256 + msg[cp];
    if cp' >= eom {
      return false, cp', checked', cur', lo';
    }
    checked' := checked' + 2;
    if checked' >= eom {
      return false, cp', checked', cur', lo';
    }
    if full.Some? {
      cur', lo' := cur[..lo], cp';
    } else {
      NotAName(msg[..eom], cur, cp', lo, checked', full, printed);
    }
    ok := true;
  }

  /**
   dn_expand.  Whatever the message holds it comes to an end, and it stores nothing at or beyond
   `length`, except exactly if `length` is 0 and the name is the root: then it stores the NUL.  On a
   name it succeeds exactly if the name's print and a NUL fit or the name is the root, prints it, and
   never mistakes it for a loop.  It consumes what dn_skipname consumes.  The byte at `eom` may be read.
   */
  method DnExpand(msg: array<byte>, eom: nat, comp: nat, exp: array<byte>, length: nat) returns (len: int)
    requires msg != exp && comp < eom < msg.Length && length <= exp.Length && exp.Length > 0
    modifies exp
    ensures forall i :: length <= i < exp.Length && (i > 0 || len < 0) ==> exp[i] == old(exp[i])
    ensures length == 0 ==> (len >= 0 <==> LeadsToRoot(msg[..], eom, comp, 0))
    ensures length == 0 && len >= 0 ==> exp[0] == 0
    ensures (exists i :: length <= i < exp.Length && exp[i] != old(exp[i])) <==>
      length == 0 && LeadsToRoot(msg[..], eom, comp, 0) && old(exp[0]) != 0
    ensures len >= 0 ==> EndOf(msg[..eom], comp) == Some(comp + len)
    ensures var r := NameAt(msg[..eom], comp, comp);
      r.Some? ==>
        && (len >= 0 <==> |Print(r.value)| < length || r.value == [])
        && (len >= 0 ==> |Print(r.value)| < exp.Length && exp[..|Print(r.value)|] == Print(r.value)
                         && exp[|Print(r.value)|] == 0)
  {
    hide NameAt, EndOf, Print, PrintRest, PrintLabel, OnTheWay, PointerAt, LeadsToRoot;
    ghost var m := msg[..eom];
    ghost var r := NameAt(m, comp, comp);
    ghost var cur: bytes, lo: nat, base: nat := m, comp, 0;
    var dn: nat, cp: nat, checked: nat := 0, comp, 0;
    len := -1;
    StartsOnTheWay(m, comp);
    var n := msg[cp];
    cp := cp + 1;
    while n != 0
      invariant 0 < cp <= eom && n == msg[cp - 1] && (dn == 0 || dn < length)
      invariant forall i :: length <= i < exp.Length ==> exp[i] == old(exp[i])
      invariant base <= checked && base < eom
      invariant length == 0 ==>
        (LeadsToRoot(msg[..], eom, cp - 1, checked) <==> LeadsToRoot(msg[..], eom, comp, 0))
      invariant if len < 0 then EndOf(m, cp - 1) == EndOf(m, comp) else EndOf(m, comp) == Some(comp + len)
      invariant OnTheWay(m, cur, cp - 1, lo, checked, r, exp[..dn])
      decreases eom - base, eom - cp
    {
      EndStep(m, cp - 1);
      RootStep(msg[..], eom, cp - 1, checked);
      if n < 64 {
        dn := ExpandLabel(msg, eom, cp, n, exp, dn, length, cur, lo, checked, r);
        if dn == 0 {
          return -1;
        }
        checked := checked + n + 1;
        cp := cp + n;
      } else if n >= INDIR {
        if len < 0 {
          len := cp - comp + 1;
        }
        var ok;
        ok, cp, checked, cur, lo := FollowPointer(msg, eom, cp, checked, cur, lo, r, exp[..dn]);
        if !ok {
          return -1;
        }
        base := checked;
      } else {
        if r.Some? { NoOtherStep(m, cur, cp - 1, lo, checked, r, exp[..dn]); }
        return -1;
      }
      n := msg[cp];
      cp := cp + 1;
    }
    EndStep(m, cp - 1);
    RootStep(msg[..], eom, cp - 1, checked);
    if r.Some? { NoOtherStep(m, cur, cp - 1, lo, checked, r, exp[..dn]); }
    exp[dn] := 0;
    if len < 0 {
      len := cp - comp;
    }
  }

  /** A message that holds the root name, and room for nothing: a byte is stored all the same. */
  method StoresOneByteTooMany() returns (len: int, before: byte, after: byte)
    ensures len == 1 && before == 7 && after == 0
  {
    var msg: array<byte> := new byte[2](_ => 0);
    var exp: array<byte> := new byte[1](_ => 7);
    before := exp[0];
    assert LeadsToRoot(msg[..], 1, 0, 0);
    assert EndOf(msg[..1], 0) == Some(1);
    len := DnExpand(msg, 1, 0, exp, 0);
    after := exp[0];
  }

  // ---------------------------------------------------------------------------------------------
  // dn_find
  // ---------------------------------------------------------------------------------------------

  /** A character of a C string; its end reads as NUL. */
  function CharAt(text: bytes, i: nat): byte { if i < |text| then text[i] else 0 }

  /** dn_find's inner loop: is the label of `n` bytes at `cp` what the text goes on with at `dn`? */
  method MatchLabel(msg: array<byte>, cp: nat, n: nat, text: bytes, dn: nat) returns (ok: bool, dn': nat)
    requires cp + n <= msg.Length && dn <= |text| && NoNul(msg[cp..cp + n])
    ensures var r := Consume(msg[cp..cp + n], text[dn..]);
      && (ok <==> r.Some?)
      && (ok ==> dn' <= |text| && text[dn'..] == r.value)
  {
    dn' := dn;
    var j := 0;
    while j < n
      invariant j <= n && dn' <= |text|
      invariant Consume(msg[cp + j..cp + n], text[dn'..]) == Consume(msg[cp..cp + n], text[dn..])
    {
      ghost var l := msg[cp + j..cp + n];
      assert l[0] == msg[cp + j] && msg[cp + j] in msg[cp..cp + n];
      assert l[1..] == msg[cp + j + 1..cp + n];
      if CharAt(text, dn') == DOT {
        return false, dn';
      }
      if CharAt(text, dn') == BACKSLASH {
        dn' := dn' + 1;
      }
      if CharAt(text, dn') != msg[cp + j] {
        return false, dn';
      }
      dn' := dn' + 1;
      j := j + 1;
    }
    assert msg[cp + n..cp + n] == [];
    ok := true;
  }

  /** dn_find has come to `at` in the part `cur` of the message and to `dn` in the text. */
  ghost predicate Comparing(m: bytes, cur: bytes, at: nat, lo: nat, text: bytes, dn: nat, full: name) {
    && cur <= m && lo <= at < |cur| && dn <= |text|
    && NameAt(cur, at, lo).Some?
    && GoodName(NameAt(cur, at, lo).value)
    && (Matches(full, text) <==> Matches(NameAt(cur, at, lo).value, text[dn..]))
  }

  lemma StartsComparing(m: bytes, e: nat, text: bytes)
    requires e < |m| && NameAt(m, e, e).Some? && GoodName(NameAt(m, e, e).value)
    ensures Comparing(m, m, e, e, text, 0, NameAt(m, e, e).value)
  {
    assert text[0..] == text;
  }

  /** What one label of the name decides. */
  lemma CompareLabel(m: bytes, cur: bytes, at: nat, lo: nat, text: bytes, dn: nat, full: name)
    requires Comparing(m, cur, at, lo, text, dn, full) && 0 < m[at] < 64
    ensures at + 1 + m[at] < |m| && NoNul(m[at + 1..at + 1 + m[at]])
    ensures var at' := at + 1 + m[at]; var r := Consume(m[at + 1..at'], text[dn..]);
      && (r.None? ==> !Matches(full, text))
      && (r.Some? && r.value == [] ==> (Matches(full, text) <==> m[at'] == 0))
      && (r.Some? && r.value != [] && r.value[0] != DOT ==> !Matches(full, text))
      && forall dn' :: dn <= dn' < |text| && r == Some(text[dn'..]) && text[dn'] == DOT ==>
           Comparing(m, cur, at', lo, text, dn' + 1, full)
  {
    var at' := at + 1 + m[at];
    var l, ls := m[at + 1..at'], NameAt(cur, at', lo).value;
    assert cur[at] == m[at] && l == cur[at + 1..at'] && cur[at'] == m[at'];
    assert NameAt(cur, at, lo).value == [l] + ls;
    GoodTail(l, ls);
    LabelMatches(l, ls, text[dn..]);
    forall dn' | dn <= dn' < |text|
      ensures text[dn'..] != [] && text[dn'..][0] == text[dn'] && text[dn'..][1..] == text[dn' + 1..]
    {
    }
  }

  lemma GoodTail(l: bytes, ls: name)
    requires GoodName([l] + ls)
    ensures GoodLabel(l) && GoodName(ls)
  {
    assert ([l] + ls)[0] == l;
    forall x | x in ls ensures GoodLabel(x) { assert x in [l] + ls; }
  }

  lemma LabelMatches(l: bytes, ls: name, text: bytes)
    ensures Matches([l] + ls, text) <==>
      var r := Consume(l, text);
      r.Some? && if r.value == [] then ls == [] else r.value[0] == DOT && Matches(ls, r.value[1..])
  {
    assert ([l] + ls)[1..] == ls;
  }

  lemma ComparePointer(m: bytes, cur: bytes, at: nat, lo: nat, text: bytes, dn: nat, full: name)
    requires Comparing(m, cur, at, lo, text, dn, full) && m[at] >= 64
    ensures m[at] >= INDIR && at + 1 < |m| && lo <= |cur| && lo < |m|
    ensures lo < |cur| && PointerAt(m, at) < lo
    ensures Comparing(m, cur[..lo], PointerAt(m, at), PointerAt(m, at), text, dn, full)
  {
    assert cur[at] == m[at] && cur[at + 1] == m[at + 1];
    assert PointerAt(cur, at) == PointerAt(m, at);
  }

  lemma CompareEnd(m: bytes, cur: bytes, at: nat, lo: nat, text: bytes, dn: nat, full: name)
    requires Comparing(m, cur, at, lo, text, dn, full)
    ensures lo <= at < |cur| && |cur| <= |m| && dn <= |text|
    ensures m[at] == 0 ==> (Matches(full, text) <==> dn == |text|)
  {
    assert cur[at] == m[at];
  }

  /** One turn of dn_find's outer loop: does the text spell the name at `at`? */
  method MatchName(msg: array<byte>, end: nat, at: nat, text: bytes) returns (found: bool)
    requires end <= msg.Length && at < end && NoNul(text)
    requires NameAt(msg[..end], at, at).Some? && GoodName(NameAt(msg[..end], at, at).value)
    ensures found <==> Matches(NameAt(msg[..end], at, at).value, text)
  {
    hide NameAt, Matches, Consume, Comparing, PointerAt, GoodName;
    ghost var m := msg[..end];
    ghost var full := NameAt(m, at, at).value;
    ghost var cur: bytes, lo: nat := m, at;
    var cp: nat, dn: nat := at, 0;
    StartsComparing(m, at, text);
    var n := msg[cp];
    cp := cp + 1;
    while n != 0
      invariant 0 < cp <= end && n == msg[cp - 1]
      invariant Comparing(m, cur, cp - 1, lo, text, dn, full)
      decreases |cur|, end - cp
    {
      CompareEnd(m, cur, cp - 1, lo, text, dn, full);
      if n < 64 {
        CompareLabel(m, cur, cp - 1, lo, text, dn, full);
        assert m[cp..cp + n] == msg[cp..cp + n];
        var ok;
        ok, dn := MatchLabel(msg, cp, n, text, dn);
        if !ok {
          return false;
        }
        cp := cp + n;
        var c := CharAt(text, dn);
        dn := dn + 1;
        if c == 0 && msg[cp] == 0 {
          return true;
        }
        if c != DOT {
          return false;
        }
      } else {
        ComparePointer(m, cur, cp - 1, lo, text, dn, full);
        PointerHere(m, cp - 1);
        cp := (n - INDIR) * 256 + msg[cp];
        cur, lo := cur[..lo], cp;
      }
      n := msg[cp];
      cp := cp + 1;
    }
    CompareEnd(m, cur, cp - 1, lo, text, dn, full);
    found := CharAt(text, dn) == 0;
  }

  lemma SearchStep(m: bytes, table: seq<nat>, i: nat, text: bytes)
    requires i <= |table| && TableOk(m, table[i..])
    ensures i == |table| ==> FirstMatch(m, table[i..], text) == None
    ensures i < |table| ==>
      var e := table[i];
      && e < |m| && NameAt(m, e, e).Some? && GoodName(NameAt(m, e, e).value)
      && TableOk(m, table[i + 1..])
      && FirstMatch(m, table[i..], text) ==
           if Matches(NameAt(m, e, e).value, text) then Some(e) else FirstMatch(m, table[i + 1..], text)
  {
    hide NameAt, Matches, GoodName, TableOk;
    var rest := table[i..];
    if i < |table| {
      assert rest[1..] == table[i + 1..] && rest[0] == table[i];
      FirstOfTable(m, rest);
    }
  }

  lemma FirstOfTable(m: bytes, table: seq<nat>)
    requires table != [] && TableOk(m, table)
    ensures var e := table[0]; e < |m| && NameAt(m, e, e).Some? && GoodName(NameAt(m, e, e).value)
    ensures TableOk(m, table[1..])
  {
    hide NameAt, GoodName;
    assert table[0] in table;
    forall e | e in table[1..]
      ensures e < |m| && NameAt(m, e, e).Some? && GoodName(NameAt(m, e, e).value)
    {
      assert e in table;
    }
  }

  /** dn_find: the first name on the list, which ends at `lpp`, that the text spells, or -1. */
  method DnFind(text: bytes, msg: array<byte>, end: nat, dnptrs: array<int>, lpp: nat, ghost table: seq<nat>)
      returns (offset: int)
    requires end <= msg.Length && NoNul(text) && TableOk(msg[..end], table)
    requires lpp == |table| + 1 <= dnptrs.Length && forall i :: 1 <= i <= |table| ==> dnptrs[i] == table[i - 1]
    ensures var r := FirstMatch(msg[..end], table, text); offset == if r.Some? then r.value else -1
  {
    hide NameAt, Matches, GoodName, FirstMatch;
    ghost var m := msg[..end];
    var cpp := 1;
    assert table[0..] == table;
    while cpp < lpp
      invariant 1 <= cpp <= lpp && TableOk(m, table[cpp - 1..])
      invariant FirstMatch(m, table[cpp - 1..], text) == FirstMatch(m, table, text)
    {
      SearchStep(m, table, cpp - 1, text);
      var found := MatchName(msg, end, dnptrs[cpp], text);
      if found {
        return dnptrs[cpp];
      }
      cpp := cpp + 1;
    }
    SearchStep(m, table, cpp - 1, text);
    offset := -1;
  }

  // ---------------------------------------------------------------------------------------------
  // dn_comp
  // ---------------------------------------------------------------------------------------------

  /** The end of the list of offsets. */
  const NULL := -1

  /** dnptrs: the offset of the message, the offsets of the names, and NULL, in an array with room to spare. */
  ghost predicate IsList(dnptrs: seq<int>, table: seq<nat>) {
    && |table| + 2 <= |dnptrs|
    && dnptrs[0] == 0
    && (forall i :: 1 <= i <= |table| ==> dnptrs[i] == table[i - 1])
    && dnptrs[|table| + 1] == NULL
  }

  /** How many offsets can still be added. */
  function Slots(size: nat, entries: nat): nat { if entries + 2 < size then size - 2 - entries else 0 }

  /** What dn_comp yields when it has written `pre`, added `added`, and the rest yields `more`. */
  function Ahead(pre: bytes, added: seq<nat>, more: Option<Written>): Option<Written> {
    match more
    case None => None
    case Some(w) => Some(Written(pre + w.bytes, added + w.added, w.pointer))
  }

  lemma AheadAll(more: Option<Written>)
    ensures Ahead([], [], more) == more
  {
    if more.Some? { assert [] + more.value.bytes == more.value.bytes && [] + more.value.added == more.value.added; }
  }

  lemma AheadTwice(pre: bytes, added: seq<nat>, l: bytes, entry: seq<nat>, more: Option<Written>)
    ensures Ahead(pre, added, Ahead(l, entry, more)) == Ahead(pre + l, added + entry, more)
  {
    if more.Some? {
      assert pre + (l + more.value.bytes) == (pre + l) + more.value.bytes;
      assert added + (entry + more.value.added) == (added + entry) + more.value.added;
    }
  }

  /** One turn of dn_comp's loop. */
  lemma CompStep(m: bytes, table: seq<nat>, text: bytes, pos: nat, slots: nat)
    requires TableOk(m, table) && |m| <= OFFSETS && text != []
    ensures var w := Compressed(m, table, text, pos, slots);
      var f := FirstMatch(m, table, text);
      if f.Some? then
        f.value < OFFSETS && w == Some(Written([INDIR + f.value / 256, f.value % 256], [], true))
      else
        var s := ScanLabel(text);
        var added: seq<nat> := if slots > 0 then [pos] else [];
        if s == Scan([], []) then w == Ahead([], added, Some(Written([0], [], false)))
        else if s.chars == [] || |s.chars| > MAXLABEL then w == None
        else
          var more := Compressed(m, table, s.rest, pos + 1 + |s.chars|, if slots > 0 then slots - 1 else 0);
          w == Ahead([|s.chars|] + s.chars, added, more)
  {
    hide FirstMatch, ScanLabel;
    assert [] + [0] == [0];
    assert forall added: seq<nat> :: added + [] == added;
  }

  /** What the character at `i` means. */
  lemma ScanStep(text: bytes, i: nat)
    requires i <= |text|
    ensures var s := ScanLabel(text[i..]);
      if i == |text| then s == Scan([], [])
      else if text[i] == DOT then s == Scan([], text[i + 1..])
      else
        var k := if text[i] == BACKSLASH then i + 1 else i;
        if k == |text| then s == Scan([], [])
        else s == Scan([text[k]] + ScanLabel(text[k + 1..]).chars, ScanLabel(text[k + 1..]).rest)
  {
    if i < |text| {
      assert text[i..][1..] == text[i + 1..];
      if i + 1 < |text| { assert text[i..][2..] == text[i + 2..]; }
    }
  }

  /** `s` is what has been copied, `done`, and then the label that goes on at `i`. */
  ghost predicate Copied(s: Scan, done: bytes, text: bytes, i: nat)
    requires i <= |text|
  {
    var rest := ScanLabel(text[i..]);
    s == Scan(done + rest.chars, rest.rest)
  }

  lemma StartsCopied(text: bytes, i: nat)
    requires i < |text|
    ensures Copied(ScanLabel(text[i..]), [], text, i)
  {
    var s := ScanLabel(text[i..]);
    assert [] + s.chars == s.chars;
  }

  lemma CopyEnds(s: Scan, done: bytes, text: bytes, i: nat)
    requires i <= |text| && Copied(s, done, text, i)
    ensures i == |text| || (text[i] == BACKSLASH && i + 1 == |text|) ==> s == Scan(done, [])
    ensures i < |text| && text[i] == DOT ==> s == Scan(done, text[i + 1..])
  {
    ScanStep(text, i);
    assert done + [] == done;
  }

  lemma CopyOne(s: Scan, done: bytes, text: bytes, i: nat, k: nat)
    requires i < |text| && Copied(s, done, text, i) && text[i] != DOT
    requires k == if text[i] == BACKSLASH then i + 1 else i
    requires k < |text|
    ensures |s.chars| > |done| && Copied(s, done + [text[k]], text, k + 1)
  {
    ScanStep(text, i);
    var r := ScanLabel(text[k + 1..]);
    assert done + ([text[k]] + r.chars) == (done + [text[k]]) + r.chars;
  }

  /** dn_comp's inner loop: the characters of a label are copied, backslashes resolved. */
  method CopyText(text: bytes, i: nat, buf: array<byte>, cp: nat, eob: nat) returns (ok: bool, i': nat, cp': nat)
    requires NoNul(text) && i < |text| && eob <= buf.Length && cp <= eob + 1
    modifies buf
    ensures forall k | 0 <= k < buf.Length && (k < cp || k >= eob) :: buf[k] == old(buf[k])
    ensures var s := ScanLabel(text[i..]);
      && (ok <==> cp + |s.chars| <= eob || s.chars == [])
      && (ok ==> i < i' <= |text| && cp' == cp + |s.chars| && text[i'..] == s.rest)
      && (ok && s.chars != [] ==> buf[cp..cp'] == s.chars)
  {
    hide ScanLabel, Copied;
    i', cp' := i, cp;
    ghost var s := ScanLabel(text[i..]);
    ghost var copied: bytes := [];
    StartsCopied(text, i);
    var c := text[i];
    ok := true;
    while c != 0
      invariant i <= i' <= |text| && cp' == cp + |copied|
      invariant c == CharAt(text, i') && (c == 0 ==> i < i')
      invariant Copied(s, copied, text, i')
      invariant copied != [] ==> cp' <= eob && buf[cp..cp'] == copied
      invariant forall k | 0 <= k < buf.Length && (k < cp || k >= eob) :: buf[k] == old(buf[k])
      decreases |text| - i'
    {
      CopyEnds(s, copied, text, i');
      if c == DOT {
        i' := i' + 1;
        return;
      }
      ghost var from := i';
      if c == BACKSLASH {
        i' := i' + 1;
        c := CharAt(text, i');
        if c == 0 {
          return;
        }
      }
      CopyOne(s, copied, text, from, i');
      if cp' >= eob {
        return false, i', cp';
      }
      buf[cp'] := c;
      copied := copied + [c];
      cp' := cp' + 1;
      i' := i' + 1;
      c := CharAt(text, i');
    }
    CopyEnds(s, copied, text, i');
  }

  datatype Turn = Label | Last | Bad | Pointer

  /** One turn of dn_comp's loop without the search: a label is written, its length in front. */
  method NextLabel(text: bytes, i: nat, buf: array<byte>, ghost at: nat, sp: nat, eob: nat)
      returns (turn: Turn, i': nat, cp: nat)
    requires NoNul(text) && i < |text| && at <= sp <= eob <= buf.Length
    modifies buf
    ensures forall k | 0 <= k < buf.Length && (k < sp || k >= eob) :: buf[k] == old(buf[k])
    ensures var s := ScanLabel(text[i..]);
      match turn
      case Label =>
        && 0 < |s.chars| <= MAXLABEL && i < i' <= |text| && text[i'..] == s.rest
        && sp + 1 + |s.chars| == cp <= eob && buf[at..cp] == old(buf[at..sp]) + [|s.chars|] + s.chars
      case Last => s == Scan([], []) && cp == sp && buf[at..sp] == old(buf[at..sp])
      case Bad => if s.chars == [] then s.rest != [] else |s.chars| > MAXLABEL || sp + 1 + |s.chars| > eob
      case Pointer => false
  {
    hide ScanLabel;
    var ok;
    cp := sp + 1;
    ok, i', cp := CopyText(text, i, buf, cp, eob);
    if !ok {
      return Bad, i', cp;
    }
    var l := cp - sp - 1;
    if l == 0 && CharAt(text, i') == 0 {
      return Last, i', cp - 1;
    }
    if l == 0 || l > MAXLABEL {
      return Bad, i', cp;
    }
    buf[sp] := l;
    assert buf[at..cp] == buf[at..sp] + [buf[sp]] + buf[sp + 1..cp];
    turn := Label;
  }

  /** The end of the list to search. */
  method EndOfList(dnptrs: array<int>, ghost table: seq<nat>) returns (lpp: nat)
    requires IsList(dnptrs[..], table)
    ensures lpp == |table| + 1
  {
    lpp := 1;
    while dnptrs[lpp] != NULL
      invariant 1 <= lpp <= |table| + 1
      decreases |table| + 1 - lpp
    {
      lpp := lpp + 1;
    }
  }

  /** The list of names takes in one more offset, unless it is full. */
  method Save(dnptrs: array<int>, cpp: nat, offset: nat, ghost table: seq<nat>) returns (cpp': nat)
    requires IsList(dnptrs[..], table) && cpp == |table| + 1
    modifies dnptrs
    ensures var added: seq<nat> := if Slots(dnptrs.Length, |table|) > 0 then [offset] else [];
      IsList(dnptrs[..], table + added) && cpp' == |table + added| + 1
  {
    cpp' := cpp;
    if cpp < dnptrs.Length - 1 {
      dnptrs[cpp] := offset;
      cpp' := cpp + 1;
      dnptrs[cpp'] := NULL;
    } else {
      assert table + [] == table;
    }
  }

  /** No list means that nothing is shared. */
  ghost predicate IsListOrNull(dnptrs: array?<int>, table: seq<nat>)
    reads dnptrs
  {
    if dnptrs == null then table == [] else IsList(dnptrs[..], table)
  }

  function SlotsOf(dnptrs: array?<int>, update: bool, entries: nat): nat {
    if dnptrs != null && update then Slots(dnptrs.Length, entries) else 0
  }

  /** The list, if there is one, is cut back to what it was. */
  method CutBack(dnptrs: array?<int>, lpp: nat, ghost table: seq<nat>, ghost added: seq<nat>)
    requires IsListOrNull(dnptrs, table + added) && (dnptrs != null ==> lpp == |table| + 1)
    modifies dnptrs
    ensures IsListOrNull(dnptrs, table)
  {
    if dnptrs != null {
      dnptrs[lpp] := NULL;
    } else {
      assert table + added == [] ==> |table| == 0;
    }
  }

  lemma NothingListed(m: bytes, text: bytes)
    ensures TableOk(m, []) && FirstMatch(m, [], text).None?
  {
  }

  lemma ListFront(dnptrs: seq<int>, table: seq<nat>, added: seq<nat>)
    requires IsList(dnptrs, table + added)
    ensures |table| + 1 <= |dnptrs| && forall i :: 1 <= i <= |table| ==> dnptrs[i] == table[i - 1]
  {
  }

  /** The first half of a turn of dn_comp's loop: the rest of the name is looked up, and listed if it is new. */
  method LookUp(text: bytes, buf: array<byte>, at: nat, cp: nat, dnptrs: array?<int>, update: bool, lpp: nat, cpp: nat,
                ghost table: seq<nat>, ghost added: seq<nat>)
      returns (l: int, cpp': nat)
    requires NoNul(text) && at <= buf.Length && TableOk(buf[..at], table) && buf as object? != dnptrs
    requires IsListOrNull(dnptrs, table + added)
    requires dnptrs != null ==> lpp == |table| + 1 && cpp == |table + added| + 1
    modifies dnptrs
    ensures var f := FirstMatch(buf[..at], table, text);
      var entry: seq<nat> := if SlotsOf(dnptrs, update, |table + added|) > 0 then [cp] else [];
      if f.Some? then l == f.value && IsListOrNull(dnptrs, table + added)
      else
        && l < 0 && IsListOrNull(dnptrs, table + (added + entry))
        && (dnptrs != null ==> cpp' == |table + (added + entry)| + 1)
  {
    hide FirstMatch, TableOk, IsList;
    assert added + [] == added;
    l, cpp' := -1, cpp;
    if dnptrs != null {
      ListFront(dnptrs[..], table, added);
      l := DnFind(text, buf, at, dnptrs, lpp, table);
      if l < 0 && update {
        assert table + (added + [cp]) == (table + added) + [cp];
        assert (table + added) + [] == table + added;
        cpp' := Save(dnptrs, cpp, cp, table + added);
      }
    } else {
      assert table == [] by { assert |table| <= |table + added|; }
      NothingListed(buf[..at], text);
    }
  }

  /** A pointer is written, if it fits. */
  method WritePointer(buf: array<byte>, at: nat, cp: nat, eob: nat, l: nat) returns (size: int)
    requires at <= cp <= eob <= buf.Length && l < OFFSETS
    modifies buf
    ensures forall k | 0 <= k < buf.Length && (k < cp || k >= eob) :: buf[k] == old(buf[k])
    ensures size == if cp + 2 <= eob then cp + 2 - at else -1
    ensures size >= 0 ==> buf[at..at + size] == old(buf[at..cp]) + [INDIR + l / 256, l % 256]
  {
    if cp + 1 >= eob {
      return -1;
    }
    buf[cp] := INDIR + l / 256;
    buf[cp + 1] := l % 256;
    size := cp + 2 - at;
  }

  /** The NUL at the end of a name is written, if it fits. */
  method WriteEnd(buf: array<byte>, at: nat, cp: nat, eob: nat) returns (ok: bool)
    requires at <= cp <= eob <= buf.Length
    modifies buf
    ensures forall k | 0 <= k < buf.Length && (k < cp || k >= eob) :: buf[k] == old(buf[k])
    ensures ok <==> cp < eob
    ensures ok ==> buf[at..cp + 1] == old(buf[at..cp]) + [0]
  {
    if cp >= eob {
      return false;
    }
    buf[cp] := 0;
    ok := true;
  }

  /** dn_comp has written up to `cp`, and goes on with the text at `i`. */
  ghost predicate Halfway(w: Option<Written>, m: bytes, table: seq<nat>, text: bytes, i: nat, pre: bytes,
                          added: seq<nat>, slots: nat)
    requires TableOk(m, table) && |m| <= OFFSETS
  {
    i <= |text| && w == Ahead(pre, added, Compressed(m, table, text[i..], |m| + |pre|, slots))
  }

  lemma StartsHalfway(m: bytes, table: seq<nat>, text: bytes, slots: nat)
    requires TableOk(m, table) && |m| <= OFFSETS
    ensures Halfway(Compressed(m, table, text, |m|, slots), m, table, text, 0, [], [], slots)
  {
    AheadAll(Compressed(m, table, text, |m|, slots));
    assert text[0..] == text;
  }

  lemma HalfwayStep(w: Option<Written>, m: bytes, table: seq<nat>, text: bytes, i: nat, pre: bytes,
                          added: seq<nat>, slots: nat)
    requires TableOk(m, table) && |m| <= OFFSETS && Halfway(w, m, table, text, i, pre, added, slots) && i < |text|
    ensures var f := FirstMatch(m, table, text[i..]);
      if f.Some? then
        f.value < OFFSETS && w == Some(Written(pre + [INDIR + f.value / 256, f.value % 256], added, true))
      else
        var s := ScanLabel(text[i..]);
        var entry: seq<nat> := if slots > 0 then [|m| + |pre|] else [];
        if s == Scan([], []) then w == Some(Written(pre + [0], added + entry, false))
        else if s.chars == [] || |s.chars| > MAXLABEL then w == None
        else
          && (w.Some? ==> |pre| + 1 + |s.chars| + LastSize(w.value) <= |w.value.bytes|)
          && forall i' | i < i' <= |text| && text[i'..] == s.rest ::
            Halfway(w, m, table, text, i', pre + [|s.chars|] + s.chars, added + entry,
                    if slots > 0 then slots - 1 else 0)
  {
    hide FirstMatch, ScanLabel, Compressed;
    CompStep(m, table, text[i..], |m| + |pre|, slots);
    var s := ScanLabel(text[i..]);
    var entry: seq<nat> := if slots > 0 then [|m| + |pre|] else [];
    var left := if slots > 0 then slots - 1 else 0;
    AheadTwice(pre, added, [], entry, Some(Written([0], [], false)));
    assert added + entry + [] == added + entry && added + [] == added && pre + [] == pre;
    assert pre + [|s.chars|] + s.chars == pre + ([|s.chars|] + s.chars);
    if 0 < |s.chars| <= MAXLABEL {
      AheadTwice(pre, added, [|s.chars|] + s.chars, entry,
                 Compressed(m, table, s.rest, |m| + |pre| + 1 + |s.chars|, left));
    }
  }

  lemma HalfwayEnd(w: Option<Written>, m: bytes, table: seq<nat>, text: bytes, i: nat, pre: bytes,
                          added: seq<nat>, slots: nat)
    requires TableOk(m, table) && |m| <= OFFSETS && Halfway(w, m, table, text, i, pre, added, slots) && i == |text|
    ensures w == Some(Written(pre + [0], added, false))
  {
    assert text[i..] == [] && added + [] == added;
  }

  /**
   dn_comp's outer loop.  It comes to a pointer and writes it if it fits, or to the end of the name
   with all labels written, or to a label that is no good or does not fit.
   */
  method CompLabels(text: bytes, buf: array<byte>, at: nat, eob: nat, dnptrs: array?<int>, update: bool, lpp: nat,
                    ghost table: seq<nat>)
      returns (turn: Turn, cp: nat, size: int, ghost added: seq<nat>)
    requires NoNul(text) && at <= eob <= buf.Length && at <= OFFSETS && buf as object? != dnptrs
    requires IsListOrNull(dnptrs, table) && TableOk(buf[..at], table) && (dnptrs != null ==> lpp == |table| + 1)
    modifies buf, dnptrs
    ensures forall k | 0 <= k < buf.Length && (k < at || k >= eob) :: buf[k] == old(buf[k])
    ensures IsListOrNull(dnptrs, table + added)
    ensures var w := Compressed(old(buf[..at]), table, text, at, SlotsOf(dnptrs, update, |table|));
      match turn
      case Pointer =>
        && w.Some? && w.value.pointer && w.value.added == added && at + |w.value.bytes| <= eob + 2
        && size == (if at + |w.value.bytes| <= eob then |w.value.bytes| else -1)
        && (size >= 0 ==> buf[at..at + size] == w.value.bytes)
      case Bad => w.Some? ==> at + |w.value.bytes| > eob + if w.value.pointer then 2 else 0
      case _ => at <= cp <= eob && w == Some(Written(buf[at..cp] + [0], added, false))
  {
    hide Compressed, FirstMatch, ScanLabel, IsListOrNull, IsList, TableOk, Halfway, NoNul, SlotsOf, CharAt, Ahead,
         GoodName, NameAt;
    ghost var m := buf[..at];
    ghost var left := SlotsOf(dnptrs, update, |table|);
    ghost var w := Compressed(m, table, text, at, left);
    StartsHalfway(m, table, text, left);
    var i, cpp := 0, lpp;
    cp, size, added := at, -1, [];
    assert table + added == table && buf[at..cp] == [];
    var c := CharAt(text, i);
    TextLeft(text, i);
    while c != 0
      invariant i <= |text| && c == CharAt(text, i) && (c == 0 <==> i == |text|) && at <= cp <= eob
      invariant forall k | 0 <= k < buf.Length && (k < at || k >= eob) :: buf[k] == old(buf[k])
      invariant buf[..at] == m
      invariant dnptrs != null ==> cpp == |table + added| + 1
      invariant IsListOrNull(dnptrs, table + added)
      invariant left == SlotsOf(dnptrs, update, |table + added|)
      invariant Halfway(w, m, table, text, i, buf[at..cp], added, left)
      decreases |text| - i
    {
      HalfwayStep(w, m, table, text, i, buf[at..cp], added, left);
      TextLeft(text, i);
      SlotsLeft(dnptrs, update, |table + added|);
      ghost var entry: seq<nat> := if left > 0 then [cp] else [];
      var l;
      l, cpp := LookUp(text[i..], buf, at, cp, dnptrs, update, lpp, cpp, table, added);
      if l >= 0 {
        size := WritePointer(buf, at, cp, eob, l);
        turn := Pointer;
        return;
      }
      added := added + entry;
      left := if left > 0 then left - 1 else 0;
      turn, i, cp := NextLabel(text, i, buf, at, cp, eob);
      if turn != Label {
        return;
      }
      c := CharAt(text, i);
      TextLeft(text, i);
    }
    HalfwayEnd(w, m, table, text, i, buf[at..cp], added, left);
    turn := Last;
  }

  /** What a call that has failed for want of room leaves on the list. */
  function StillListed(w: Option<Written>, length: nat): seq<nat> {
    if w.Some? && w.value.pointer && |w.value.bytes| <= length + 2 then w.value.added else []
  }

  /**
   dn_comp, for a name that starts at `at` with `length` bytes to go in.  It succeeds exactly if the
   compressed form exists and fits, writes it, lists its new offsets, and touches no byte outside.
   When it fails it leaves the list as it was, except exactly if all fitted but the final pointer.
   `update` is false if lastdnptr is NULL.
   */
  method DnComp(text: bytes, buf: array<byte>, at: nat, length: nat, dnptrs: array?<int>, update: bool,
                ghost table: seq<nat>)
      returns (size: int)
    requires NoNul(text) && at + length <= buf.Length && at <= OFFSETS && buf as object? != dnptrs
    requires IsListOrNull(dnptrs, table) && TableOk(buf[..at], table)
    modifies buf, dnptrs
    ensures forall k | 0 <= k < buf.Length && (k < at || k >= at + length) :: buf[k] == old(buf[k])
    ensures var w := Compressed(old(buf[..at]), table, text, at, SlotsOf(dnptrs, update, |table|));
      if w.Some? && |w.value.bytes| <= length then
        && size == |w.value.bytes| && buf[at..at + size] == w.value.bytes
        && IsListOrNull(dnptrs, table + w.value.added)
      else
        && size == -1
        && IsListOrNull(dnptrs, table + StillListed(w, length))
  {
    hide Compressed, IsListOrNull, IsList, TableOk, NoNul, SlotsOf, NameAt;
    assert table + [] == table;
    var lpp := 0;
    if dnptrs != null {
      ListThere(dnptrs, table);
      lpp := EndOfList(dnptrs, table);
    }
    var eob := at + length;
    var turn, cp;
    ghost var added;
    turn, cp, size, added := CompLabels(text, buf, at, eob, dnptrs, update, lpp, table);
    if turn == Pointer {
      return;
    }
    var ok := false;
    if turn != Bad {
      ok := WriteEnd(buf, at, cp, eob);
    }
    if !ok {
      CutBack(dnptrs, lpp, table, added);
      return -1;
    }
    size := cp + 1 - at;
  }

  lemma ListThere(dnptrs: array<int>, table: seq<nat>)
    ensures IsListOrNull(dnptrs, table) <==> IsList(dnptrs[..], table)
  {
  }

  lemma SlotsLeft(dnptrs: array?<int>, update: bool, entries: nat)
    ensures var left := SlotsOf(dnptrs, update, entries);
      left > 0 ==> SlotsOf(dnptrs, update, entries + 1) == left - 1
  {
  }

  lemma TextLeft(text: bytes, i: nat)
    requires NoNul(text) && i <= |text|
    ensures NoNul(text[i..]) && (CharAt(text, i) == 0 <==> i == |text|)
  {
  }

  /**
   A name `x` is listed, `a.x` is put behind it, and there is room for all but the last byte of its
   pointer: the call fails, and yet the offset of `a.x`, where no name came to be, is on the list.
   */
  method FailureLeavesAnEntry() returns (size: int, before: int, after: int)
    ensures size == -1 && before == NULL && after == 3
  {
    var buf: array<byte> := new byte[6](i => if i == 0 then 1 else if i == 1 then 120 else 0);
    var dnptrs: array<int> := new int[4](i => if i < 2 then 0 else NULL);
    before := dnptrs[2];
    ghost var m := buf[..3];
    assert m == [1, 120, 0];
    CompressedToPointer(m);
    hide Compressed, TableOk, FirstMatch, NameAt, LeadsToRoot;
    assert [0] + [3] == [0, 3];
    size := DnComp([97, 46, 120], buf, 3, 3, dnptrs, true, [0]);
    assert IsList(dnptrs[..], [0, 3]);
    after := dnptrs[2];
  }

  /** `a.x` behind `x` becomes a label and a pointer to `x`. */
  lemma CompressedToPointer(m: bytes)
    requires m == [1, 120, 0]
    ensures TableOk(m, [0])
    ensures Compressed(m, [0], [97, 46, 120], 3, 1) == Some(Written([1, 97, INDIR, 0], [3], true))
  {
    XIsThere(m);
    var text: bytes := [97, 46, 120];
    assert text[1..] == [46, 120] && text[1..][1..] == [120];
    assert ScanLabel(text) == Scan([97], [120]);
    NoMatchYet(m, text);
    XMatches(m);
    hide FirstMatch, ScanLabel, Compressed, TableOk;
    CompStep(m, [0], [120], 5, 0);
    CompStep(m, [0], text, 3, 1);
    assert [1] + [97] + [INDIR, 0] == [1, 97, INDIR, 0] && [3] + [] == [3];
  }

  lemma XIsThere(m: bytes)
    requires m == [1, 120, 0]
    ensures NameAt(m, 0, 0) == Some([[120]]) && TableOk(m, [0])
  {
    assert NameAt(m, 2, 0) == Some([]);
    assert m[1..2] == [120] && [m[1..2]] + [] == [[120]];
  }

  lemma NoMatchYet(m: bytes, text: bytes)
    requires NameAt(m, 0, 0) == Some([[120]]) && TableOk(m, [0]) && text == [97, 46, 120]
    ensures FirstMatch(m, [0], text) == None
  {
    assert Consume([120], text) == None;
  }

  lemma XMatches(m: bytes)
    requires NameAt(m, 0, 0) == Some([[120]]) && TableOk(m, [0])
    ensures FirstMatch(m, [0], [120]) == Some(0)
  {
    var text: bytes := [120];
    assert Consume([], text[1..]) == Some([]);
    assert Consume([120], text) == Some([]);
  }
}
