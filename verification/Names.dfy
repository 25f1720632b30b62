/** Domain names as text and as labels: how res_comp.c reads the one and prints the other. */
module Names {
  import opened Wrappers
  import opened Bytes

  const DOT: byte := 46
  const BACKSLASH: byte := 92
  const MAXLABEL := 63

  type name = seq<bytes>

  /** A C string holds no NUL. */
  predicate NoNul(s: bytes) { 0 !in s }

  predicate GoodLabel(l: bytes) { 0 < |l| <= MAXLABEL && NoNul(l) }

  predicate GoodName(ls: name) { forall l <- ls :: GoodLabel(l) }

  // ---------------------------------------------------------------------------------------------
  // Text to labels
  // ---------------------------------------------------------------------------------------------

  /** A label with its backslashes resolved, and the text after the dot that ended it. */
  datatype Scan = Scan(chars: bytes, rest: bytes)

  function ScanLabel(text: bytes): (s: Scan)
    ensures text != [] ==> |s.rest| < |text|
    decreases |text|
  {
    if text == [] then Scan([], [])
    else if text[0] == DOT then Scan([], text[1..])
    else if text[0] == BACKSLASH then
      if |text| == 1 then Scan([], [])
      else
        var s := ScanLabel(text[2..]);
        Scan([text[1]] + s.chars, s.rest)
    else
      var s := ScanLabel(text[1..]);
      Scan([text[0]] + s.chars, s.rest)
  }

  /** The labels of a textual name, as dn_comp takes it apart: one trailing empty label is dropped. */
  function NameOf(text: bytes): Option<name>
    decreases |text|
  {
    if text == [] then Some([])
    else
      var s := ScanLabel(text);
      if s.chars == [] && s.rest == [] then Some([])
      else if s.chars == [] || |s.chars| > MAXLABEL then None
      else
        match NameOf(s.rest)
        case None => None
        case Some(ls) => Some([s.chars] + ls)
  }

  lemma {:induction false} ScanNoNul(text: bytes)
    requires NoNul(text)
    ensures NoNul(ScanLabel(text).chars) && NoNul(ScanLabel(text).rest)
    decreases |text|
  {
    if text != [] && text[0] != DOT {
      if text[0] == BACKSLASH {
        if |text| > 1 { ScanNoNul(text[2..]); }
      } else {
        ScanNoNul(text[1..]);
      }
    }
  }

  lemma {:induction false} NameIsGood(text: bytes)
    requires NoNul(text) && NameOf(text).Some?
    ensures GoodName(NameOf(text).value) && forall l <- NameOf(text).value :: 1 <= |l| <= 63 && 0 !in l
    decreases |text|
  {
    if text != [] {
      var s := ScanLabel(text);
      ScanNoNul(text);
      if s.chars != [] { NameIsGood(s.rest); }
    }
  }

  // ---------------------------------------------------------------------------------------------
  // Labels to text
  // ---------------------------------------------------------------------------------------------

  function PrintChar(c: byte): bytes { if c == DOT then [BACKSLASH, DOT] else [c] }

  function PrintLabel(l: bytes): (s: bytes)
    ensures |s| >= |l|
  {
    if l == [] then [] else PrintChar(l[0]) + PrintLabel(l[1..])
  }

  lemma {:induction false} PrintLabelSnoc(l: bytes, c: byte)
    ensures PrintLabel(l + [c]) == PrintLabel(l) + PrintChar(c)
    decreases |l|
  {
    if l == [] {
      assert l + [c] == [c];
      assert PrintLabel([c]) == PrintChar(c) + PrintLabel([]);
    } else {
      assert (l + [c])[1..] == l[1..] + [c];
      PrintLabelSnoc(l[1..], c);
    }
  }

  /** What dn_expand prints: labels joined by dots, dots inside labels escaped. */
  function Print(ls: name): bytes {
    if ls == [] then [] else PrintLabel(ls[0]) + PrintRest(ls[1..])
  }

  function PrintRest(ls: name): bytes {
    if ls == [] then [] else [DOT] + PrintLabel(ls[0]) + PrintRest(ls[1..])
  }

  /** Labels that print without loss: the printer does not escape backslashes. */
  predicate Plain(ls: name) { GoodName(ls) && forall l <- ls :: BACKSLASH !in l }

  lemma PrintStep(l: bytes, rest: bytes)
    requires l != []
    ensures var text := PrintLabel(l) + rest; var more := PrintLabel(l[1..]) + rest;
      if l[0] == DOT then |text| > 1 && text[0] == BACKSLASH && text[1] == DOT && text[2..] == more
      else text != [] && text[0] == l[0] && text[1..] == more
  {
    var more := PrintLabel(l[1..]) + rest;
    assert PrintLabel(l) == PrintChar(l[0]) + PrintLabel(l[1..]);
    hide PrintLabel;
    PutInFront(PrintChar(l[0]), PrintLabel(l[1..]), rest);
  }

  lemma PutInFront(c: bytes, s: bytes, rest: bytes)
    ensures (c + s) + rest == c + (s + rest)
    ensures (c + (s + rest))[|c|..] == s + rest
    ensures forall i :: 0 <= i < |c| ==> (c + (s + rest))[i] == c[i]
  {
  }

  lemma {:induction false} ScanPrinted(l: bytes, rest: bytes)
    requires BACKSLASH !in l && (rest == [] || rest[0] == DOT)
    ensures ScanLabel(PrintLabel(l) + rest) == Scan(l, if rest == [] then [] else rest[1..])
    decreases |l|
  {
    hide PrintLabel, ScanLabel;
    var text := PrintLabel(l) + rest;
    if l == [] {
      ScanEnd(rest);
    } else {
      PrintStep(l, rest);
      ScanPrinted(l[1..], rest);
      ScanOne(text, if l[0] == DOT then 1 else 0);
      assert l == [l[0]] + l[1..];
    }
  }

  lemma ScanEnd(rest: bytes)
    requires rest == [] || rest[0] == DOT
    ensures PrintLabel([]) + rest == rest && ScanLabel(rest) == Scan([], if rest == [] then [] else rest[1..])
  {
  }

  /** One character of a label, with or without a backslash before it. */
  lemma ScanOne(text: bytes, k: nat)
    requires k < |text| && if k == 1 then text[0] == BACKSLASH else k == 0 && text[0] != DOT && text[0] != BACKSLASH
    ensures var s := ScanLabel(text[k + 1..]); ScanLabel(text) == Scan([text[k]] + s.chars, s.rest)
  {
  }

  function Dots(k: nat): (s: bytes)
    ensures |s| == k
  {
    if k == 0 then [] else [DOT] + Dots(k - 1)
  }

  /** How many dots may come at the end: an empty label there is dropped. */
  function Trailing(ls: name): nat { if ls == [] then 1 else 2 }

  /** Reading what was printed gives the name back, with so many dots behind it or fewer, and not with more. */
  lemma PrintedIsRead(ls: name, k: nat)
    requires Plain(ls)
    ensures NameOf(Print(ls) + Dots(k)) == if k <= Trailing(ls) then Some(ls) else None
  {
    hide NameOf, PrintLabel;
    if ls == [] {
      OnlyDots(k);
      assert Print(ls) + Dots(k) == Dots(k);
    } else {
      PrintedLabelsAreRead(ls, k);
      Regroup(PrintLabel(ls[0]), PrintRest(ls[1..]), Dots(k));
    }
  }

  lemma {:induction false} PrintedLabelsAreRead(ls: name, k: nat)
    requires Plain(ls) && ls != []
    ensures NameOf(PrintLabel(ls[0]) + (PrintRest(ls[1..]) + Dots(k))) == if k <= 2 then Some(ls) else None
    decreases |ls|
  {
    hide ScanLabel, PrintLabel, NameOf;
    var l, tail := ls[0], PrintRest(ls[1..]) + Dots(k);
    assert l in ls;
    ScanPrinted(l, tail);
    NameStep(PrintLabel(l) + tail, l, if tail == [] then [] else tail[1..]);
    if |ls| > 1 {
      assert Plain(ls[1..]);
      PrintedLabelsAreRead(ls[1..], k);
      assert ls[1..][1..] == ls[2..];
      assert tail[1..] == PrintLabel(ls[1]) + (PrintRest(ls[2..]) + Dots(k));
    } else {
      assert tail == Dots(k);
      OnlyDots(if k == 0 then 0 else k - 1);
    }
    assert ls == [l] + ls[1..];
  }

  /** One dot at most is the root. */
  lemma OnlyDots(k: nat)
    ensures NameOf(Dots(k)) == if k <= 1 then Some([]) else None
  {
    if k > 0 { assert Dots(k)[1..] == Dots(k - 1); }
  }

  /** `a..` is taken for `a`. */
  lemma TwoTrailingDots()
    ensures NameOf([97, DOT, DOT]) == Some([[97]])
  {
    assert PrintLabel([97]) == [97] + PrintLabel([]);
    assert Print([[97]]) == [97];
    PrintedIsRead([[97]], 2);
    assert Dots(2) == [DOT] + ([DOT] + []);
    assert [97] + Dots(2) == [97, DOT, DOT];
  }

  lemma NoName(text: bytes)
    requires text == []
    ensures NameOf(text) == Some([])
  {
  }

  lemma NameStep(text: bytes, l: bytes, rest: bytes)
    requires ScanLabel(text) == Scan(l, rest) && GoodLabel(l)
    ensures NameOf(text) == if NameOf(rest).None? then None else Some([l] + NameOf(rest).value)
  {
  }

  // ---------------------------------------------------------------------------------------------
  // Comparing a text with labels
  // ---------------------------------------------------------------------------------------------

  /** dn_find's inner loop: what is left of the text after one label, if it starts with that label. */
  function Consume(l: bytes, text: bytes): (r: Option<bytes>)
    ensures r.Some? ==> |r.value| <= |text|
    decreases |l|
  {
    if l == [] then Some(text)
    else if text == [] || text[0] == DOT then None
    else if text[0] == BACKSLASH then
      if |text| == 1 || text[1] != l[0] then None else Consume(l[1..], text[2..])
    else if text[0] != l[0] then None
    else Consume(l[1..], text[1..])
  }

  /** Does the text spell these labels, with at most one dot at the end? */
  predicate Matches(ls: name, text: bytes)
    decreases |ls|
  {
    if ls == [] then text == []
    else
      match Consume(ls[0], text)
      case None => false
      case Some(rest) =>
        if rest == [] then |ls| == 1
        else rest[0] == DOT && Matches(ls[1..], rest[1..])
  }

  lemma {:induction false} ConsumeIsScan(l: bytes, text: bytes)
    requires Consume(l, text).Some?
    requires var rest := Consume(l, text).value; rest == [] || rest[0] == DOT
    ensures var rest := Consume(l, text).value;
      ScanLabel(text) == Scan(l, if rest == [] then [] else rest[1..])
    decreases |l|
  {
    if l != [] {
      ConsumeIsScan(l[1..], if text[0] == BACKSLASH then text[2..] else text[1..]);
      assert l == [l[0]] + l[1..];
    }
  }

  /** A match means that dn_comp would read the text as exactly these labels. */
  lemma {:induction false} MatchIsName(ls: name, text: bytes)
    requires GoodName(ls) && Matches(ls, text)
    ensures NameOf(text) == Some(ls)
    decreases |ls|
  {
    hide ScanLabel, NameOf, Consume;
    if ls == [] {
      NoName(text);
    } else {
      var rest := Consume(ls[0], text).value;
      assert ls[0] in ls && ls == [ls[0]] + ls[1..];
      ConsumeIsScan(ls[0], text);
      NameStep(text, ls[0], if rest == [] then [] else rest[1..]);
      if rest == [] {
        NoName([]);
      } else {
        assert GoodName(ls[1..]);
        MatchIsName(ls[1..], rest[1..]);
      }
    }
  }

  lemma {:induction false} ConsumePrinted(l: bytes, rest: bytes)
    requires BACKSLASH !in l
    ensures Consume(l, PrintLabel(l) + rest) == Some(rest)
    decreases |l|
  {
    if l == [] {
      assert PrintLabel(l) + rest == rest;
    } else {
      hide PrintLabel;
      PrintStep(l, rest);
      ConsumePrinted(l[1..], rest);
    }
  }

  /** Every name matches its own print, with or without a trailing dot. */
  lemma {:induction false} PrintMatches(ls: name, k: nat)
    requires Plain(ls) && ls != [] && k <= 1
    ensures Matches(ls, PrintLabel(ls[0]) + (PrintRest(ls[1..]) + Dots(k)))
    decreases |ls|
  {
    hide PrintLabel, Consume;
    assert ls[0] in ls;
    var tail := PrintRest(ls[1..]) + Dots(k);
    ConsumePrinted(ls[0], tail);
    if |ls| > 1 {
      assert Plain(ls[1..]);
      PrintMatches(ls[1..], k);
      assert tail[1..] == PrintLabel(ls[1]) + (PrintRest(ls[2..]) + Dots(k));
      assert ls[1..][1..] == ls[2..];
    } else {
      assert tail == Dots(k);
    }
  }
}
