/**
 What the import of a legacy layout guarantees: its JSON reads back as the layout
 it was written from, no panel is lost or invented, every divider lands on its own
 split, and the shares cut the window into boxes without gap or overlap.
 */
module DockImportProofs {
  import opened Wrappers
  import opened Text
  import opened Decimal
  import opened DockTree
  import opened DockImport
  import J = Json

  // ---- The JSON reads back ----

  lemma DigitsAreLexeme(n: nat)
    ensures J.Lexeme(Digits(n)) && ReadNat(J.Num(Digits(n))) == Some(n)
  {
    ValueOfDigits(n);
    var s := Digits(n);
    assert s[0] in s;
    forall i | 0 <= i < |s| ensures IsDigit(s[i]) {
      assert s[i] in s;
    }
    SpanOf(s, IsDigit, |s|);
    if n == 0 {
      assert s == "0";
    }
    assert s[|s|..] == [];
  }

  /** A share is written with as many decimals as it needs and read back exactly. */
  lemma ShareTextReads(k: nat)
    requires 0 < k < 1000
    ensures J.Lexeme(ShareText(k)) && ReadThousandths(J.Num(ShareText(k))) == Some(k)
  {
    var s := ShareText(k);
    var decimals := s[2..];
    assert s[0] == '0' && s[1] == '.' && 1 <= |decimals| <= 3;
    assert s[1..][1..] == decimals && s[0 + 1 + 1..] == decimals;
    assert AllDigits(decimals);
    SpanOf(s, IsDigit, 1);
    forall i | 0 <= i < |decimals| ensures IsDigit(decimals[i]) {
      assert decimals[i] in decimals;
    }
    SpanOf(decimals, IsDigit, |decimals|);
    assert s[1..][|decimals| + 1..] == [];
    ShareValue(k, decimals);
    assert s[..1] == "0" && "0"[..0] == "";
    assert Value(s[..1]) == 0;
  }

  lemma ValueDigit(s: string, d: nat)
    requires AllDigits(s) && d < 10
    ensures AllDigits(s + [DigitChar(d)]) && Value(s + [DigitChar(d)]) == 10 * Value(s) + d
  {
    var t := s + [DigitChar(d)];
    assert t[..|t| - 1] == s && t[|t| - 1] == DigitChar(d);
  }

  lemma ShareDecimals(k: nat, decimals: string)
    requires 0 < k < 1000 && decimals == ShareText(k)[2..]
    ensures var a, b, c := [DigitChar(k / 100)], [DigitChar(k / 10 % 10)], [DigitChar(k % 10)];
            decimals == if k % 100 == 0 then a else if k % 10 == 0 then a + b else a + b + c
  {
  }

  lemma Places(k: nat)
    requires k < 1000
    ensures k == 100 * (k / 100) + 10 * (k / 10 % 10) + k % 10
    ensures k % 100 == 0 <==> k / 10 % 10 == 0 && k % 10 == 0
  {
  }

  lemma ShareValue(k: nat, decimals: string)
    requires 0 < k < 1000 && decimals == ShareText(k)[2..]
    ensures AllDigits(decimals) && 1 <= |decimals| <= 3
    ensures Value(decimals) * Pow10(3 - |decimals|) == k
  {
    ShareDecimals(k, decimals);
    Places(k);
    ShareDigits(k / 100, k / 10 % 10, k % 10, decimals);
  }

  lemma Thousandths(v: nat, n: nat)
    requires 1 <= n <= 3
    ensures v * Pow10(3 - n) == if n == 1 then 100 * v else if n == 2 then 10 * v else v
  {
    assert Pow10(0) == 1 && Pow10(1) == 10 && Pow10(2) == 100;
    if n == 1 {
      assert Pow10(3 - n) == 100;
    } else if n == 2 {
      assert Pow10(3 - n) == 10;
    } else {
      assert Pow10(3 - n) == 1;
    }
  }

  lemma OneDigit(a: nat)
    requires a < 10
    ensures AllDigits([DigitChar(a)]) && Value([DigitChar(a)]) == a
  {
    ValueDigit([], a);
    assert [] + [DigitChar(a)] == [DigitChar(a)];
  }

  lemma ShareDigits(a: nat, b: nat, c: nat, decimals: string)
    requires a < 10 && b < 10 && c < 10
    requires var x, y, z := [DigitChar(a)], [DigitChar(b)], [DigitChar(c)];
             decimals == if b == 0 && c == 0 then x else if c == 0 then x + y else x + y + z
    ensures AllDigits(decimals) && 1 <= |decimals| <= 3
    ensures Value(decimals) * Pow10(3 - |decimals|) == 100 * a + 10 * b + c
  {
    var x, y := [DigitChar(a)], [DigitChar(b)];
    OneDigit(a);
    ValueDigit(x, b);
    ValueDigit(x + y, c);
    Thousandths(Value(decimals), |decimals|);
  }

  lemma {:induction false} StringsRead(ss: seq<string>)
    ensures J.ProperItems(Strings(ss)) && ReadStrings(Strings(ss)) == Some(ss)
  {
    if ss != [] {
      StringsRead(ss[1..]);
      assert ss == [ss[0]] + ss[1..];
    }
  }

  /** The keys of a layout and of the envelope are all different. */
  lemma KeysDiffer()
    ensures "tabs" != "active" && "tabs" != "slots" && "active" != "slots"
    ensures "dir" != "tabs" && "size" != "tabs" && "kids" != "tabs" && "dir" != "size" && "dir" != "kids" && "size" != "kids"
    ensures "layout" != "closed" && "layout" != "floating" && "closed" != "floating" && "layout" != "size"
    ensures "layout" != "tabs" && "layout" != "dir" && "layout" != "kids" && "layout" != "active" && "layout" != "slots"
    ensures "row" != "col"
  {
    assert "tabs"[0] == 't' && "size"[0] == 's' && "kids"[0] == 'k';
    assert "layout"[0] == 'l' && "closed"[0] == 'c' && "active"[0] == 'a';
    assert "row"[0] == 'r' && "col"[0] == 'c';
  }

  lemma SlotRead(slot: Option<string>)
    ensures var m := SlotMember(slot);
            && J.ProperMembers(m) && ReadSlot(Field(m, "slots")) == Some(slot)
            && Field(m, "active").None? && Field(m, "layout").None?
  {
    KeysDiffer();
    if slot.Some? {
      assert Strings([slot.value]) == J.Item(J.Str(slot.value), J.NoItems);
      assert J.ProperItems(J.NoItems) && J.Proper(J.Arr(Strings([slot.value])));
    }
  }

  lemma ActiveRead(active: nat, m: J.Members)
    requires J.ProperMembers(m) && Field(m, "active").None? && Field(m, "layout").None?
    ensures var r := ActiveMember(active, m);
            && J.ProperMembers(r) && Field(r, "slots") == Field(m, "slots") && Field(r, "layout").None?
            && (if active > 0 then Field(r, "active") == Some(J.Num(Digits(active))) else Field(r, "active").None?)
  {
    KeysDiffer();
    DigitsAreLexeme(active);
  }

  lemma FieldSkips(m: J.Members, key: string)
    requires m.Member? && m.key != key
    ensures Field(m, key) == Field(m.others, key)
  {
  }

  lemma TabsFieldsRead(l: Layout, m: J.Members)
    requires l.Tabs? && Field(m, "tabs") == Some(J.Arr(Strings(l.tabs)))
    requires Field(m, "active") == if l.active > 0 then Some(J.Num(Digits(l.active))) else None
    requires ReadSlot(Field(m, "slots")) == Some(l.slot)
    ensures ReadLayout(J.Obj(m)) == Some(l)
  {
    StringsRead(l.tabs);
    DigitsAreLexeme(l.active);
    assert ReadTabs(m, Strings(l.tabs)) == Some(l);
  }

  lemma TabsRead(l: Layout)
    requires l.Tabs?
    ensures J.Proper(LayoutJson(l)) && ReadLayout(LayoutJson(l)) == Some(l)
    ensures Field(LayoutJson(l).members, "layout").None?
  {
    KeysDiffer();
    StringsRead(l.tabs);
    DigitsAreLexeme(l.active);
    SlotRead(l.slot);
    ActiveRead(l.active, SlotMember(l.slot));
    var more := ActiveMember(l.active, SlotMember(l.slot));
    var m := J.Member("tabs", J.Arr(Strings(l.tabs)), more);
    assert LayoutJson(l) == J.Obj(m) && J.ProperMembers(m);
    FieldSkips(m, "active");
    FieldSkips(m, "slots");
    FieldSkips(m, "layout");
    TabsFieldsRead(l, m);
  }

  lemma PairProper(x: J.Json, y: J.Json)
    requires J.Proper(x) && J.Proper(y)
    ensures J.Proper(Pair(x, y)) && TwoOf(Pair(x, y)) == Some((x, y))
  {
    assert J.ProperItems(J.Item(y, J.NoItems));
  }

  lemma {:induction false} LayoutRead(l: Layout)
    requires SharesInRange(l)
    ensures J.Proper(LayoutJson(l)) && ReadLayout(LayoutJson(l)) == Some(l)
    ensures LayoutJson(l).Obj? && Field(LayoutJson(l).members, "layout").None?
    decreases l
  {
    if l.Tabs? {
      TabsRead(l);
    } else {
      LayoutRead(l.a);
      LayoutRead(l.b);
      var m := KidsRead(l, LayoutJson(l.a), LayoutJson(l.b));
    }
  }

  function KidsMembers(dir: J.Json, size: J.Json, kids: J.Json): J.Members {
    J.Member("dir", dir, J.Member("size", size, J.Member("kids", kids, J.NoMembers)))
  }

  lemma KidsFields(dir: J.Json, size: J.Json, kids: J.Json)
    requires J.Proper(dir) && J.Proper(size) && J.Proper(kids)
    ensures var m := KidsMembers(dir, size, kids);
            && J.ProperMembers(m)
            && Field(m, "dir") == Some(dir) && Field(m, "size") == Some(size) && Field(m, "kids") == Some(kids)
            && Field(m, "tabs").None? && Field(m, "layout").None?
  {
    KeysDiffer();
    var k := J.Member("kids", kids, J.NoMembers);
    var s := J.Member("size", size, k);
    assert J.ProperMembers(J.NoMembers) && J.ProperMembers(k) && J.ProperMembers(s);
    assert Field(k, "kids") == Some(kids) && Field(k, "tabs").None? && Field(k, "layout").None?;
    assert Field(s, "size") == Some(size) && Field(s, "kids") == Some(kids) && Field(s, "tabs").None? && Field(s, "layout").None?;
  }

  lemma SharePair(x: J.Json, y: J.Json, share: nat)
    requires J.Proper(x) && J.Proper(y)
    requires share <= 1000 && ReadThousandths(x) == Some(share) && ReadThousandths(y) == Some(1000 - share)
    ensures J.Proper(Pair(x, y)) && ReadShare(Pair(x, y)) == Some(share)
  {
    PairProper(x, y);
  }

  lemma ShareNumber(k: nat) returns (x: J.Json)
    requires 0 < k < 1000
    ensures x == J.Num(ShareText(k)) && J.Proper(x) && ReadThousandths(x) == Some(k)
  {
    ShareTextReads(k);
    x := J.Num(ShareText(k));
  }

  lemma ShareRead(share: nat) returns (size: J.Json)
    requires 50 <= share <= 950
    ensures size == Pair(J.Num(ShareText(share)), J.Num(ShareText(1000 - share)))
    ensures J.Proper(size) && ReadShare(size) == Some(share)
  {
    var x := ShareNumber(share);
    var y := ShareNumber(1000 - share);
    SharePair(x, y, share);
    size := Pair(x, y);
  }

  lemma KidsFieldsRead(l: Layout, m: J.Members, dir: J.Json, size: J.Json, kids: J.Json, ja: J.Json, jb: J.Json)
    requires l.Kids? && ReadDirection(dir) == Some(l.row) && ReadShare(size) == Some(l.share)
    requires TwoOf(kids) == Some((ja, jb)) && ReadLayout(ja) == Some(l.a) && ReadLayout(jb) == Some(l.b)
    requires Field(m, "tabs").None?
    requires Field(m, "dir") == Some(dir) && Field(m, "size") == Some(size) && Field(m, "kids") == Some(kids)
    ensures ReadLayout(J.Obj(m)) == Some(l)
  {
  }

  lemma KidsJson(l: Layout, dir: J.Json, size: J.Json, kids: J.Json, m: J.Members)
    requires l.Kids? && SharesInRange(l)
    requires dir == J.Str(if l.row then "row" else "col")
    requires size == Pair(J.Num(ShareText(l.share)), J.Num(ShareText(1000 - l.share)))
    requires kids == Pair(LayoutJson(l.a), LayoutJson(l.b)) && m == KidsMembers(dir, size, kids)
    ensures LayoutJson(l) == J.Obj(m)
  {
  }

  lemma KidsParts(l: Layout, dir: J.Json, size: J.Json, ja: J.Json, jb: J.Json, m: J.Members)
    requires l.Kids? && l.share <= 1000
    requires J.Proper(ja) && ReadLayout(ja) == Some(l.a) && J.Proper(jb) && ReadLayout(jb) == Some(l.b)
    requires dir == J.Str(if l.row then "row" else "col") && m == KidsMembers(dir, size, Pair(ja, jb))
    requires J.Proper(size) && ReadShare(size) == Some(l.share)
    ensures J.ProperMembers(m) && ReadLayout(J.Obj(m)) == Some(l) && Field(m, "layout").None?
  {
    KeysDiffer();
    PairProper(ja, jb);
    KidsFields(dir, size, Pair(ja, jb));
    KidsFieldsRead(l, m, dir, size, Pair(ja, jb), ja, jb);
  }

  lemma ObjProper(m: J.Members)
    requires J.ProperMembers(m)
    ensures J.Proper(J.Obj(m))
  {
  }

  lemma KidsRead(l: Layout, ja: J.Json, jb: J.Json) returns (m: J.Members)
    requires l.Kids? && SharesInRange(l)
    requires ja == LayoutJson(l.a) && J.Proper(ja) && ReadLayout(ja) == Some(l.a)
    requires jb == LayoutJson(l.b) && J.Proper(jb) && ReadLayout(jb) == Some(l.b)
    ensures LayoutJson(l) == J.Obj(m) && J.Proper(J.Obj(m)) && ReadLayout(J.Obj(m)) == Some(l)
    ensures Field(m, "layout").None?
  {
    var dir := J.Str(if l.row then "row" else "col");
    var size := ShareRead(l.share);
    m := KidsFrom(l, ja, jb, dir, size);
  }

  lemma KidsFrom(l: Layout, ja: J.Json, jb: J.Json, dir: J.Json, size: J.Json) returns (m: J.Members)
    requires l.Kids? && SharesInRange(l)
    requires ja == LayoutJson(l.a) && J.Proper(ja) && ReadLayout(ja) == Some(l.a)
    requires jb == LayoutJson(l.b) && J.Proper(jb) && ReadLayout(jb) == Some(l.b)
    requires dir == J.Str(if l.row then "row" else "col")
    requires size == Pair(J.Num(ShareText(l.share)), J.Num(ShareText(1000 - l.share)))
    requires J.Proper(size) && ReadShare(size) == Some(l.share)
    ensures LayoutJson(l) == J.Obj(m) && J.Proper(J.Obj(m)) && ReadLayout(J.Obj(m)) == Some(l)
    ensures Field(m, "layout").None?
  {
    m := KidsMembers(dir, size, Pair(ja, jb));
    KidsJson(l, dir, size, Pair(ja, jb), m);
    KidsParts(l, dir, size, ja, jb, m);
    ObjProper(m);
  }

  lemma WindowRead(w: Window)
    ensures J.Proper(WindowJson(w)) && ReadWindow(WindowJson(w)) == Some(w)
  {
    KeysDiffer();
    var inner := Tabs([w.tab], 0, None);
    TabsRead(inner);
    assert LayoutJson(inner) == J.Obj(J.Member("tabs", J.Arr(Strings([w.tab])), J.NoMembers));
    var size := SizeMember(w.size);
    if w.size.Some? {
      var (a, b) := w.size.value;
      DigitsAreLexeme(a);
      DigitsAreLexeme(b);
      PairProper(J.Num(Digits(a)), J.Num(Digits(b)));
      assert J.ProperMembers(size);
    }
    assert ReadWindowSize(Field(size, "size")) == Some(w.size);
    var m := J.Member("layout", LayoutJson(inner), size);
    assert WindowJson(w) == J.Obj(m) && J.ProperMembers(m);
    assert Field(m, "layout") == Some(LayoutJson(inner)) && Field(m, "size") == Field(size, "size");
  }

  lemma {:induction false} WindowsRead(ws: seq<Window>)
    ensures J.ProperItems(WindowItems(ws)) && ReadWindows(WindowItems(ws)) == Some(ws)
  {
    if ws != [] {
      WindowRead(ws[0]);
      WindowsRead(ws[1..]);
      assert ws == [ws[0]] + ws[1..];
    }
  }

  lemma FloatingRead(floating: Option<seq<Window>>)
    ensures var f := FloatingMember(floating);
            && J.ProperMembers(f) && Field(f, "closed").None? && Field(f, "floating").Some? == floating.Some?
            && (floating.Some? ==> Field(f, "floating") == Some(J.Arr(WindowItems(floating.value)))
                                   && ReadWindows(WindowItems(floating.value)) == floating)
  {
    KeysDiffer();
    if floating.Some? {
      WindowsRead(floating.value);
    }
  }

  lemma ClosedRead(closed: Option<seq<string>>, f: J.Members)
    requires J.ProperMembers(f) && Field(f, "closed").None?
    ensures var c := ClosedMember(closed, f);
            && J.ProperMembers(c) && Field(c, "floating") == Field(f, "floating") && Field(c, "closed").Some? == closed.Some?
            && (closed.Some? ==> Field(c, "closed") == Some(J.Arr(Strings(closed.value)))
                                 && ReadStrings(Strings(closed.value)) == closed)
  {
    KeysDiffer();
    if closed.Some? {
      StringsRead(closed.value);
    }
  }

  lemma EnvelopeMembers(layout: J.Json, c: J.Members)
    requires J.Proper(layout) && J.ProperMembers(c)
    ensures var m := J.Member("layout", layout, c);
            && J.ProperMembers(m) && Field(m, "layout") == Some(layout)
            && Field(m, "closed") == Field(c, "closed") && Field(m, "floating") == Field(c, "floating")
  {
    KeysDiffer();
  }

  /** An envelope from its three fields. */
  lemma EnvelopeRead(layout: Layout, closed: Option<seq<string>>, floating: Option<seq<Window>>, m: J.Members, l: J.Json)
    requires Field(m, "layout") == Some(l) && ReadLayout(l) == Some(layout)
    requires Field(m, "closed").Some? == closed.Some? && Field(m, "floating").Some? == floating.Some?
    requires closed.Some? ==> Field(m, "closed") == Some(J.Arr(Strings(closed.value)))
                              && ReadStrings(Strings(closed.value)) == closed
    requires floating.Some? ==> Field(m, "floating") == Some(J.Arr(WindowItems(floating.value)))
                                && ReadWindows(WindowItems(floating.value)) == floating
    ensures ReadDoc(J.Obj(m)) == Some(Envelope(layout, closed, floating))
  {
  }

  lemma DocRead(d: Doc)
    requires SharesInRange(d.layout)
    ensures J.Proper(DocJson(d)) && ReadDoc(DocJson(d)) == Some(d)
  {
    LayoutRead(d.layout);
    if d.Envelope? {
      FloatingRead(d.floating);
      ClosedRead(d.closed, FloatingMember(d.floating));
      var c := ClosedMember(d.closed, FloatingMember(d.floating));
      EnvelopeMembers(LayoutJson(d.layout), c);
      EnvelopeRead(d.layout, d.closed, d.floating, J.Member("layout", LayoutJson(d.layout), c), LayoutJson(d.layout));
    }
  }

  lemma {:induction false} LayoutSharesInRange(n: Node, at: map<Path, int>, path: Path, floating: set<string>, e: Extent)
    ensures SharesInRange(LayoutOf(n, at, path, floating, e))
    decreases n
  {
    if n.Split? {
      var row, share := n.orientation.Horizontal?, LayoutOf(n, at, path, floating, e).share;
      LayoutSharesInRange(n.a, at, First(path), floating, FirstPart(row, share, e));
      LayoutSharesInRange(n.b, at, Second(path), floating, SecondPart(row, share, e));
    }
  }

  /** A JSON reader applied to an import's text yields exactly the layout meant. */
  lemma ImportReadsBack(n: Node, sizes: Option<string>, closed: Option<string>, undocked: seq<string>, width: int, height: int)
    ensures var d := Import(n, sizes, closed, undocked, width, height);
            && SharesInRange(d.layout)
            && J.ReadText(J.Emit(DocJson(d))) == Some(DocJson(d))
            && ReadDoc(DocJson(d)) == Some(d)
  {
    var d := Import(n, sizes, closed, undocked, width, height);
    LayoutSharesInRange(n, Dividers(n, FieldsOf(sizes)), Root, Names(Pairs(undocked)), WindowExtent(width, height));
    DocRead(d);
    J.ReadUndoesEmit(DocJson(d));
  }

  // ---- No panel is lost or invented ----

  /** The ids of a tree, leaf by leaf. */
  function Ids(n: Node): seq<string> {
    match n
    case Leaf(ids, _, _) => ids
    case Split(_, a, b) => Ids(a) + Ids(b)
  }

  function AllTabs(l: Layout): seq<string> {
    match l
    case Tabs(tabs, _, _) => tabs
    case Kids(_, _, a, b) => AllTabs(a) + AllTabs(b)
  }

  lemma {:induction false} KeptAppend(x: seq<string>, y: seq<string>, floating: set<string>)
    ensures Kept(x + y, floating) == Kept(x, floating) + Kept(y, floating)
  {
    if x == [] {
      assert x + y == y;
    } else {
      assert (x + y)[1..] == x[1..] + y;
      KeptAppend(x[1..], y, floating);
    }
  }

  lemma {:induction false} KeptCounts(ids: seq<string>, floating: set<string>, x: string)
    ensures multiset(Kept(ids, floating))[x] == if LeftOut(x, floating) then 0 else multiset(ids)[x]
  {
    if ids != [] {
      KeptCounts(ids[1..], floating, x);
      assert ids == [ids[0]] + ids[1..];
      if !LeftOut(ids[0], floating) {
        assert Kept(ids, floating) == [ids[0]] + Kept(ids[1..], floating);
      } else {
        assert Kept(ids, floating) == Kept(ids[1..], floating);
      }
    }
  }

  lemma ActiveNames(ids: seq<string>, selected: int, floating: set<string>)
    requires 0 <= selected < |ids| && !LeftOut(ids[selected], floating)
    ensures var active := Active(ids, selected, floating);
            active < |Kept(ids, floating)| && Kept(ids, floating)[active] == ids[selected]
  {
    var before, from := ids[..selected], ids[selected..];
    assert ids == before + from;
    KeptAppend(before, from, floating);
    assert Kept(from, floating) == [ids[selected]] + Kept(from[1..], floating);
  }

  /** `l` is `n` with the left-out panels gone: same splits, roles, order and front page. */
  predicate Carries(n: Node, l: Layout, floating: set<string>) {
    match (n, l)
    case (Leaf(ids, selected, role), Tabs(tabs, active, slot)) =>
      && tabs == Kept(ids, floating) && slot == role
      && (if 0 <= selected < |ids| && !LeftOut(ids[selected], floating)
          then active < |tabs| && tabs[active] == ids[selected]
          else active == 0)
    case (Split(o, a, b), Kids(row, _, c, d)) => row == o.Horizontal? && Carries(a, c, floating) && Carries(b, d, floating)
    case _ => false
  }

  lemma {:induction false} LayoutCarries(n: Node, at: map<Path, int>, path: Path, floating: set<string>, e: Extent)
    ensures Carries(n, LayoutOf(n, at, path, floating, e), floating)
    decreases n
  {
    match n
    case Leaf(ids, selected, _) =>
      if 0 <= selected < |ids| && !LeftOut(ids[selected], floating) {
        ActiveNames(ids, selected, floating);
      }
    case Split(o, a, b) =>
      var row, share := o.Horizontal?, LayoutOf(n, at, path, floating, e).share;
      LayoutCarries(a, at, First(path), floating, FirstPart(row, share, e));
      LayoutCarries(b, at, Second(path), floating, SecondPart(row, share, e));
  }

  lemma {:induction false} CarriedTabs(n: Node, l: Layout, floating: set<string>)
    requires Carries(n, l, floating)
    ensures AllTabs(l) == Kept(Ids(n), floating)
  {
    if n.Split? {
      CarriedTabs(n.a, l.a, floating);
      CarriedTabs(n.b, l.b, floating);
      KeptAppend(Ids(n.a), Ids(n.b), floating);
    }
  }

  function Firsts(pairs: seq<(string, string)>): seq<string> {
    if pairs == [] then [] else [pairs[0].0] + Firsts(pairs[1..])
  }

  function WindowTabs(ws: seq<Window>): seq<string> {
    if ws == [] then [] else [ws[0].tab] + WindowTabs(ws[1..])
  }

  lemma {:induction false} WindowCounts(pairs: seq<(string, string)>, x: string)
    ensures multiset(WindowTabs(Windows(pairs)))[x] == if x == "files" then 0 else multiset(Firsts(pairs))[x]
  {
    if pairs != [] {
      WindowCounts(pairs[1..], x);
      var rest := Windows(pairs[1..]);
      if pairs[0].0 == "files" {
        assert Windows(pairs) == rest;
      } else {
        var w := Window(pairs[0].0, WindowSize(pairs[0].1));
        assert Windows(pairs) == [w] + rest && ([w] + rest)[1..] == rest;
        assert WindowTabs(Windows(pairs)) == [w.tab] + WindowTabs(rest);
      }
    }
  }

  lemma {:induction false} FirstsAreNames(pairs: seq<(string, string)>)
    ensures forall x :: x in Names(pairs) <==> x in Firsts(pairs)
  {
    if pairs != [] {
      FirstsAreNames(pairs[1..]);
      assert pairs == [pairs[0]] + pairs[1..];
      assert Names(pairs) == {pairs[0].0} + Names(pairs[1..]);
    }
  }

  function FloatingTabs(d: Doc): seq<string> {
    if d.Envelope? && d.floating.Some? then WindowTabs(d.floating.value) else []
  }

  /**
   Panels are conserved, id by id. An undocked one leaves the tree for as many windows
   as it was listed times; "files" goes nowhere; every other one keeps its places.
   */
  lemma ImportConserves(n: Node, sizes: Option<string>, closed: Option<string>, undocked: seq<string>, width: int, height: int, x: string)
    ensures var d := Import(n, sizes, closed, undocked, width, height);
            var out := Firsts(Pairs(undocked));
            && Carries(n, d.layout, Names(Pairs(undocked)))
            && AllTabs(d.layout) == Kept(Ids(n), Names(Pairs(undocked)))
            && multiset(AllTabs(d.layout))[x] == (if x == "files" || x in out then 0 else multiset(Ids(n))[x])
            && multiset(FloatingTabs(d))[x] == (if x == "files" then 0 else multiset(out)[x])
  {
    var pairs := Pairs(undocked);
    var floating := Names(pairs);
    var d := Import(n, sizes, closed, undocked, width, height);
    LayoutCarries(n, Dividers(n, FieldsOf(sizes)), Root, floating, WindowExtent(width, height));
    CarriedTabs(n, d.layout, floating);
    KeptCounts(Ids(n), floating, x);
    FirstsAreNames(pairs);
    WindowCounts(pairs, x);
    if floating == {} {
      assert x !in Firsts(pairs);
    }
  }

  // ---- Every divider lands on its own split ----

  lemma {:induction false} EnterAppend(at: map<Path, int>, x: seq<Path>, y: seq<Path>, positions: seq<int>, next: nat)
    ensures Enter(at, x + y, positions, next) == Enter(Enter(at, x, positions, next), y, positions, next + |x|)
    decreases x
  {
    if x == [] {
      assert x + y == y;
    } else {
      assert (x + y)[1..] == x[1..] + y;
      EnterAppend(if next < |positions| then at[x[0] := positions[next]] else at, x[1..], y, positions, next + 1);
    }
  }

  function Depth(p: Path): nat {
    if p.Root? then 0 else 1 + Depth(p.parent)
  }

  /** `p` is `top` or below it. */
  predicate Under(top: Path, p: Path) {
    p == top || (!p.Root? && Under(top, p.parent))
  }

  lemma {:induction false} UnderOne(x: Path, y: Path, p: Path)
    requires Under(x, p) && Under(y, p) && Depth(x) == Depth(y)
    ensures x == y
    decreases p
  {
    UnderIsDeeper(x, p);
    UnderIsDeeper(y, p);
    if p != x && p != y {
      UnderOne(x, y, p.parent);
    } else if p != x {
      UnderIsDeeper(x, p.parent);
    } else if p != y {
      UnderIsDeeper(y, p.parent);
    }
  }

  lemma {:induction false} UnderIsDeeper(top: Path, p: Path)
    requires Under(top, p)
    ensures Depth(top) <= Depth(p) && (top != p ==> Depth(top) < Depth(p))
    decreases p
  {
    if p != top {
      UnderIsDeeper(top, p.parent);
    }
  }

  lemma {:induction false} UnderParent(top: Path, p: Path)
    requires !top.Root? && Under(top, p)
    ensures Under(top.parent, p)
    decreases p
  {
    if p != top {
      UnderParent(top, p.parent);
    }
  }

  predicate Distinct(order: seq<Path>) {
    forall i, j | 0 <= i < j < |order| :: order[i] != order[j]
  }

  lemma DistinctJoin(x: seq<Path>, y: seq<Path>, z: Path)
    requires Distinct(x) && Distinct(y)
    requires forall p | p in x :: p !in y && p != z
    requires forall p | p in y :: p != z
    ensures Distinct(x + y + [z])
  {
    var all := x + y + [z];
    forall i, j | 0 <= i < j < |all| ensures all[i] != all[j] {
      assert i < |x| ==> all[i] == x[i] && x[i] in x;
      assert j < |x| ==> all[j] == x[j];
      assert |x| <= i < |x| + |y| ==> all[i] == y[i - |x|] && y[i - |x|] in y;
      assert |x| <= j < |x| + |y| ==> all[j] == y[j - |x|] && y[j - |x|] in y;
    }
  }

  lemma {:induction false} PostOrderUnder(n: Node, at: Path)
    ensures Distinct(PostOrder(n, at))
    ensures forall p | p in PostOrder(n, at) :: Under(at, p)
    decreases n
  {
    if n.Split? {
      var x, y := PostOrder(n.a, First(at)), PostOrder(n.b, Second(at));
      PostOrderUnder(n.a, First(at));
      PostOrderUnder(n.b, Second(at));
      forall p | p in x ensures Under(at, p) && p !in y && p != at {
        UnderParent(First(at), p);
        UnderIsDeeper(First(at), p);
        if Under(Second(at), p) {
          UnderOne(First(at), Second(at), p);
        }
      }
      forall p | p in y ensures Under(at, p) && p != at {
        UnderParent(Second(at), p);
        UnderIsDeeper(Second(at), p);
      }
      DistinctJoin(x, y, at);
    }
  }

  /** `r` is `at` with the i-th of `order` at position `next + i`, where there is one. */
  ghost predicate Entered(r: map<Path, int>, at: map<Path, int>, order: seq<Path>, positions: seq<int>, next: nat) {
    && (forall i | 0 <= i < |order| ::
         if next + i < |positions| then order[i] in r && r[order[i]] == positions[next + i]
         else order[i] in r ==> order[i] in at)
    && (forall p | p !in order :: (p in r <==> p in at) && (p in at ==> r[p] == at[p]))
  }

  lemma {:induction false} EnterEnters(at: map<Path, int>, order: seq<Path>, positions: seq<int>, next: nat)
    requires Distinct(order)
    ensures Entered(Enter(at, order, positions, next), at, order, positions, next)
    decreases order
  {
    if order != [] {
      var first, rest := order[0], order[1..];
      var at' := if next < |positions| then at[first := positions[next]] else at;
      EnterEnters(at', rest, positions, next + 1);
      var r := Enter(at, order, positions, next);
      assert first !in rest;
      forall i | 0 <= i < |order|
        ensures if next + i < |positions| then order[i] in r && r[order[i]] == positions[next + i]
                else order[i] in r ==> order[i] in at
      {
        if i > 0 {
          assert order[i] == rest[i - 1] && order[i] != first;
        }
      }
      forall p | p !in order ensures (p in r <==> p in at) && (p in at ==> r[p] == at[p]) {
        assert p != first && p !in rest;
      }
    }
  }

  /** The i-th split in post-order has the i-th divider; splits past the list have none. */
  lemma DividersInPostOrder(n: Node, sizes: seq<string>)
    ensures var order, at := PostOrder(n, Root), Dividers(n, sizes);
            && Distinct(order)
            && (forall i | 0 <= i < |order| ::
                 if i < |sizes| then order[i] in at && at[order[i]] == Position(sizes[i]) else order[i] !in at)
            && (forall p | p in at :: p in order)
  {
    PostOrderUnder(n, Root);
    PositionsAt(sizes);
    EnterEnters(map[], PostOrder(n, Root), Positions(sizes), 0);
  }

  // ---- The shares cut the window exactly ----

  datatype Box = Box(x: real, y: real, w: real, h: real)

  predicate Inside(box: Box, x: real, y: real) {
    box.x <= x < box.x + box.w && box.y <= y < box.y + box.h
  }

  function Product(x: real, y: real): real {
    x * y
  }

  /** How much of a box's width or height its first child takes. */
  function Cut(l: Layout, box: Box): real
    requires l.Kids?
  {
    Product(if l.row then box.w else box.h, l.share as real / 1000.0)
  }

  function FirstHalf(row: bool, cut: real, box: Box): Box {
    if row then box.(w := cut) else box.(h := cut)
  }

  function SecondHalf(row: bool, cut: real, box: Box): Box {
    if row then Box(box.x + cut, box.y, box.w - cut, box.h) else Box(box.x, box.y + cut, box.w, box.h - cut)
  }

  /** The box each leaf gets. */
  function Boxes(l: Layout, box: Box): seq<Box> {
    match l
    case Tabs(_, _, _) => [box]
    case Kids(row, _, a, b) =>
      var cut := Cut(l, box);
      Boxes(a, FirstHalf(row, cut, box)) + Boxes(b, SecondHalf(row, cut, box))
  }

  function Area(boxes: seq<Box>): real {
    if boxes == [] then 0.0 else Product(boxes[0].w, boxes[0].h) + Area(boxes[1..])
  }

  function Covering(boxes: seq<Box>, x: real, y: real): nat {
    if boxes == [] then 0 else (if Inside(boxes[0], x, y) then 1 else 0) + Covering(boxes[1..], x, y)
  }

  lemma {:induction false} SumsAppend(a: seq<Box>, b: seq<Box>, x: real, y: real)
    ensures Area(a + b) == Area(a) + Area(b)
    ensures Covering(a + b, x, y) == Covering(a, x, y) + Covering(b, x, y)
  {
    if a == [] {
      assert a + b == b;
    } else {
      assert (a + b)[1..] == a[1..] + b;
      SumsAppend(a[1..], b, x, y);
    }
  }

  lemma PositiveProduct(x: real, y: real)
    requires x > 0.0 && y > 0.0
    ensures Product(x, y) > 0.0
  {
  }

  lemma ProductAdds(x: real, f: real, g: real)
    ensures Product(x, f) + Product(x, g) == Product(x, f + g)
  {
  }

  lemma Scaled(length: real, f: real, g: real)
    requires length > 0.0 && f > 0.0 && g > 0.0 && f + g == 1.0
    ensures 0.0 < Product(length, f) < length
  {
    PositiveProduct(length, f);
    PositiveProduct(length, g);
    ProductAdds(length, f, g);
  }

  lemma CutInside(l: Layout, box: Box)
    requires l.Kids? && SharesInRange(l) && box.w > 0.0 && box.h > 0.0
    ensures 0.0 < Cut(l, box) < if l.row then box.w else box.h
  {
    var f := l.share as real / 1000.0;
    Scaled(if l.row then box.w else box.h, f, 1.0 - f);
  }

  /** Two boxes side by side make up the box around them. */
  lemma HalvesPartition(row: bool, cut: real, box: Box, x: real, y: real)
    requires 0.0 < cut < if row then box.w else box.h
    ensures var p, q := FirstHalf(row, cut, box), SecondHalf(row, cut, box);
            && (Inside(box, x, y) <==> Inside(p, x, y) || Inside(q, x, y))
            && !(Inside(p, x, y) && Inside(q, x, y))
  {
  }

  /** Every leaf gets a real box, and each point of the window falls in exactly one. */
  lemma {:induction false} BoxesPartition(l: Layout, box: Box, x: real, y: real)
    requires SharesInRange(l) && box.w > 0.0 && box.h > 0.0
    ensures forall b | b in Boxes(l, box) :: b.w > 0.0 && b.h > 0.0
    ensures Covering(Boxes(l, box), x, y) == if Inside(box, x, y) then 1 else 0
    decreases l
  {
    if l.Tabs? {
      assert Boxes(l, box) == [box] && [box][1..] == [];
    } else {
      CutInside(l, box);
      var p, q := FirstHalf(l.row, Cut(l, box), box), SecondHalf(l.row, Cut(l, box), box);
      HalvesPartition(l.row, Cut(l, box), box, x, y);
      BoxesPartition(l.a, p, x, y);
      BoxesPartition(l.b, q, x, y);
      SumsAppend(Boxes(l.a, p), Boxes(l.b, q), x, y);
    }
  }

  lemma ProductSplits(cut: real, length: real, across: real)
    ensures Product(cut, across) + Product(length - cut, across) == Product(length, across)
    ensures Product(across, cut) + Product(across, length - cut) == Product(across, length)
  {
  }

  lemma AreaOfOne(box: Box)
    ensures Area([box]) == Product(box.w, box.h)
  {
    assert [box][1..] == [];
  }

  /** The areas of the leaves' boxes add up to the area they share. */
  lemma {:induction false} BoxesArea(l: Layout, box: Box)
    ensures Area(Boxes(l, box)) == Product(box.w, box.h)
    decreases l, 1
  {
    if l.Tabs? {
      AreaOfOne(box);
    } else {
      BoxesAreaJoin(l, box, Cut(l, box));
    }
  }

  lemma {:induction false} BoxesAreaJoin(l: Layout, box: Box, cut: real)
    requires l.Kids?
    ensures Area(Boxes(l.a, FirstHalf(l.row, cut, box)) + Boxes(l.b, SecondHalf(l.row, cut, box))) == Product(box.w, box.h)
    decreases l, 0
  {
    var p, q := FirstHalf(l.row, cut, box), SecondHalf(l.row, cut, box);
    BoxesArea(l.a, p);
    BoxesArea(l.b, q);
    SumsAppend(Boxes(l.a, p), Boxes(l.b, q), 0.0, 0.0);
    ProductSplits(cut, if l.row then box.w else box.h, if l.row then box.h else box.w);
  }

  lemma ProductOrder(a: real, b: real, e: real)
    requires e > 0.0
    ensures a < b ==> Product(a, e) < Product(b, e)
    ensures a <= b ==> Product(a, e) <= Product(b, e)
  {
    if a < b {
      PositiveProduct(b - a, e);
      Difference(b, a, e);
    }
  }

  lemma Difference(b: real, a: real, e: real)
    ensures Product(b - a, e) == Product(b, e) - Product(a, e)
  {
  }

  lemma Thousand(c: real, e: real)
    ensures Product(1000.0 * c, e) == 1000.0 * Product(c, e)
  {
  }

  lemma Quotient(p: real, e: real)
    requires e > 0.0
    ensures Product(p / e, e) == p
  {
  }

  lemma Fractions(e: real)
    ensures Product(0.05, e) == e / 20.0 && Product(0.95, e) == e / 20.0 * 19.0 && Product(0.5, e) == e / 2.0
  {
  }

  lemma ShareOf(pos: int, extent: real, c: real)
    requires pos > 0 && extent > 0.0 && c == pos as real / extent
    ensures if c <= 0.05 then Share(pos, extent) == 50 else if c >= 0.95 then Share(pos, extent) == 950
            else -0.5 <= Share(pos, extent) as real - 1000.0 * c <= 0.5
  {
  }

  lemma Nearby(s: real, c: real, e: real)
    requires e > 0.0 && -0.5 <= s - 1000.0 * c <= 0.5
    ensures -e <= 2.0 * (Product(s, e) - 1000.0 * Product(c, e)) <= e
  {
    ProductOrder(s - 1000.0 * c, 0.5, e);
    ProductOrder(1000.0 * c - s, 0.5, e);
    Difference(s, 1000.0 * c, e);
    Difference(1000.0 * c, s, e);
    Thousand(c, e);
    Fractions(e);
  }

  /**
   A divider between a twentieth and nineteen twentieths of its extent is kept to half a
   thousandth; one nearer an edge is moved to that line, and one not given is in the middle.
   */
  lemma ShareRounds(pos: int, extent: real)
    ensures pos <= 0 || extent <= 0.0 ==> Share(pos, extent) == 500
    ensures pos > 0 && extent > 0.0 ==>
              var p := pos as real;
              if p <= extent / 20.0 then Share(pos, extent) == 50
              else if p >= extent / 20.0 * 19.0 then Share(pos, extent) == 950
              else -extent <= 2.0 * (Product(Share(pos, extent) as real, extent) - 1000.0 * p) <= extent
  {
    if pos > 0 && extent > 0.0 {
      var c := pos as real / extent;
      Quotient(pos as real, extent);
      Fractions(extent);
      ProductOrder(c, 0.05, extent);
      ProductOrder(0.05, c, extent);
      ProductOrder(c, 0.95, extent);
      ProductOrder(0.95, c, extent);
      ShareOf(pos, extent, c);
      if 0.05 < c < 0.95 {
        Nearby(Share(pos, extent) as real, c, extent);
      }
    }
  }

  /** Every divider is measured against the box of its own split. */
  predicate Measured(n: Node, l: Layout, at: map<Path, int>, path: Path, box: Box)
    decreases l
  {
    n.Split? && l.Kids? ==>
      && l.share == Share(PositionAt(at, path), if l.row then box.w else box.h)
      && Measured(n.a, l.a, at, First(path), FirstHalf(l.row, Cut(l, box), box))
      && Measured(n.b, l.b, at, Second(path), SecondHalf(l.row, Cut(l, box), box))
  }

  lemma {:induction false} LayoutMeasured(n: Node, at: map<Path, int>, path: Path, floating: set<string>, box: Box)
    ensures Measured(n, LayoutOf(n, at, path, floating, Extent(box.w, box.h)), at, path, box)
    decreases n
  {
    if n.Split? {
      var l := LayoutOf(n, at, path, floating, Extent(box.w, box.h));
      var p, q := FirstHalf(l.row, Cut(l, box), box), SecondHalf(l.row, Cut(l, box), box);
      assert FirstPart(l.row, l.share, Extent(box.w, box.h)) == Extent(p.w, p.h);
      assert SecondPart(l.row, l.share, Extent(box.w, box.h)) == Extent(q.w, q.h);
      LayoutMeasured(n.a, at, First(path), floating, p);
      LayoutMeasured(n.b, at, Second(path), floating, q);
    }
  }
}
