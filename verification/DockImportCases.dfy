/**
 What the import of a legacy layout does in the window it is measured by, with its closed
 panels and with its undocked windows, said without the functions that compute it.
 */
module DockImportCases {
  import opened Wrappers
  import opened Text
  import opened Decimal
  import opened DockTree
  import opened DockImport
  import opened DockImportProofs

  // ---- The window ----

  /** The width measures what stands side by side, the height what stands above and below. */
  function Side(n: Node, width: int, height: int): real
    requires n.Split?
  {
    match n.orientation
    case Horizontal => if width > 0 then width as real else 1100.0
    case Vertical => if height > 0 then height as real else 700.0
  }

  /**
   Every divider of an import is measured in the box of its own split, and the whole in a box
   as wide and as high as the window, or 1100 wide or 700 high when the window's is not positive.
   */
  lemma WindowMeasures(n: Node, sizes: Option<string>, closed: Option<string>, undocked: seq<string>, width: int, height: int)
    ensures Measured(n, Import(n, sizes, closed, undocked, width, height).layout, Dividers(n, FieldsOf(sizes)), Root,
                     Box(0.0, 0.0, if width > 0 then width as real else 1100.0, if height > 0 then height as real else 700.0))
  {
    LayoutMeasured(n, Dividers(n, FieldsOf(sizes)), Root, Names(Pairs(undocked)),
                   Box(0.0, 0.0, if width > 0 then width as real else 1100.0, if height > 0 then height as real else 700.0));
  }

  /** A divider is where its number says, and at 0 without a number. */
  lemma PositionReads(p: nat, rest: string, none: string)
    requires p < 0x8000_0000 && (rest == "" || !IsDigit(rest[0]))
    requires none == "" || (!IsSpaceC(none[0]) && !IsDigit(none[0]) && none[0] != '-' && none[0] != '+')
    ensures Position(Digits(p) + rest) == p && Position(none) == 0
  {
    ScanDigits(p, rest, IsSpaceC);
  }

  /** The i-th split in post-order takes the i-th divider, and 0 when there are fewer. */
  lemma DividerOf(n: Node, sizes: seq<string>, i: nat)
    requires i < |PostOrder(n, Root)|
    ensures PositionAt(Dividers(n, sizes), PostOrder(n, Root)[i]) == if i < |sizes| then Position(sizes[i]) else 0
  {
    DividersInPostOrder(n, sizes);
  }

  lemma RootSplit(n: Node)
    requires n.Split? && n.a.Leaf? && n.b.Leaf?
    ensures PostOrder(n, Root) == [Root]
  {
    assert PostOrder(n.a, First(Root)) == [] && PostOrder(n.b, Second(Root)) == [];
  }

  lemma OneField(d: string)
    requires d != "" && ';' !in d
    ensures Fields(d) == [d]
  {
    assert IndexOf(d, ';') == |d|;
  }

  lemma DigitsAreOneField(p: nat)
    ensures Fields(Digits(p)) == [Digits(p)]
  {
    ValueOfDigits(p);
    OneField(Digits(p));
  }

  lemma RootPosition(n: Node, p: Option<nat>)
    requires n.Split? && n.a.Leaf? && n.b.Leaf? && (p.Some? ==> p.value < 0x8000_0000)
    ensures PositionAt(Dividers(n, FieldsOf(SizesText(p))), Root) == if p.Some? then p.value else 0
  {
    RootSplit(n);
    if p.Some? {
      DigitsAreOneField(p.value);
      DividerOf(n, [Digits(p.value)], 0);
      PositionReads(p.value, "", "");
      assert Digits(p.value) + "" == Digits(p.value);
    } else {
      DividerOf(n, [], 0);
    }
  }

  /** `share` is where a divider at `p` belongs in `e`, in thousandths. */
  predicate Belongs(share: nat, p: Option<nat>, e: real) {
    if p.None? || p.value == 0 then share == 500
    else if p.value as real <= e / 20.0 then share == 50
    else if p.value as real >= e / 20.0 * 19.0 then share == 950
    else -e <= 2.0 * (Product(share as real, e) - 1000.0 * p.value as real) <= e
  }

  function SizesText(p: Option<nat>): Option<string> {
    if p.Some? then Some(Digits(p.value)) else None
  }

  /**
   A tree of one split with its divider at `p` pixels: that many thousandths of the window's
   width when its panes stand side by side and of its height when they stand one above the
   other, to half a thousandth, no nearer an edge than a twentieth, and in the middle when
   there is none.
   */
  lemma OneSplitShare(n: Node, p: Option<nat>, width: int, height: int, l: Layout)
    requires n.Split? && n.a.Leaf? && n.b.Leaf? && (p.Some? ==> p.value < 0x8000_0000)
    requires l == Import(n, SizesText(p), None, [], width, height).layout
    ensures l.Kids? && Belongs(l.share, p, Side(n, width, height))
  {
    WindowMeasures(n, SizesText(p), None, [], width, height);
    RootPosition(n, p);
    ShareRounds(if p.Some? then p.value else 0, Side(n, width, height));
  }

  /** At 350 pixels in a window 1000 by 700: half of the height, and 350 thousandths of the width. */
  lemma HeightForVertical(a: Node, b: Node)
    requires a.Leaf? && b.Leaf?
    ensures Import(Split(Vertical, a, b), Some(Digits(350)), None, [], 1000, 700).layout.share == 500
    ensures Import(Split(Horizontal, a, b), Some(Digits(350)), None, [], 1000, 700).layout.share == 350
    ensures Import(Split(Vertical, a, b), Some(Digits(140)), None, [], 0, 0).layout.share == 200
    ensures Import(Split(Horizontal, a, b), Some(Digits(220)), None, [], 0, 0).layout.share == 200
  {
    ExactShare(Split(Vertical, a, b), 350, 1000, 700, 500);
    ExactShare(Split(Horizontal, a, b), 350, 1000, 700, 350);
    ExactShare(Split(Vertical, a, b), 140, 0, 0, 200);
    ExactShare(Split(Horizontal, a, b), 220, 0, 0, 200);
  }

  /** `p` is exactly `k` thousandths of `e`. */
  predicate Exactly(p: nat, k: nat, e: real) {
    e > 0.0 && 0 < p < 0x8000_0000 && 50 < k < 950 && 1000.0 * p as real == k as real * e
  }

  lemma ExactShare(n: Node, p: nat, width: int, height: int, k: nat)
    requires n.Split? && n.a.Leaf? && n.b.Leaf? && Exactly(p, k, Side(n, width, height))
    ensures var l := Import(n, Some(Digits(p)), None, [], width, height).layout; l.Kids? && l.share == k
  {
    var l := Import(n, SizesText(Some(p)), None, [], width, height).layout;
    OneSplitShare(n, Some(p), width, height, l);
    Closest(l, k, Side(n, width, height), p);
  }

  lemma Closest(l: Layout, k: nat, e: real, p: nat)
    requires Exactly(p, k, e) && l.Kids? && Belongs(l.share, Some(p), e)
    ensures l.share == k
  {
    var share := l.share;
    ProductOrder(50.0, k as real, e);
    ProductOrder(k as real, 950.0, e);
    ProductOrder(share as real + 1.0, k as real, e);
    ProductOrder(k as real + 1.0, share as real, e);
    ProductAdds(e, share as real, 1.0);
    ProductAdds(e, k as real, 1.0);
  }

  // ---- Closed panels ----

  /** A field of the list of closed panels: an id, or nothing, between white space. */
  datatype Field = Field(before: string, id: string, after: string)

  predicate Trimmed(f: Field) {
    && AllSpace(f.before) && AllSpace(f.after) && ';' !in f.id
    && (f.id != "" ==> !IsSpace(f.id[0]) && !IsSpace(f.id[|f.id| - 1]))
  }

  function FieldText(f: Field): string {
    f.before + f.id + f.after
  }

  function Texts(fs: seq<Field>): seq<string> {
    if fs == [] then [] else [FieldText(fs[0])] + Texts(fs[1..])
  }

  /** The fields with semicolons between them. */
  function ListText(fs: seq<Field>): string {
    if fs == [] then "" else FieldText(fs[0]) + if |fs| == 1 then "" else ";" + ListText(fs[1..])
  }

  function FilledIds(fs: seq<Field>): seq<string> {
    if fs == [] then [] else (if fs[0].id == "" then [] else [fs[0].id]) + FilledIds(fs[1..])
  }

  lemma NoSemicolon(f: Field)
    requires Trimmed(f)
    ensures ';' !in FieldText(f)
  {
    assert !IsSpace(';');
  }

  lemma {:induction false} ListSplits(fs: seq<Field>)
    requires fs != [] && forall f | f in fs :: Trimmed(f)
    ensures FieldsFrom(ListText(fs)) == Texts(fs)
    decreases |fs|
  {
    var head := FieldText(fs[0]);
    assert fs[0] in fs;
    NoSemicolon(fs[0]);
    if |fs| == 1 {
      assert Texts(fs[1..]) == [];
      OnlyField(head, ListText(fs));
    } else {
      assert forall f | f in fs[1..] :: f in fs;
      ListSplits(fs[1..]);
      FirstField(head, ListText(fs[1..]), ListText(fs));
    }
  }

  lemma OnlyField(head: string, s: string)
    requires ';' !in head && s == head + ""
    ensures FieldsFrom(s) == [head] + []
  {
    assert s == head && IndexOf(s, ';') == |s|;
  }

  lemma FirstField(head: string, tail: string, s: string)
    requires ';' !in head && s == head + (";" + tail)
    ensures FieldsFrom(s) == [head] + FieldsFrom(tail)
  {
    assert s[..|head|] == head && s[|head|] == ';' && s[|head| + 1..] == tail;
    IndexOfIs(s, ';', |head|);
  }

  lemma FieldStripped(f: Field)
    requires Trimmed(f)
    ensures Strip(FieldText(f)) == f.id
  {
    Regroup(f.before, f.id, f.after);
    SkipSpacePrefix(f.before, f.id + f.after);
    if f.id == "" {
      assert f.id + f.after == f.after;
      SkipAll(f.after);
    } else {
      SkipSpaceSkipped(f.id + f.after);
      EndStripped(f.id, f.after);
    }
  }

  lemma {:induction false} SkipAll(s: string)
    requires AllSpace(s)
    ensures SkipSpace(s) == ""
  {
    if s != "" {
      assert s[0] in s && forall c | c in s[1..] :: c in s;
      SkipAll(s[1..]);
    }
  }

  lemma {:induction false} ShutAre(fs: seq<Field>, floating: set<string>)
    requires forall f | f in fs :: Trimmed(f)
    ensures Shut(Texts(fs), floating) == Kept(FilledIds(fs), floating)
  {
    if fs != [] {
      assert fs[0] in fs && forall f | f in fs[1..] :: f in fs;
      FieldStripped(fs[0]);
      ShutAre(fs[1..], floating);
      KeptAppend(if fs[0].id == "" then [] else [fs[0].id], FilledIds(fs[1..]), floating);
      TextsFirst(fs);
      OneKept(fs[0].id, floating);
    }
  }

  lemma TextsFirst(fs: seq<Field>)
    requires fs != []
    ensures Texts(fs) != [] && Texts(fs)[0] == FieldText(fs[0]) && Texts(fs)[1..] == Texts(fs[1..])
  {
  }

  lemma OneKept(id: string, floating: set<string>)
    ensures Kept([id], floating) == (if LeftOut(id, floating) then [] else [id]) && Kept([], floating) == []
  {
    assert [id][1..] == [];
  }

  lemma ListFields(fs: seq<Field>, floating: set<string>)
    requires forall f | f in fs :: Trimmed(f)
    ensures Shut(Fields(ListText(fs)), floating) == Kept(FilledIds(fs), floating)
  {
    ShutAre(fs, floating);
    if fs != [] {
      ListSplits(fs);
      if ListText(fs) == "" {
        ShutOfNothing(floating);
      }
    }
  }

  lemma ShutOfNothing(floating: set<string>)
    ensures FieldsFrom("") == [""] && Shut([""], floating) == []
  {
    assert IndexOf("", ';') == 0;
    assert [""][1..] == [];
  }

  /**
   The closed panels written are the ids of the list, in its order, without the white space
   around them, less "files" and the undocked ones; the envelope is there exactly when there is
   one of them or an undocked window, with each of its two lists exactly when that is not empty.
   */
  lemma ClosedPanels(n: Node, sizes: Option<string>, fs: seq<Field>, undocked: seq<string>, width: int, height: int, d: Doc)
    requires forall f | f in fs :: Trimmed(f)
    requires d == Import(n, sizes, Some(ListText(fs)), undocked, width, height)
    ensures var floating := Names(Pairs(undocked));
            var shut := Kept(FilledIds(fs), floating);
            && (d.Envelope? <==> shut != [] || floating != {})
            && (d.Envelope? ==> d.closed == (if shut == [] then None else Some(shut)) && (d.floating.Some? <==> floating != {}))
  {
    ListFields(fs, Names(Pairs(undocked)));
  }

  // ---- Undocked windows ----

  /** What a window's size is written as: two numbers and a comma between them. */
  predicate SizeText(s: string, w: int, h: int, w1: string, s1: string, d1: string, t: string, w2: string, s2: string,
                     d2: string, rest: string) {
    && Numeral(s, IsSpaceC, w1, s1, d1, "," + t) && Numeral(t, IsSpaceC, w2, s2, d2, rest)
    && w == ToInt(Signed(s1, d1)) && h == ToInt(Signed(s2, d2))
  }

  lemma NotSpace()
    ensures !IsSpaceC('-') && !IsSpaceC('+') && forall c | IsDigit(c) :: !IsSpaceC(c)
  {
  }

  lemma SizeTextReads(s: string, w: int, h: int, w1: string, s1: string, d1: string, t: string, w2: string, s2: string,
                      d2: string, rest: string)
    requires SizeText(s, w, h, w1, s1, d1, t, w2, s2, d2, rest) && w > 0 && h > 0
    ensures WindowSize(s) == Some((w, h))
  {
    NotSpace();
    NumeralScans(s, IsSpaceC, w1, s1, d1, "," + t);
    NumeralScans(t, IsSpaceC, w2, s2, d2, rest);
    assert ("," + t)[1..] == t;
  }

  lemma SizeParts(s: string, w: int, h: int) returns (first: Scanned, second: Scanned)
    requires WindowSize(s) == Some((w, h))
    ensures ScanInt(s, IsSpaceC) == Some(first) && first.rest != "" && first.rest[0] == ','
    ensures ScanInt(first.rest[1..], IsSpaceC) == Some(second) && w == ToInt(first.value) && h == ToInt(second.value)
  {
    first := ScanInt(s, IsSpaceC).value;
    second := ScanInt(first.rest[1..], IsSpaceC).value;
  }

  lemma CommaFirst(s: string)
    requires s != "" && s[0] == ','
    ensures s == "," + s[1..]
  {
  }

  lemma NumeralOf(s: string, v: int, rest: string) returns (w: string, sign: string, d: string)
    requires ScanInt(s, IsSpaceC) == Some(Scanned(v, rest))
    ensures Numeral(s, IsSpaceC, w, sign, d, rest) && v == Signed(sign, d)
  {
    w, sign, d := ScannedIsNumeral(s, IsSpaceC);
  }

  lemma SizeIsText(s: string, w: int, h: int) returns (w1: string, s1: string, d1: string, t: string, w2: string, s2: string,
                                                       d2: string, rest: string)
    requires WindowSize(s) == Some((w, h))
    ensures SizeText(s, w, h, w1, s1, d1, t, w2, s2, d2, rest)
  {
    var first, second := SizeParts(s, w, h);
    t, rest := first.rest[1..], second.rest;
    CommaFirst(first.rest);
    w1, s1, d1 := NumeralOf(s, first.value, first.rest);
    w2, s2, d2 := NumeralOf(t, second.value, rest);
  }

  /** A size is two positive numbers with a comma between them, whatever follows, and nothing else is one. */
  lemma SizeExactly(s: string, w: int, h: int)
    ensures WindowSize(s) == Some((w, h)) <==>
            w > 0 && h > 0 && exists w1, s1, d1, t, w2, s2, d2, rest :: SizeText(s, w, h, w1, s1, d1, t, w2, s2, d2, rest)
  {
    if WindowSize(s) == Some((w, h)) {
      var w1, s1, d1, t, w2, s2, d2, rest := SizeIsText(s, w, h);
    }
    if w > 0 && h > 0 && exists w1, s1, d1, t, w2, s2, d2, rest :: SizeText(s, w, h, w1, s1, d1, t, w2, s2, d2, rest) {
      var w1, s1, d1, t, w2, s2, d2, rest :| SizeText(s, w, h, w1, s1, d1, t, w2, s2, d2, rest);
      SizeTextReads(s, w, h, w1, s1, d1, t, w2, s2, d2, rest);
    }
  }

  lemma FirstWindow(all: seq<(string, string)>, id: string, size: string, y: seq<(string, string)>)
    requires all == [(id, size)] + y
    ensures Windows(all) == WindowFor(id, size) + Windows(y)
  {
    assert all[1..] == y;
  }

  lemma WindowsHead(x: seq<(string, string)>)
    requires x != []
    ensures Windows(x) == WindowFor(x[0].0, x[0].1) + Windows(x[1..])
  {
  }

  lemma JoinWindows(x: seq<Window>, y: seq<Window>, z: seq<Window>)
    ensures x + (y + z) == x + y + z
  {
  }

  /** Each undocked id but "files" has its window, in order, with the size it was listed with. */
  lemma {:induction false} WindowsAre(x: seq<(string, string)>, id: string, size: string, y: seq<(string, string)>)
    ensures Windows(x + ([(id, size)] + y))
         == Windows(x) + ((if id == "files" then [] else [Window(id, WindowSize(size))]) + Windows(y))
  {
    var all := [(id, size)] + y;
    FirstWindow(all, id, size, y);
    if x == [] {
      assert x + all == all;
      NoWindows(Windows(all));
    } else {
      WindowsAre(x[1..], id, size, y);
      WindowsHead(x);
      HeadKept(x, all);
      WindowsHead(x + all);
      JoinWindows(WindowFor(x[0].0, x[0].1), Windows(x[1..]), Windows(all));
    }
  }

  lemma NoWindows(ws: seq<Window>)
    ensures [] + ws == ws
  {
  }

  lemma HeadKept(x: seq<(string, string)>, all: seq<(string, string)>)
    requires x != []
    ensures (x + all)[0] == x[0] && (x + all)[1..] == x[1..] + all
  {
  }
}
