/**
 The import of a legacy layout (`dl_import_legacy`, src/dock_layout_parse.c) as
 values: the layout it stands for, the JSON text it is written as, and what a
 reader of that text recovers.
 */
module DockImport {
  import opened Wrappers
  import opened Text
  import opened Decimal
  import opened DockTree
  import J = Json

  // ---- The layout an import yields ----

  /** `active` is 0 when the text leaves it out; shares are thousandths. */
  datatype Layout =
    | Tabs(tabs: seq<string>, active: nat, slot: Option<string>)
    | Kids(row: bool, share: nat, a: Layout, b: Layout)

  datatype Window = Window(tab: string, size: Option<(nat, nat)>)

  datatype Doc =
    | Bare(layout: Layout)
    | Envelope(layout: Layout, closed: Option<seq<string>>, floating: Option<seq<Window>>)

  /** A node's place in the tree, which stands for its address. */
  datatype Path = Root | First(parent: Path) | Second(parent: Path)

  // ---- Dividers ----

  /** The splits of a tree in the post-order `sizes=` was written in. */
  function PostOrder(n: Node, at: Path): seq<Path> {
    match n
    case Leaf(_, _, _) => []
    case Split(_, a, b) => PostOrder(a, First(at)) + PostOrder(b, Second(at)) + [at]
  }

  function Position(size: string): int {
    match ScanInt(size, IsSpaceC)
    case None => 0
    case Some(n) => ToInt(n.value)
  }

  function Positions(sizes: seq<string>): seq<int> {
    if sizes == [] then [] else [Position(sizes[0])] + Positions(sizes[1..])
  }

  lemma {:induction false} PositionsAt(sizes: seq<string>)
    ensures |Positions(sizes)| == |sizes|
    ensures forall i | 0 <= i < |sizes| :: Positions(sizes)[i] == Position(sizes[i])
  {
    if sizes != [] {
      PositionsAt(sizes[1..]);
    }
  }

  /** The splits in `order`, numbered from `next` on, entered into `at`. */
  function Enter(at: map<Path, int>, order: seq<Path>, positions: seq<int>, next: nat): map<Path, int>
    decreases order
  {
    if order == [] then at else
    Enter(if next < |positions| then at[order[0] := positions[next]] else at, order[1..], positions, next + 1)
  }

  function Dividers(n: Node, sizes: seq<string>): map<Path, int> {
    Enter(map[], PostOrder(n, Root), Positions(sizes), 0)
  }

  /** A divider's share of `extent` in thousandths; a missing one halves it. */
  function Share(pos: int, extent: real): (share: nat)
    ensures 50 <= share <= 950
  {
    var s := if pos > 0 && extent > 0.0 then pos as real / extent else 0.5;
    var c := if s < 0.05 then 0.05 else if s > 0.95 then 0.95 else s;
    assert 50.5 <= c * 1000.0 + 0.5 <= 950.5;
    (c * 1000.0 + 0.5).Floor
  }

  /** The room a node is drawn in. */
  datatype Extent = Extent(w: real, h: real)

  function Along(row: bool, e: Extent): real {
    if row then e.w else e.h
  }

  function Scale(row: bool, e: Extent, f: real): Extent {
    if row then Extent(e.w * f, e.h) else Extent(e.w, e.h * f)
  }

  function FirstPart(row: bool, share: nat, e: Extent): Extent {
    Scale(row, e, share as real / 1000.0)
  }

  function SecondPart(row: bool, share: nat, e: Extent): Extent {
    Scale(row, e, 1.0 - share as real / 1000.0)
  }

  // ---- Leaves ----

  predicate LeftOut(id: string, floating: set<string>) {
    id == "files" || id in floating
  }

  function Kept(ids: seq<string>, floating: set<string>): seq<string> {
    if ids == [] then []
    else (if LeftOut(ids[0], floating) then [] else [ids[0]]) + Kept(ids[1..], floating)
  }

  /** Where the selected page ends up among the kept ones, or 0. */
  function Active(ids: seq<string>, selected: int, floating: set<string>): nat {
    if 0 <= selected < |ids| && !LeftOut(ids[selected], floating) then |Kept(ids[..selected], floating)| else 0
  }

  function PositionAt(at: map<Path, int>, path: Path): int {
    if path in at then at[path] else 0
  }

  /** A node drawn in the room `e`, its dividers looked up by its place. */
  function LayoutOf(n: Node, at: map<Path, int>, path: Path, floating: set<string>, e: Extent): Layout {
    match n
    case Leaf(ids, selected, role) => Tabs(Kept(ids, floating), Active(ids, selected, floating), role)
    case Split(o, a, b) =>
      var row := o.Horizontal?;
      var share := Share(PositionAt(at, path), Along(row, e));
      Kids(row, share,
           LayoutOf(a, at, First(path), floating, FirstPart(row, share, e)),
           LayoutOf(b, at, Second(path), floating, SecondPart(row, share, e)))
  }

  // ---- Closed panels and undocked windows ----

  /** `g_strsplit` at semicolons. */
  function Fields(s: string): seq<string> {
    if s == [] then [] else FieldsFrom(s)
  }

  function FieldsFrom(s: string): seq<string>
    decreases |s|
  {
    var k := IndexOf(s, ';');
    if k == |s| then [s] else [s[..k]] + FieldsFrom(s[k + 1..])
  }

  function StripEnd(s: string): string {
    if s != [] && IsSpace(s[|s| - 1]) then StripEnd(s[..|s| - 1]) else s
  }

  lemma {:induction false} EndStripped(s: string, after: string)
    requires AllSpace(after) && (s == "" || !IsSpace(s[|s| - 1]))
    ensures StripEnd(s + after) == s
    decreases |after|
  {
    if after == "" {
      assert s + after == s;
    } else {
      var k := |after| - 1;
      assert after[k] in after && forall c | c in after[..k] :: c in after;
      assert (s + after)[..|s| + k] == s + after[..k];
      EndStripped(s, after[..k]);
    }
  }

  function Strip(s: string): string {
    StripEnd(SkipSpace(s))
  }

  /** The closed panels that go in the envelope. */
  function Shut(fields: seq<string>, floating: set<string>): seq<string> {
    if fields == [] then [] else
    var id := Strip(fields[0]);
    (if id == [] || LeftOut(id, floating) then [] else [id]) + Shut(fields[1..], floating)
  }

  /** The id, "W,H" pairs of a NULL-terminated vector. */
  function Pairs(undocked: seq<string>): seq<(string, string)> {
    if |undocked| < 2 then [] else [(undocked[0], undocked[1])] + Pairs(undocked[2..])
  }

  function Names(pairs: seq<(string, string)>): set<string> {
    set p | p in pairs :: p.0
  }

  /** `sscanf (s, "%d,%d")` with both positive. */
  function WindowSize(s: string): Option<(nat, nat)> {
    var w :- ScanInt(s, IsSpaceC);
    if w.rest == [] || w.rest[0] != ',' then None else
    var h :- ScanInt(w.rest[1..], IsSpaceC);
    if ToInt(w.value) > 0 && ToInt(h.value) > 0 then Some((ToInt(w.value), ToInt(h.value))) else None
  }

  /** The window an undocked panel gets: none for Files. */
  function WindowFor(id: string, size: string): seq<Window> {
    if id == "files" then [] else [Window(id, WindowSize(size))]
  }

  function Windows(pairs: seq<(string, string)>): seq<Window> {
    if pairs == [] then [] else WindowFor(pairs[0].0, pairs[0].1) + Windows(pairs[1..])
  }

  function FieldsOf(s: Option<string>): seq<string> {
    if s.Some? then Fields(s.value) else []
  }

  /** The window the dividers are measured against. */
  function WindowExtent(width: int, height: int): Extent {
    Extent(if width > 0 then width as real else 1100.0, if height > 0 then height as real else 700.0)
  }

  /** Everything the import means. */
  function Import(n: Node, sizes: Option<string>, closed: Option<string>, undocked: seq<string>, width: int, height: int): Doc {
    var pairs := Pairs(undocked);
    var floating := Names(pairs);
    var layout := LayoutOf(n, Dividers(n, FieldsOf(sizes)), Root, floating, WindowExtent(width, height));
    var shut := Shut(FieldsOf(closed), floating);
    if shut == [] && floating == {} then Bare(layout)
    else Envelope(layout,
                  if shut == [] then None else Some(shut),
                  if floating == {} then None else Some(Windows(pairs)))
  }

  // ---- The JSON it is written as ----

  /** `%g` of a number of thousandths below one. */
  function ShareText(k: nat): string
    requires 0 < k < 1000
  {
    "0." + [DigitChar(k / 100)]
    + if k % 100 == 0 then [] else [DigitChar(k / 10 % 10)] + if k % 10 == 0 then [] else [DigitChar(k % 10)]
  }

  function Strings(ss: seq<string>): J.Items {
    if ss == [] then J.NoItems else J.Item(J.Str(ss[0]), Strings(ss[1..]))
  }

  function Pair(a: J.Json, b: J.Json): J.Json {
    J.Arr(J.Item(a, J.Item(b, J.NoItems)))
  }

  function SlotMember(slot: Option<string>): J.Members {
    match slot
    case None => J.NoMembers
    case Some(role) => J.Member("slots", J.Arr(Strings([role])), J.NoMembers)
  }

  function ActiveMember(active: nat, more: J.Members): J.Members {
    if active > 0 then J.Member("active", J.Num(Digits(active)), more) else more
  }

  predicate SharesInRange(l: Layout) {
    l.Kids? ==> 50 <= l.share <= 950 && SharesInRange(l.a) && SharesInRange(l.b)
  }

  function LayoutJson(l: Layout): J.Json
    requires SharesInRange(l)
  {
    match l
    case Tabs(tabs, active, slot) =>
      J.Obj(J.Member("tabs", J.Arr(Strings(tabs)), ActiveMember(active, SlotMember(slot))))
    case Kids(row, share, a, b) =>
      J.Obj(J.Member("dir", J.Str(if row then "row" else "col"),
            J.Member("size", Pair(J.Num(ShareText(share)), J.Num(ShareText(1000 - share))),
            J.Member("kids", Pair(LayoutJson(a), LayoutJson(b)), J.NoMembers))))
  }

  function SizeMember(size: Option<(nat, nat)>): J.Members {
    match size
    case None => J.NoMembers
    case Some(s) => J.Member("size", Pair(J.Num(Digits(s.0)), J.Num(Digits(s.1))), J.NoMembers)
  }

  function WindowJson(w: Window): J.Json {
    J.Obj(J.Member("layout", J.Obj(J.Member("tabs", J.Arr(Strings([w.tab])), J.NoMembers)), SizeMember(w.size)))
  }

  function WindowItems(ws: seq<Window>): J.Items {
    if ws == [] then J.NoItems else J.Item(WindowJson(ws[0]), WindowItems(ws[1..]))
  }

  function FloatingMember(floating: Option<seq<Window>>): J.Members {
    match floating
    case None => J.NoMembers
    case Some(ws) => J.Member("floating", J.Arr(WindowItems(ws)), J.NoMembers)
  }

  function ClosedMember(closed: Option<seq<string>>, more: J.Members): J.Members {
    match closed
    case None => more
    case Some(ids) => J.Member("closed", J.Arr(Strings(ids)), more)
  }

  function DocJson(d: Doc): J.Json
    requires SharesInRange(d.layout)
  {
    match d
    case Bare(layout) => LayoutJson(layout)
    case Envelope(layout, closed, floating) =>
      J.Obj(J.Member("layout", LayoutJson(layout), ClosedMember(closed, FloatingMember(floating))))
  }

  // ---- Reading it back ----

  function Size(j: J.Json): (n: nat)
    decreases j
  {
    match j
    case Str(_) => 1
    case Num(_) => 1
    case Arr(items) => 1 + SizeItems(items)
    case Obj(members) => 1 + SizeMembers(members)
  }

  function SizeItems(items: J.Items): nat
    decreases items
  {
    if items.NoItems? then 0 else Size(items.head) + SizeItems(items.tail)
  }

  function SizeMembers(m: J.Members): nat
    decreases m
  {
    if m.NoMembers? then 0 else Size(m.value) + SizeMembers(m.others)
  }

  function Field(m: J.Members, key: string): (r: Option<J.Json>)
    ensures r.Some? ==> Size(r.value) <= SizeMembers(m)
    decreases m
  {
    if m.NoMembers? then None else if m.key == key then Some(m.value) else Field(m.others, key)
  }

  function ReadStrings(items: J.Items): Option<seq<string>> {
    match items
    case NoItems => Some([])
    case Item(head, tail) =>
      var rest :- ReadStrings(tail);
      if head.Str? then Some([head.text] + rest) else None
  }

  function ReadNat(j: J.Json): Option<nat> {
    if j.Num? && AllDigits(j.lexeme) then Some(Value(j.lexeme)) else None
  }

  /** A number with up to three decimals, in thousandths. */
  function ReadThousandths(j: J.Json): Option<nat> {
    if !j.Num? then None else
    var k := Span(j.lexeme, IsDigit);
    if k == |j.lexeme| then Some(1000 * Value(j.lexeme[..k]))
    else if j.lexeme[k] != '.' || |j.lexeme| - k > 4 then None
    else
      var decimals := j.lexeme[k + 1..];
      if AllDigits(decimals) then
        Some(1000 * Value(j.lexeme[..k]) + Value(decimals) * Pow10(3 - |decimals|))
      else None
  }

  function ReadSlot(slots: Option<J.Json>): Option<Option<string>> {
    match slots
    case None => Some(None)
    case Some(j) =>
      if j.Arr? && j.items.Item? && j.items.head.Str? && j.items.tail.NoItems? then Some(Some(j.items.head.text)) else None
  }

  function TwoOf(j: J.Json): (r: Option<(J.Json, J.Json)>)
    ensures r.Some? ==> Size(r.value.0) < Size(j) && Size(r.value.1) < Size(j)
  {
    if j.Arr? && j.items.Item? && j.items.tail.Item? && j.items.tail.tail.NoItems? then
      assert SizeItems(j.items.tail) == Size(j.items.tail.head) + SizeItems(j.items.tail.tail);
      Some((j.items.head, j.items.tail.head))
    else None
  }

  function ReadTabs(m: J.Members, items: J.Items): Option<Layout> {
    var tabs :- ReadStrings(items);
    var active :- (var a := Field(m, "active"); if a.None? then Some(0) else ReadNat(a.value));
    var slot :- ReadSlot(Field(m, "slots"));
    Some(Tabs(tabs, active, slot))
  }

  function ReadDirection(j: J.Json): Option<bool> {
    if j == J.Str("row") then Some(true) else if j == J.Str("col") then Some(false) else None
  }

  /** The two shares of a split: they must make up the whole. */
  function ReadShare(j: J.Json): Option<nat> {
    var shares :- TwoOf(j);
    var x :- ReadThousandths(shares.0);
    var y :- ReadThousandths(shares.1);
    if x + y == 1000 then Some(x) else None
  }

  /** A layout from its JSON: `active` and `slots` may be missing. */
  function ReadLayout(j: J.Json): Option<Layout>
    decreases Size(j)
  {
    if !j.Obj? then None else
    var tabs := Field(j.members, "tabs");
    if tabs.Some? then
      if tabs.value.Arr? then ReadTabs(j.members, tabs.value.items) else None
    else
      var dir :- Field(j.members, "dir");
      var row :- ReadDirection(dir);
      var size :- Field(j.members, "size");
      var share :- ReadShare(size);
      var kids :- Field(j.members, "kids");
      var ab :- TwoOf(kids);
      var a :- ReadLayout(ab.0);
      var b :- ReadLayout(ab.1);
      Some(Kids(row, share, a, b))
  }

  function ReadWindowSize(j: Option<J.Json>): Option<Option<(nat, nat)>> {
    if j.None? then Some(None) else
    var wh :- TwoOf(j.value);
    var w :- ReadNat(wh.0);
    var h :- ReadNat(wh.1);
    Some(Some((w, h)))
  }

  function ReadWindow(j: J.Json): Option<Window> {
    if !j.Obj? then None else
    var inner :- Field(j.members, "layout");
    var size :- ReadWindowSize(Field(j.members, "size"));
    var layout :- ReadLayout(inner);
    if layout.Tabs? && |layout.tabs| == 1 then Some(Window(layout.tabs[0], size)) else None
  }

  function ReadWindows(items: J.Items): Option<seq<Window>> {
    match items
    case NoItems => Some([])
    case Item(head, tail) =>
      var w :- ReadWindow(head);
      var ws :- ReadWindows(tail);
      Some([w] + ws)
  }

  function ReadDoc(j: J.Json): Option<Doc> {
    if !j.Obj? then None else
    var inner := Field(j.members, "layout");
    if inner.None? then
      var layout :- ReadLayout(j);
      Some(Bare(layout))
    else
      var layout :- ReadLayout(inner.value);
      var closed := Field(j.members, "closed");
      var floating := Field(j.members, "floating");
      if (closed.Some? && !closed.value.Arr?) || (floating.Some? && !floating.value.Arr?) then None else
      var shut :- if closed.None? then Some([]) else ReadStrings(closed.value.items);
      var ws :- if floating.None? then Some([]) else ReadWindows(floating.value.items);
      Some(Envelope(layout, if closed.None? then None else Some(shut), if floating.None? then None else Some(ws)))
  }
}
