/**
 A layout from before the dock, over the runs of a process (src/dock_layout.c:195-271): its
 dividers are measured by the main window's saved size, so another size may give another
 layout until a save is written, and from then on the layout stays as it was imported.
 */
module DockMigration {
  import opened Wrappers
  import opened Decimal
  import opened DockTree
  import opened DockImport
  import opened DockStore
  import opened DockKeeper
  import J = Json
  import Proofs = DockImportProofs

  // ---- When two sizes give the same import ----

  /** The shares of a layout's splits, each above those inside it. */
  function SharesOf(l: Layout): seq<nat> {
    match l
    case Tabs(_, _, _) => []
    case Kids(_, share, a, b) => [share] + (SharesOf(a) + SharesOf(b))
  }

  function Splits(n: Node): nat {
    if n.Leaf? then 0 else Splits(n.a) + Splits(n.b) + 1
  }

  lemma {:induction false} SharesCount(n: Node, at: map<Path, int>, path: Path, floating: set<string>, e: Extent)
    ensures |SharesOf(LayoutOf(n, at, path, floating, e))| == Splits(n)
    decreases n
  {
    if n.Split? {
      var row := n.orientation.Horizontal?;
      var share := Share(PositionAt(at, path), Along(row, e));
      SharesCount(n.a, at, First(path), floating, FirstPart(row, share, e));
      SharesCount(n.b, at, Second(path), floating, SecondPart(row, share, e));
    }
  }

  lemma SharesSplit(s: nat, x: seq<nat>, y: seq<nat>, t: nat, u: seq<nat>, v: seq<nat>)
    requires |x| == |u| && |y| == |v|
    ensures [s] + (x + y) == [t] + (u + v) <==> s == t && x == u && y == v
  {
    if [s] + (x + y) == [t] + (u + v) {
      var l, r := [s] + (x + y), [t] + (u + v);
      assert l[0] == s && r[0] == t;
      assert l[1..] == x + y && r[1..] == u + v;
      assert (x + y)[..|x|] == x && (u + v)[..|x|] == u;
      assert (x + y)[|x|..] == y && (u + v)[|x|..] == v;
    }
  }

  /** Drawn in two rooms, a tree is the same layout if and only if its splits have the same shares. */
  lemma {:induction false} SameShares(n: Node, at: map<Path, int>, path: Path, floating: set<string>, d: Extent, e: Extent)
    ensures LayoutOf(n, at, path, floating, d) == LayoutOf(n, at, path, floating, e)
       <==> SharesOf(LayoutOf(n, at, path, floating, d)) == SharesOf(LayoutOf(n, at, path, floating, e))
    decreases n
  {
    if n.Split? {
      var l, r := LayoutOf(n, at, path, floating, d), LayoutOf(n, at, path, floating, e);
      var row := n.orientation.Horizontal?;
      var d1, d2 := FirstPart(row, l.share, d), SecondPart(row, l.share, d);
      var e1, e2 := FirstPart(row, r.share, e), SecondPart(row, r.share, e);
      SharesCount(n.a, at, First(path), floating, d1);
      SharesCount(n.a, at, First(path), floating, e1);
      SharesCount(n.b, at, Second(path), floating, d2);
      SharesCount(n.b, at, Second(path), floating, e2);
      SameShares(n.a, at, First(path), floating, d1, e1);
      SameShares(n.b, at, Second(path), floating, d2, e2);
      SharesSplit(l.share, SharesOf(l.a), SharesOf(l.b), r.share, SharesOf(r.a), SharesOf(r.b));
    }
  }

  /** The document a file's tree is imported as. */
  ghost function Imported(kf: KeyFile, n: Node, g: Geometry): Doc {
    Import(n, Lookup(kf.dock, "sizes"), Lookup(kf.dock, "closed"), Vector(kf.undocked), g.width, g.height)
  }

  lemma ImportedText(kf: KeyFile, n: Node, g: Geometry, d: Doc)
    requires "tree" in kf.dock && ParseTree(kf.dock["tree"]) == Some(n) && d == Imported(kf, n, g)
    ensures SharesInRange(d.layout) && LegacyText(kf, g.width, g.height) == Some(J.Emit(DocJson(d)))
    ensures J.ReadText(J.Emit(DocJson(d))) == Some(DocJson(d)) && ReadDoc(DocJson(d)) == Some(d)
  {
    Proofs.ImportReadsBack(n, Lookup(kf.dock, "sizes"), Lookup(kf.dock, "closed"), Vector(kf.undocked), g.width, g.height);
  }

  lemma SameDoc(d: Doc, e: Doc)
    requires SharesInRange(d.layout) && SharesInRange(e.layout)
    requires J.ReadText(J.Emit(DocJson(d))) == Some(DocJson(d)) && ReadDoc(DocJson(d)) == Some(d)
    requires J.ReadText(J.Emit(DocJson(e))) == Some(DocJson(e)) && ReadDoc(DocJson(e)) == Some(e)
    ensures J.Emit(DocJson(d)) == J.Emit(DocJson(e)) <==> d == e
  {
  }

  lemma SameImported(kf: KeyFile, n: Node, a: Geometry, b: Geometry)
    ensures Imported(kf, n, a) == Imported(kf, n, b)
       <==> SharesOf(Imported(kf, n, a).layout) == SharesOf(Imported(kf, n, b).layout)
  {
    var floating := Names(Pairs(Vector(kf.undocked)));
    SameShares(n, Dividers(n, FieldsOf(Lookup(kf.dock, "sizes"))), Root, floating,
               WindowExtent(a.width, a.height), WindowExtent(b.width, b.height));
  }

  /** The imports of a tree agree at two sizes if and only if every split has the same share at both. */
  lemma ImportsAgreeIff(kf: KeyFile, n: Node, a: Geometry, b: Geometry)
    requires "tree" in kf.dock && ParseTree(kf.dock["tree"]) == Some(n)
    ensures SameImport(kf, a, b) <==> SharesOf(Imported(kf, n, a).layout) == SharesOf(Imported(kf, n, b).layout)
  {
    ImportedText(kf, n, a, Imported(kf, n, a));
    ImportedText(kf, n, b, Imported(kf, n, b));
    SameDoc(Imported(kf, n, a), Imported(kf, n, b));
    SameImported(kf, n, a, b);
  }

  lemma {:induction false} PairsOfVector(pairs: seq<(string, string)>)
    ensures Pairs(Vector(pairs)) == pairs
  {
    if pairs != [] {
      PairsOfVector(pairs[1..]);
      assert Vector(pairs)[2..] == Vector(pairs[1..]);
      assert pairs == [pairs[0]] + pairs[1..];
    }
  }

  /** A legacy file's layout is the import of its tree, dividers, closed panels and undocked windows. */
  lemma FileImports(kf: KeyFile, n: Node, width: int, height: int, undocked: seq<string>)
    requires "tree" in kf.dock && ParseTree(kf.dock["tree"]) == Some(n) && undocked == Vector(kf.undocked)
    ensures Pairs(undocked) == kf.undocked
    ensures var d := Import(n, if "sizes" in kf.dock then Some(kf.dock["sizes"]) else None,
                            if "closed" in kf.dock then Some(kf.dock["closed"]) else None, undocked, width, height);
            SharesInRange(d.layout) && LegacyText(kf, width, height) == Some(J.Emit(DocJson(d)))
  {
    PairsOfVector(kf.undocked);
    ImportedText(kf, n, Geometry(width, height), Imported(kf, n, Geometry(width, height)));
  }

  /** A file with no tree, or with one that does not parse, imports as nothing. */
  lemma NoTreeNoImport(kf: KeyFile, width: int, height: int)
    ensures LegacyText(kf, width, height).None? <==> "tree" !in kf.dock || ParseTree(kf.dock["tree"]).None?
  {
  }

  // ---- A file whose imports do not agree ----

  const TWO_PANES := Split(Horizontal, Leaf(["a"], -1, None), Leaf(["b"], -1, None))

  /** Two panes with one divider at 300 pixels. */
  ghost function TwoPanesFile(): KeyFile {
    KeyFile(map["tree" := Print(TWO_PANES), "sizes" := Digits(300)], map[], map[], [])
  }

  lemma TwoPanesParse()
    ensures ParseTree(Print(TWO_PANES)) == Some(TWO_PANES)
  {
    assert LegalId("a") && LegalId("b");
    PrintParses(TWO_PANES);
  }

  lemma OneDivider(d: string)
    requires d == Digits(300)
    ensures Dividers(TWO_PANES, FieldsOf(Some(d))) == map[Root := 300]
  {
    ValueOfDigits(300);
    forall i | 0 <= i < |d| ensures d[i] != ';' {
      assert d[i] in d;
    }
    OneField(d);
    assert d + [] == d;
    ScanDigits(300, [], IsSpaceC);
    assert Position(d) == 300;
    assert PostOrder(TWO_PANES, Root) == [Root];
    assert Positions([d]) == [300];
    assert [Root][1..] == [];
  }

  lemma OneField(d: string)
    requires d != [] && forall i | 0 <= i < |d| :: d[i] != ';'
    ensures Fields(d) == [d]
  {
  }

  lemma ShareOf300()
    ensures Share(300, 1000.0) == 300 && Share(300, 2000.0) == 150
  {
  }

  lemma ImportedLayout(kf: KeyFile, n: Node, g: Geometry, at: map<Path, int>)
    requires at == Dividers(n, FieldsOf(Lookup(kf.dock, "sizes")))
    ensures Imported(kf, n, g).layout
         == LayoutOf(n, at, Root, Names(Pairs(Vector(kf.undocked))), WindowExtent(g.width, g.height))
  {
  }

  lemma TwoLeaves(n: Node, at: map<Path, int>, floating: set<string>, e: Extent)
    requires n.Split? && n.a.Leaf? && n.b.Leaf? && n.orientation.Horizontal?
    ensures SharesOf(LayoutOf(n, at, Root, floating, e)) == [Share(PositionAt(at, Root), e.w)]
  {
    var share := Share(PositionAt(at, Root), e.w);
    SharesCount(n.a, at, First(Root), floating, FirstPart(true, share, e));
    SharesCount(n.b, at, Second(Root), floating, SecondPart(true, share, e));
  }

  lemma TwoPanesKeys(kf: KeyFile)
    requires kf == TwoPanesFile()
    ensures "tree" in kf.dock && "layout" !in kf.dock && kf.dock["tree"] == Print(TWO_PANES)
    ensures Lookup(kf.dock, "sizes") == Some(Digits(300))
  {
    assert |"tree"| == 4 && |"sizes"| == 5 && |"layout"| == 6;
  }

  lemma TwoPanesShares(kf: KeyFile, n: Node, g: Geometry)
    requires kf == TwoPanesFile() && n == TWO_PANES && g.width > 0
    ensures SharesOf(Imported(kf, n, g).layout) == [Share(300, g.width as real)]
  {
    TwoPanesKeys(kf);
    OneDivider(Digits(300));
    var at: map<Path, int> := map[Root := 300];
    ImportedLayout(kf, n, g, at);
    TwoLeaves(n, at, Names(Pairs(Vector(kf.undocked))), WindowExtent(g.width, g.height));
  }

  /** One divider at 300 pixels: 300 thousandths of a window 1000 wide, 150 of one 2000 wide. */
  lemma TwoPanesDisagree(kf: KeyFile, n: Node, a: Geometry, b: Geometry)
    requires kf == TwoPanesFile() && n == TWO_PANES && a == Geometry(1000, 700) && b == Geometry(2000, 700)
    ensures SharesOf(Imported(kf, n, a).layout) == [300] && SharesOf(Imported(kf, n, b).layout) == [150]
    ensures !Settled(kf) && !SameImport(kf, a, b)
  {
    TwoPanesKeys(kf);
    TwoPanesParse();
    ImportsAgreeIff(kf, n, a, b);
    TwoPanesShares(kf, n, a);
    TwoPanesShares(kf, n, b);
    ShareOf300();
  }

  /** Started, resized, and shut down with nothing to save. */
  lemma ResizedQuit(kf: KeyFile, a: Geometry, b: Geometry, t: Trace, keyName: string -> bool)
    requires t == Step(Step(Started(Some(kf), a), Resize(b), keyName), Shutdown(true), keyName)
    ensures Started(t.w.file, t.window).w.memory == t.w.memory <==> Settled(kf) || SameImport(kf, a, b)
  {
    RereadAgrees(Some(kf), a, b);
  }

  /** In a window resized from 1000 wide to 2000, the next process does not have the memory this one had. */
  lemma ResizeMovesDivider(kf: KeyFile, a: Geometry, b: Geometry, t: Trace, keyName: string -> bool)
    requires kf == TwoPanesFile() && a == Geometry(1000, 700) && b == Geometry(2000, 700)
    requires t == Step(Step(Started(Some(kf), a), Resize(b), keyName), Shutdown(true), keyName)
    ensures Started(t.w.file, t.window).w.memory != t.w.memory
  {
    TwoPanesDisagree(kf, TWO_PANES, a, b);
    ResizedQuit(kf, a, b, t, keyName);
  }

  // ---- After a save ----

  predicate NoKeep(events: seq<Event>) {
    forall e | e in events && e.Make? :: !e.c.Keep?
  }

  ghost function LayoutAt(kf: KeyFile, g: Geometry): Option<string> {
    Loaded(kf, LegacyText(kf, g.width, g.height)).layout
  }

  /** The memory has the layout `kf` was last imported as, and so has a file written since. */
  ghost predicate Migrated(t: Trace, kf: KeyFile) {
    && t.w.memory.layout == LayoutAt(kf, t.measured)
    && t.w.file.Some?
    && if t.wrote then Settled(t.w.file.value) && forall g :: LayoutAt(t.w.file.value, g) == LayoutAt(kf, t.measured)
       else t.w.file.value == kf
  }

  lemma SavedLayout(m: Memory, keyName: string -> bool, g: Geometry)
    ensures LayoutAt(Saved(m, keyName), g) == m.layout
  {
    assert |"tree"| == 4 && |"layout"| == 6;
  }

  lemma SaveMigrates(t: Trace, kf: KeyFile, written: bool, keyName: string -> bool)
    requires Migrated(t, kf)
    ensures Migrated(AfterSave(t, written, keyName), kf)
  {
    if written {
      SavedIsSettled(t.w.memory, keyName);
      forall g: Geometry ensures LayoutAt(Saved(t.w.memory, keyName), g) == t.w.memory.layout {
        SavedLayout(t.w.memory, keyName, g);
      }
    }
  }

  lemma SettledLayout(kf: KeyFile, a: Geometry, b: Geometry)
    requires Settled(kf)
    ensures LayoutAt(kf, a) == LayoutAt(kf, b)
  {
  }

  lemma LoadMigrates(t: Trace, kf: KeyFile)
    requires Migrated(t, kf)
    ensures Migrated(AfterLoad(t), kf)
  {
    if t.wrote {
      assert LayoutAt(t.w.file.value, t.window) == LayoutAt(kf, t.measured);
    } else if Settled(kf) {
      SettledLayout(kf, t.window, t.measured);
    }
  }

  lemma StepMigrates(t: Trace, kf: KeyFile, e: Event, keyName: string -> bool)
    requires Migrated(t, kf) && Enabled(t, e) && (e.Make? ==> !e.c.Keep?)
    ensures Migrated(Step(t, e, keyName), kf)
  {
    match e
    case Make(_) =>
    case Fire(written) => SaveMigrates(t, kf, written, keyName);
    case Shutdown(written) => SaveMigrates(t, kf, written, keyName);
    case Load => LoadMigrates(t, kf);
    case Resize(_) =>
  }

  lemma {:induction false} RunMigrates(t: Trace, kf: KeyFile, events: seq<Event>, keyName: string -> bool)
    requires Migrated(t, kf) && Possible(t, events, keyName) && NoKeep(events)
    ensures Migrated(Run(t, events, keyName), kf)
    decreases events
  {
    if events != [] {
      StepMigrates(t, kf, events[0], keyName);
      RunMigrates(Step(t, events[0], keyName), kf, events[1..], keyName);
    }
  }

  /**
   After any run that wrote a save, and in which the dock asked to keep nothing else, a
   process started in a window of any size has the layout as it was imported last.
   */
  lemma MigrationHolds(kf: KeyFile, g: Geometry, events: seq<Event>, t: Trace, later: Geometry, keyName: string -> bool)
    requires Possible(Started(Some(kf), g), events, keyName) && NoKeep(events)
    requires t == Run(Started(Some(kf), g), events, keyName) && t.wrote
    ensures Started(t.w.file, later).w.memory.layout == LayoutAt(kf, t.measured) == t.w.memory.layout
  {
    RunMigrates(Started(Some(kf), g), kf, events, keyName);
    assert LayoutAt(t.w.file.value, later) == LayoutAt(kf, t.measured);
  }
}
