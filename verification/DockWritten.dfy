/**
 The JSON an imported layout is written as, spelled out key by key as the unit tests have it
 (tests/unit/test_dock_layout_parse.c:430-474).
 */
module DockWritten {
  import opened Wrappers
  import opened Decimal
  import opened DockImport
  import opened DockTree
  import I = DockImporter
  import J = Json
  import Proofs = DockImportProofs

  /** Strings in quotes, with commas between them. */
  function ListWritten(ss: seq<string>): string {
    if ss == [] then "" else J.Quote(ss[0]) + if |ss| == 1 then "" else "," + ListWritten(ss[1..])
  }

  /** A leaf has its tabs, the front page unless it is the first, and its slot; a split its direction and shares. */
  function LayoutWritten(l: Layout): string
    requires SharesInRange(l)
  {
    match l
    case Tabs(tabs, active, slot) =>
      "{\"tabs\":[" + ListWritten(tabs) + "]" + (if active > 0 then ",\"active\":" + Digits(active) else "")
      + (if slot.Some? then ",\"slots\":[" + J.Quote(slot.value) + "]" else "") + "}"
    case Kids(row, share, a, b) =>
      "{\"dir\":\"" + (if row then "row" else "col") + "\",\"size\":["
      + ShareText(share) + "," + ShareText(1000 - share) + "],\"kids\":["
      + LayoutWritten(a) + "," + LayoutWritten(b) + "]}"
  }

  function WindowWritten(w: Window): string {
    "{\"layout\":{\"tabs\":[" + J.Quote(w.tab) + "]}"
    + (if w.size.Some? then ",\"size\":[" + Digits(w.size.value.0) + "," + Digits(w.size.value.1) + "]" else "") + "}"
  }

  function WindowsWritten(ws: seq<Window>): string {
    if ws == [] then "" else WindowWritten(ws[0]) + if |ws| == 1 then "" else "," + WindowsWritten(ws[1..])
  }

  /** The layout alone, or in an envelope with the closed panels and the windows there are. */
  function DocWritten(d: Doc): string
    requires SharesInRange(d.layout)
  {
    match d
    case Bare(layout) => LayoutWritten(layout)
    case Envelope(layout, closed, floating) =>
      "{\"layout\":" + LayoutWritten(layout)
      + (if closed.Some? then ",\"closed\":[" + ListWritten(closed.value) + "]" else "")
      + (if floating.Some? then ",\"floating\":[" + WindowsWritten(floating.value) + "]" else "") + "}"
  }

  lemma {:induction false} ListIs(ss: seq<string>)
    ensures J.EmitItems(Strings(ss)) == ListWritten(ss)
  {
    if ss != [] {
      ListIs(ss[1..]);
      I.TextOfItem(ss[0], Strings(ss[1..]));
      I.StringsNone(ss[1..]);
    }
  }

  lemma NothingBefore(s: string)
    ensures "" + s == s
  {
  }

  lemma CloseKids(x: string, close: string, brace: string)
    requires close == "]" && brace == "}"
    ensures x + (close + brace) == x + "]}"
  {
  }

  lemma TabsWritten(l: Layout)
    requires l.Tabs?
    ensures J.Emit(LayoutJson(l)) == LayoutWritten(l)
  {
    ListIs(l.tabs);
    I.TabsText("", l.tabs, l.active, l.slot);
    NothingBefore("{\"tabs\":[");
    NothingBefore(J.Emit(LayoutJson(l)));
  }

  lemma KidsWritten(l: Layout, a: string, b: string)
    requires l.Kids? && SharesInRange(l)
    requires a == J.Emit(LayoutJson(l.a)) == LayoutWritten(l.a) && b == J.Emit(LayoutJson(l.b)) == LayoutWritten(l.b)
    ensures J.Emit(LayoutJson(l)) == LayoutWritten(l)
  {
    I.KidsEmit(l);
    CloseKids(I.SplitText(l.row, l.share) + a + "," + b, "]", "}");
  }

  lemma {:induction false} LayoutIs(l: Layout)
    requires SharesInRange(l)
    ensures J.Emit(LayoutJson(l)) == LayoutWritten(l)
  {
    if l.Tabs? {
      TabsWritten(l);
    } else {
      LayoutIs(l.a);
      LayoutIs(l.b);
      KidsWritten(l, LayoutWritten(l.a), LayoutWritten(l.b));
    }
  }

  lemma WindowIs(w: Window)
    ensures J.Emit(WindowJson(w)) == WindowWritten(w)
  {
    I.WindowText("", w);
    NothingBefore("{\"layout\":{\"tabs\":[");
    NothingBefore(J.Emit(WindowJson(w)));
  }

  lemma {:induction false} WindowsAre(ws: seq<Window>)
    ensures J.EmitItems(WindowItems(ws)) == WindowsWritten(ws)
  {
    if ws != [] {
      WindowsAre(ws[1..]);
      WindowIs(ws[0]);
      assert WindowItems(ws[1..]).NoItems? <==> ws[1..] == [];
    }
  }

  /** The text of an import is the layout written out, for every layout. */
  lemma DocIsWritten(d: Doc)
    requires SharesInRange(d.layout)
    ensures J.Emit(DocJson(d)) == DocWritten(d)
  {
    LayoutIs(d.layout);
    if d.Envelope? {
      I.EnvelopeText(d.layout, d.closed, d.floating);
      if d.closed.Some? {
        ListIs(d.closed.value);
      }
      if d.floating.Some? {
        WindowsAre(d.floating.value);
      }
    }
  }

  /** What `dl_import_legacy` returns, as it is written. */
  lemma ImportIsWritten(n: Node, sizes: Option<string>, closed: Option<string>, undocked: seq<string>, width: int, height: int)
    ensures var d := Import(n, sizes, closed, undocked, width, height);
            SharesInRange(d.layout) && J.Emit(DocJson(d)) == DocWritten(d)
  {
    Proofs.ImportReadsBack(n, sizes, closed, undocked, width, height);
    DocIsWritten(Import(n, sizes, closed, undocked, width, height));
  }
}
