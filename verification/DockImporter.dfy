/**
 `dl_import_legacy` and its helpers (src/dock_layout_parse.c:255-458): the tables and
 the text are filled in place, and come out as `DockImport` says.
 */
module DockImporter {
  import opened Wrappers
  import opened Text
  import opened Decimal
  import opened DockTree
  import opened DockImport
  import DockParser
  import Proofs = DockImportProofs
  import J = Json

  /** A `GString`. */
  class Buffer {
    var text: string

    constructor ()
      ensures text == []
    {
      text := [];
    }

    method Append(s: string)
      modifies this
      ensures text == old(text) + s
    {
      text := text + s;
    }
  }

  // ---- The pieces of the text ----

  predicate Plain(s: string) {
    forall c | c in s :: c as int >= 0x20 && c != '"' && c != '\\'
  }

  lemma {:induction false} QuotePlain(s: string)
    requires Plain(s)
    ensures J.Escape(s) == s && J.Quote(s) == "\"" + s + "\""
  {
    if s != [] {
      assert s[0] in s && forall c | c in s[1..] :: c in s;
      QuotePlain(s[1..]);
      assert s == [s[0]] + s[1..];
    }
  }

  lemma {:induction false} EscapeAppend(s: string, c: char)
    ensures J.Escape(s + [c]) == J.Escape(s) + J.EscapeChar(c)
  {
    if s == [] {
      assert s + [c] == [c] && J.Escape([c][1..]) == [];
    } else {
      assert (s + [c])[1..] == s[1..] + [c];
      EscapeAppend(s[1..], c);
    }
  }

  /** What comes before the next item of a list. */
  function Separator(first: bool): string {
    if first then "" else ","
  }

  lemma {:induction false} StringsAppend(ss: seq<string>, s: string)
    ensures J.EmitItems(Strings(ss + [s])) == J.EmitItems(Strings(ss)) + Separator(ss == []) + J.Quote(s)
  {
    if ss == [] {
      LastString(ss, s);
    } else {
      var rest, all := ss[1..], ss[1..] + [s];
      StringsAppend(rest, s);
      FirstString(ss, s);
      TextOfItem(ss[0], Strings(all));
      TextOfItem(ss[0], Strings(rest));
      StringsNone(rest);
      RegroupItems(J.Quote(ss[0]), ",", J.EmitItems(Strings(rest)), Separator(rest == []), J.Quote(s));
    }
  }

  lemma StringsNone(ss: seq<string>)
    ensures Strings(ss).NoItems? <==> ss == []
  {
  }

  lemma LastString(ss: seq<string>, s: string)
    requires ss == []
    ensures J.EmitItems(Strings(ss + [s])) == J.EmitItems(Strings(ss)) + Separator(true) + J.Quote(s)
  {
    assert ss + [s] == [s] && Strings([s]) == J.Item(J.Str(s), J.NoItems);
    TextOfItem(s, J.NoItems);
    assert "" + "" + J.Quote(s) == J.Quote(s);
  }

  lemma FirstString(ss: seq<string>, s: string)
    requires ss != []
    ensures Strings(ss + [s]) == J.Item(J.Str(ss[0]), Strings(ss[1..] + [s])) && Strings(ss[1..] + [s]).Item?
  {
    assert (ss + [s])[1..] == ss[1..] + [s];
    assert ss[1..] + [s] != [];
  }

  /** The text of a list is its first item's, then the others' after a comma. */
  lemma TextOfItem(s: string, more: J.Items)
    ensures J.EmitItems(J.Item(J.Str(s), more)) == J.Quote(s) + (if more.NoItems? then "" else "," + J.EmitItems(more))
  {
    assert J.Emit(J.Str(s)) == J.Quote(s);
  }

  lemma RegroupItems(first: string, comma: string, rest: string, sep: string, last: string)
    ensures first + (comma + (rest + sep + last)) == first + (comma + rest) + sep + last
    ensures rest == "" && sep == "" ==> first + (comma + (rest + sep + last)) == first + "" + comma + last
  {
    if rest == "" && sep == "" {
      assert rest + sep + last == last;
    }
  }

  lemma {:induction false} WindowsAppend(ws: seq<Window>, w: Window)
    ensures J.EmitItems(WindowItems(ws + [w])) == J.EmitItems(WindowItems(ws)) + Separator(ws == []) + J.Emit(WindowJson(w))
  {
    if ws == [] {
      assert ws + [w] == [w] && WindowItems([w]) == J.Item(WindowJson(w), J.NoItems);
    } else {
      assert (ws + [w])[1..] == ws[1..] + [w];
      WindowsAppend(ws[1..], w);
      assert WindowItems(ws + [w]) == J.Item(WindowJson(ws[0]), WindowItems(ws[1..] + [w]));
      assert WindowItems(ws[1..] + [w]).Item? by { assert ws[1..] + [w] != []; }
    }
  }

  // Concatenations, regrouped. They are stated of any strings, so that none of them
  // has to look into the literals they are used for.

  lemma RegroupTabs(acc: string, lb: string, q: string, lk: string, items: string, rk: string, act: string, slot: string, rb: string)
    ensures acc + (lb + q + lk) + items + rk + act + slot + rb
         == acc + (lb + (q + (lk + items + rk) + (act + slot)) + rb)
  {
  }

  lemma RegroupKids(acc: string, open: string, x: string, comma: string, y: string, close: string)
    ensures acc + open + x + comma + y + close == acc + (open + x + comma + y + close)
  {
  }

  /** A list of members after another one. */
  function Trail(m: J.Members): string {
    if m.NoMembers? then "" else "," + J.EmitMembers(m)
  }

  /** What comes before the value of a member that is not the first. */
  function Lead(key: string): string {
    "," + (J.Quote(key) + ":")
  }

  lemma MembersText(key: string, value: J.Json, others: J.Members)
    ensures J.EmitMembers(J.Member(key, value, others)) == (J.Quote(key) + ":") + J.Emit(value) + Trail(others)
  {
  }

  lemma MemberTrail(key: string, value: J.Json, others: J.Members)
    ensures Trail(J.Member(key, value, others)) == Lead(key) + J.Emit(value) + Trail(others)
  {
    MembersText(key, value, others);
    Regroup(",", (J.Quote(key) + ":") + J.Emit(value), Trail(others));
    Regroup(",", J.Quote(key) + ":", J.Emit(value));
  }

  /** A plain key, its quotes and the colon after it. */
  lemma KeyText(key: string)
    requires Plain(key)
    ensures J.Quote(key) + ":" == "\"" + key + "\":"
  {
    QuotePlain(key);
  }

  lemma RegroupLead(comma: string, q: string, key: string, open: string)
    ensures comma + (q + key + q + ":") + open == comma + (q + key + (q + ":" + open))
  {
  }

  /** The text before a list that is not the first member. */
  lemma LeadText(key: string, open: string)
    requires Plain(key)
    ensures Lead(key) + open == "," + ("\"" + key + ("\"" + ":" + open))
  {
    QuotePlain(key);
    RegroupLead(",", "\"", key, open);
  }

  lemma FloatingLiteral()
    ensures ",\"floating\":[" == "," + ("\"" + "floating" + ("\"" + ":" + "["))
  {
  }

  lemma TabsKey()
    ensures "{\"tabs\":[" == "{" + (J.Quote("tabs") + ":") + "["
  {
    KeyText("tabs");
  }

  lemma ActiveKey()
    ensures ",\"active\":" == Lead("active")
  {
    KeyText("active");
  }

  lemma SlotsKey()
    ensures ",\"slots\":[" == Lead("slots") + "["
  {
    LeadText("slots", "[");
    SlotsLiteral();
  }

  lemma SlotsLiteral()
    ensures ",\"slots\":[" == "," + ("\"" + "slots" + ("\"" + ":" + "["))
  {
  }

  lemma SizeKey()
    ensures ",\"size\":[" == Lead("size") + "["
  {
    LeadText("size", "[");
    SizeLiteral();
  }

  lemma SizeLiteral()
    ensures ",\"size\":[" == "," + ("\"" + "size" + ("\"" + ":" + "["))
  {
  }

  lemma KidsKey()
    ensures "],\"kids\":[" == "]" + Lead("kids") + "["
  {
    KeyText("kids");
  }

  lemma ClosedKey()
    ensures ",\"closed\":[" == Lead("closed") + "["
  {
    LeadText("closed", "[");
    ClosedLiteral();
  }

  lemma ClosedLiteral()
    ensures ",\"closed\":[" == "," + ("\"" + "closed" + ("\"" + ":" + "["))
  {
  }

  lemma FloatingKey()
    ensures ",\"floating\":[" == Lead("floating") + "["
  {
    LeadText("floating", "[");
    FloatingLiteral();
  }

  lemma LayoutKey()
    ensures "{\"layout\":" == "{" + (J.Quote("layout") + ":")
  {
    KeyText("layout");
  }

  lemma RegroupDir(lb: string, q: string, k: string, word: string, rest: string)
    ensures lb + (q + k + q + ":") + (q + word + q) + rest == (lb + q + k + q + ":" + q) + word + (q + rest)
  {
  }

  lemma DirKeyOf(word: string)
    requires J.Quote(word) == "\"" + word + "\""
    ensures "{\"dir\":\"" + word + "\",\"size\":[" == "{" + (J.Quote("dir") + ":") + J.Quote(word) + (",\"size\":[")
  {
    QuotePlain("dir");
    RegroupDir("{", "\"", "dir", word, ",\"size\":[");
    assert "{" + "\"" + "dir" + "\"" + ":" + "\"" == "{\"dir\":\"";
    assert "\"" + ",\"size\":[" == "\",\"size\":[";
  }

  lemma DirKey(row: bool)
    ensures "{\"dir\":\"" + (if row then "row" else "col") + "\",\"size\":["
         == "{" + (J.Quote("dir") + ":") + J.Quote(if row then "row" else "col") + (",\"size\":[")
  {
    var word := if row then "row" else "col";
    QuotePlain(word);
    DirKeyOf(word);
  }

  function ActiveText(active: nat): string {
    if active > 0 then ",\"active\":" + Digits(active) else ""
  }

  function SlotText(slot: Option<string>): string {
    match slot
    case None => ""
    case Some(role) => ",\"slots\":[" + J.Quote(role) + "]"
  }

  lemma OneString(s: string)
    ensures J.EmitItems(Strings([s])) == J.Quote(s)
  {
    assert Strings([s]) == J.Item(J.Str(s), J.NoItems);
    assert J.Emit(J.Str(s)) == J.Quote(s);
    assert J.Quote(s) + [] == J.Quote(s);
  }

  lemma ArrayText(items: J.Items)
    ensures J.Emit(J.Arr(items)) == "[" + J.EmitItems(items) + "]"
  {
  }

  lemma SlotTrail(slot: Option<string>)
    ensures Trail(SlotMember(slot)) == SlotText(slot)
  {
    if slot.Some? {
      var value := J.Arr(Strings([slot.value]));
      MemberTrail("slots", value, J.NoMembers);
      ArrayText(Strings([slot.value]));
      OneString(slot.value);
      SlotsKey();
      Regroup(Lead("slots"), "[" + J.Quote(slot.value), "]");
      Regroup(Lead("slots"), "[", J.Quote(slot.value));
      assert Trail(J.NoMembers) == "";
    }
  }

  lemma ActiveTrail(active: nat, m: J.Members)
    ensures Trail(ActiveMember(active, m)) == ActiveText(active) + Trail(m)
  {
    if active > 0 {
      MemberTrail("active", J.Num(Digits(active)), m);
      ActiveKey();
    }
  }

  lemma TabsText(acc: string, tabs: seq<string>, active: nat, slot: Option<string>)
    ensures acc + "{\"tabs\":[" + J.EmitItems(Strings(tabs)) + "]" + ActiveText(active) + SlotText(slot) + "}"
         == acc + J.Emit(LayoutJson(Tabs(tabs, active, slot)))
  {
    ActiveTrail(active, SlotMember(slot));
    SlotTrail(slot);
    var more := ActiveMember(active, SlotMember(slot));
    MembersText("tabs", J.Arr(Strings(tabs)), more);
    ArrayText(Strings(tabs));
    TabsKey();
    RegroupTabs(acc, "{", J.Quote("tabs") + ":", "[", J.EmitItems(Strings(tabs)), "]", ActiveText(active), SlotText(slot), "}");
  }

  lemma PairText(x: J.Json, y: J.Json)
    ensures J.Emit(Pair(x, y)) == "[" + (J.Emit(x) + ("," + J.Emit(y))) + "]"
  {
    assert J.EmitItems(J.Item(y, J.NoItems)) == J.Emit(y) + [];
  }

  function SplitText(row: bool, share: nat): string
    requires 0 < share < 1000
  {
    "{\"dir\":\"" + (if row then "row" else "col") + "\",\"size\":["
    + ShareText(share) + "," + ShareText(1000 - share) + "],\"kids\":["
  }

  lemma RegroupSplit(lb: string, dk: string, dv: string, sk: string, open: string, x: string, comma: string, y: string,
                     close: string, kk: string, a: string, b: string, rb: string)
    ensures lb + (dk + dv + (sk + (open + (x + (comma + y)) + close) + (kk + (open + (a + (comma + b)) + close)))) + rb
         == lb + dk + dv + (sk + open) + x + comma + y + (close + kk + open) + a + comma + b + (close + rb)
  {
  }

  lemma SplitTextIs(row: bool, share: nat)
    requires 0 < share < 1000
    ensures SplitText(row, share)
         == "{" + (J.Quote("dir") + ":") + J.Quote(if row then "row" else "col") + (Lead("size") + "[")
            + ShareText(share) + "," + ShareText(1000 - share) + ("]" + Lead("kids") + "[")
  {
    DirKey(row);
    SizeKey();
    KidsKey();
  }

  lemma ThreeMembers(k1: string, v1: J.Json, k2: string, v2: J.Json, k3: string, v3: J.Json)
    ensures J.Emit(J.Obj(J.Member(k1, v1, J.Member(k2, v2, J.Member(k3, v3, J.NoMembers)))))
         == "{" + ((J.Quote(k1) + ":") + J.Emit(v1) + (Lead(k2) + J.Emit(v2) + (Lead(k3) + J.Emit(v3)))) + "}"
  {
    var third := J.Member(k3, v3, J.NoMembers);
    var second := J.Member(k2, v2, third);
    MembersText(k1, v1, second);
    MemberTrail(k2, v2, third);
    MemberTrail(k3, v3, J.NoMembers);
    assert Lead(k3) + J.Emit(v3) + "" == Lead(k3) + J.Emit(v3);
  }

  lemma SplitEmit(row: bool, share: nat, a: J.Json, b: J.Json)
    requires 0 < share < 1000
    ensures var m := J.Member("dir", J.Str(if row then "row" else "col"),
                     J.Member("size", Pair(J.Num(ShareText(share)), J.Num(ShareText(1000 - share))),
                     J.Member("kids", Pair(a, b), J.NoMembers)));
            J.Emit(J.Obj(m)) == SplitText(row, share) + J.Emit(a) + "," + J.Emit(b) + ("]" + "}")
  {
    var x, y := ShareText(share), ShareText(1000 - share);
    var dir := if row then "row" else "col";
    ThreeMembers("dir", J.Str(dir), "size", Pair(J.Num(x), J.Num(y)), "kids", Pair(a, b));
    PairText(J.Num(x), J.Num(y));
    PairText(a, b);
    RegroupSplit("{", J.Quote("dir") + ":", J.Quote(dir), Lead("size"), "[", x, ",", y,
                 "]", Lead("kids"), J.Emit(a), J.Emit(b), "}");
    SplitTextIs(row, share);
  }

  lemma KidsObj(l: Layout, a: J.Json, b: J.Json)
    requires l.Kids? && SharesInRange(l) && a == LayoutJson(l.a) && b == LayoutJson(l.b)
    ensures LayoutJson(l) == J.Obj(J.Member("dir", J.Str(if l.row then "row" else "col"),
                                   J.Member("size", Pair(J.Num(ShareText(l.share)), J.Num(ShareText(1000 - l.share))),
                                   J.Member("kids", Pair(a, b), J.NoMembers))))
  {
  }

  lemma KidsEmit(l: Layout)
    requires l.Kids? && SharesInRange(l)
    ensures J.Emit(LayoutJson(l))
         == SplitText(l.row, l.share) + J.Emit(LayoutJson(l.a)) + "," + J.Emit(LayoutJson(l.b)) + ("]" + "}")
  {
    var a, b := LayoutJson(l.a), LayoutJson(l.b);
    SplitEmit(l.row, l.share, a, b);
    KidsObj(l, a, b);
  }

  lemma KidsText(acc: string, l: Layout)
    requires l.Kids? && SharesInRange(l)
    ensures acc + SplitText(l.row, l.share) + J.Emit(LayoutJson(l.a)) + "," + J.Emit(LayoutJson(l.b)) + "]}"
         == acc + J.Emit(LayoutJson(l))
  {
    KidsEmit(l);
    assert "]" + "}" == "]}";
    RegroupKids(acc, SplitText(l.row, l.share), J.Emit(LayoutJson(l.a)), ",", J.Emit(LayoutJson(l.b)), "]}");
  }

  function SizeText(size: Option<(nat, nat)>): string {
    match size
    case None => ""
    case Some(s) => ",\"size\":[" + Digits(s.0) + "," + Digits(s.1) + "]"
  }

  lemma RegroupSize(lead: string, lb: string, x: string, comma: string, y: string, rb: string)
    ensures lead + (lb + (x + (comma + y)) + rb) == (lead + lb) + x + comma + y + rb
  {
  }

  lemma SizeTrail(size: Option<(nat, nat)>)
    ensures Trail(SizeMember(size)) == SizeText(size)
  {
    if size.Some? {
      var x, y := J.Num(Digits(size.value.0)), J.Num(Digits(size.value.1));
      MemberTrail("size", Pair(x, y), J.NoMembers);
      PairText(x, y);
      SizeKey();
      RegroupSize(Lead("size"), "[", x.lexeme, ",", y.lexeme, "]");
      assert Lead("size") + J.Emit(Pair(x, y)) + "" == Lead("size") + J.Emit(Pair(x, y));
    }
  }

  lemma RegroupWindow(acc: string, open: string, tabs: string, tab: string, close: string, size: string, rb: string)
    ensures acc + (open + tabs) + tab + close + size + rb == acc + (open + (tabs + tab + close) + size + rb)
  {
  }

  lemma WindowKey()
    ensures "{\"layout\":{\"tabs\":[" == ("{" + (J.Quote("layout") + ":")) + "{\"tabs\":["
  {
    LayoutKey();
  }

  lemma WindowText(acc: string, w: Window)
    ensures acc + "{\"layout\":{\"tabs\":[" + J.Quote(w.tab) + "]}" + SizeText(w.size) + "}" == acc + J.Emit(WindowJson(w))
  {
    var inner := Tabs([w.tab], 0, None);
    var size := SizeMember(w.size);
    var lk, tk := "{" + (J.Quote("layout") + ":"), "{\"tabs\":[";
    assert LayoutJson(inner) == J.Obj(J.Member("tabs", J.Arr(Strings([w.tab])), J.NoMembers));
    InnerText(w.tab);
    SizeTrail(w.size);
    MembersText("layout", LayoutJson(inner), size);
    WindowKey();
    RegroupWindow(acc, lk, tk, J.Quote(w.tab), "]}", SizeText(w.size), "}");
    Regroup("{", J.Quote("layout") + ":", J.Emit(LayoutJson(inner)));
    RegroupObj("{", J.Quote("layout") + ":", J.Emit(LayoutJson(inner)), SizeText(w.size), "}");
  }

  lemma RegroupObj(lb: string, k: string, v: string, more: string, rb: string)
    ensures lb + (k + v + more) + rb == (lb + k) + v + more + rb
  {
  }

  lemma InnerText(tab: string)
    ensures J.Emit(LayoutJson(Tabs([tab], 0, None))) == "{\"tabs\":[" + J.Quote(tab) + "]}"
  {
    TabsText("", [tab], 0, None);
    OneString(tab);
    var e := J.Emit(LayoutJson(Tabs([tab], 0, None)));
    assert "" + e == e;
    InnerEnd("{\"tabs\":[", J.Quote(tab), "]", "}");
    assert "]" + "}" == "]}";
  }

  lemma InnerEnd(open: string, tab: string, rk: string, rb: string)
    ensures "" + open + tab + rk + "" + "" + rb == open + tab + (rk + rb)
  {
  }

  function ClosedText(closed: Option<seq<string>>): string {
    match closed
    case None => ""
    case Some(ids) => ",\"closed\":[" + J.EmitItems(Strings(ids)) + "]"
  }

  function FloatingText(floating: Option<seq<Window>>): string {
    match floating
    case None => ""
    case Some(ws) => ",\"floating\":[" + J.EmitItems(WindowItems(ws)) + "]"
  }

  lemma RegroupList(lead: string, lb: string, items: string, rb: string)
    ensures lead + (lb + items + rb) == (lead + lb) + items + rb
  {
  }

  lemma FloatingTrail(floating: Option<seq<Window>>)
    ensures Trail(FloatingMember(floating)) == FloatingText(floating)
  {
    if floating.Some? {
      var items := WindowItems(floating.value);
      MemberTrail("floating", J.Arr(items), J.NoMembers);
      ArrayText(items);
      FloatingKey();
      RegroupList(Lead("floating"), "[", J.EmitItems(items), "]");
      assert Lead("floating") + J.Emit(J.Arr(items)) + "" == Lead("floating") + J.Emit(J.Arr(items));
    }
  }

  lemma ClosedTrail(closed: Option<seq<string>>, m: J.Members)
    ensures Trail(ClosedMember(closed, m)) == ClosedText(closed) + Trail(m)
  {
    if closed.Some? {
      var items := Strings(closed.value);
      MemberTrail("closed", J.Arr(items), m);
      ArrayText(items);
      ClosedKey();
      RegroupList(Lead("closed"), "[", J.EmitItems(items), "]");
    }
  }

  lemma RegroupEnvelope(lb: string, k: string, v: string, c: string, f: string, rb: string)
    ensures lb + (k + v + (c + f)) + rb == (lb + k) + v + c + f + rb
  {
  }

  lemma EnvelopeText(layout: Layout, closed: Option<seq<string>>, floating: Option<seq<Window>>)
    requires SharesInRange(layout)
    ensures J.Emit(DocJson(Envelope(layout, closed, floating)))
         == "{\"layout\":" + J.Emit(LayoutJson(layout)) + ClosedText(closed) + FloatingText(floating) + "}"
  {
    var f := FloatingMember(floating);
    FloatingTrail(floating);
    ClosedTrail(closed, f);
    MembersText("layout", LayoutJson(layout), ClosedMember(closed, f));
    LayoutKey();
    RegroupEnvelope("{", J.Quote("layout") + ":", J.Emit(LayoutJson(layout)), ClosedText(closed), FloatingText(floating), "}");
  }

  // ---- The import itself ----

  method JsonChar(out: Buffer, c: char)
    modifies out
    ensures out.text == old(out.text) + J.EscapeChar(c)
  {
    if c == '"' || c == '\\' {
      out.Append(['\\', c]);
    } else if c as int < 0x20 {
      out.Append(['\\', 'u', '0', '0', J.HEX[c as int / 16], J.HEX[c as int % 16]]);
    } else {
      out.Append([c]);
    }
  }

  /** `json_string` (src/dock_layout_parse.c:257-272). */
  method JsonString(out: Buffer, s: string)
    modifies out
    ensures out.text == old(out.text) + J.Quote(s)
  {
    out.Append("\"");
    ghost var open := out.text;
    assert s[..0] == "" && open + J.Escape(s[..0]) == open;
    for i := 0 to |s|
      invariant out.text == open + J.Escape(s[..i])
    {
      JsonChar(out, s[i]);
      EscapeAppend(s[..i], s[i]);
      assert s[..i + 1] == s[..i] + [s[i]];
      Regroup(open, J.Escape(s[..i]), J.EscapeChar(s[i]));
    }
    assert s[..|s|] == s;
    out.Append("\"");
    Regroup(old(out.text), "\"", J.Escape(s));
    Regroup(old(out.text), "\"" + J.Escape(s), "\"");
  }

  /** The table of divider positions, and the number of the next split. */
  class DividerTable {
    var at: map<Path, int>
    var next: nat

    constructor ()
      ensures at == map[] && next == 0
    {
      at := map[];
      next := 0;
    }
  }

  /** One split entered at the number `next`. */
  function EnterAt(at: map<Path, int>, path: Path, positions: seq<int>, next: nat): map<Path, int> {
    if next < |positions| then at[path := positions[next]] else at
  }

  lemma EnterTwo(at: map<Path, int>, a: seq<Path>, b: seq<Path>, positions: seq<int>, next: nat, atA: map<Path, int>, nextA: nat)
    requires atA == Enter(at, a, positions, next) && nextA == next + |a|
    ensures Enter(at, a + b, positions, next) == Enter(atA, b, positions, nextA)
  {
    Proofs.EnterAppend(at, a, b, positions, next);
  }

  /** The splits of two subtrees and then one more, as one list. */
  lemma EnterSplit(a: seq<Path>, b: seq<Path>, path: Path, positions: seq<int>, at: map<Path, int>, next: nat,
                   atA: map<Path, int>, nextA: nat, atB: map<Path, int>, nextB: nat)
    requires atA == Enter(at, a, positions, next) && nextA == next + |a|
    requires atB == Enter(atA, b, positions, nextA) && nextB == nextA + |b|
    ensures Enter(at, a + b + [path], positions, next) == EnterAt(atB, path, positions, nextB)
  {
    EnterTwo(at, a, b, positions, next, atA, nextA);
    EnterTwo(at, a + b, [path], positions, next, atB, nextB);
    EnterOne(atB, path, positions, nextB);
  }

  lemma PositionOf(sizes: seq<string>, i: nat)
    ensures |Positions(sizes)| == |sizes| && (i < |sizes| ==> Positions(sizes)[i] == Position(sizes[i]))
  {
    PositionsAt(sizes);
  }

  /** Enter the split at `path` (src/dock_layout_parse.c:284-289). */
  method NumberOne(path: Path, table: DividerTable, sizes: seq<string>)
    modifies table
    ensures table.at == EnterAt(old(table.at), path, Positions(sizes), old(table.next))
    ensures table.next == old(table.next) + 1
  {
    PositionOf(sizes, table.next);
    if table.next < |sizes| {
      table.at := table.at[path := Position(sizes[table.next])];
    }
    table.next := table.next + 1;
  }

  /** `number_splits` (src/dock_layout_parse.c:276-290). */
  method NumberSplits(n: Node, path: Path, table: DividerTable, sizes: seq<string>)
    modifies table
    ensures table.at == Enter(old(table.at), PostOrder(n, path), Positions(sizes), old(table.next))
    ensures table.next == old(table.next) + |PostOrder(n, path)|
    decreases n
  {
    if n.Leaf? {
      return;
    }
    ghost var at, next := table.at, table.next;
    ghost var a, b := PostOrder(n.a, First(path)), PostOrder(n.b, Second(path));
    NumberSplits(n.a, First(path), table, sizes);
    ghost var atA, nextA := table.at, table.next;
    NumberSplits(n.b, Second(path), table, sizes);
    ghost var atB, nextB := table.at, table.next;
    NumberOne(path, table, sizes);
    SplitOrder(n, path, a, b);
    EnterSplit(a, b, path, Positions(sizes), at, next, atA, nextA, atB, nextB);
  }

  lemma SplitOrder(n: Node, path: Path, a: seq<Path>, b: seq<Path>)
    requires n.Split? && a == PostOrder(n.a, First(path)) && b == PostOrder(n.b, Second(path))
    ensures PostOrder(n, path) == a + b + [path] && |PostOrder(n, path)| == |a| + |b| + 1
  {
  }

  lemma EnterOne(at: map<Path, int>, path: Path, positions: seq<int>, next: nat)
    ensures Enter(at, [path], positions, next) == EnterAt(at, path, positions, next)
  {
    assert [path][1..] == [];
  }

  lemma {:induction false} KeptPrefix(ids: seq<string>, i: nat, floating: set<string>)
    requires i < |ids|
    ensures Kept(ids[..i + 1], floating) == Kept(ids[..i], floating) + if LeftOut(ids[i], floating) then [] else [ids[i]]
  {
    assert ids[..i + 1] == ids[..i] + [ids[i]];
    Proofs.KeptAppend(ids[..i], [ids[i]], floating);
    assert [ids[i]][1..] == [];
  }

  /** A list of strings with one more. */
  lemma ListGrows(acc: string, ss: seq<string>, s: string)
    ensures acc + J.EmitItems(Strings(ss)) + Separator(ss == []) + J.Quote(s) == acc + J.EmitItems(Strings(ss + [s]))
  {
    StringsAppend(ss, s);
    Regroup(acc, J.EmitItems(Strings(ss)), Separator(ss == []));
    Regroup(acc, J.EmitItems(Strings(ss)) + Separator(ss == []), J.Quote(s));
  }

  /** Write `s` after the `ss` already in the list. */
  method NextString(out: Buffer, first: bool, s: string, ghost acc: string, ghost ss: seq<string>)
    requires first == (ss == []) && out.text == acc + J.EmitItems(Strings(ss))
    modifies out
    ensures out.text == acc + J.EmitItems(Strings(ss + [s]))
  {
    ListGrows(acc, ss, s);
    if !first {
      out.Append(",");
    } else {
      assert out.text + "" == out.text;
    }
    JsonString(out, s);
  }

  /** The tabs of a leaf, written one by one (src/dock_layout_parse.c:308-325). */
  method LeafTabs(out: Buffer, ids: seq<string>, selected: int, floating: set<string>) returns (active: int)
    modifies out
    ensures out.text == old(out.text) + J.EmitItems(Strings(Kept(ids, floating)))
    ensures active == if 0 <= selected < |ids| && !LeftOut(ids[selected], floating) then Active(ids, selected, floating) else -1
  {
    active := -1;
    var kept := 0;
    assert out.text + "" == out.text;
    for i := 0 to |ids|
      invariant kept == |Kept(ids[..i], floating)|
      invariant out.text == old(out.text) + J.EmitItems(Strings(Kept(ids[..i], floating)))
      invariant active == if 0 <= selected < i && !LeftOut(ids[selected], floating) then Active(ids, selected, floating) else -1
    {
      KeptPrefix(ids, i, floating);
      if LeftOut(ids[i], floating) {
        assert Kept(ids[..i], floating) + [] == Kept(ids[..i], floating);
        continue;
      }
      if i == selected {
        active := kept;
      }
      NextString(out, kept == 0, ids[i], old(out.text), Kept(ids[..i], floating));
      kept := kept + 1;
    }
    assert ids[..|ids|] == ids;
  }

  /** A leaf (src/dock_layout_parse.c:307-336). */
  method LeafJson(out: Buffer, n: Node, floating: set<string>)
    requires n.Leaf?
    modifies out
    ensures out.text == old(out.text)
                        + J.Emit(LayoutJson(Tabs(Kept(n.ids, floating), Active(n.ids, n.selected, floating), n.role)))
  {
    ghost var acc, tabs := out.text, J.EmitItems(Strings(Kept(n.ids, floating)));
    TabsText(acc, Kept(n.ids, floating), Active(n.ids, n.selected, floating), n.role);
    out.Append("{\"tabs\":[");
    var active := LeafTabs(out, n.ids, n.selected, floating);
    out.Append("]");
    if active > 0 {
      out.Append(",\"active\":" + Digits(active));
    } else {
      assert out.text + "" == out.text;
    }
    if n.role.Some? {
      ghost var before := out.text;
      out.Append(",\"slots\":[");
      JsonString(out, n.role.value);
      out.Append("]");
      Regroup(before, ",\"slots\":[", J.Quote(n.role.value));
      Regroup(before, ",\"slots\":[" + J.Quote(n.role.value), "]");
    } else {
      assert out.text + "" == out.text;
    }
    out.Append("}");
  }

  /** `node_json` (src/dock_layout_parse.c:303-359). */
  method NodeJson(out: Buffer, n: Node, at: map<Path, int>, path: Path, floating: set<string>, w: real, h: real)
    modifies out
    ensures var l := LayoutOf(n, at, path, floating, Extent(w, h));
            SharesInRange(l) && out.text == old(out.text) + J.Emit(LayoutJson(l))
    decreases n
  {
    ghost var l := LayoutOf(n, at, path, floating, Extent(w, h));
    Proofs.LayoutSharesInRange(n, at, path, floating, Extent(w, h));
    if n.Leaf? {
      LeafJson(out, n, floating);
      return;
    }
    var row := n.orientation.Horizontal?;
    var share := Share(PositionAt(at, path), if row then w else h);
    KidsText(out.text, l);
    out.Append(SplitText(row, share));
    var first, second := FirstPart(row, share, Extent(w, h)), SecondPart(row, share, Extent(w, h));
    NodeJson(out, n.a, at, First(path), floating, first.w, first.h);
    out.Append(",");
    NodeJson(out, n.b, at, Second(path), floating, second.w, second.h);
    out.Append("]}");
  }

  /** The undocked panels, by id (src/dock_layout_parse.c:382-385). */
  method FloatingIds(undocked: seq<string>) returns (floating: set<string>)
    ensures floating == Names(Pairs(undocked))
  {
    floating := {};
    var u := 0;
    while u + 1 < |undocked|
      invariant u <= |undocked|
      invariant floating + Names(Pairs(undocked[u..])) == Names(Pairs(undocked))
    {
      PairsFrom(undocked, u);
      floating := floating + {undocked[u]};
      u := u + 2;
    }
    assert Pairs(undocked[u..]) == [];
  }

  function Stripped(fields: seq<string>): (r: seq<string>)
    ensures |r| == |fields| && forall i | 0 <= i < |r| :: r[i] == Strip(fields[i])
  {
    seq(|fields|, i requires 0 <= i < |fields| => Strip(fields[i]))
  }

  lemma {:induction false} ShutAppend(x: seq<string>, field: string, floating: set<string>)
    ensures Shut(x + [field], floating)
         == Shut(x, floating) + ShutOne(field, floating)
  {
    if x == [] {
      assert x + [field] == [field] && [field][1..] == [];
    } else {
      ShutAppend(x[1..], field, floating);
      ShutFirst(x, field, floating);
      JoinThree(ShutOne(x[0], floating), Shut(x[1..], floating), ShutOne(field, floating));
    }
  }

  function ShutOne(field: string, floating: set<string>): seq<string> {
    if Strip(field) == [] || LeftOut(Strip(field), floating) then [] else [Strip(field)]
  }

  lemma ShutFirst(x: seq<string>, field: string, floating: set<string>)
    requires x != []
    ensures Shut(x, floating) == ShutOne(x[0], floating) + Shut(x[1..], floating)
    ensures Shut(x + [field], floating) == ShutOne(x[0], floating) + Shut(x[1..] + [field], floating)
  {
    assert (x + [field])[1..] == x[1..] + [field];
  }

  lemma JoinThree(x: seq<string>, y: seq<string>, z: seq<string>)
    ensures x + (y + z) == x + y + z
  {
  }

  /** Strip the closed ids in place and see whether any is left (src/dock_layout_parse.c:391-397). */
  method StripClosed(fields: seq<string>, floating: set<string>) returns (shut: seq<string>, anyShut: bool)
    ensures shut == Stripped(fields) && anyShut == (Shut(fields, floating) != [])
  {
    shut, anyShut := fields, false;
    for c := 0 to |fields|
      invariant StrippedTo(fields, shut, c)
      invariant anyShut == (Shut(fields[..c], floating) != [])
    {
      ShutGrows(fields, c, floating);
      StripNext(fields, shut, c);
      shut := shut[c := Strip(shut[c])];
      if shut[c] != [] && !LeftOut(shut[c], floating) {
        anyShut := true;
      }
    }
    StrippedAll(fields, shut);
  }

  ghost predicate StrippedTo(fields: seq<string>, shut: seq<string>, c: nat) {
    |shut| == |fields| && forall i | 0 <= i < |fields| :: shut[i] == if i < c then Strip(fields[i]) else fields[i]
  }

  lemma StripNext(fields: seq<string>, shut: seq<string>, c: nat)
    requires c < |fields| && StrippedTo(fields, shut, c)
    ensures shut[c] == fields[c] && StrippedTo(fields, shut[c := Strip(fields[c])], c + 1)
  {
  }

  lemma StrippedAll(fields: seq<string>, shut: seq<string>)
    requires StrippedTo(fields, shut, |fields|)
    ensures shut == Stripped(fields) && fields[..|fields|] == fields
  {
  }

  lemma ShutGrows(fields: seq<string>, c: nat, floating: set<string>)
    requires c < |fields|
    ensures Shut(fields[..c + 1], floating) == Shut(fields[..c], floating) + ShutOne(fields[c], floating)
  {
    assert fields[..c + 1] == fields[..c] + [fields[c]];
    ShutAppend(fields[..c], fields[c], floating);
  }

  /** The closed ids, written one by one (src/dock_layout_parse.c:411-424). */
  method ClosedIds(out: Buffer, shut: seq<string>, ghost fields: seq<string>, floating: set<string>)
    requires shut == Stripped(fields)
    modifies out
    ensures out.text == old(out.text) + J.EmitItems(Strings(Shut(fields, floating)))
  {
    var first := true;
    assert out.text + "" == out.text;
    for c := 0 to |shut|
      invariant first == (Shut(fields[..c], floating) == [])
      invariant out.text == old(out.text) + J.EmitItems(Strings(Shut(fields[..c], floating)))
    {
      ShutGrows(fields, c, floating);
      if shut[c] == [] || LeftOut(shut[c], floating) {
        assert Shut(fields[..c], floating) + [] == Shut(fields[..c], floating);
        continue;
      }
      NextString(out, first, shut[c], old(out.text), Shut(fields[..c], floating));
      first := false;
    }
    assert fields[..|fields|] == fields;
  }

  lemma WindowListGrows(acc: string, ws: seq<Window>, w: Window)
    ensures acc + J.EmitItems(WindowItems(ws)) + Separator(ws == []) + J.Emit(WindowJson(w))
         == acc + J.EmitItems(WindowItems(ws + [w]))
  {
    WindowsAppend(ws, w);
    Regroup(acc, J.EmitItems(WindowItems(ws)), Separator(ws == []));
    Regroup(acc, J.EmitItems(WindowItems(ws)) + Separator(ws == []), J.Emit(WindowJson(w)));
  }

  /** One undocked panel as a window (src/dock_layout_parse.c:439-445). */
  method WindowOut(out: Buffer, id: string, size: string)
    modifies out
    ensures out.text == old(out.text) + J.Emit(WindowJson(Window(id, WindowSize(size))))
  {
    WindowText(out.text, Window(id, WindowSize(size)));
    out.Append("{\"layout\":{\"tabs\":[");
    JsonString(out, id);
    out.Append("]}");
    var wh := WindowSize(size);
    if wh.Some? {
      out.Append(",\"size\":[" + Digits(wh.value.0) + "," + Digits(wh.value.1) + "]");
    } else {
      assert out.text + "" == out.text;
    }
    out.Append("}");
  }

  /** Write a window after the `ws` already in the list. */
  method NextWindow(out: Buffer, first: bool, id: string, size: string, ghost acc: string, ghost ws: seq<Window>)
    requires first == (ws == []) && out.text == acc + J.EmitItems(WindowItems(ws))
    modifies out
    ensures out.text == acc + J.EmitItems(WindowItems(ws + [Window(id, WindowSize(size))]))
  {
    WindowListGrows(acc, ws, Window(id, WindowSize(size)));
    if !first {
      out.Append(",");
    } else {
      assert out.text + "" == out.text;
    }
    WindowOut(out, id, size);
  }

  /** The first pair of a vector and the rest. */
  lemma PairsFrom(undocked: seq<string>, u: nat)
    requires u + 1 < |undocked|
    ensures var rest := Pairs(undocked[u + 2..]);
            && Pairs(undocked[u..]) == [(undocked[u], undocked[u + 1])] + rest
            && Names(Pairs(undocked[u..])) == {undocked[u]} + Names(rest)
            && Windows(Pairs(undocked[u..])) == WindowFor(undocked[u], undocked[u + 1]) + Windows(rest)
  {
    assert undocked[u..][2..] == undocked[u + 2..];
    var p, rest := (undocked[u], undocked[u + 1]), Pairs(undocked[u + 2..]);
    assert ([p] + rest)[1..] == rest;
  }

  /** One turn of the window loop. */
  method MaybeWindow(out: Buffer, first: bool, id: string, size: string, ghost acc: string, ghost ws: seq<Window>) returns (still: bool)
    requires first == (ws == []) && out.text == acc + J.EmitItems(WindowItems(ws))
    modifies out
    ensures out.text == acc + J.EmitItems(WindowItems(ws + WindowFor(id, size)))
    ensures still == (ws + WindowFor(id, size) == [])
  {
    if id == "files" {
      assert ws + [] == ws;
      return first;
    }
    NextWindow(out, first, id, size, acc, ws);
    return false;
  }

  lemma RegroupWindows(x: seq<Window>, y: seq<Window>, z: seq<Window>)
    ensures x + (y + z) == (x + y) + z
  {
  }

  /** The undocked windows, written one by one (src/dock_layout_parse.c:426-449). */
  method FloatingWindows(out: Buffer, undocked: seq<string>)
    modifies out
    ensures out.text == old(out.text) + J.EmitItems(WindowItems(Windows(Pairs(undocked))))
  {
    var first := true;
    var u := 0;
    ghost var done: seq<Window> := [];
    assert out.text + "" == out.text;
    assert undocked[0..] == undocked && [] + Windows(Pairs(undocked)) == Windows(Pairs(undocked));
    while u + 1 < |undocked|
      invariant u <= |undocked|
      invariant done + Windows(Pairs(undocked[u..])) == Windows(Pairs(undocked))
      invariant first == (done == [])
      invariant out.text == old(out.text) + J.EmitItems(WindowItems(done))
    {
      var id, size := undocked[u], undocked[u + 1];
      PairsFrom(undocked, u);
      RegroupWindows(done, WindowFor(id, size), Windows(Pairs(undocked[u + 2..])));
      first := MaybeWindow(out, first, id, size, old(out.text), done);
      done := done + WindowFor(id, size);
      u := u + 2;
    }
    assert Pairs(undocked[u..]) == [];
    assert done + [] == done;
  }

  /** The closed panels and the windows beside the layout (src/dock_layout_parse.c:402-451). */
  method EnvelopeJson(layout: string, shut: seq<string>, ghost fields: seq<string>, anyShut: bool,
                      floating: set<string>, undocked: seq<string>) returns (out: Buffer)
    requires shut == Stripped(fields) && anyShut == (Shut(fields, floating) != [])
    ensures fresh(out)
    ensures out.text == "{\"layout\":" + layout
                        + ClosedText(if anyShut then Some(Shut(fields, floating)) else None)
                        + FloatingText(if floating != {} then Some(Windows(Pairs(undocked))) else None) + "}"
  {
    out := new Buffer();
    out.Append("{\"layout\":");
    assert "" + "{\"layout\":" == "{\"layout\":";
    out.Append(layout);
    ghost var before := out.text;
    if anyShut {
      out.Append(",\"closed\":[");
      ClosedIds(out, shut, fields, floating);
      out.Append("]");
      Regroup(before, ",\"closed\":[", J.EmitItems(Strings(Shut(fields, floating))));
      Regroup(before, ",\"closed\":[" + J.EmitItems(Strings(Shut(fields, floating))), "]");
    } else {
      assert out.text + "" == out.text;
    }
    before := out.text;
    if floating != {} {
      out.Append(",\"floating\":[");
      FloatingWindows(out, undocked);
      out.Append("]");
      Regroup(before, ",\"floating\":[", J.EmitItems(WindowItems(Windows(Pairs(undocked)))));
      Regroup(before, ",\"floating\":[" + J.EmitItems(WindowItems(Windows(Pairs(undocked)))), "]");
    } else {
      assert out.text + "" == out.text;
    }
    out.Append("}");
  }

  /** The tree as JSON, its dividers numbered first (src/dock_layout_parse.c:377-389). */
  method LayoutText(n: Node, sizes: Option<string>, floating: set<string>, e: Extent) returns (text: string)
    ensures var l := LayoutOf(n, Dividers(n, FieldsOf(sizes)), Root, floating, e);
            SharesInRange(l) && text == J.Emit(LayoutJson(l))
  {
    var table := new DividerTable();
    NumberSplits(n, Root, table, FieldsOf(sizes));
    var layout := new Buffer();
    NodeJson(layout, n, table.at, Root, floating, e.w, e.h);
    text := layout.text;
    assert "" + text == text;
  }

  /** The import of a tree that parses (src/dock_layout_parse.c:377-457). */
  method ImportParsed(n: Node, sizes: Option<string>, closed: Option<string>, undocked: seq<string>,
                      width: int, height: int) returns (json: string)
    ensures var d := Import(n, sizes, closed, undocked, width, height);
            SharesInRange(d.layout) && json == J.Emit(DocJson(d))
  {
    ghost var d := Import(n, sizes, closed, undocked, width, height);
    var floating := FloatingIds(undocked);
    var layout := LayoutText(n, sizes, floating, WindowExtent(width, height));
    var shut, anyShut := StripClosed(FieldsOf(closed), floating);
    if !anyShut && floating == {} {
      return layout;
    }
    var out := EnvelopeJson(layout, shut, FieldsOf(closed), anyShut, floating, undocked);
    EnvelopeText(d.layout, d.closed, d.floating);
    return out.text;
  }

  /**
   `dl_import_legacy` (src/dock_layout_parse.c:361-458): nothing for a tree that does not
   parse, and otherwise a text that a JSON reader turns back into the layout meant.
   */
  method ImportLegacy(tree: Option<string>, sizes: Option<string>, closed: Option<string>, undocked: seq<string>,
                      width: int, height: int) returns (json: Option<string>)
    ensures json.Some? <==> tree.Some? && ParseTree(tree.value).Some?
    ensures json.Some? ==>
              var d := Import(ParseTree(tree.value).value, sizes, closed, undocked, width, height);
              && SharesInRange(d.layout)
              && json.value == J.Emit(DocJson(d))
              && J.ReadText(json.value) == Some(DocJson(d)) && ReadDoc(DocJson(d)) == Some(d)
  {
    if tree.None? {
      return None;
    }
    var parsed := DockParser.ParseTreeText(tree);
    if parsed.None? {
      return None;
    }
    var text := ImportParsed(parsed.value, sizes, closed, undocked, width, height);
    Proofs.ImportReadsBack(parsed.value, sizes, closed, undocked, width, height);
    return Some(text);
  }
}
