/**
 What the main window keeps between runs (src/dock_layout.c): the memory, the key file it
 is saved as and loaded from, and exactly when a save and a load give the memory back.

 A key file is what its reader yields: strings by key, in the groups used here. Which
 names may be keys is GLib's rule and stands as a parameter; a setter passes over the rest.
 */
module DockStore {
  import opened Wrappers
  import opened Text
  import opened Decimal
  import opened DockImport

  datatype KeyFile = KeyFile(dock: map<string, string>, chrome: map<string, string>, windows: map<string, string>,
                             undocked: seq<(string, string)>)

  /** `dock`, its two tables as a set and a map. */
  datatype Memory = Memory(layout: Option<string>, bare: set<string>, toolbar: bool, titles: bool,
                           windows: map<string, string>)

  const BLANK := Memory(None, {}, false, false, map[])
  const SEPARATOR := ";"

  // ---- Strings in the order of `strcmp` ----

  predicate Before(a: string, b: string) {
    b != [] && (a == [] || a[0] < b[0] || (a[0] == b[0] && Before(a[1..], b[1..])))
  }

  lemma {:induction false} BeforeTotal(a: string, b: string)
    ensures a == b || Before(a, b) || Before(b, a)
    ensures !(Before(a, b) && Before(b, a)) && !Before(a, a)
  {
    if a != [] && b != [] {
      BeforeTotal(a[1..], b[1..]);
      if a[0] == b[0] && a[1..] == b[1..] {
        assert a == [a[0]] + a[1..] && b == [b[0]] + b[1..];
      }
    }
    if a != [] {
      BeforeTotal(a[1..], a[1..]);
    }
  }

  lemma {:induction false} BeforeTrans(a: string, b: string, c: string)
    requires Before(a, b) && Before(b, c)
    ensures Before(a, c)
  {
    if a != [] && a[0] == b[0] && b[0] == c[0] {
      BeforeTrans(a[1..], b[1..], c[1..]);
    }
  }

  predicate Rising(ids: seq<string>) {
    forall i, j | 0 <= i < j < |ids| :: Before(ids[i], ids[j])
  }

  function Elements(ids: seq<string>): set<string> {
    set id | id in ids
  }

  /** The ids as a sorted list; by `RisingIsOne` there is just one. */
  ghost function Ordered(ids: set<string>): seq<string> {
    if ids == {} then []
    else
      LeastExists(ids);
      var least :| least in ids && forall id | id in ids && id != least :: Before(least, id);
      [least] + Ordered(ids - {least})
  }

  lemma {:induction false} LeastExists(ids: set<string>)
    requires ids != {}
    ensures exists least :: least in ids && forall id | id in ids && id != least :: Before(least, id)
    decreases |ids|
  {
    var one :| one in ids;
    if ids != {one} {
      assert ids == (ids - {one}) + {one};
      LeastExists(ids - {one});
      var least :| least in ids - {one} && forall id | id in ids - {one} && id != least :: Before(least, id);
      BeforeTotal(one, least);
      if Before(one, least) {
        forall id | id in ids && id != one ensures Before(one, id) {
          if id != least {
            BeforeTrans(one, least, id);
          }
        }
      } else {
        assert forall id | id in ids && id != least :: Before(least, id);
      }
    } else {
      assert forall id | id in ids && id != one :: Before(one, id);
    }
  }

  lemma {:induction false} OrderedIs(ids: set<string>)
    ensures Rising(Ordered(ids)) && Elements(Ordered(ids)) == ids
  {
    if ids != {} {
      LeastExists(ids);
      var order := Ordered(ids);
      var least, rest := order[0], order[1..];
      assert rest == Ordered(ids - {least});
      OrderedIs(ids - {least});
      forall j | 0 <= j < |rest| ensures Before(least, rest[j]) {
        assert rest[j] in Elements(rest);
      }
      forall id ensures id in Elements(order) <==> id in ids {
        assert id in Elements(order) <==> id == least || id in Elements(rest);
      }
    }
  }

  /** A set has one sorted list, so the file does not churn with the hash order. */
  lemma {:induction false} RisingIsOne(x: seq<string>, y: seq<string>)
    requires Rising(x) && Rising(y) && Elements(x) == Elements(y)
    ensures x == y
  {
    ElementsNone(x);
    ElementsNone(y);
    if x != [] {
      assert x[0] in Elements(x);
      assert y != [];
      assert y[0] in Elements(y);
      HeadIsLeast(x, y[0]);
      HeadIsLeast(y, x[0]);
      BeforeTotal(x[0], y[0]);
      TailElements(x);
      TailElements(y);
      RisingIsOne(x[1..], y[1..]);
      assert x == [x[0]] + x[1..] && y == [y[0]] + y[1..];
    }
  }

  lemma ElementsNone(ids: seq<string>)
    ensures Elements(ids) == {} <==> ids == []
  {
    if ids != [] {
      assert ids[0] in Elements(ids);
    }
  }

  lemma HeadIsLeast(x: seq<string>, id: string)
    requires Rising(x) && x != [] && id in Elements(x)
    ensures id == x[0] || Before(x[0], id)
  {
    var i :| 0 <= i < |x| && x[i] == id;
  }

  lemma TailElements(x: seq<string>)
    requires Rising(x) && x != []
    ensures Elements(x[1..]) == Elements(x) - {x[0]}
  {
    forall i | 1 <= i < |x| ensures x[i] != x[0] {
      BeforeTotal(x[0], x[i]);
    }
    forall id ensures id in Elements(x[1..]) <==> id in Elements(x) && id != x[0] {
      if id in x && id != x[0] {
        var i :| 0 <= i < |x| && x[i] == id;
        assert x[1..][i - 1] == id;
      }
    }
  }

  // ---- The hidden action rows as one string ----

  /** A semicolon before each id that something precedes (src/dock_layout.c:90-95). */
  function JoinOnto(text: string, ids: seq<string>): string
    decreases |ids|
  {
    if ids == [] then text
    else JoinOnto(Joined(text, ids[0]), ids[1..])
  }

  /** What the list separates ids with is in none of them. */
  predicate Whole(id: string) {
    ';' !in id
  }

  predicate FilledId(id: string) {
    id != ""
  }

  /** The fields that are not empty (src/dock_layout.c:181-189). */
  function BareOf(text: string): set<string> {
    set id | id in Fields(text) && FilledId(id)
  }

  predicate CleanId(id: string) {
    id != "" && Whole(id)
  }

  predicate CleanIds(ids: set<string>) {
    forall id | id in ids :: CleanId(id)
  }

  lemma {:induction false} FieldsAreClean(s: string)
    ensures forall id | id in FieldsFrom(s) :: Whole(id)
    decreases |s|
  {
    var k := IndexOf(s, ';');
    if k < |s| {
      FieldsAreClean(s[k + 1..]);
    }
  }

  lemma {:induction false} FieldsJoined(text: string, id: string)
    requires Whole(id)
    ensures FieldsFrom(text + SEPARATOR + id) == FieldsFrom(text) + [id]
    decreases |text|
  {
    var s, k := text + SEPARATOR + id, IndexOf(text, ';');
    if k == |text| {
      assert s[..k] == text;
      IndexOfIs(s, ';', k);
      assert s[k + 1..] == id;
      assert IndexOf(id, ';') == |id|;
    } else {
      assert s[..k] == text[..k];
      IndexOfIs(s, ';', k);
      assert s[k + 1..] == text[k + 1..] + SEPARATOR + id;
      FieldsJoined(text[k + 1..], id);
    }
  }

  lemma FieldsOfOne(id: string)
    requires CleanId(id)
    ensures Fields(id) == [id]
  {
    assert IndexOf(id, ';') == |id|;
  }

  function Joined(text: string, id: string): string {
    (if text == "" then "" else text + SEPARATOR) + id
  }

  lemma FieldsOfJoined(text: string, id: string)
    requires CleanId(id)
    ensures Fields(Joined(text, id)) == Fields(text) + [id]
  {
    if text == "" {
      assert Joined(text, id) == id;
      FieldsOfOne(id);
    } else {
      FieldsJoined(text, id);
    }
  }

  lemma {:induction false} FieldsOfJoin(text: string, ids: seq<string>)
    requires forall id | id in ids :: CleanId(id)
    ensures Fields(JoinOnto(text, ids)) == Fields(text) + ids
    decreases |ids|
  {
    if ids == [] {
      assert Fields(text) + [] == Fields(text);
    } else {
      var head, rest := ids[0], ids[1..];
      assert CleanId(head);
      FieldsOfJoin(Joined(text, head), rest);
      FieldsOfJoined(text, head);
      Cons(Fields(text), ids);
    }
  }

  lemma Cons(x: seq<string>, ids: seq<string>)
    requires ids != []
    ensures x + [ids[0]] + ids[1..] == x + ids
  {
  }

  /** The joined ids read back as they were if and only if none is empty or holds a semicolon. */
  lemma BareReadsBack(ids: set<string>)
    ensures BareOf(JoinOnto("", Ordered(ids))) == ids <==> CleanIds(ids)
  {
    var text := JoinOnto("", Ordered(ids));
    OrderedIs(ids);
    if CleanIds(ids) {
      forall id | id in Ordered(ids) ensures CleanId(id) {
        assert id in Elements(Ordered(ids));
      }
      FieldsOfJoin("", Ordered(ids));
      assert Fields("") == [] && [] + Ordered(ids) == Ordered(ids);
      assert BareOf(text) == Elements(Ordered(ids));
    }
    FieldsAreClean(text);
    assert CleanIds(BareOf(text));
  }

  // ---- Saved and loaded ----

  /** A key's value as a boolean: absent, or neither true nor false, is false. */
  predicate AsBoolean(value: string) {
    StripEnd(value) == "true" || StripEnd(value) == "1"
  }

  predicate IsSet(group: map<string, string>, key: string) {
    key in group && AsBoolean(group[key])
  }

  function OnlyIf(on: bool, key: string, value: string): map<string, string> {
    if on then map[key := value] else map[]
  }

  function NamedOnly(windows: map<string, string>, keyName: string -> bool): map<string, string> {
    map k | k in windows && keyName(k) :: windows[k]
  }

  /** `serialize_chrome` and the layout (src/dock_layout.c:66-117). */
  ghost function Saved(m: Memory, keyName: string -> bool): KeyFile {
    KeyFile(if m.layout.Some? then map["layout" := m.layout.value] else map[],
            OnlyIf(m.toolbar, "toolbar", "true") + OnlyIf(m.titles, "pane-titles", "true")
            + OnlyIf(m.bare != {}, "hidden-actions", JoinOnto("", Ordered(m.bare))),
            NamedOnly(m.windows, keyName), [])
  }

  /**
   `dock_layout_load` of a file that reads (src/dock_layout.c:160-190, 254-265): `legacy`
   is what the import makes of it, asked for only when there is a tree and no layout.
   */
  function Loaded(kf: KeyFile, legacy: Option<string>): Memory {
    Memory(if "layout" in kf.dock then Some(kf.dock["layout"]) else if "tree" in kf.dock then legacy else None,
           if "hidden-actions" in kf.chrome then BareOf(kf.chrome["hidden-actions"]) else {},
           IsSet(kf.chrome, "toolbar"), IsSet(kf.chrome, "pane-titles"), kf.windows)
  }

  /** What a file can hold: ids its list can separate and window names it can use as keys. */
  predicate Clean(m: Memory, keyName: string -> bool) {
    CleanIds(m.bare) && forall k | k in m.windows :: keyName(k)
  }

  lemma TrueIsTrue()
    ensures AsBoolean("true")
  {
  }

  lemma ChromeHolds(m: Memory, chrome: map<string, string>, ids: string)
    requires chrome == OnlyIf(m.toolbar, "toolbar", "true") + OnlyIf(m.titles, "pane-titles", "true")
                       + OnlyIf(m.bare != {}, "hidden-actions", ids)
    ensures IsSet(chrome, "toolbar") == m.toolbar && IsSet(chrome, "pane-titles") == m.titles
    ensures ("hidden-actions" in chrome) == (m.bare != {})
    ensures m.bare != {} ==> chrome["hidden-actions"] == ids
  {
    TrueIsTrue();
    assert |"toolbar"| == 7 && |"pane-titles"| == 11 && |"hidden-actions"| == 14;
  }

  lemma NamedOnlyIsAll(windows: map<string, string>, keyName: string -> bool)
    ensures NamedOnly(windows, keyName) == windows <==> forall k | k in windows :: keyName(k)
  {
    if NamedOnly(windows, keyName) == windows {
      forall k | k in windows ensures keyName(k) {
        assert k in NamedOnly(windows, keyName);
      }
    }
  }

  /** What is saved is what is loaded, whatever the import, if and only if a file can hold it. */
  lemma LoadUndoesSave(m: Memory, keyName: string -> bool, legacy: Option<string>)
    ensures Loaded(Saved(m, keyName), legacy) == m <==> Clean(m, keyName)
  {
    var kf, ids := Saved(m, keyName), JoinOnto("", Ordered(m.bare));
    ChromeHolds(m, kf.chrome, ids);
    BareReadsBack(m.bare);
    NamedOnlyIsAll(m.windows, keyName);
    assert |"tree"| == 4 && |"layout"| == 6;
  }

  /** What a load leaves can be saved: ids from a list, and window names that were keys. */
  lemma LoadedIsClean(kf: KeyFile, keyName: string -> bool, legacy: Option<string>)
    requires forall k | k in kf.windows :: keyName(k)
    ensures Clean(Loaded(kf, legacy), keyName)
  {
    if "hidden-actions" in kf.chrome {
      FieldsAreClean(kf.chrome["hidden-actions"]);
    }
  }

  // ---- Window sizes ----

  /** `%d`. */
  function IntText(n: int): string {
    if n < 0 then "-" + Digits(-n) else Digits(n)
  }

  function SizeValue(w: int, h: int): string {
    IntText(w) + "," + IntText(h)
  }

  lemma ScanNegative(n: int, s: string, u: string, rest: string)
    requires n >= 0 && s != [] && s[0] == '-' && s[1..] == u && u == Digits(n) + rest
    requires rest == [] || !IsDigit(rest[0])
    ensures ScanInt(s, IsSpaceC) == Some(Scanned(-n, rest))
  {
    var d := Digits(n);
    ValueOfDigits(n);
    assert Span(s, IsSpaceC) == 0 && s[0..] == s;
    forall i | 0 <= i < |d| ensures IsDigit(u[i]) {
      assert u[i] == d[i] && d[i] in d;
    }
    SpanOf(u, IsDigit, |d|);
    assert u[..|d|] == d && u[|d|..] == rest;
  }

  lemma NegativeText(n: int, rest: string)
    requires n < 0
    ensures var s := IntText(n) + rest; s[0] == '-' && s[1..] == Digits(-n) + rest
  {
  }

  lemma ScanIntText(n: int, rest: string)
    requires rest == [] || !IsDigit(rest[0])
    ensures ScanInt(IntText(n) + rest, IsSpaceC) == Some(Scanned(n, rest))
  {
    if n >= 0 {
      ScanPositive(n, rest);
    } else {
      NegativeText(n, rest);
      ScanNegative(-n, IntText(n) + rest, Digits(-n) + rest, rest);
    }
  }

  lemma ScanPositive(n: nat, rest: string)
    requires rest == [] || !IsDigit(rest[0])
    ensures ScanInt(IntText(n) + rest, IsSpaceC) == Some(Scanned(n, rest))
  {
    ScanDigits(n, rest, IsSpaceC);
  }

  /** A window's size as kept is the size given, when both sides are positive, and none otherwise. */
  lemma SizeReadsBack(w: int, h: int)
    requires -0x8000_0000 <= w < 0x8000_0000 && -0x8000_0000 <= h < 0x8000_0000
    ensures WindowSize(SizeValue(w, h)) == if w > 0 && h > 0 then Some((w, h)) else None
  {
    var t := IntText(h);
    SizeParts(w, t);
    ScanIntText(w, "," + t);
    ScanIntText(h, "");
    assert t + "" == t;
    TwoNumbers(SizeValue(w, h), w, t, h);
    Kept32(w);
    Kept32(h);
  }

  lemma SizeParts(w: int, t: string)
    ensures IntText(w) + "," + t == IntText(w) + ("," + t)
  {
  }

  lemma TwoNumbers(s: string, w: int, t: string, h: int)
    requires ScanInt(s, IsSpaceC) == Some(Scanned(w, "," + t)) && ScanInt(t, IsSpaceC) == Some(Scanned(h, ""))
    ensures WindowSize(s) == if ToInt(w) > 0 && ToInt(h) > 0 then Some((ToInt(w), ToInt(h))) else None
  {
    assert ("," + t)[1..] == t;
  }

  lemma Kept32(n: int)
    requires -0x8000_0000 <= n < 0x8000_0000
    ensures ToInt(n) == n
  {
  }

  // ---- The file, key by key ----

  lemma ChromeKeys(toolbar: bool, titles: bool, hidden: bool, ids: string, chrome: map<string, string>)
    requires chrome == OnlyIf(toolbar, "toolbar", "true") + OnlyIf(titles, "pane-titles", "true")
                       + OnlyIf(hidden, "hidden-actions", ids)
    ensures ("toolbar" in chrome <==> toolbar) && (toolbar ==> chrome["toolbar"] == "true")
    ensures ("pane-titles" in chrome <==> titles) && (titles ==> chrome["pane-titles"] == "true")
    ensures "hidden-actions" in chrome <==> hidden
    ensures forall k | k in chrome :: k == "toolbar" || k == "pane-titles" || k == "hidden-actions"
  {
    assert |"toolbar"| == 7 && |"pane-titles"| == 11 && |"hidden-actions"| == 14;
  }

  /** The keys a save writes: each flag under its own name and only when it is on, and nothing of the legacy ones. */
  lemma SavedKeys(m: Memory, keyName: string -> bool, kf: KeyFile)
    requires kf == Saved(m, keyName)
    ensures kf.dock == if m.layout.Some? then map["layout" := m.layout.value] else map[]
    ensures ("toolbar" in kf.chrome <==> m.toolbar) && (m.toolbar ==> kf.chrome["toolbar"] == "true")
    ensures ("pane-titles" in kf.chrome <==> m.titles) && (m.titles ==> kf.chrome["pane-titles"] == "true")
    ensures "hidden-actions" in kf.chrome <==> m.bare != {}
    ensures forall k | k in kf.chrome :: k == "toolbar" || k == "pane-titles" || k == "hidden-actions"
    ensures kf.undocked == [] && forall k | k in kf.windows :: keyName(k) && k in m.windows && kf.windows[k] == m.windows[k]
  {
    ChromeKeys(m.toolbar, m.titles, m.bare != {}, JoinOnto("", Ordered(m.bare)), kf.chrome);
  }

  /** The ids hidden, sorted, with a semicolon between any two. */
  lemma HiddenText(a: string, b: string)
    requires a != "" && b != ""
    ensures JoinOnto("", []) == "" && JoinOnto("", [a]) == a && JoinOnto("", [a, b]) == a + ";" + b
  {
    assert [a, b][1..] == [b] && [b][1..] == [] && [a][1..] == [];
    assert JoinOnto(a, [b]) == JoinOnto(a + ";" + b, []);
    assert "" + a == a;
  }

  /** A flag is on under its own key alone, as `true` or `1` with nothing but white space after it. */
  lemma LoadedFlags(kf: KeyFile, legacy: Option<string>, value: string, after: string)
    requires AllSpace(after)
    ensures AsBoolean("true" + after) && AsBoolean("1" + after) && AsBoolean(value) == AsBoolean(StripEnd(value))
    ensures !AsBoolean("false") && !AsBoolean("0") && !AsBoolean("TRUE") && !AsBoolean("")
    ensures Loaded(kf, legacy).toolbar <==> "toolbar" in kf.chrome && AsBoolean(kf.chrome["toolbar"])
    ensures Loaded(kf, legacy).titles <==> "pane-titles" in kf.chrome && AsBoolean(kf.chrome["pane-titles"])
    ensures Loaded(kf, legacy).windows == kf.windows
    ensures "layout" in kf.dock ==> Loaded(kf, legacy).layout == Some(kf.dock["layout"])
    ensures "layout" !in kf.dock ==> Loaded(kf, legacy).layout == if "tree" in kf.dock then legacy else None
  {
    EndStripped("true", after);
    EndStripped("1", after);
    StripTwice(value);
    assert |"false"| == 5 && |"0"| == 1 && |"TRUE"| == 4;
    assert "TRUE"[0] == 'T' && "true"[0] == 't' && "0"[0] == '0' && "1"[0] == '1';
  }

  lemma {:induction false} StripTwice(s: string)
    ensures StripEnd(StripEnd(s)) == StripEnd(s)
    decreases |s|
  {
    if s != [] && IsSpace(s[|s| - 1]) {
      StripTwice(s[..|s| - 1]);
    }
  }

  /** Strings are sorted by their first character that differs, and a shorter one before its continuations. */
  lemma {:induction false} SortedBy(p: string, c: char, x: string, d: char, y: string)
    ensures c < d ==> Before(p + ([c] + x), p + ([d] + y))
    ensures Before(p, p + ([d] + y))
  {
    if p != [] {
      SortedBy(p[1..], c, x, d, y);
      assert (p + ([c] + x))[1..] == p[1..] + ([c] + x) && (p + ([d] + y))[1..] == p[1..] + ([d] + y);
    } else {
      assert p + ([c] + x) == [c] + x && p + ([d] + y) == [d] + y;
    }
  }

  /** A size is kept as its two numbers with a comma between them. */
  lemma SizeKept(w: nat, h: nat)
    ensures SizeValue(w, h) == Digits(w) + "," + Digits(h)
  {
  }
}
