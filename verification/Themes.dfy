/**
 Themes (src/gtkhx_theme.c:1021-1033, 1080-1185, 1220-1498): what the picker lists, which
 file the loader opens for a name, and exactly when the two are the same.
 */
module Themes {
  import opened Wrappers
  import opened Text

  /** A theme file: whether it parses as a key file, and its title when it has one. */
  datatype File = File(parses: bool, title: Option<string>)

  /** A child of the user's folder: a folder with its manifest, a regular file, or neither. */
  datatype UserNode = Folder(manifest: Option<File>) | Regular(file: File) | Special

  /**
   The user's folder and the built-in themes: the children in the order they are read, and
   what each is. A built-in folder ends in a slash and has its manifest's file, if any.
   */
  datatype Sources = Sources(userOrder: seq<string>, user: map<string, UserNode>,
                             builtinOrder: seq<string>, builtin: map<string, Option<File>>)

  /** One of the four places a name's theme may be. */
  datatype Place =
    | UserFolder(folder: string)
    | UserFlat(filename: string)
    | BuiltinFolder(folder: string)
    | BuiltinFlat(filename: string)

  datatype Candidate = Candidate(name: string, place: Place, file: File)

  datatype Entry = Entry(name: string, display: string)

  // ---- Names ----

  /** Longer than ".ini", which it ends in, in any case. */
  predicate EndsIni(s: string) {
    |s| > 4 && s[|s| - 4] == '.' && Lower(s[|s| - 3]) == 'i' && Lower(s[|s| - 2]) == 'n' && Lower(s[|s| - 1]) == 'i'
  }

  function Stripped(s: string): string
    requires EndsIni(s)
  {
    s[..|s| - 4]
  }

  predicate IsFolder(child: string) {
    child != "" && child[|child| - 1] == '/'
  }

  predicate Hidden(name: string) {
    name != "" && name[0] == '.'
  }

  /** `theme_name_is_safe`. */
  predicate Safe(name: string) {
    '/' !in name && '\\' !in name
  }

  // ---- What the picker comes across ----

  /** A child of the user's folder in pass 0, folders, or pass 1, files. */
  function UserCandidate(t: Sources, child: string, pass: nat): Option<Candidate> {
    if Hidden(child) || child !in t.user then None
    else
      var node := t.user[child];
      if pass == 0 && node.Folder? && node.manifest.Some? then
        Some(Candidate(child, UserFolder(child), node.manifest.value))
      else if pass == 1 && node.Regular? && EndsIni(child) then
        Some(Candidate(Stripped(child), UserFlat(child), node.file))
      else None
  }

  function BuiltinCandidate(t: Sources, child: string, pass: nat): Option<Candidate> {
    if child !in t.builtin || t.builtin[child].None? then None
    else if pass == 0 && IsFolder(child) then
      var name := child[..|child| - 1];
      Some(Candidate(name, BuiltinFolder(name), t.builtin[child].value))
    else if pass == 1 && !IsFolder(child) && EndsIni(child) then
      Some(Candidate(Stripped(child), BuiltinFlat(child), t.builtin[child].value))
    else None
  }

  function AsList(c: Option<Candidate>): seq<Candidate> {
    if c.Some? then [c.value] else []
  }

  function UserPass(t: Sources, children: seq<string>, pass: nat): seq<Candidate>
    decreases |children|
  {
    if children == [] then [] else AsList(UserCandidate(t, children[0], pass)) + UserPass(t, children[1..], pass)
  }

  function BuiltinPass(t: Sources, children: seq<string>, pass: nat): seq<Candidate>
    decreases |children|
  {
    if children == [] then [] else AsList(BuiltinCandidate(t, children[0], pass)) + BuiltinPass(t, children[1..], pass)
  }

  /** Everything in the order it is come across. */
  function Candidates(t: Sources): seq<Candidate> {
    UserPass(t, t.userOrder, 0) + UserPass(t, t.userOrder, 1)
    + BuiltinPass(t, t.builtinOrder, 0) + BuiltinPass(t, t.builtinOrder, 1)
  }

  function EntryOf(c: Candidate): Entry {
    Entry(c.name, if c.file.parses && c.file.title.Some? && c.file.title.value != "" then c.file.title.value else c.name)
  }

  predicate Has(out: seq<Entry>, name: string) {
    exists i :: 0 <= i < |out| && out[i].name == name
  }

  /** Candidates added one by one, but for an unsafe name or one already there. */
  function Collect(out: seq<Entry>, cs: seq<Candidate>): seq<Entry>
    decreases |cs|
  {
    if cs == [] then out
    else Collect(if Safe(cs[0].name) && !Has(out, cs[0].name) then out + [EntryOf(cs[0])] else out, cs[1..])
  }

  /** The list before it is sorted: "default" is always in it. */
  function Listed(t: Sources): seq<Entry> {
    var out := Collect([], Candidates(t));
    if Has(out, "default") then out else out + [Entry("default", "Default")]
  }

  // ---- What the loader opens ----

  function FileAt(t: Sources, p: Place): Option<File> {
    match p
    case UserFolder(folder) => if folder in t.user && t.user[folder].Folder? then t.user[folder].manifest else None
    case UserFlat(filename) => if filename in t.user && t.user[filename].Regular? then Some(t.user[filename].file) else None
    case BuiltinFolder(folder) => if folder + "/" in t.builtin then t.builtin[folder + "/"] else None
    case BuiltinFlat(filename) => if filename in t.builtin && !IsFolder(filename) then t.builtin[filename] else None
  }

  predicate Opens(t: Sources, p: Place) {
    FileAt(t, p).Some? && FileAt(t, p).value.parses
  }

  /** The place `gtkhx_theme_load_active` loads a name from, before its last resort. */
  function Opened(t: Sources, name: string): Option<Place> {
    if Opens(t, UserFolder(name)) then Some(UserFolder(name))
    else if Opens(t, UserFlat(name + ".ini")) then Some(UserFlat(name + ".ini"))
    else if Opens(t, BuiltinFolder(name)) then Some(BuiltinFolder(name))
    else if Opens(t, BuiltinFlat(name + ".ini")) then Some(BuiltinFlat(name + ".ini"))
    else None
  }

  // ---- Collecting ----

  /** The first candidate with a name. */
  function First(cs: seq<Candidate>, name: string): (r: Option<Candidate>)
    ensures r.Some? ==> r.value.name == name
  {
    if cs == [] then None else if cs[0].name == name then Some(cs[0]) else First(cs[1..], name)
  }

  predicate DistinctNames(out: seq<Entry>) {
    forall i, j | 0 <= i < j < |out| :: out[i].name != out[j].name
  }

  lemma HasAppended(out: seq<Entry>, e: Entry, name: string)
    ensures Has(out + [e], name) <==> Has(out, name) || e.name == name
  {
    var all := out + [e];
    if Has(out, name) {
      var i :| 0 <= i < |out| && out[i].name == name;
      assert all[i].name == name;
    }
    assert all[|out|] == e;
  }

  /** A name is added when it is safe and some candidate has it. */
  lemma {:induction false} CollectHas(out: seq<Entry>, cs: seq<Candidate>, name: string)
    ensures Has(Collect(out, cs), name) <==> Has(out, name) || (Safe(name) && First(cs, name).Some?)
    decreases |cs|
  {
    if cs != [] {
      var c := cs[0];
      var next := if Safe(c.name) && !Has(out, c.name) then out + [EntryOf(c)] else out;
      CollectHas(next, cs[1..], name);
      HasAppended(out, EntryOf(c), name);
    }
  }

  lemma {:induction false} CollectDistinct(out: seq<Entry>, cs: seq<Candidate>)
    requires DistinctNames(out)
    ensures DistinctNames(Collect(out, cs))
    decreases |cs|
  {
    if cs != [] {
      CollectDistinct(if Safe(cs[0].name) && !Has(out, cs[0].name) then out + [EntryOf(cs[0])] else out, cs[1..]);
    }
  }

  /** An entry added is of the first candidate with its name. */
  lemma {:induction false} CollectFirst(out: seq<Entry>, cs: seq<Candidate>, e: Entry)
    requires e in Collect(out, cs)
    ensures e in out || (Safe(e.name) && !Has(out, e.name) && First(cs, e.name).Some? && e == EntryOf(First(cs, e.name).value))
    decreases |cs|
  {
    if cs != [] {
      var c := cs[0];
      var next := if Safe(c.name) && !Has(out, c.name) then out + [EntryOf(c)] else out;
      CollectFirst(next, cs[1..], e);
      HasAppended(out, EntryOf(c), e.name);
    }
  }

  // ---- Listed and opened ----

  /** The orders name what is there; the built-in names are neither empty nor hidden. */
  predicate Proper(t: Sources) {
    && (forall child | child in t.user :: child in t.userOrder && child != "")
    && (forall child | child in t.builtin :: child in t.builtinOrder && child != "" && child != "/" && !Hidden(child))
  }

  /** Spelled as the loader spells it. */
  predicate Exact(c: Candidate) {
    match c.place
    case UserFlat(filename) => filename == c.name + ".ini"
    case BuiltinFlat(filename) => filename == c.name + ".ini"
    case _ => true
  }

  lemma {:induction false} FirstAppend(x: seq<Candidate>, y: seq<Candidate>, name: string)
    ensures First(x + y, name) == if First(x, name).Some? then First(x, name) else First(y, name)
  {
    if x == [] {
      assert x + y == y;
    } else {
      assert (x + y)[1..] == x[1..] + y;
      FirstAppend(x[1..], y, name);
    }
  }

  /** The first candidate of a pass is one of its children. */
  lemma {:induction false} UserFirst(t: Sources, children: seq<string>, pass: nat, name: string) returns (child: string)
    requires First(UserPass(t, children, pass), name).Some?
    ensures UserCandidate(t, child, pass) == First(UserPass(t, children, pass), name)
    decreases |children|
  {
    FirstAppend(AsList(UserCandidate(t, children[0], pass)), UserPass(t, children[1..], pass), name);
    if First(AsList(UserCandidate(t, children[0], pass)), name).Some? {
      child := children[0];
    } else {
      child := UserFirst(t, children[1..], pass, name);
    }
  }

  lemma {:induction false} BuiltinFirst(t: Sources, children: seq<string>, pass: nat, name: string) returns (child: string)
    requires First(BuiltinPass(t, children, pass), name).Some?
    ensures BuiltinCandidate(t, child, pass) == First(BuiltinPass(t, children, pass), name)
    decreases |children|
  {
    FirstAppend(AsList(BuiltinCandidate(t, children[0], pass)), BuiltinPass(t, children[1..], pass), name);
    if First(AsList(BuiltinCandidate(t, children[0], pass)), name).Some? {
      child := children[0];
    } else {
      child := BuiltinFirst(t, children[1..], pass, name);
    }
  }

  /** A child that makes a candidate of a name gives the pass a first one. */
  lemma {:induction false} UserHasFirst(t: Sources, children: seq<string>, pass: nat, child: string)
    requires child in children && UserCandidate(t, child, pass).Some?
    ensures First(UserPass(t, children, pass), UserCandidate(t, child, pass).value.name).Some?
    decreases |children|
  {
    var name := UserCandidate(t, child, pass).value.name;
    FirstAppend(AsList(UserCandidate(t, children[0], pass)), UserPass(t, children[1..], pass), name);
    if children[0] != child {
      UserHasFirst(t, children[1..], pass, child);
    }
  }

  lemma {:induction false} BuiltinHasFirst(t: Sources, children: seq<string>, pass: nat, child: string)
    requires child in children && BuiltinCandidate(t, child, pass).Some?
    ensures First(BuiltinPass(t, children, pass), BuiltinCandidate(t, child, pass).value.name).Some?
    decreases |children|
  {
    var name := BuiltinCandidate(t, child, pass).value.name;
    FirstAppend(AsList(BuiltinCandidate(t, children[0], pass)), BuiltinPass(t, children[1..], pass), name);
    if children[0] != child {
      BuiltinHasFirst(t, children[1..], pass, child);
    }
  }

  function U0(t: Sources, name: string): Option<Candidate> {
    First(UserPass(t, t.userOrder, 0), name)
  }

  function U1(t: Sources, name: string): Option<Candidate> {
    First(UserPass(t, t.userOrder, 1), name)
  }

  function B0(t: Sources, name: string): Option<Candidate> {
    First(BuiltinPass(t, t.builtinOrder, 0), name)
  }

  function B1(t: Sources, name: string): Option<Candidate> {
    First(BuiltinPass(t, t.builtinOrder, 1), name)
  }

  /** The candidate the picker takes for a name: of the first pass that has one. */
  lemma PickedByPass(t: Sources, name: string)
    ensures First(Candidates(t), name) ==
            if U0(t, name).Some? then U0(t, name)
            else if U1(t, name).Some? then U1(t, name)
            else if B0(t, name).Some? then B0(t, name)
            else B1(t, name)
  {
    var a, b := UserPass(t, t.userOrder, 0), UserPass(t, t.userOrder, 1);
    var c, d := BuiltinPass(t, t.builtinOrder, 0), BuiltinPass(t, t.builtinOrder, 1);
    FirstAppend(a + b + c, d, name);
    FirstAppend(a + b, c, name);
    FirstAppend(a, b, name);
  }

  lemma IniName(name: string)
    requires name != ""
    ensures EndsIni(name + ".ini") && Stripped(name + ".ini") == name && !IsFolder(name + ".ini")
    ensures Hidden(name + ".ini") == Hidden(name)
  {
  }

  /** A user's folder theme is there exactly when the first pass comes across it. */
  lemma UserFolderFound(t: Sources, name: string)
    requires Proper(t) && !Hidden(name)
    ensures FileAt(t, UserFolder(name)).Some? <==> U0(t, name).Some?
    ensures U0(t, name).Some? ==> U0(t, name).value == Candidate(name, UserFolder(name), FileAt(t, UserFolder(name)).value)
  {
    if FileAt(t, UserFolder(name)).Some? {
      assert UserCandidate(t, name, 0) == Some(Candidate(name, UserFolder(name), FileAt(t, UserFolder(name)).value));
      UserHasFirst(t, t.userOrder, 0, name);
    }
    if U0(t, name).Some? {
      var child := UserFirst(t, t.userOrder, 0, name);
    }
  }

  lemma UserFlatFound(t: Sources, name: string)
    requires Proper(t) && !Hidden(name) && name != ""
    ensures FileAt(t, UserFlat(name + ".ini")).Some? ==> U1(t, name).Some?
    ensures U1(t, name).Some? ==>
              var c := U1(t, name).value; c.place.UserFlat? && FileAt(t, c.place) == Some(c.file)
  {
    IniName(name);
    if FileAt(t, UserFlat(name + ".ini")).Some? {
      UserHasFirst(t, t.userOrder, 1, name + ".ini");
    }
    if U1(t, name).Some? {
      var child := UserFirst(t, t.userOrder, 1, name);
    }
  }

  lemma BuiltinFolderFound(t: Sources, name: string)
    requires Proper(t) && name != ""
    ensures FileAt(t, BuiltinFolder(name)).Some? <==> B0(t, name).Some?
    ensures B0(t, name).Some? ==> B0(t, name).value == Candidate(name, BuiltinFolder(name), FileAt(t, BuiltinFolder(name)).value)
  {
    var path := name + "/";
    assert IsFolder(path) && path[..|path| - 1] == name;
    if FileAt(t, BuiltinFolder(name)).Some? {
      BuiltinHasFirst(t, t.builtinOrder, 0, path);
    }
    if B0(t, name).Some? {
      var child := BuiltinFirst(t, t.builtinOrder, 0, name);
      assert child == child[..|child| - 1] + "/";
    }
  }

  lemma BuiltinFlatFound(t: Sources, name: string)
    requires Proper(t) && name != ""
    ensures FileAt(t, BuiltinFlat(name + ".ini")).Some? ==> B1(t, name).Some?
    ensures B1(t, name).Some? ==>
              var c := B1(t, name).value; c.place.BuiltinFlat? && FileAt(t, c.place) == Some(c.file)
  {
    IniName(name);
    if FileAt(t, BuiltinFlat(name + ".ini")).Some? {
      BuiltinHasFirst(t, t.builtinOrder, 1, name + ".ini");
    }
    if B1(t, name).Some? {
      var child := BuiltinFirst(t, t.builtinOrder, 1, name);
    }
  }

  lemma UserFolderOpens(t: Sources, name: string, c: Candidate)
    requires Proper(t) && !Hidden(name) && U0(t, name) == Some(c)
    ensures FileAt(t, c.place) == Some(c.file)
    ensures Opened(t, name) == Some(c.place) <==> c.file.parses && Exact(c)
  {
    UserFolderFound(t, name);
  }

  lemma UserFlatOpens(t: Sources, name: string, c: Candidate)
    requires Proper(t) && name != "" && !Hidden(name) && U0(t, name).None? && U1(t, name) == Some(c)
    ensures FileAt(t, c.place) == Some(c.file)
    ensures Opened(t, name) == Some(c.place) <==> c.file.parses && Exact(c)
  {
    UserFolderFound(t, name);
    UserFlatFound(t, name);
  }

  lemma UserOpens(t: Sources, name: string)
    requires Proper(t) && name != "" && !Hidden(name) && (U0(t, name).Some? || U1(t, name).Some?)
    ensures var c := if U0(t, name).Some? then U0(t, name).value else U1(t, name).value;
            && FileAt(t, c.place) == Some(c.file)
            && (Opened(t, name) == Some(c.place) <==> c.file.parses && Exact(c))
  {
    if U0(t, name).Some? {
      UserFolderOpens(t, name, U0(t, name).value);
    } else {
      UserFlatOpens(t, name, U1(t, name).value);
    }
  }

  lemma BuiltinOpens(t: Sources, name: string)
    requires Proper(t) && name != "" && !Hidden(name) && U0(t, name).None? && U1(t, name).None?
    requires B0(t, name).Some? || B1(t, name).Some?
    ensures var c := if B0(t, name).Some? then B0(t, name).value else B1(t, name).value;
            && FileAt(t, c.place) == Some(c.file)
            && (Opened(t, name) == Some(c.place) <==> c.file.parses && Exact(c))
  {
    UserFolderFound(t, name);
    UserFlatFound(t, name);
    BuiltinFolderFound(t, name);
    BuiltinFlatFound(t, name);
  }

  /**
   For a name that is not hidden, the loader opens the very file the picker read its title
   from if and only if that file parses and is spelled the loader's way.
   */
  lemma OpensWhatIsListed(t: Sources, name: string)
    requires Proper(t) && name != "" && !Hidden(name) && First(Candidates(t), name).Some?
    ensures var c := First(Candidates(t), name).value;
            && FileAt(t, c.place) == Some(c.file)
            && (Opened(t, name) == Some(c.place) <==> c.file.parses && Exact(c))
  {
    PickedByPass(t, name);
    if U0(t, name).Some? || U1(t, name).Some? {
      UserOpens(t, name);
    } else {
      BuiltinOpens(t, name);
    }
  }

  // ---- The whole list ----

  /** A listed name is never empty or hidden. */
  lemma CandidateNames(t: Sources, name: string)
    requires Proper(t) && First(Candidates(t), name).Some?
    ensures name != "" && !Hidden(name)
  {
    PickedByPass(t, name);
    if U0(t, name).Some? {
      var child := UserFirst(t, t.userOrder, 0, name);
    } else if U1(t, name).Some? {
      var child := UserFirst(t, t.userOrder, 1, name);
    } else if B0(t, name).Some? {
      var child := BuiltinFirst(t, t.builtinOrder, 0, name);
    } else {
      var child := BuiltinFirst(t, t.builtinOrder, 1, name);
    }
  }

  /** Each safe name come across is listed once, and "default" always. */
  lemma ListedNames(t: Sources)
    ensures DistinctNames(Listed(t))
    ensures forall name :: Has(Listed(t), name) <==> name == "default" || (Safe(name) && First(Candidates(t), name).Some?)
  {
    var out := Collect([], Candidates(t));
    CollectDistinct([], Candidates(t));
    forall name ensures Has(Listed(t), name) <==> name == "default" || (Safe(name) && First(Candidates(t), name).Some?) {
      CollectHas([], Candidates(t), name);
      HasAppended(out, Entry("default", "Default"), name);
    }
    if !Has(out, "default") {
      forall i | 0 <= i < |out| ensures out[i].name != "default" {
      }
    }
  }

  /** Every entry is of the first candidate with its name; only a "default" nothing has is made up. */
  lemma ListedEntry(t: Sources, e: Entry)
    requires e in Listed(t)
    ensures if First(Candidates(t), e.name).Some? then e == EntryOf(First(Candidates(t), e.name).value)
            else e == Entry("default", "Default")
  {
    var out := Collect([], Candidates(t));
    if e in out {
      CollectFirst([], Candidates(t), e);
    } else {
      MadeUp(t, out, e, "default");
    }
  }

  lemma MadeUp(t: Sources, out: seq<Entry>, e: Entry, name: string)
    requires Safe(name) && out == Collect([], Candidates(t)) && e.name == name && !Has(out, name)
    ensures First(Candidates(t), e.name).None?
  {
    CollectHas([], Candidates(t), name);
  }

  /** Every theme file parses. */
  predicate AllParse(t: Sources) {
    && (forall child | child in t.user :: t.user[child].Folder? && t.user[child].manifest.Some? ==> t.user[child].manifest.value.parses)
    && (forall child | child in t.user :: t.user[child].Regular? ==> t.user[child].file.parses)
    && (forall child | child in t.builtin && t.builtin[child].Some? :: t.builtin[child].value.parses)
  }

  /** Every name that ends in ".ini" in some case ends in it exactly. */
  predicate AllExact(t: Sources) {
    forall child | child in t.user.Keys + t.builtin.Keys :: EndsIni(child) ==> child[|child| - 4..] == ".ini"
  }

  lemma ExactSuffix(child: string)
    requires EndsIni(child) && child[|child| - 4..] == ".ini"
    ensures child == Stripped(child) + ".ini"
  {
    assert child == child[..|child| - 4] + child[|child| - 4..];
  }

  lemma UserIsExact(t: Sources, child: string, pass: nat)
    requires AllExact(t) && UserCandidate(t, child, pass).Some?
    ensures Exact(UserCandidate(t, child, pass).value)
  {
    if EndsIni(child) {
      ExactSuffix(child);
    }
  }

  lemma BuiltinIsExact(t: Sources, child: string, pass: nat)
    requires AllExact(t) && BuiltinCandidate(t, child, pass).Some?
    ensures Exact(BuiltinCandidate(t, child, pass).value)
  {
    if EndsIni(child) {
      ExactSuffix(child);
    }
  }

  lemma PickedIsExact(t: Sources, name: string)
    requires AllExact(t) && First(Candidates(t), name).Some?
    ensures Exact(First(Candidates(t), name).value)
  {
    PickedByPass(t, name);
    if U0(t, name).Some? {
      var child := UserFirst(t, t.userOrder, 0, name);
      UserIsExact(t, child, 0);
    } else if U1(t, name).Some? {
      var child := UserFirst(t, t.userOrder, 1, name);
      UserIsExact(t, child, 1);
    } else if B0(t, name).Some? {
      var child := BuiltinFirst(t, t.builtinOrder, 0, name);
      BuiltinIsExact(t, child, 0);
    } else {
      var child := BuiltinFirst(t, t.builtinOrder, 1, name);
      BuiltinIsExact(t, child, 1);
    }
  }

  lemma PlaceParses(t: Sources, p: Place)
    requires AllParse(t) && FileAt(t, p).Some?
    ensures FileAt(t, p).value.parses
  {
  }

  lemma PickedParses(t: Sources, name: string)
    requires Proper(t) && AllParse(t) && First(Candidates(t), name).Some?
    ensures First(Candidates(t), name).value.file.parses
  {
    CandidateNames(t, name);
    OpensWhatIsListed(t, name);
    PlaceParses(t, First(Candidates(t), name).value.place);
  }

  /** A name the loader finds is come across. */
  lemma OpenedIsListed(t: Sources, name: string)
    requires Proper(t) && name != "" && !Hidden(name) && Opened(t, name).Some?
    ensures First(Candidates(t), name).Some?
  {
    PickedByPass(t, name);
    UserFolderFound(t, name);
    UserFlatFound(t, name);
    BuiltinFolderFound(t, name);
    BuiltinFlatFound(t, name);
  }

  /**
   When every theme file parses and is spelled exactly: a name is listed if and only if the
   loader finds it and it is safe and shown, or it is "default"; and an entry is titled from
   the file the loader opens for it.
   */
  lemma PickerAgreesWithLoader(t: Sources, name: string)
    requires Proper(t) && AllParse(t) && AllExact(t)
    ensures Has(Listed(t), name) <==>
              name == "default" || (Safe(name) && name != "" && !Hidden(name) && Opened(t, name).Some?)
    ensures Has(Listed(t), name) && Opened(t, name).Some? ==>
              FileAt(t, Opened(t, name).value).Some?
              && forall e | e in Listed(t) && e.name == name ::
                   e == EntryOf(Candidate(name, Opened(t, name).value, FileAt(t, Opened(t, name).value).value))
  {
    ListedNames(t);
    if First(Candidates(t), name).Some? {
      CandidateNames(t, name);
      OpensWhatIsListed(t, name);
      PickedIsExact(t, name);
      PickedParses(t, name);
      assert First(Candidates(t), name).value.name == name;
      forall e | e in Listed(t) && e.name == name ensures e == EntryOf(First(Candidates(t), name).value) {
        ListedEntry(t, e);
      }
    } else if Opened(t, name).Some? && name != "" && !Hidden(name) {
      OpenedIsListed(t, name);
    }
  }
}
