/**
 Which names the theme picker lists, how they are titled, and which file the loader takes, said
 of the folders and files themselves (src/gtkhx_theme.c:1093-1179, 1220-1498).
 */
module ThemeCases {
  import opened Wrappers
  import opened Text
  import opened Themes

  // ---- Names ----

  /** A theme file's name is longer than ".ini", which it ends in, each letter small or capital. */
  lemma IniNames(s: string)
    ensures EndsIni(s) <==>
            |s| > 4 && s[|s| - 4] == '.' && s[|s| - 3] in "iI" && s[|s| - 2] in "nN" && s[|s| - 1] in "iI"
  {
    if |s| > 4 {
      LetterIs(s[|s| - 3], 'i', 'I', "iI");
      LetterIs(s[|s| - 2], 'n', 'N', "nN");
      LetterIs(s[|s| - 1], 'i', 'I', "iI");
    }
  }

  lemma LetterIs(c: char, small: char, capital: char, both: string)
    requires both == [small, capital] && 'a' <= small <= 'z' && capital as int + 32 == small as int
    ensures Lower(c) == small <==> c in both
  {
    assert both[0] == small && both[1] == capital;
  }

  /** A title is the file's own when it parses and has one, and the name otherwise. */
  lemma TitlesAre(name: string, place: Place, title: string, other: Option<string>)
    requires title != ""
    ensures EntryOf(Candidate(name, place, File(true, Some(title)))) == Entry(name, title)
    ensures EntryOf(Candidate(name, place, File(true, Some("")))) == Entry(name, name)
    ensures EntryOf(Candidate(name, place, File(true, None))) == Entry(name, name)
    ensures EntryOf(Candidate(name, place, File(false, other))) == Entry(name, name)
  {
  }

  // ---- What is listed ----

  /** One of the user's folders, with a manifest. */
  predicate UserFolderHas(t: Sources, name: string) {
    && name in t.userOrder && name in t.user && !(name != "" && name[0] == '.')
    && t.user[name].Folder? && t.user[name].manifest.Some?
  }

  /** One of the user's files, `name` and ".ini". */
  predicate UserFileHas(t: Sources, child: string, name: string) {
    && child in t.userOrder && child in t.user && !(child != "" && child[0] == '.')
    && t.user[child].Regular? && EndsIni(child) && child[..|child| - 4] == name
  }

  /** One of the program's own folders, with a manifest. */
  predicate BuiltinFolderHas(t: Sources, name: string) {
    name + "/" in t.builtinOrder && name + "/" in t.builtin && t.builtin[name + "/"].Some?
  }

  /** One of the program's own files, `name` and ".ini". */
  predicate BuiltinFileHas(t: Sources, child: string, name: string) {
    && child in t.builtinOrder && child in t.builtin && t.builtin[child].Some?
    && EndsIni(child) && child[..|child| - 4] == name && child[|child| - 1] != '/'
  }

  ghost predicate SomewhereHas(t: Sources, name: string) {
    || UserFolderHas(t, name) || (exists child :: UserFileHas(t, child, name))
    || BuiltinFolderHas(t, name) || (exists child :: BuiltinFileHas(t, child, name))
  }

  lemma UserFolderPass(t: Sources, name: string)
    ensures U0(t, name).Some? <==> UserFolderHas(t, name)
  {
    if UserFolderHas(t, name) {
      assert UserCandidate(t, name, 0).Some?;
      UserHasFirst(t, t.userOrder, 0, name);
    }
    if U0(t, name).Some? {
      var child := UserFirst(t, t.userOrder, 0, name);
      UserChild(t, t.userOrder, 0, name);
    }
  }

  /** The child that gives a pass its candidate is one of those the pass goes through. */
  lemma {:induction false} UserChild(t: Sources, children: seq<string>, pass: nat, name: string)
    requires First(UserPass(t, children, pass), name).Some?
    ensures exists child :: child in children && UserCandidate(t, child, pass) == First(UserPass(t, children, pass), name)
    decreases |children|
  {
    var c := UserCandidate(t, children[0], pass);
    FirstAppend(AsList(c), UserPass(t, children[1..], pass), name);
    if First(AsList(c), name).Some? {
      assert children[0] in children && AsList(c)[1..] == [];
    } else {
      UserChild(t, children[1..], pass, name);
    }
  }

  lemma {:induction false} BuiltinChild(t: Sources, children: seq<string>, pass: nat, name: string)
    requires First(BuiltinPass(t, children, pass), name).Some?
    ensures exists child :: child in children && BuiltinCandidate(t, child, pass) == First(BuiltinPass(t, children, pass), name)
    decreases |children|
  {
    var c := BuiltinCandidate(t, children[0], pass);
    FirstAppend(AsList(c), BuiltinPass(t, children[1..], pass), name);
    if First(AsList(c), name).Some? {
      assert children[0] in children && AsList(c)[1..] == [];
    } else {
      BuiltinChild(t, children[1..], pass, name);
    }
  }

  lemma UserFilePass(t: Sources, name: string)
    ensures U1(t, name).Some? <==> exists child :: UserFileHas(t, child, name)
  {
    if exists child :: UserFileHas(t, child, name) {
      var child :| UserFileHas(t, child, name);
      assert UserCandidate(t, child, 1).Some?;
      UserHasFirst(t, t.userOrder, 1, child);
    }
    if U1(t, name).Some? {
      UserChild(t, t.userOrder, 1, name);
      var child :| child in t.userOrder && UserCandidate(t, child, 1) == U1(t, name);
      assert UserFileHas(t, child, name);
    }
  }

  lemma SlashEnds(name: string)
    ensures IsFolder(name + "/") && (name + "/")[..|name + "/"| - 1] == name
  {
  }

  lemma FolderOf(child: string)
    requires IsFolder(child)
    ensures child == child[..|child| - 1] + "/"
  {
  }

  lemma BuiltinFolderPass(t: Sources, name: string)
    ensures B0(t, name).Some? <==> BuiltinFolderHas(t, name)
  {
    SlashEnds(name);
    if BuiltinFolderHas(t, name) {
      assert BuiltinCandidate(t, name + "/", 0).Some?;
      BuiltinHasFirst(t, t.builtinOrder, 0, name + "/");
    }
    if B0(t, name).Some? {
      BuiltinChild(t, t.builtinOrder, 0, name);
      var child :| child in t.builtinOrder && BuiltinCandidate(t, child, 0) == B0(t, name);
      FolderOf(child);
    }
  }

  lemma BuiltinFilePass(t: Sources, name: string)
    ensures B1(t, name).Some? <==> exists child :: BuiltinFileHas(t, child, name)
  {
    if exists child :: BuiltinFileHas(t, child, name) {
      var child :| BuiltinFileHas(t, child, name);
      assert BuiltinCandidate(t, child, 1).Some?;
      BuiltinHasFirst(t, t.builtinOrder, 1, child);
    }
    if B1(t, name).Some? {
      BuiltinChild(t, t.builtinOrder, 1, name);
      var child :| child in t.builtinOrder && BuiltinCandidate(t, child, 1) == B1(t, name);
      assert BuiltinFileHas(t, child, name);
    }
  }

  /**
   A name is listed if and only if it is "default", or has no slash or backslash in it and is that
   of one of the user's folders or files that are not hidden, or of the program's own.
   */
  lemma ListedIff(t: Sources, name: string)
    ensures Has(Listed(t), name) <==> name == "default" || ('/' !in name && '\\' !in name && SomewhereHas(t, name))
  {
    ListedNames(t);
    PickedByPass(t, name);
    UserFolderPass(t, name);
    UserFilePass(t, name);
    BuiltinFolderPass(t, name);
    BuiltinFilePass(t, name);
  }

  // ---- What is loaded ----

  /** A file that is there and parses. */
  predicate Good(f: Option<File>) {
    f.Some? && f.value.parses
  }

  function UserFile(t: Sources, filename: string): Option<File> {
    if filename in t.user && t.user[filename].Regular? then Some(t.user[filename].file) else None
  }

  function UserManifest(t: Sources, folder: string): Option<File> {
    if folder in t.user && t.user[folder].Folder? then t.user[folder].manifest else None
  }

  function Own(t: Sources, path: string): Option<File> {
    if path in t.builtin then t.builtin[path] else None
  }

  /**
   The loader takes the user's folder before the user's file, these before the program's own, of
   which again the folder first, and of them the first that parses.
   */
  lemma LoaderOrder(t: Sources, name: string)
    ensures Opened(t, name) ==
            if Good(UserManifest(t, name)) then Some(UserFolder(name))
            else if Good(UserFile(t, name + ".ini")) then Some(UserFlat(name + ".ini"))
            else if Good(Own(t, name + "/")) then Some(BuiltinFolder(name))
            else if Good(Own(t, name + ".ini")) then Some(BuiltinFlat(name + ".ini"))
            else None
  {
    assert !IsFolder(name + ".ini");
  }
}
