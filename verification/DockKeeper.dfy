/**
 The module's static state and its debounced save (src/dock_layout.c:28-37, 102-367), and
 what the next process starts with after any run of changes, writes that succeed or fail,
 loads, resizes of the main window, and a shutdown.
 */
module DockKeeper {
  import opened Wrappers
  import opened DockTree
  import opened DockImport
  import opened DockStore
  import DockImporter
  import J = Json
  import Proofs = DockImportProofs

  /** The memory, whether the save timer is on, and the file. */
  datatype World = World(memory: Memory, saving: bool, file: Option<KeyFile>)

  datatype Change =
    | Keep(json: Option<string>)
    | HideActions(id: string, hidden: bool)
    | ShowToolbar(visible: bool)
    | ShowTitles(visible: bool)
    | SizeWindow(name: string, w: int, h: int)

  /** What a setter makes of the memory. */
  function Changed(m: Memory, c: Change): Memory {
    match c
    case Keep(json) => m.(layout := json)
    case HideActions(id, hidden) => m.(bare := if hidden then m.bare + {id} else m.bare - {id})
    case ShowToolbar(visible) => m.(toolbar := visible)
    case ShowTitles(visible) => m.(titles := visible)
    case SizeWindow(name, w, h) => m.(windows := m.windows[name := SizeValue(w, h)])
  }

  /** Each setter changes its own part of the memory, as it says, and no other. */
  lemma ChangesAre(m: Memory, json: Option<string>, id: string, on: bool, w: int, h: int)
    ensures Changed(m, Keep(json)) == Memory(json, m.bare, m.toolbar, m.titles, m.windows)
    ensures var hidden := Changed(m, HideActions(id, on));
            && hidden == Memory(m.layout, hidden.bare, m.toolbar, m.titles, m.windows)
            && forall other :: other in hidden.bare <==> if other == id then on else other in m.bare
    ensures Changed(m, ShowToolbar(on)) == Memory(m.layout, m.bare, on, m.titles, m.windows)
    ensures Changed(m, ShowTitles(on)) == Memory(m.layout, m.bare, m.toolbar, on, m.windows)
    ensures var sized := Changed(m, SizeWindow(id, w, h));
            && sized == Memory(m.layout, m.bare, m.toolbar, m.titles, sized.windows)
            && sized.windows.Keys == m.windows.Keys + {id}
            && forall other | other in sized.windows ::
                 sized.windows[other] == if other == id then SizeValue(w, h) else m.windows[other]
  {
  }

  datatype Event =
    | Make(c: Change)
    | Fire(written: bool)
    | Shutdown(written: bool)
    | Load
    | Resize(to: Geometry)

  /** The main window's saved size, which the user's resizing and a quit rewrite. */
  datatype Geometry = Geometry(width: int, height: int)

  // ---- A legacy file ----

  function Lookup(group: map<string, string>, key: string): Option<string> {
    if key in group then Some(group[key]) else None
  }

  function Vector(pairs: seq<(string, string)>): seq<string> {
    if pairs == [] then [] else [pairs[0].0, pairs[0].1] + Vector(pairs[1..])
  }

  /** `import_legacy` (src/dock_layout.c:195-233): the window's saved size measures the dividers. */
  ghost function LegacyText(kf: KeyFile, width: int, height: int): Option<string> {
    if "tree" !in kf.dock || ParseTree(kf.dock["tree"]).None? then None
    else
      var d := Import(ParseTree(kf.dock["tree"]).value, Lookup(kf.dock, "sizes"), Lookup(kf.dock, "closed"),
                      Vector(kf.undocked), width, height);
      Proofs.ImportReadsBack(ParseTree(kf.dock["tree"]).value, Lookup(kf.dock, "sizes"), Lookup(kf.dock, "closed"),
                             Vector(kf.undocked), width, height);
      Some(J.Emit(DocJson(d)))
  }

  /** A file whose layout needs no import, or has none to give. */
  ghost predicate Settled(kf: KeyFile) {
    "layout" in kf.dock || "tree" !in kf.dock || ParseTree(kf.dock["tree"]).None?
  }

  /** The import makes the same text of a file at either size. */
  ghost predicate SameImport(kf: KeyFile, a: Geometry, b: Geometry) {
    LegacyText(kf, a.width, a.height) == LegacyText(kf, b.width, b.height)
  }

  // ---- Runs ----

  /** `save_now`: the timer is off whether or not the write succeeds. */
  ghost function SavedNow(w: World, written: bool, keyName: string -> bool): World {
    World(w.memory, false, if written then Some(Saved(w.memory, keyName)) else w.file)
  }

  /** What a load of the file gives: a missing one leaves what is there. */
  ghost function Reread(file: Option<KeyFile>, before: Memory, g: Geometry): Memory {
    if file.None? then before else Loaded(file.value, LegacyText(file.value, g.width, g.height))
  }

  /**
   A run as it goes: the process and the window's size; then, beside what the program has,
   the memory the file stands for, the size a legacy file was last measured by, and whether
   a save was ever written.
   */
  datatype Trace = Trace(w: World, window: Geometry, held: Memory, measured: Geometry, wrote: bool)

  predicate Enabled(t: Trace, e: Event) {
    e.Fire? ==> t.w.saving
  }

  ghost function AfterSave(t: Trace, written: bool, keyName: string -> bool): Trace {
    t.(w := SavedNow(t.w, written, keyName), held := if written then t.w.memory else t.held, wrote := t.wrote || written)
  }

  ghost function AfterLoad(t: Trace): Trace {
    if t.w.file.None? then t else
    var m := Reread(t.w.file, t.w.memory, t.window);
    t.(w := t.w.(memory := m), held := m, measured := if Settled(t.w.file.value) then t.measured else t.window)
  }

  ghost function Step(t: Trace, e: Event, keyName: string -> bool): Trace
    requires Enabled(t, e)
  {
    match e
    case Make(c) => t.(w := World(Changed(t.w.memory, c), true, t.w.file))
    case Fire(written) => AfterSave(t, written, keyName)
    case Shutdown(written) => if t.w.saving then AfterSave(t, written, keyName) else t
    case Load => AfterLoad(t)
    case Resize(to) => t.(window := to)
  }

  ghost predicate Possible(t: Trace, events: seq<Event>, keyName: string -> bool)
    decreases events
  {
    events != [] ==> Enabled(t, events[0]) && Possible(Step(t, events[0], keyName), events[1..], keyName)
  }

  ghost function Run(t: Trace, events: seq<Event>, keyName: string -> bool): Trace
    requires Possible(t, events, keyName)
    decreases events
  {
    if events == [] then t else Run(Step(t, events[0], keyName), events[1..], keyName)
  }

  /** A process as it starts: the file, if any, loaded; a legacy one imported. */
  ghost function Started(file: Option<KeyFile>, g: Geometry): Trace {
    var m := Reread(file, BLANK, g);
    Trace(World(m, false, file), g, m, g, false)
  }

  /**
   Step by step: a load reads the file, a legacy one at the window's size of the moment; a save
   turns the timer off, and writes the memory unless the write fails; a shutdown saves only when
   the timer is on; a change turns it on; a resize only resizes.
   */
  lemma StepsAre(t: Trace, c: Change, written: bool, to: Geometry, keyName: string -> bool)
    ensures var s := Step(t, Load, keyName);
            && s.w.file == t.w.file && s.w.saving == t.w.saving && s.window == t.window
            && (t.w.file.None? ==> s == t)
            && (t.w.file.Some? ==>
                  s.w.memory == Loaded(t.w.file.value, LegacyText(t.w.file.value, t.window.width, t.window.height))
                  && (!Settled(t.w.file.value) ==> s.measured == t.window))
    ensures var s := Step(t, Shutdown(written), keyName);
            && !s.w.saving && s.w.memory == t.w.memory && s.window == t.window
            && s.w.file == if t.w.saving && written then Some(Saved(t.w.memory, keyName)) else t.w.file
    ensures t.w.saving ==> Step(t, Fire(written), keyName) == Step(t, Shutdown(written), keyName)
    ensures var s := Step(t, Make(c), keyName); s.w.saving && s.w.file == t.w.file && s.w.memory == Changed(t.w.memory, c)
    ensures Step(t, Resize(to), keyName) == t.(window := to)
    ensures var s := Started(t.w.file, to);
            && s.w.file == t.w.file && !s.w.saving && s.window == to
            && s.w.memory == if t.w.file.None? then Memory(None, {}, false, false, map[])
                             else Loaded(t.w.file.value, LegacyText(t.w.file.value, to.width, to.height))
  {
  }

  // ---- What the file stands for ----

  /** A change a file can hold. */
  predicate CleanChange(c: Change, keyName: string -> bool) {
    match c
    case HideActions(id, hidden) => hidden ==> CleanId(id)
    case SizeWindow(name, _, _) => keyName(name)
    case _ => true
  }

  predicate CleanEvents(events: seq<Event>, keyName: string -> bool) {
    forall e | e in events && e.Make? :: CleanChange(e.c, keyName)
  }

  predicate NamesAreKeys(file: Option<KeyFile>, keyName: string -> bool) {
    file.Some? ==> forall k | k in file.value.windows :: keyName(k)
  }

  /** A load by the last import's size gives what the file stands for; a written file needs no size. */
  ghost predicate Kept(t: Trace, keyName: string -> bool) {
    && Clean(t.w.memory, keyName) && NamesAreKeys(t.w.file, keyName)
    && Reread(t.w.file, BLANK, t.measured) == t.held
    && (t.wrote ==> t.w.file.Some? && Settled(t.w.file.value))
  }

  lemma ChangedIsClean(m: Memory, c: Change, keyName: string -> bool)
    requires Clean(m, keyName) && CleanChange(c, keyName)
    ensures Clean(Changed(m, c), keyName)
  {
  }

  lemma SavedIsSettled(m: Memory, keyName: string -> bool)
    ensures Settled(Saved(m, keyName))
  {
    assert |"tree"| == 4 && |"layout"| == 6;
  }

  lemma SaveIsKept(t: Trace, written: bool, keyName: string -> bool)
    requires Kept(t, keyName)
    ensures Kept(AfterSave(t, written, keyName), keyName)
  {
    if written {
      var kf := Saved(t.w.memory, keyName);
      LoadUndoesSave(t.w.memory, keyName, LegacyText(kf, t.measured.width, t.measured.height));
      SavedIsSettled(t.w.memory, keyName);
    }
  }

  lemma LoadIsKept(t: Trace, keyName: string -> bool)
    requires Kept(t, keyName)
    ensures Kept(AfterLoad(t), keyName)
  {
    if t.w.file.Some? {
      LoadedIsClean(t.w.file.value, keyName, LegacyText(t.w.file.value, t.window.width, t.window.height));
    }
  }

  lemma StepKeeps(t: Trace, e: Event, keyName: string -> bool)
    requires Kept(t, keyName) && Enabled(t, e) && (e.Make? ==> CleanChange(e.c, keyName))
    ensures Kept(Step(t, e, keyName), keyName)
    ensures var s := Step(t, e, keyName); !s.wrote ==> s.w.file == t.w.file && !t.wrote
  {
    match e
    case Make(c) => ChangedIsClean(t.w.memory, c, keyName);
    case Fire(written) => SaveIsKept(t, written, keyName);
    case Shutdown(written) => SaveIsKept(t, written, keyName);
    case Load => LoadIsKept(t, keyName);
    case Resize(_) =>
  }

  /**
   Whatever comes in whatever order, and whichever writes fail: the file stands for the
   memory as it was at the last write that succeeded, or at the last load if that is later.
   */
  lemma {:induction false} RunKeeps(t: Trace, events: seq<Event>, keyName: string -> bool)
    requires Kept(t, keyName) && Possible(t, events, keyName) && CleanEvents(events, keyName)
    ensures var s := Run(t, events, keyName);
            Kept(s, keyName) && (!s.wrote ==> s.w.file == t.w.file && !t.wrote)
    decreases events
  {
    if events != [] {
      StepKeeps(t, events[0], keyName);
      RunKeeps(Step(t, events[0], keyName), events[1..], keyName);
    }
  }

  lemma StartedIsKept(file: Option<KeyFile>, g: Geometry, keyName: string -> bool)
    requires NamesAreKeys(file, keyName)
    ensures Kept(Started(file, g), keyName)
  {
    if file.Some? {
      LoadedIsClean(file.value, keyName, LegacyText(file.value, g.width, g.height));
    }
  }

  /** Two loads of a file agree if and only if it is settled or its imports agree. */
  lemma RereadAgrees(file: Option<KeyFile>, a: Geometry, b: Geometry)
    ensures Reread(file, BLANK, a) == Reread(file, BLANK, b)
       <==> file.None? || Settled(file.value) || SameImport(file.value, a, b)
  {
  }

  /**
   At any moment of any run from any file on, whichever writes fail, the process that starts
   next, in a window of any size, has what the file stands for if and only if a save was
   written, or the first file is settled, or its imports agree at the two sizes.
   */
  lemma NextStartIff(file: Option<KeyFile>, g: Geometry, events: seq<Event>, t: Trace, next: Geometry,
                     keyName: string -> bool)
    requires NamesAreKeys(file, keyName) && CleanEvents(events, keyName)
    requires Possible(Started(file, g), events, keyName) && t == Run(Started(file, g), events, keyName)
    ensures Started(t.w.file, next).w.memory == t.held
       <==> t.wrote || file.None? || Settled(file.value) || SameImport(file.value, t.measured, next)
  {
    StartedIsKept(file, g, keyName);
    RunKeeps(Started(file, g), events, keyName);
    RereadAgrees(t.w.file, t.measured, next);
  }

  // ---- No change is lost ----

  predicate WritesSucceed(events: seq<Event>) {
    forall e | e in events :: (e.Fire? || e.Shutdown?) ==> e.written
  }

  /** The file stands for the memory, unless a save is to come. */
  predicate UpToDate(t: Trace) {
    !t.w.saving ==> t.held == t.w.memory
  }

  lemma {:induction false} RunUpToDate(t: Trace, events: seq<Event>, keyName: string -> bool)
    requires UpToDate(t) && Possible(t, events, keyName) && WritesSucceed(events)
    ensures UpToDate(Run(t, events, keyName))
    decreases events
  {
    if events != [] {
      RunUpToDate(Step(t, events[0], keyName), events[1..], keyName);
    }
  }

  /**
   A process, from any file on, through any run of clean changes, resizes and writes that
   succeed, and a shutdown: nothing is left to save, and the next process starts with the
   memory the first one ended with if and only if a save was written, or the first file is
   settled, or its imports agree at the two sizes.
   */
  lemma ShutdownLosesNothing(file: Option<KeyFile>, g: Geometry, events: seq<Event>, t: Trace, next: Geometry,
                             keyName: string -> bool)
    requires NamesAreKeys(file, keyName) && CleanEvents(events, keyName) && WritesSucceed(events)
    requires Possible(Started(file, g), events, keyName)
    requires t == Step(Run(Started(file, g), events, keyName), Shutdown(true), keyName)
    ensures !t.w.saving && t.held == t.w.memory
    ensures Started(t.w.file, next).w.memory == t.w.memory
       <==> t.wrote || file.None? || Settled(file.value) || SameImport(file.value, t.measured, next)
  {
    StartedIsKept(file, g, keyName);
    RunKeeps(Started(file, g), events, keyName);
    RunUpToDate(Started(file, g), events, keyName);
    StepKeeps(Run(Started(file, g), events, keyName), Shutdown(true), keyName);
    RereadAgrees(t.w.file, t.measured, next);
  }

  /** A save that is written keeps the memory if and only if a file can hold it, at any size of the window. */
  lemma SaveKeepsIff(w: World, g: Geometry, keyName: string -> bool)
    ensures Reread(SavedNow(w, true, keyName).file, BLANK, g) == w.memory <==> Clean(w.memory, keyName)
  {
    var kf := Saved(w.memory, keyName);
    LoadUndoesSave(w.memory, keyName, LegacyText(kf, g.width, g.height));
  }

  // ---- A write that fails ----

  predicate NothingMade(events: seq<Event>) {
    forall e | e in events :: !e.Make?
  }

  /** With no save to come, nothing but a change brings a write. */
  lemma {:induction false} QuietKeepsFile(t: Trace, events: seq<Event>, keyName: string -> bool)
    requires !t.w.saving && Possible(t, events, keyName) && NothingMade(events)
    ensures var s := Run(t, events, keyName); !s.w.saving && s.w.file == t.w.file && s.wrote == t.wrote
    decreases events
  {
    if events != [] {
      assert !events[0].Make?;
      QuietKeepsFile(Step(t, events[0], keyName), events[1..], keyName);
    }
  }

  /**
   After a write that fails, and until another change is made, no save is to come, not even
   at the shutdown: the next process starts as it would have before the change.
   */
  lemma FailedWriteForgets(t: Trace, c: Change, quiet: seq<Event>, s: Trace, next: Geometry, keyName: string -> bool)
    requires var failed := Step(Step(t, Make(c), keyName), Fire(false), keyName);
             Possible(failed, quiet, keyName) && s == Run(failed, quiet, keyName)
    requires NothingMade(quiet)
    ensures !s.w.saving && Started(s.w.file, next).w.memory == Started(t.w.file, next).w.memory
  {
    QuietKeepsFile(Step(Step(t, Make(c), keyName), Fire(false), keyName), quiet, keyName);
  }

  // ---- The class ----

  /** The static `dock`, and the file beside it. */
  class Dock {
    const keyName: string -> bool
    var layout: Option<string>
    var bareIds: set<string>
    var toolbarShown: bool
    var paneTitles: bool
    var windowSizes: map<string, string>
    var saveArmed: bool
    var file: Option<KeyFile>

    function Value(): World
      reads this
    {
      World(Memory(layout, bareIds, toolbarShown, paneTitles, windowSizes), saveArmed, file)
    }

    constructor (keyName: string -> bool, file: Option<KeyFile>)
      ensures Value() == World(BLANK, false, file) && this.keyName == keyName
    {
      this.keyName := keyName;
      layout, bareIds, toolbarShown, paneTitles, windowSizes := None, {}, false, false, map[];
      saveArmed, this.file := false, file;
    }

    /** `dock_layout_request_save`. */
    method RequestSave()
      modifies `saveArmed
      ensures saveArmed
    {
      saveArmed := true;
    }

    /** `dock_layout_keep`. */
    method KeepLayout(json: Option<string>)
      modifies this
      ensures Value() == World(Changed(old(Value()).memory, Keep(json)), true, old(file))
      ensures layout == json && bareIds == old(bareIds) && windowSizes == old(windowSizes)
      ensures toolbarShown == old(toolbarShown) && paneTitles == old(paneTitles)
    {
      layout := json;
      RequestSave();
    }

    method SetPanelActionsHidden(id: string, hidden: bool)
      modifies this
      ensures Value() == World(Changed(old(Value()).memory, HideActions(id, hidden)), true, old(file))
      ensures (id in bareIds <==> hidden) && forall other | other != id :: other in bareIds <==> other in old(bareIds)
      ensures layout == old(layout) && windowSizes == old(windowSizes)
      ensures toolbarShown == old(toolbarShown) && paneTitles == old(paneTitles)
    {
      if hidden {
        bareIds := bareIds + {id};
      } else {
        bareIds := bareIds - {id};
      }
      RequestSave();
    }

    method SetToolbarVisible(visible: bool)
      modifies this
      ensures Value() == World(Changed(old(Value()).memory, ShowToolbar(visible)), true, old(file))
      ensures toolbarShown == visible && paneTitles == old(paneTitles)
      ensures layout == old(layout) && bareIds == old(bareIds) && windowSizes == old(windowSizes)
    {
      toolbarShown := visible;
      RequestSave();
    }

    method SetPaneTitlesVisible(visible: bool)
      modifies this
      ensures Value() == World(Changed(old(Value()).memory, ShowTitles(visible)), true, old(file))
      ensures paneTitles == visible && toolbarShown == old(toolbarShown)
      ensures layout == old(layout) && bareIds == old(bareIds) && windowSizes == old(windowSizes)
    {
      paneTitles := visible;
      RequestSave();
    }

    method SetWindowSize(name: string, w: int, h: int)
      modifies this
      ensures Value() == World(Changed(old(Value()).memory, SizeWindow(name, w, h)), true, old(file))
      ensures windowSizes.Keys == old(windowSizes).Keys + {name} && windowSizes[name] == SizeValue(w, h)
      ensures forall other | other in old(windowSizes) && other != name :: windowSizes[other] == old(windowSizes)[other]
      ensures layout == old(layout) && bareIds == old(bareIds)
      ensures toolbarShown == old(toolbarShown) && paneTitles == old(paneTitles)
    {
      windowSizes := windowSizes[name := SizeValue(w, h)];
      RequestSave();
    }

    /** `dock_layout_get_window_size`. */
    method GetWindowSize(name: string) returns (size: Option<(nat, nat)>)
      ensures size == if name in windowSizes then WindowSize(windowSizes[name]) else None
    {
      if name !in windowSizes {
        return None;
      }
      size := WindowSize(windowSizes[name]);
    }

    /** `g_list_sort` of the table's keys, which come in any order. */
    static method Sort(ids: set<string>) returns (order: seq<string>)
      ensures order == Ordered(ids)
    {
      order := [];
      var left := ids;
      while left != {}
        invariant left <= ids && Rising(order) && Elements(order) == ids - left
        decreases |left|
      {
        var id :| id in left;
        assert id !in Elements(order);
        order := Place(order, id);
        left := left - {id};
      }
      OrderedIs(ids);
      RisingIsOne(order, Ordered(ids));
    }

    /** The id put in its place among sorted ones. */
    static method Place(order: seq<string>, id: string) returns (r: seq<string>)
      requires Rising(order) && id !in order
      ensures Rising(r) && Elements(r) == Elements(order) + {id}
    {
      var i := 0;
      while i < |order| && Before(order[i], id)
        invariant i <= |order| && forall j | 0 <= j < i :: Before(order[j], id)
      {
        i := i + 1;
      }
      r := order[..i] + [id] + order[i..];
      if i < |order| {
        BeforeTotal(order[i], id);
        assert order[i] in order;
        forall j | i <= j < |order| ensures Before(id, order[j]) {
          if i < j {
            BeforeTrans(id, order[i], order[j]);
          }
        }
      }
      assert forall x :: x in r <==> x in order || x == id;
    }

    /** The ids with semicolons between them (src/dock_layout.c:88-95). */
    static method Join(order: seq<string>) returns (joined: string)
      ensures joined == JoinOnto("", order)
    {
      joined := "";
      for i := 0 to |order|
        invariant JoinOnto(joined, order[i..]) == JoinOnto("", order)
      {
        assert order[i..][1..] == order[i + 1..];
        if joined != "" {
          joined := joined + ";";
        }
        joined := joined + order[i];
      }
    }

    /** The window sizes, under the names that can be keys (src/dock_layout.c:75-83). */
    method WindowKeys() returns (group: map<string, string>)
      ensures group == NamedOnly(windowSizes, keyName)
    {
      group := map[];
      var left := windowSizes.Keys;
      while left != {}
        invariant left <= windowSizes.Keys
        invariant group == map k | k in windowSizes && k !in left && keyName(k) :: windowSizes[k]
        decreases |left|
      {
        var k :| k in left;
        left := left - {k};
        if keyName(k) {
          group := group[k := windowSizes[k]];
        }
      }
    }

    /** `serialize_chrome`, less the windows. */
    method ChromeKeys() returns (group: map<string, string>)
      ensures group == OnlyIf(toolbarShown, "toolbar", "true") + OnlyIf(paneTitles, "pane-titles", "true")
                       + OnlyIf(bareIds != {}, "hidden-actions", JoinOnto("", Ordered(bareIds)))
    {
      group := map[];
      if toolbarShown {
        group := group["toolbar" := "true"];
      }
      if paneTitles {
        group := group["pane-titles" := "true"];
      }
      if bareIds != {} {
        var order := Sort(bareIds);
        var joined := Join(order);
        group := group["hidden-actions" := joined];
      }
    }

    /** `save_now`; `written` is what the file system answers. */
    method SaveNow(written: bool)
      modifies `saveArmed, `file
      ensures Value() == SavedNow(old(Value()), written, keyName)
    {
      saveArmed := false;
      var main: map<string, string> := map[];
      if layout.Some? {
        main := main["layout" := layout.value];
      }
      var windows := WindowKeys();
      var chrome := ChromeKeys();
      if written {
        file := Some(KeyFile(main, chrome, windows, []));
      }
    }

    /** `dock_layout_shutdown`. */
    method ShutDown(written: bool)
      modifies `saveArmed, `file
      ensures !saveArmed
      ensures Value() == if old(saveArmed) then SavedNow(old(Value()), written, keyName) else old(Value())
    {
      if saveArmed {
        saveArmed := false;
        SaveNow(written);
      }
    }

    /** The fields of the hidden ids, less the empty ones (src/dock_layout.c:181-189). */
    static method Split(text: string) returns (ids: set<string>)
      ensures ids == BareOf(text)
    {
      var fields := Fields(text);
      ids := {};
      for i := 0 to |fields|
        invariant ids == set id | id in fields[..i] && FilledId(id)
      {
        assert fields[..i + 1] == fields[..i] + [fields[i]];
        if fields[i] != "" {
          ids := ids + {fields[i]};
        }
      }
      assert fields[..|fields|] == fields;
    }

    /** `load_chrome`. */
    method LoadChrome(kf: KeyFile)
      modifies this
      ensures toolbarShown == IsSet(kf.chrome, "toolbar") && paneTitles == IsSet(kf.chrome, "pane-titles")
      ensures windowSizes == kf.windows
      ensures bareIds == if "hidden-actions" in kf.chrome then BareOf(kf.chrome["hidden-actions"]) else {}
      ensures layout == old(layout) && saveArmed == old(saveArmed) && file == old(file)
    {
      toolbarShown := IsSet(kf.chrome, "toolbar");
      paneTitles := IsSet(kf.chrome, "pane-titles");
      windowSizes := kf.windows;
      bareIds := {};
      if "hidden-actions" in kf.chrome {
        bareIds := Split(kf.chrome["hidden-actions"]);
      }
    }

    /** `import_legacy`. */
    static method ImportLegacyFile(kf: KeyFile, width: int, height: int) returns (json: Option<string>)
      ensures json == LegacyText(kf, width, height)
    {
      if "tree" !in kf.dock {
        return None;
      }
      json := DockImporter.ImportLegacy(Some(kf.dock["tree"]), Lookup(kf.dock, "sizes"), Lookup(kf.dock, "closed"),
                                        Vector(kf.undocked), width, height);
    }

    /** `dock_layout_load`: the layout for the dock, NULL when there is none. */
    method LoadFile(width: int, height: int) returns (json: Option<string>)
      modifies this
      ensures file == old(file) && saveArmed == old(saveArmed)
      ensures if file.None? then json == None && Value() == old(Value())
              else Value().memory == Loaded(file.value, LegacyText(file.value, width, height)) && json == layout
    {
      if file.None? {
        return None;
      }
      var kf := file.value;
      LoadChrome(kf);
      if "layout" in kf.dock {
        json := Some(kf.dock["layout"]);
      } else {
        json := ImportLegacyFile(kf, width, height);
      }
      layout := json;
    }
  }
}
