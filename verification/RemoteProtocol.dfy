/**
 Remote panes over whole runs: any number of providers, the panels that own them, and
 the receiver's table of listings asked for (rust/crates/hxhandlers/src/recv/files.rs:
 167-213, 252-267, 317-338), which holds a reference too. Requests, answers in any
 order, refusals, silence, closed panels and closed connections come in any order.
 */
module RemoteProtocol {
  import opened Files
  import opened Wrappers
  import opened RemoteListing

  /** A listing on its way back: whose it is, and the folder it is of. */
  datatype Ask = Ask(who: nat, path: string)

  datatype Answer = Answer(path: string, rows: seq<FileRow>)

  /**
   A provider, how many panels hold it, the folder of the newest listing that went out for
   it, and the last reply it took.
   */
  datatype Slot = Slot(pane: Pane, owners: nat, newest: Option<string>, answer: Option<Answer>)

  datatype World = World(slots: seq<Slot>, asked: seq<Ask>)

  datatype Action =
    | Open
    | Hold(i: nat)
    | LetGo(i: nat)
    | Send(i: nat, path: string, available: bool, encodes: bool)
    | Fire(i: nat)
    | Reply(k: nat, rows: seq<FileRow>)
    | Refuse(k: nat)
    | Forget(k: nat)
    | Root(i: nat)

  function Count(asked: seq<Ask>, who: nat): nat {
    if asked == [] then 0 else (if asked[0].who == who then 1 else 0) + Count(asked[1..], who)
  }

  /** What `asked` keeps when `who` asks anew (files.rs:171-175). */
  function Others(asked: seq<Ask>, who: nat): seq<Ask> {
    if asked == [] then []
    else (if asked[0].who == who then [] else [asked[0]]) + Others(asked[1..], who)
  }

  function Without(asked: seq<Ask>, k: nat): seq<Ask>
    requires k < |asked|
  {
    asked[..k] + asked[k + 1..]
  }

  // ---- The invariant ----

  /**
   One provider: in the table exactly while its watchdog is armed; its references are its
   owners', the table's and the receiver's; its rows are none or those of the reply whose
   path is its own; an error shows no rows.
   */
  predicate SlotInv(s: Slot, asks: nat) {
    var p := s.pane;
    && p.pending == p.armed
    && p.refs == s.owners + (if p.pending then 1 else 0) + asks && asks <= 1
    && p.alive == (p.refs > 0)
    && (p.error ==> p.rows == [])
    && (p.rows != [] ==> s.answer.Some? && p.rows == s.answer.value.rows && p.path == Normal(s.answer.value.path))
  }

  predicate Slots(w: World) {
    forall i | 0 <= i < |w.slots| :: SlotInv(w.slots[i], Count(w.asked, i))
  }

  /** Every listing awaited by the receiver is the newest of its provider. */
  predicate Newest(w: World) {
    forall k | 0 <= k < |w.asked| ::
      w.asked[k].who < |w.slots| && w.slots[w.asked[k].who].newest == Some(w.asked[k].path)
  }

  predicate Inv(w: World) {
    Slots(w) && Newest(w)
  }

  // ---- Steps ----

  /** A panel acts through a reference of its own; an armed watchdog may go off. */
  predicate Enabled(w: World, a: Action) {
    match a
    case Open => true
    case Hold(i) => i < |w.slots| && w.slots[i].owners > 0
    case LetGo(i) => i < |w.slots| && w.slots[i].owners > 0
    case Send(i, _, _, _) => i < |w.slots| && w.slots[i].owners > 0
    case Fire(i) => i < |w.slots| && w.slots[i].pane.armed
    case Reply(k, _) => k < |w.asked|
    case Refuse(k) => k < |w.asked|
    case Forget(k) => k < |w.asked|
    case Root(i) => i < |w.slots| && w.slots[i].owners > 0
  }

  /** `remote_send_file_list`, and `hx_list_dir` when the path can be sent. */
  function SendSlot(s: Slot, asks: nat, path: string, available: bool, encodes: bool): Slot
    requires SlotInv(s, asks)
  {
    var p := Sent(s.pane, available);
    if !available || !encodes then s.(pane := p)
    else
      var q := p.(refs := p.refs + 1);
      s.(pane := if asks == 0 then q else Unreffed(q), newest := Some(Normal(path)))
  }

  /** The receiver hands a reply on, and lets go of its own reference. */
  function ReplySlot(s: Slot, path: string, rows: seq<FileRow>): Slot
    requires SlotInv(s, 1)
  {
    s.(pane := Unreffed(Replied(s.pane, path, rows)),
       answer := if s.pane.pending then Some(Answer(path, rows)) else s.answer)
  }

  function RefuseSlot(s: Slot, path: string): Slot
    requires SlotInv(s, 1)
  {
    s.(pane := Unreffed(Refused(s.pane, path)))
  }

  function LetGoSlot(s: Slot, asks: nat): Slot
    requires SlotInv(s, asks) && s.owners > 0
  {
    s.(pane := Unreffed(s.pane), owners := s.owners - 1)
  }

  /** The provider an action is about, if it is about one that is already there. */
  function Subject(w: World, a: Action): nat
    requires Enabled(w, a) && !a.Open?
  {
    match a
    case Hold(i) => i
    case LetGo(i) => i
    case Send(i, _, _, _) => i
    case Fire(i) => i
    case Reply(k, _) => w.asked[k].who
    case Refuse(k) => w.asked[k].who
    case Forget(k) => w.asked[k].who
    case Root(i) => i
  }

  /** The action's provider is one, and awaits the answer if it is one. */
  predicate Actable(w: World, a: Action)
    requires Enabled(w, a) && !a.Open?
  {
    var i := Subject(w, a);
    && i < |w.slots| && SlotInv(w.slots[i], Count(w.asked, i))
    && (a.Reply? || a.Refuse? || a.Forget? ==> Count(w.asked, i) == 1)
  }

  /** What an action makes of its provider. */
  function Acted(w: World, a: Action): Slot
    requires Enabled(w, a) && !a.Open? && Actable(w, a)
  {
    var i := Subject(w, a);
    var s := w.slots[i];
    match a
    case Hold(_) => s.(pane := s.pane.(refs := s.pane.refs + 1), owners := s.owners + 1)
    case LetGo(_) => LetGoSlot(s, Count(w.asked, i))
    case Send(_, path, available, encodes) => SendSlot(s, Count(w.asked, i), path, available, encodes)
    case Fire(_) => s.(pane := TimedOut(s.pane))
    case Reply(k, rows) => ReplySlot(s, w.asked[k].path, rows)
    case Refuse(k) => RefuseSlot(s, w.asked[k].path)
    case Forget(_) => s.(pane := Unreffed(s.pane))
    case Root(_) => s.(pane := Reset(s.pane))
  }

  function Asking(w: World, a: Action): seq<Ask>
    requires Enabled(w, a)
  {
    match a
    case Send(i, path, true, true) => Others(w.asked, i) + [Ask(i, Normal(path))]
    case Reply(k, _) => Without(w.asked, k)
    case Refuse(k) => Without(w.asked, k)
    case Forget(k) => Without(w.asked, k)
    case _ => w.asked
  }

  function Next(w: World, a: Action): World
    requires Inv(w) && Enabled(w, a)
  {
    if a.Open? then w.(slots := w.slots + [Slot(NEW_PANE, 1, None, None)])
    else
      var i := Subject(w, a);
      SubjectCount(w, a);
      World(w.slots[i := Acted(w, a)], Asking(w, a))
  }

  // ---- Counting ----

  lemma {:induction false} CountAppend(x: seq<Ask>, y: seq<Ask>, who: nat)
    ensures Count(x + y, who) == Count(x, who) + Count(y, who)
  {
    if x == [] {
      assert x + y == y;
    } else {
      assert (x + y)[1..] == x[1..] + y;
      CountAppend(x[1..], y, who);
    }
  }

  lemma CountOne(ask: Ask, who: nat)
    ensures Count([ask], who) == if ask.who == who then 1 else 0
  {
    assert [ask][1..] == [];
  }

  lemma CountWithout(asked: seq<Ask>, k: nat, who: nat)
    requires k < |asked|
    ensures Count(Without(asked, k), who) == Count(asked, who) - (if asked[k].who == who then 1 else 0)
  {
    assert asked == asked[..k] + ([asked[k]] + asked[k + 1..]);
    CountAppend(asked[..k], [asked[k]] + asked[k + 1..], who);
    CountAppend([asked[k]], asked[k + 1..], who);
    CountAppend(asked[..k], asked[k + 1..], who);
    CountOne(asked[k], who);
  }

  lemma {:induction false} CountOthers(asked: seq<Ask>, i: nat, who: nat)
    ensures Count(Others(asked, i), who) == if who == i then 0 else Count(asked, who)
    ensures forall ask | ask in Others(asked, i) :: ask in asked && ask.who != i
  {
    if asked != [] {
      CountOthers(asked[1..], i, who);
      var head := if asked[0].who == i then [] else [asked[0]];
      CountAppend(head, Others(asked[1..], i), who);
      CountOne(asked[0], who);
    }
  }

  lemma {:induction false} CountNone(asked: seq<Ask>, who: nat)
    requires forall k | 0 <= k < |asked| :: asked[k].who != who
    ensures Count(asked, who) == 0
  {
    if asked != [] {
      CountNone(asked[1..], who);
    }
  }

  lemma SubjectCount(w: World, a: Action)
    requires Inv(w) && Enabled(w, a) && !a.Open?
    ensures Actable(w, a)
  {
    if a.Reply? || a.Refuse? || a.Forget? {
      CountWithout(w.asked, a.k, w.asked[a.k].who);
    }
  }

  // ---- Every step keeps the invariant ----

  lemma SendSlotInv(s: Slot, asks: nat, path: string, available: bool, encodes: bool)
    requires SlotInv(s, asks) && s.owners > 0
    ensures SlotInv(SendSlot(s, asks, path, available, encodes), if available && encodes then 1 else asks)
  {
  }

  lemma ReplySlotInv(s: Slot, path: string, rows: seq<FileRow>)
    requires SlotInv(s, 1)
    ensures SlotInv(ReplySlot(s, path, rows), 0) && SlotInv(RefuseSlot(s, path), 0)
  {
  }

  lemma LetGoSlotInv(s: Slot, asks: nat)
    requires SlotInv(s, asks)
    ensures s.owners > 0 ==> SlotInv(LetGoSlot(s, asks), asks)
    ensures asks == 1 ==> SlotInv(s.(pane := Unreffed(s.pane)), 0)
  {
  }

  lemma FireSlotInv(s: Slot, asks: nat)
    requires SlotInv(s, asks) && s.pane.armed
    ensures SlotInv(s.(pane := TimedOut(s.pane)), asks)
  {
  }

  lemma ActedInv(w: World, a: Action)
    requires Inv(w) && Enabled(w, a) && !a.Open? && Actable(w, a)
    ensures SlotInv(Acted(w, a), Count(Asking(w, a), Subject(w, a)))
  {
    var i := Subject(w, a);
    AskedBySubject(w, a, i);
    var s, asks := w.slots[i], Count(w.asked, i);
    match a
    case Send(_, path, available, encodes) => SendSlotInv(s, asks, path, available, encodes);
    case Reply(k, rows) => ReplySlotInv(s, w.asked[k].path, rows);
    case Refuse(k) => ReplySlotInv(s, w.asked[k].path, []);
    case Forget(_) => LetGoSlotInv(s, asks);
    case LetGo(_) => LetGoSlotInv(s, asks);
    case Fire(_) => FireSlotInv(s, asks);
    case Hold(_) =>
    case Root(_) =>
  }

  /** How many listings of `who` the receiver awaits after an action. */
  lemma AskedBySubject(w: World, a: Action, who: nat)
    requires Inv(w) && Enabled(w, a)
    ensures Count(Asking(w, a), who) ==
            match a
            case Send(i, _, true, true) => if who == i then 1 else Count(w.asked, who)
            case Reply(k, _) => Count(w.asked, who) - (if w.asked[k].who == who then 1 else 0)
            case Refuse(k) => Count(w.asked, who) - (if w.asked[k].who == who then 1 else 0)
            case Forget(k) => Count(w.asked, who) - (if w.asked[k].who == who then 1 else 0)
            case _ => Count(w.asked, who)
  {
    match a
    case Send(i, path, true, true) =>
      CountOthers(w.asked, i, who);
      CountAppend(Others(w.asked, i), [Ask(i, Normal(path))], who);
      CountOne(Ask(i, Normal(path)), who);
    case Reply(k, _) => CountWithout(w.asked, k, who);
    case Refuse(k) => CountWithout(w.asked, k, who);
    case Forget(k) => CountWithout(w.asked, k, who);
    case _ =>
  }

  lemma NewestKept(w: World, a: Action)
    requires Inv(w) && Enabled(w, a)
    ensures Newest(Next(w, a))
  {
    if !a.Open? {
      SubjectCount(w, a);
      CountOthers(w.asked, Subject(w, a), 0);
      var t := Next(w, a);
      forall k | 0 <= k < |t.asked|
        ensures t.asked[k].who < |t.slots| && t.slots[t.asked[k].who].newest == Some(t.asked[k].path)
      {
        AskedFrom(w, a, t.asked[k]);
      }
    }
  }

  /** A listing awaited after an action was awaited before, or is the one just asked for. */
  lemma AskedFrom(w: World, a: Action, ask: Ask)
    requires Inv(w) && Enabled(w, a) && !a.Open? && ask in Asking(w, a)
    ensures || (ask in w.asked && !(a.Send? && a.available && a.encodes && ask.who == a.i))
            || (a.Send? && a.available && a.encodes && ask == Ask(a.i, Normal(a.path)))
  {
    if a.Send? {
      CountOthers(w.asked, a.i, 0);
    }
  }

  lemma StepInv(w: World, a: Action)
    requires Inv(w) && Enabled(w, a)
    ensures Inv(Next(w, a))
  {
    NewestKept(w, a);
    var t := Next(w, a);
    forall i | 0 <= i < |t.slots| ensures SlotInv(t.slots[i], Count(t.asked, i)) {
      if a.Open? {
        if i == |w.slots| {
          CountNone(w.asked, i);
        }
      } else {
        AskedBySubject(w, a, i);
        SubjectCount(w, a);
        if i == Subject(w, a) {
          ActedInv(w, a);
        }
      }
    }
  }

  // ---- Runs ----

  predicate Possible(w: World, actions: seq<Action>)
    requires Inv(w)
    decreases actions
  {
    actions != [] ==>
      && Enabled(w, actions[0])
      && (StepInv(w, actions[0]); Possible(Next(w, actions[0]), actions[1..]))
  }

  function Run(w: World, actions: seq<Action>): World
    requires Inv(w) && Possible(w, actions)
    decreases actions
  {
    if actions == [] then w
    else
      StepInv(w, actions[0]);
      Run(Next(w, actions[0]), actions[1..])
  }

  /** Whatever happens, in any order, the invariant holds of every provider. */
  lemma {:induction false} RunInv(w: World, actions: seq<Action>)
    requires Inv(w) && Possible(w, actions)
    ensures Inv(Run(w, actions))
    decreases actions
  {
    if actions != [] {
      StepInv(w, actions[0]);
      RunInv(Next(w, actions[0]), actions[1..]);
    }
  }

  const START := World([], [])

  lemma StartInv()
    ensures Inv(START)
  {
  }

  predicate FromStart(actions: seq<Action>) {
    StartInv();
    Possible(START, actions)
  }

  function Reached(actions: seq<Action>): World
    requires FromStart(actions)
  {
    StartInv();
    Run(START, actions)
  }

  /**
   In every reachable state a provider whose watchdog can go off is alive and in the table,
   one in the table is alive with its watchdog armed, and an error shows no rows.
   */
  lemma NeverGoneWhileArmed(actions: seq<Action>, i: nat)
    requires FromStart(actions) && i < |Reached(actions).slots|
    ensures var p := Reached(actions).slots[i].pane;
            && (p.armed <==> p.pending) && (p.armed ==> p.alive && p.refs > 0)
            && (p.error ==> p.rows == [])
  {
    StartInv();
    RunInv(START, actions);
  }

  /** In every reachable state a pane shows nothing, or the last reply it took, of the folder it names. */
  lemma RowsAreOfThePath(actions: seq<Action>, i: nat)
    requires FromStart(actions) && i < |Reached(actions).slots|
    ensures var s := Reached(actions).slots[i];
            s.pane.rows == [] ||
            (s.answer.Some? && s.pane.rows == s.answer.value.rows && s.pane.path == Normal(s.answer.value.path)
             && !s.pane.error)
  {
    StartInv();
    RunInv(START, actions);
  }

  // ---- Every listing asked for is resolved, once ----

  /** Whether an action is the end of provider `i`'s wait: its reply, its refusal or its watchdog. */
  predicate Ends(w: World, a: Action, i: nat)
    requires Enabled(w, a)
  {
    match a
    case Fire(j) => j == i
    case Reply(k, _) => w.asked[k].who == i
    case Refuse(k) => w.asked[k].who == i
    case _ => false
  }

  /**
   A wait ends by a reply, a refusal or the watchdog and by nothing else, and each of the
   three ends it; the panel is then told the path, once.
   */
  lemma WaitEnds(w: World, a: Action, i: nat)
    requires Inv(w) && Enabled(w, a) && i < |w.slots| && w.slots[i].pane.pending
    ensures var p, q := w.slots[i].pane, Next(w, a).slots[i].pane;
            && (!q.pending <==> Ends(w, a, i))
            && (!q.pending && q.alive ==> q.told == p.told + [q.path])
            && (q.pending && a != Root(i) ==> q.told == p.told && q.rows == p.rows && q.path == p.path)
  {
    if !a.Open? {
      SubjectCount(w, a);
    }
  }

  /** A wait can always end: its watchdog is armed, and going off it leaves an error and no rows. */
  lemma WaitCanEnd(w: World, i: nat)
    requires Inv(w) && i < |w.slots| && w.slots[i].pane.pending
    ensures Enabled(w, Fire(i))
    ensures var p, q := w.slots[i].pane, Next(w, Fire(i)).slots[i].pane;
            !q.pending && !q.armed && q.error && q.rows == [] && q.path == p.path
  {
  }

  /** A reply or refusal nothing waits for changes nothing the panel shows. */
  lemma LateAnswerDropped(w: World, a: Action, i: nat)
    requires Inv(w) && Enabled(w, a) && (a.Reply? || a.Refuse?) && i == w.asked[a.k].who
    requires i < |w.slots| && !w.slots[i].pane.pending
    ensures var p, q := w.slots[i].pane, Next(w, a).slots[i].pane;
            && q.path == p.path && q.error == p.error && q.told == p.told && !q.pending && !q.armed
            && (q.alive ==> q.rows == p.rows)
  {
    SubjectCount(w, a);
  }

  /** A reply that is taken is of the newest listing that went out, and shows its folder. */
  lemma ReplyIsNewest(w: World, k: nat, rows: seq<FileRow>)
    requires Inv(w) && k < |w.asked| && w.asked[k].who < |w.slots|
    requires w.slots[w.asked[k].who].pane.pending && w.slots[w.asked[k].who].owners > 0
    ensures var s := w.slots[w.asked[k].who];
            var q := Next(w, Reply(k, rows)).slots[w.asked[k].who].pane;
            && s.newest.Some? && q.path == Normal(s.newest.value) && q.rows == rows && !q.error
  {
    SubjectCount(w, Reply(k, rows));
  }

  /** An empty path stands for the root, and any other for itself. */
  lemma NormalIs(path: string)
    ensures Normal("") == "/" && (path != "" ==> Normal(path) == path)
  {
  }

  /**
   A refusal that ends a wait leaves the error, no rows, and the path of the newest listing that
   went out, told once; nothing is waited for any more.
   */
  lemma RefusalIsNewest(w: World, k: nat)
    requires Inv(w) && k < |w.asked| && w.asked[k].who < |w.slots|
    requires w.slots[w.asked[k].who].pane.pending && w.slots[w.asked[k].who].owners > 0
    ensures var s := w.slots[w.asked[k].who];
            var q := Next(w, Refuse(k)).slots[w.asked[k].who].pane;
            && s.newest.Some? && q.path == (if s.newest.value == "" then "/" else s.newest.value)
            && q.error && q.rows == [] && q.told == s.pane.told + [q.path] && !q.pending && !q.armed
  {
    SubjectCount(w, Refuse(k));
  }

  /** A listing that goes out is the newest of its provider and the only one awaited, and is waited for. */
  lemma SendAsks(w: World, i: nat, path: string, encodes: bool)
    requires Inv(w) && Enabled(w, Send(i, path, true, encodes))
    ensures var t, to := Next(w, Send(i, path, true, encodes)), if path == "" then "/" else path;
            && t.slots[i].pane.pending && t.slots[i].pane.armed
            && (encodes ==> t.slots[i].newest == Some(to) && Ask(i, to) in t.asked
                            && forall ask | ask in t.asked && ask.who == i :: ask.path == to)
            && (!encodes ==> t.asked == w.asked && t.slots[i].newest == w.slots[i].newest)
  {
    SubjectCount(w, Send(i, path, true, encodes));
    CountOthers(w.asked, i, i);
  }

  /** A server that cannot be asked is not: nothing changes. */
  lemma UnavailableAsksNothing(w: World, i: nat, path: string, encodes: bool)
    requires Inv(w) && Enabled(w, Send(i, path, false, encodes))
    ensures Next(w, Send(i, path, false, encodes)) == w
  {
    SubjectCount(w, Send(i, path, false, encodes));
    assert w.slots[i := w.slots[i]] == w.slots;
  }

  /** A reset shows the empty root without an error and tells so, and a wait goes on. */
  lemma RootShows(w: World, i: nat)
    requires Inv(w) && Enabled(w, Root(i))
    ensures var p, q := w.slots[i].pane, Next(w, Root(i)).slots[i].pane;
            && q.path == "/" && q.rows == [] && !q.error && q.told == p.told + ["/"]
            && q.pending == p.pending && q.armed == p.armed
  {
    SubjectCount(w, Root(i));
  }

  /** A new pane is the root, unread, without an error, and waits for nothing. */
  lemma OpenShows(w: World)
    requires Inv(w)
    ensures var t := Next(w, Open);
            && |t.slots| == |w.slots| + 1 && t.asked == w.asked
            && var s := t.slots[|w.slots|];
               && s.owners == 1 && s.newest == None && s.answer == None
               && s.pane.path == "/" && s.pane.rows == [] && !s.pane.error && !s.pane.pending && !s.pane.armed
               && s.pane.alive && s.pane.refs == 1 && s.pane.told == []
  {
  }

  // ---- The error over every run ----

  predicate Waits(w: World, i: nat) {
    i < |w.slots| && w.slots[i].pane.pending
  }

  /** Whether provider `i`'s last wait to end, since its last reset, ended by a refusal or its watchdog. */
  predicate EndedBadly(w: World, a: Action, i: nat, before: bool)
    requires Enabled(w, a)
  {
    match a
    case Root(j) => j != i && before
    case Fire(j) => j == i || before
    case Reply(k, _) => !(w.asked[k].who == i && Waits(w, i)) && before
    case Refuse(k) => (w.asked[k].who == i && Waits(w, i)) || before
    case _ => before
  }

  predicate LastEndedBadly(w: World, actions: seq<Action>, i: nat, before: bool)
    requires Inv(w) && Possible(w, actions)
    decreases actions
  {
    if actions == [] then before
    else
      StepInv(w, actions[0]);
      LastEndedBadly(Next(w, actions[0]), actions[1..], i, EndedBadly(w, actions[0], i, before))
  }

  predicate HasError(w: World, i: nat) {
    i < |w.slots| && w.slots[i].pane.error
  }

  lemma StepError(w: World, a: Action, i: nat)
    requires Inv(w) && Enabled(w, a)
    ensures HasError(Next(w, a), i) == EndedBadly(w, a, i, HasError(w, i))
  {
    if !a.Open? {
      SubjectCount(w, a);
    }
  }

  lemma {:induction false} RunError(w: World, actions: seq<Action>, i: nat)
    requires Inv(w) && Possible(w, actions)
    ensures HasError(Run(w, actions), i) == LastEndedBadly(w, actions, i, HasError(w, i))
    decreases actions
  {
    if actions != [] {
      StepInv(w, actions[0]);
      StepError(w, actions[0], i);
      RunError(Next(w, actions[0]), actions[1..], i);
    }
  }

  predicate LeftBadly(actions: seq<Action>, i: nat)
    requires FromStart(actions)
  {
    StartInv();
    LastEndedBadly(START, actions, i, false)
  }

  /**
   In every reachable state the error is on exactly when the provider's last wait to end, since
   any reset, ended by a refusal or by the watchdog.
   */
  lemma ErrorIsLastEnd(actions: seq<Action>, i: nat)
    requires FromStart(actions) && i < |Reached(actions).slots|
    ensures Reached(actions).slots[i].pane.error == LeftBadly(actions, i)
  {
    StartInv();
    RunError(START, actions, i);
  }

  /** No action on one provider touches another. */
  lemma OthersUntouched(w: World, a: Action, j: nat)
    requires Inv(w) && Enabled(w, a) && j < |w.slots| && (!a.Open? ==> Subject(w, a) != j)
    ensures Next(w, a).slots[j] == w.slots[j]
  {
    if !a.Open? {
      SubjectCount(w, a);
    }
  }

  /**
   The pending table by itself would let the first reply win: of two requests, whichever
   is answered first is shown and the other answer dropped. Only the receiver's table,
   which forgets the older request, makes the newer one win.
   */
  lemma FirstReplyWins(p: Pane, path1: string, rows1: seq<FileRow>, path2: string, rows2: seq<FileRow>)
    requires p.refs > 1
    ensures var waiting := Sent(Sent(p, true), true);
            Replied(Replied(waiting, path1, rows1), path2, rows2) == Replied(waiting, path1, rows1)
    ensures Replied(Sent(Sent(p, true), true), path1, rows1).path == Normal(path1)
  {
  }
}
