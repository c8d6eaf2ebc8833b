/**
 A local pane (src/files_local_provider.c:22-32, 147-199) and the listings it starts
 (rust/crates/gtkhx-ui/src/files/local.rs:108-176): folders are read by workers and land
 in any order, and one overtaken by a newer request does nothing.
 */
module LocalListing {
  import opened Files
  import opened Wrappers

  datatype Signal = Navigated(path: string) | ErrorFor(path: string)

  /** How a worker ends: the rows it read, with an error when it did not read all, or none. */
  datatype Outcome = Read(rows: seq<FileRow>, partial: bool) | Unreadable | Panicked

  /**
   A provider: its rows, the folder they are of, the folder asked for, the number of
   the newest request, the folders being read by number, and the signals given.
   */
  datatype Pane = Pane(rows: seq<FileRow>, current: string, pending: Option<string>, generation: nat,
                       reading: map<nat, string>, told: seq<Signal>)

  function NewPane(initial: string): Pane {
    Pane([], initial, None, 0, map[], [])
  }

  /** `hx_files_local_list`. */
  function Listing(p: Pane, path: string): Pane {
    if path == "" then p.(told := p.told + [ErrorFor(path)])
    else p.(generation := p.generation + 1, reading := p.reading[p.generation + 1 := path])
  }

  function Navigating(p: Pane, path: string): Pane {
    if path == "" then p else Listing(p.(pending := Some(path)), path)
  }

  function Target(p: Pane): string {
    if p.pending.Some? then p.pending.value else p.current
  }

  function Reloading(p: Pane): Pane {
    Listing(p, Target(p))
  }

  /** What a landing listing of `path` tells. */
  function Tidings(path: string, outcome: Outcome): seq<Signal> {
    match outcome
    case Read(_, partial) => (if partial then [ErrorFor(path)] else []) + [Navigated(path)]
    case Unreadable => [ErrorFor(path)]
    case Panicked => []
  }

  /** A worker ends: request `g`, whatever it read, counts only when it is the newest. */
  function Landing(p: Pane, g: nat, outcome: Outcome): Pane
    requires g in p.reading
  {
    var path, q := p.reading[g], p.(reading := p.reading - {g});
    if g != p.generation then q
    else if outcome.Read? then
      q.(rows := outcome.rows, current := path, pending := None, told := q.told + Tidings(path, outcome))
    else q.(pending := None, told := q.told + Tidings(path, outcome))
  }

  // ---- The class ----

  class LocalProvider {
    var listing: seq<FileRow>
    var currentPath: string
    var pendingPath: Option<string>
    var generation: nat
    var reading: map<nat, string>
    var told: seq<Signal>

    function Value(): Pane
      reads this
    {
      Pane(listing, currentPath, pendingPath, generation, reading, told)
    }

    constructor (initialPath: string)
      ensures Value() == NewPane(initialPath)
    {
      listing, currentPath, pendingPath := [], initialPath, None;
      generation, reading, told := 0, map[], [];
    }

    method Tell(signal: Signal)
      modifies `told
      ensures told == old(told) + [signal]
    {
      told := told + [signal];
    }

    method StartListing(path: string)
      modifies `generation, `reading, `told
      ensures Value() == Listing(old(Value()), path)
    {
      if path == "" {
        Tell(ErrorFor(path));
        return;
      }
      generation := generation + 1;
      reading := reading[generation := path];
    }

    method OnListDone(path: string, listed: bool)
      modifies `currentPath, `pendingPath
      ensures pendingPath == None && currentPath == if listed then path else old(currentPath)
    {
      if listed {
        currentPath := path;
      }
      pendingPath := None;
    }

    method EndListing(g: nat, outcome: Outcome)
      requires g in reading
      modifies this
      ensures Value() == Landing(old(Value()), g, outcome)
    {
      var path := reading[g];
      reading := reading - {g};
      if g != generation {
        return;
      }
      match outcome
      case Read(rows, partial) =>
        listing := rows;
        OnListDone(path, true);
        if partial {
          Tell(ErrorFor(path));
        }
        Tell(Navigated(path));
      case Unreadable =>
        OnListDone(path, false);
        Tell(ErrorFor(path));
      case Panicked =>
        OnListDone(path, false);
    }

    method Navigate(path: string)
      modifies this
      ensures Value() == Navigating(old(Value()), path)
    {
      if path == "" {
        return;
      }
      pendingPath := Some(path);
      StartListing(path);
    }

    method Reload()
      modifies this
      ensures Value() == Reloading(old(Value()))
    {
      StartListing(if pendingPath.Some? then pendingPath.value else currentPath);
    }
  }

  // ---- Runs ----

  datatype Event = Go(path: string) | Again | Land(g: nat, outcome: Outcome)

  predicate Enabled(p: Pane, e: Event) {
    e.Land? ==> e.g in p.reading
  }

  function Step(p: Pane, e: Event): Pane
    requires Enabled(p, e)
  {
    match e
    case Go(path) => Navigating(p, path)
    case Again => Reloading(p)
    case Land(g, outcome) => Landing(p, g, outcome)
  }

  predicate Possible(p: Pane, events: seq<Event>)
    decreases events
  {
    events != [] ==> Enabled(p, events[0]) && Possible(Step(p, events[0]), events[1..])
  }

  function Run(p: Pane, events: seq<Event>): Pane
    requires Possible(p, events)
    decreases events
  {
    if events == [] then p else Run(Step(p, events[0]), events[1..])
  }

  /** What the newest listing read in full or in part was of, and what it held. */
  datatype Shown = Nothing | Folder(path: string, rows: seq<FileRow>)

  /** The last folder a run's landings put in the pane, told from the events alone. */
  function LastShown(p: Pane, events: seq<Event>, before: Shown): Shown
    requires Possible(p, events)
    decreases events
  {
    if events == [] then before else
    var e := events[0];
    LastShown(Step(p, e), events[1..],
              if e.Land? && e.g == p.generation && e.outcome.Read? then Folder(p.reading[e.g], e.outcome.rows) else before)
  }

  /** A folder asked for is the one the newest request reads, and no request is yet to come. */
  predicate Inv(p: Pane) {
    && (forall g | g in p.reading :: g <= p.generation && p.reading[g] != "")
    && (p.pending.Some? ==> p.generation in p.reading && p.reading[p.generation] == p.pending.value)
  }

  lemma StepInv(p: Pane, e: Event)
    requires Inv(p) && Enabled(p, e)
    ensures Inv(Step(p, e))
  {
  }

  lemma {:induction false} RunInv(p: Pane, events: seq<Event>)
    requires Inv(p) && Possible(p, events)
    ensures Inv(Run(p, events))
    decreases events
  {
    if events != [] {
      StepInv(p, events[0]);
      RunInv(Step(p, events[0]), events[1..]);
    }
  }

  predicate Shows(p: Pane, shown: Shown, initial: string) {
    match shown
    case Nothing => p.rows == [] && p.current == initial
    case Folder(path, rows) => p.rows == rows && p.current == path
  }

  /** Over every run the current path is the folder whose rows are shown: a name joins onto its own. */
  lemma {:induction false} PathIsShown(p: Pane, events: seq<Event>, before: Shown, initial: string)
    requires Possible(p, events) && Shows(p, before, initial)
    ensures Shows(Run(p, events), LastShown(p, events, before), initial)
    decreases events
  {
    if events != [] {
      var e := events[0];
      PathIsShown(Step(p, e), events[1..],
                  if e.Land? && e.g == p.generation && e.outcome.Read? then Folder(p.reading[e.g], e.outcome.rows) else before,
                  initial);
    }
  }

  /** No new folder asked for, and no listing but overtaken ones landing: reloads, as many as may be. */
  predicate Waiting(p: Pane, events: seq<Event>)
    requires Possible(p, events)
    decreases events
  {
    events != [] ==>
      && (events[0].Go? ==> events[0].path == "")
      && (events[0].Land? ==> events[0].g != p.generation)
      && Waiting(Step(p, events[0]), events[1..])
  }

  /** Reloads, and landings of what they overtook, leave a navigation on its way. */
  lemma {:induction false} NavigationSurvives(p: Pane, events: seq<Event>, path: string)
    requires Inv(p) && p.pending == Some(path) && Possible(p, events) && Waiting(p, events)
    ensures var q := Run(p, events);
            && Inv(q) && q.pending == Some(path) && q.generation in q.reading && q.reading[q.generation] == path
            && q.current == p.current && q.rows == p.rows && q.told == p.told
    decreases events
  {
    if events != [] {
      StepInv(p, events[0]);
      NavigationSurvives(Step(p, events[0]), events[1..], path);
    }
  }

  /**
   From any state a run reaches: navigate, let reloads and overtaken listings come and go,
   and the next listing to count is the folder asked for. Read, it is what the pane shows;
   unread, the pane is as it was.
   */
  lemma NavigationLands(initial: string, before: seq<Event>, path: string, events: seq<Event>, outcome: Outcome, p: Pane)
    requires path != "" && Possible(NewPane(initial), before) && p == Run(NewPane(initial), before)
    requires Possible(Navigating(p, path), events) && Waiting(Navigating(p, path), events)
    ensures var q := Run(Navigating(p, path), events);
            && Enabled(q, Land(q.generation, outcome))
            && var r := Step(q, Land(q.generation, outcome));
               && r.pending == None && r.current == (if outcome.Read? then path else p.current)
               && r.rows == (if outcome.Read? then outcome.rows else p.rows)
               && q.told == p.told && r.told == p.told + Tidings(path, outcome)
  {
    RunInv(NewPane(initial), before);
    StepInv(p, Go(path));
    NavigationSurvives(Navigating(p, path), events, path);
  }

  // ---- One step at a time ----

  /** A new pane shows nothing of the folder it starts at, and nothing is asked for. */
  lemma PaneStarts(initial: string)
    ensures var p := NewPane(initial);
            && p.rows == [] && p.current == initial && p.pending == None && p.told == []
            && (forall g :: g !in p.reading) && Inv(p) && Shows(p, Nothing, initial)
  {
  }

  /**
   A folder asked for, by a navigation to it or by a reload of the one asked for or else shown,
   is read under a number of its own, the newest; an empty path reads nothing, and a reload of
   one tells of an error.
   */
  lemma AskReads(p: Pane, path: string)
    requires Inv(p)
    ensures path != "" ==>
              var q := Navigating(p, path);
              q.pending == Some(path) && q.generation == p.generation + 1 && q.reading == p.reading[q.generation := path]
              && q.rows == p.rows && q.current == p.current && q.told == p.told
    ensures Navigating(p, "") == p
    ensures var q, folder := Reloading(p), match p.pending { case Some(asked) => asked case None => p.current };
            if folder == "" then q == p.(told := p.told + [ErrorFor("")])
            else q.generation == p.generation + 1 && q.reading == p.reading[q.generation := folder]
                 && q.rows == p.rows && q.current == p.current && q.pending == p.pending && q.told == p.told
  {
  }

  /**
   A listing that counts tells that its folder was entered when it was read, with an error first
   when it was read in part; an unreadable one tells an error alone, and one whose worker failed
   nothing. One that was overtaken is over and does nothing else.
   */
  lemma LandingTells(p: Pane, outcome: Outcome)
    requires Inv(p) && p.generation in p.reading
    ensures var q, path := Landing(p, p.generation, outcome), p.reading[p.generation];
            && q.pending == None && p.generation !in q.reading
            && (outcome.Read? ==> q.rows == outcome.rows && q.current == path)
            && (outcome.Read? ==>
                  q.told == p.told + (if outcome.partial then [ErrorFor(path), Navigated(path)] else [Navigated(path)]))
            && (outcome.Unreadable? ==> q.told == p.told + [ErrorFor(path)])
            && (outcome.Panicked? ==> q.told == p.told)
            && (!outcome.Read? ==> q.rows == p.rows && q.current == p.current)
    ensures forall g | g in p.reading && g != p.generation ::
              Landing(p, g, outcome).(reading := p.reading) == p && g !in Landing(p, g, outcome).reading
  {
  }
}
