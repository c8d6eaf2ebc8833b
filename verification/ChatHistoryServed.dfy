/**
 A conversation's history and the server it asks: the requests on their way, what
 `loading` says about them, what a connection that closes leaves behind, and what the
 server's contract for a cursor (src/chat_history.h:59-72) gives the view.
 */
module ChatHistoryServed {
  import opened Wrappers
  import opened ChatHistory
  import opened ChatHistoryProofs
  import opened ChatHistoryRuns
  import opened ChatHistoryOrder

  /** The fetch that follows a login, and the page before a message. */
  datatype Request = Initial | OlderThan(before: nat)

  /** The connection: none, one whose login has not settled, or one whose fetch was made. */
  datatype Line = Closed | Joining | Joined

  datatype World = World(view: State, pending: seq<Request>, line: Line)

  /**
   The server may answer any request on its way, and not only the oldest. `Connect` lets an
   older connection go and clears the rows (src/network.c:349-354); `Fetch` follows the login,
   once a connection (src/rcv.c:66-69), and sends or not; `Close` is the connection closing
   (src/network.c:190), which answers nothing; `Wipe` is the user's clear
   (src/commands.c:395-398).
   */
  datatype Action =
    | Connect
    | Fetch(sent: bool)
    | ClickOlder(sent: bool)
    | Reply(k: nat, entries: seq<Option<Entry>>, more: bool)
    | Say(text: string)
    | Close
    | Wipe

  /** What a reply answers is on its way. */
  predicate Ready(w: World, a: Action) {
    a.Reply? ==> a.k < |w.pending|
  }

  /** The sentinel's row is in the view, to be clicked. */
  predicate Offered(s: State) {
    s.loadOlder.Some? && Posted(s) && s.rows[Find(s.rows, s.loadOlder.value)].content.Older?
  }

  /**
   What can happen next: a click needs the sentinel's row (src/chat.c:1115-1117), and sends
   nothing once the connection closed, whose capabilities are gone (src/network.c:113).
   */
  predicate Enabled(w: World, a: Action) {
    match a
    case Fetch(_) => w.line.Joining?
    case ClickOlder(sent) => Offered(w.view) && (w.line.Closed? ==> !sent)
    case Reply(k, _, _) => k < |w.pending|
    case _ => true
  }

  /** The event an action is to the view. */
  function EventOf(a: Action): Event
    requires !a.Fetch? && !a.Close?
  {
    match a
    case Connect => ClearEvent
    case ClickOlder(sent) => ClickEvent(sent)
    case Reply(_, entries, more) => BatchEvent(entries, more)
    case Say(text) => LineEvent(text)
    case Wipe => ClearEvent
  }

  function Next(w: World, a: Action): World
    requires Ready(w, a)
  {
    match a
    case Connect => World(Clear(w.view), [], Joining)
    case Fetch(sent) => w.(pending := if sent then w.pending + [Initial] else w.pending, line := Joined)
    case ClickOlder(sent) =>
      w.(view := Click(w.view, sent),
         pending := if w.view.loading || !sent then w.pending else w.pending + [OlderThan(w.view.oldest)])
    case Reply(k, entries, more) =>
      w.(view := Batch(w.view, entries, more), pending := w.pending[..k] + w.pending[k + 1..])
    case Say(text) => w.(view := Append(w.view, Line(text)))
    case Close => w.(pending := [], line := Closed)
    case Wipe => w.(view := Clear(w.view))
  }

  // ---- `loading` and the request in flight ----

  function Asked(pending: seq<Request>): nat {
    if pending == [] then 0 else (if pending[0].OlderThan? then 1 else 0) + Asked(pending[1..])
  }

  lemma {:induction false} AskedAppend(x: seq<Request>, y: seq<Request>)
    ensures Asked(x + y) == Asked(x) + Asked(y)
  {
    if x == [] {
      assert x + y == y;
    } else {
      assert (x + y)[1..] == x[1..] + y;
      AskedAppend(x[1..], y);
    }
  }

  lemma {:induction false} AskedSome(pending: seq<Request>, k: nat)
    requires k < |pending| && pending[k].OlderThan?
    ensures Asked(pending) > 0
  {
    if k > 0 {
      AskedSome(pending[1..], k - 1);
    }
  }

  lemma AskedWithout(pending: seq<Request>, k: nat)
    requires k < |pending|
    ensures Asked(pending[..k] + pending[k + 1..]) == Asked(pending) - (if pending[k].OlderThan? then 1 else 0)
  {
    AskedAppend(pending[..k], pending[k..]);
    AskedAppend(pending[..k], pending[k + 1..]);
    assert pending[..k] + pending[k..] == pending;
    assert pending[k..][1..] == pending[k + 1..];
  }

  /** `loading` holds exactly while one older page is unanswered. */
  predicate Matches(w: World) {
    Asked(w.pending) == if w.view.loading then 1 else 0
  }

  lemma ClickLoads(s: State, sent: bool)
    ensures Click(s, sent).loading == (s.loading || sent) && Click(s, sent).oldest == s.oldest
  {
  }

  /** A batch that answers the login while `loading` holds is taken for the page awaited. */
  predicate Mistaken(w: World, a: Action)
    requires Ready(w, a)
  {
    a.Reply? && w.pending[a.k].Initial? && w.view.loading
  }

  /** The connection goes while `loading` holds. */
  predicate Abandoned(w: World, a: Action) {
    (a.Close? || a.Connect?) && w.view.loading
  }

  /**
   In any state, a step keeps `loading` true to the requests in flight if and only if it is
   neither the login's batch nor the connection going while an older page is awaited.
   */
  lemma LatchKept(w: World, a: Action)
    requires Ready(w, a) && Matches(w)
    ensures Matches(Next(w, a)) <==> !Mistaken(w, a) && !Abandoned(w, a)
  {
    match a
    case Connect =>
    case Fetch(_) => AskedAppend(w.pending, [Initial]);
    case ClickOlder(sent) =>
      ClickLoads(w.view, sent);
      AskedAppend(w.pending, [OlderThan(w.view.oldest)]);
    case Reply(k, entries, more) =>
      AskedWithout(w.pending, k);
      BatchIdle(w.view, entries, more);
      if w.pending[k].OlderThan? {
        AskedSome(w.pending, k);
      }
    case Say(_) =>
    case Close =>
    case Wipe =>
  }

  /**
   The first of the two needs a click in a view with no sentinel: after it the login's batch
   ends the wait, with the page still to come.
   */
  lemma LoginBreaksLatch(entries: seq<Option<Entry>>, more: bool, w: World)
    requires w == World(FRESH, [Initial], Joined)
    ensures !Enabled(w, ClickOlder(true))
    ensures var t := Next(Next(w, ClickOlder(true)), Reply(0, entries, more));
            !t.view.loading && t.pending == [OlderThan(0)] && !Matches(t)
  {
    var clicked := Next(w, ClickOlder(true));
    assert clicked.pending == [Initial, OlderThan(0)];
    BatchIdle(clicked.view, entries, more);
    AskedSome([OlderThan(0)], 0);
  }

  // ---- Runs ----

  /** The actions can follow one another. */
  predicate Possible(w: World, actions: seq<Action>)
    decreases actions
  {
    actions != [] ==> Enabled(w, actions[0]) && Possible(Next(w, actions[0]), actions[1..])
  }

  function Runs(w: World, actions: seq<Action>): World
    requires Possible(w, actions)
    decreases actions
  {
    if actions == [] then w else Runs(Next(w, actions[0]), actions[1..])
  }

  const START := World(FRESH, [], Closed)

  lemma OneMore(w: World, a: Action, rest: seq<Action>)
    requires Enabled(w, a) && Possible(Next(w, a), rest)
    ensures Possible(w, [a] + rest) && Runs(w, [a] + rest) == Runs(Next(w, a), rest)
  {
    assert ([a] + rest)[1..] == rest;
  }

  // ---- The login's batch comes before any page is asked for ----

  predicate OnlyLines(rows: seq<Row>) {
    forall i | 0 <= i < |rows| :: rows[i].content.Line?
  }

  /**
   While the login's fetch is to come, or on its way, nothing else is asked for, and the view
   has nothing but lines since the connect cleared it.
   */
  predicate Early(w: World) {
    match w.line
    case Closed => w.pending == []
    case Joining => w.pending == [] && OnlyLines(w.view.rows)
    case Joined => Initial in w.pending ==> w.pending == [Initial] && OnlyLines(w.view.rows)
  }

  lemma LinesOfferNothing(s: State)
    requires OnlyLines(s.rows)
    ensures !Offered(s)
  {
  }

  lemma EarlyKept(w: World, a: Action)
    requires Early(w) && Enabled(w, a)
    ensures Early(Next(w, a))
  {
    match a
    case Connect =>
    case Fetch(_) =>
    case ClickOlder(_) =>
      if OnlyLines(w.view.rows) {
        LinesOfferNothing(w.view);
      }
    case Reply(k, _, _) => AnsweredOnce(w.pending, k);
    case Say(_) =>
    case Close =>
    case Wipe =>
  }

  lemma AnsweredOnce(pending: seq<Request>, k: nat)
    requires k < |pending| && (Initial in pending ==> pending == [Initial])
    ensures Initial !in pending[..k] + pending[k + 1..]
    ensures pending[k].Initial? ==> pending == [Initial]
  {
    assert pending[k] in pending;
  }

  lemma {:induction false} RunEarly(w: World, actions: seq<Action>)
    requires Early(w) && Possible(w, actions)
    ensures Early(Runs(w, actions))
    decreases actions
  {
    if actions != [] {
      EarlyKept(w, actions[0]);
      RunEarly(Next(w, actions[0]), actions[1..]);
    }
  }

  /** No login is answered while an older page is on its way. */
  lemma LoginComesFirst(w: World, k: nat)
    requires Early(w) && k < |w.pending| && w.pending[k].Initial?
    ensures Asked(w.pending) == 0 && OnlyLines(w.view.rows)
  {
    assert w.pending[k] in w.pending;
  }

  /**
   Along every run from the start a step from a right latch leaves it right if and only if it
   is not the connection going while an older page is awaited.
   */
  lemma OnlyGoingBreaks(actions: seq<Action>, w: World, a: Action)
    requires Possible(START, actions) && w == Runs(START, actions)
    requires Enabled(w, a) && Matches(w)
    ensures Matches(Next(w, a)) <==> !Abandoned(w, a)
  {
    RunEarly(START, actions);
    LatchKept(w, a);
    if a.Reply? && w.pending[a.k].Initial? {
      LoginComesFirst(w, a.k);
    }
  }

  predicate NoConnect(actions: seq<Action>) {
    forall a | a in actions :: !a.Connect?
  }

  /** Nothing is on its way, and no row can be clicked for more. */
  predicate Idle(w: World) {
    w.pending == [] && !w.line.Joining? && NoMarker(w.view.rows)
  }

  lemma AppendPlain(rows: seq<Row>, row: Row)
    requires NoMarker(rows) && !IsMarker(row.content)
    ensures NoMarker(rows + [row])
  {
  }

  /** After a clear with nothing on its way, no older page is asked for before the next connection. */
  lemma {:induction false} ClearEndsPaging(w: World, actions: seq<Action>)
    requires Idle(w) && Possible(w, actions) && NoConnect(actions)
    ensures Idle(Runs(w, actions))
    decreases actions
  {
    if actions != [] {
      var a := actions[0];
      assert a in actions;
      if a.Say? {
        AppendPlain(w.view.rows, Row(w.view.next, Line(a.text)));
      }
      ClearEndsPaging(Next(w, a), actions[1..]);
    }
  }

  // ---- A connection that closes with a page awaited ----

  /** `loading` holds with no older page on its way. */
  predicate Stuck(w: World) {
    w.view.loading && Asked(w.pending) == 0
  }

  lemma FirstBatchOffers(s: State, entries: seq<Option<Entry>>, t: State)
    requires Inv(s) && !s.loading && entries != [] && t == Batch(s, entries, true)
    ensures Offered(t) && !t.loading
  {
    BatchInv(s, entries, true);
    BatchIdle(s, entries, true);
  }

  /** A connection, its first batch with more to come, a click, and the connection closes. */
  function ClosedOn(entries: seq<Option<Entry>>): seq<Action> {
    [Connect] + ([Fetch(true)] + ([Reply(0, entries, true)] + ([ClickOlder(true)] + ([Close] + []))))
  }

  /** A connection is made, its fetch is sent, and the reply comes. */
  lemma FirstReply(w: World, entries: seq<Option<Entry>>, more: bool, rest: seq<Action>, t: World)
    requires t == World(Batch(Clear(w.view), entries, more), [], Joined) && Possible(t, rest)
    ensures var actions := [Connect] + ([Fetch(true)] + ([Reply(0, entries, more)] + rest));
            Possible(w, actions) && Runs(w, actions) == Runs(t, rest)
  {
    var w1, w2 := World(Clear(w.view), [], Joining), World(Clear(w.view), [Initial], Joined);
    assert Next(w, Connect) == w1 && Next(w1, Fetch(true)) == w2;
    assert Next(w2, Reply(0, entries, more)) == t;
    OneMore(w2, Reply(0, entries, more), rest);
    OneMore(w1, Fetch(true), [Reply(0, entries, more)] + rest);
    OneMore(w, Connect, [Fetch(true)] + ([Reply(0, entries, more)] + rest));
  }

  lemma ClickAndClose(w: World, s: State)
    requires w == World(s, [], Joined) && Offered(s) && !s.loading
    ensures var actions := [ClickOlder(true)] + ([Close] + []);
            Possible(w, actions) && Runs(w, actions) == World(Click(s, true), [], Closed)
  {
    var w1, w2 := World(Click(s, true), [OlderThan(s.oldest)], Joined), World(Click(s, true), [], Closed);
    assert Next(w, ClickOlder(true)) == w1 && Next(w1, Close) == w2;
    OneMore(w1, Close, []);
    OneMore(w, ClickOlder(true), [Close] + []);
  }

  lemma CloseBreaksLatch(entries: seq<Option<Entry>>)
    requires entries != []
    ensures Possible(START, ClosedOn(entries))
    ensures Stuck(Runs(START, ClosedOn(entries))) && !Matches(Runs(START, ClosedOn(entries)))
  {
    var s := Batch(Clear(FRESH), entries, true);
    FirstBatchOffers(Clear(FRESH), entries, s);
    ClickLoads(s, true);
    ClickAndClose(World(s, [], Joined), s);
    FirstReply(START, entries, true, [ClickOlder(true)] + ([Close] + []), World(s, [], Joined));
  }

  predicate Answered(actions: seq<Action>) {
    actions != [] && (actions[0].Reply? || Answered(actions[1..]))
  }

  /** Until a reply comes, the latch stays, no older page is asked for, and a click does nothing. */
  lemma {:induction false} StuckStays(w: World, actions: seq<Action>, sent: bool)
    requires Stuck(w) && Possible(w, actions) && !Answered(actions)
    ensures var t := Runs(w, actions); Stuck(t) && Next(t, ClickOlder(sent)) == t
    decreases actions
  {
    if actions != [] {
      var t := Next(w, actions[0]);
      AskedAppend(w.pending, [Initial]);
      StuckStays(t, actions[1..], sent);
    }
  }

  /** A batch that comes while `loading` holds, with nothing in it or not, as an older page. */
  lemma AwaitedRows(s: State, entries: seq<Option<Entry>>, more: bool, page: seq<Row>)
    requires Inv(s) && s.loading && page == Drawn(Present(entries), s.next + |Sentinel(more, 0)|)
    ensures Plain(Batch(s, entries, more).rows)
         == Insert(Plain(s.rows), if s.anchor.Some? then AnchorAt(s) else |Plain(s.rows)|,
                   PageRows(s.rows, s.anchor, true, page))
  {
    if entries == [] && !more {
      assert page == [] && Reversed(page) == [];
      EmptyInserts(s, more, if s.anchor.Some? then AnchorAt(s) else |Plain(s.rows)|);
    } else {
      OlderInserts(s, entries, more, page);
    }
  }

  lemma AwaitedKeepsAnchor(s: State, entries: seq<Option<Entry>>, more: bool)
    requires s.loading
    ensures Batch(s, entries, more).anchor == s.anchor
  {
  }

  /**
   The next reply, which can only be a login's, lands as an older page, with no divider, and
   the latch is right again.
   */
  lemma StuckEnds(w: World, k: nat, entries: seq<Option<Entry>>, more: bool, page: seq<Row>, t: World)
    requires Stuck(w) && Inv(w.view) && k < |w.pending| && t == Next(w, Reply(k, entries, more))
    requires page == Drawn(Present(entries), w.view.next + |Sentinel(more, 0)|)
    ensures w.pending[k].Initial? && Matches(t) && !t.view.loading && t.view.anchor == w.view.anchor
    ensures Plain(t.view.rows)
         == Insert(Plain(w.view.rows), if w.view.anchor.Some? then AnchorAt(w.view) else |Plain(w.view.rows)|,
                   PageRows(w.view.rows, w.view.anchor, true, page))
  {
    if w.pending[k].OlderThan? {
      AskedSome(w.pending, k);
    }
    AskedWithout(w.pending, k);
    BatchIdle(w.view, entries, more);
    AwaitedKeepsAnchor(w.view, entries, more);
    AwaitedRows(w.view, entries, more, page);
  }

  /** Another connection is made: the rows go, and the history is fetched. */
  function Reconnect(entries: seq<Option<Entry>>, more: bool): seq<Action> {
    [Connect] + ([Fetch(true)] + ([Reply(0, entries, more)] + []))
  }

  lemma ReconnectIsPossible(w: World, entries: seq<Option<Entry>>, more: bool)
    ensures Possible(w, Reconnect(entries, more))
    ensures Runs(w, Reconnect(entries, more)) == World(Batch(Clear(w.view), entries, more), [], Joined)
  {
    FirstReply(w, entries, more, [], World(Batch(Clear(w.view), entries, more), [], Joined));
  }

  lemma NothingAfter(rows: seq<Row>)
    ensures rows + [] == rows && [] + rows == rows
  {
  }

  /**
   A history alone in the view: framed by its dividers, the closing one marked `end`, or turned
   round without them.
   */
  function HistoryRows(turned: bool, count: nat, more: bool, next: nat, page: seq<Row>, end: nat): seq<Row> {
    if turned then Reversed(page) + Sentinel(more, next)
    else Sentinel(more, next + 1) + [Row(next, Opening(count))] + page + [Row(end, Closing)]
  }

  /** A batch into a view that was cleared while a page was awaited. */
  lemma TurnedBatch(s: State, entries: seq<Option<Entry>>, more: bool, page: seq<Row>, end: nat)
    requires Inv(s) && s.rows == [] && s.loading && s.anchor.Some? && entries != []
    requires page == Drawn(Present(entries), s.next + |Sentinel(more, 0)|)
    ensures Batch(s, entries, more).rows == HistoryRows(true, |entries|, more, s.next, page, end)
  {
    StaleRows(s, entries, more, page);
    NothingAfter(Sentinel(more, s.next));
  }

  /** A batch into a view that was cleared while none was. */
  lemma FramedBatch(s: State, entries: seq<Option<Entry>>, more: bool, page: seq<Row>, end: nat)
    requires Inv(s) && s.rows == [] && !s.loading && entries != []
    requires page == Drawn(Present(entries), s.next + 1 + |Sentinel(more, 0)|)
    requires end == s.next + 1 + |Sentinel(more, 0)| + |Present(entries)|
    ensures Batch(s, entries, more).rows == HistoryRows(false, |entries|, more, s.next, page, end)
  {
    InitialRows(s, entries, more, page, Row(end, Closing));
    NothingAfter(Sentinel(more, s.next + 1));
  }

  lemma ClearedBatch(s: State, entries: seq<Option<Entry>>, more: bool, next: nat, page: seq<Row>)
    requires Inv(s) && s.rows == [] && s.anchor.Some? && entries != []
    requires next == s.next + |Sentinel(more, 0)| + (if s.loading then 0 else 1)
    requires page == Drawn(Present(entries), next)
    ensures Batch(s, entries, more).rows
         == HistoryRows(s.loading, |entries|, more, s.next, page, next + |Present(entries)|)
  {
    if s.loading {
      TurnedBatch(s, entries, more, page, next + |Present(entries)|);
    } else {
      FramedBatch(s, entries, more, page, next + |Present(entries)|);
    }
  }

  /**
   What a new connection's history looks like: a block between two dividers in the order it
   came, under the sentinel, or, when the old connection closed with a page awaited, turned
   round, with no divider, and above the sentinel.
   */
  lemma ReconnectRows(w: World, entries: seq<Option<Entry>>, more: bool, next: nat, page: seq<Row>, t: World)
    requires Inv(w.view) && w.view.anchor.Some? && entries != []
    requires next == w.view.next + |Sentinel(more, 0)| + (if w.view.loading then 0 else 1)
    requires page == Drawn(Present(entries), next)
    requires Possible(w, Reconnect(entries, more)) && t == Runs(w, Reconnect(entries, more))
    ensures Matches(t) && !t.view.loading
    ensures t.view.rows == HistoryRows(w.view.loading, |entries|, more, w.view.next, page, next + |Present(entries)|)
  {
    ReconnectIsPossible(w, entries, more);
    StepInv(w.view, ClearEvent);
    BatchIdle(Clear(w.view), entries, more);
    ClearedBatch(Clear(w.view), entries, more, next, page);
  }

  // ---- What the server's contract gives ----

  predicate OnlyOnce(ids: multiset<nat>) {
    forall id | id in ids :: ids[id] == 1
  }

  /** What the server answers with: messages, each once, and below the cursor when there is one. */
  predicate Contract(w: World, k: nat, page: seq<nat>)
    requires k < |w.pending|
  {
    && 0 !in page && OnlyOnce(multiset(page))
    && (w.pending[k].OlderThan? && w.pending[k].before != 0 ==>
          forall i | 0 <= i < |page| :: page[i] < w.pending[k].before)
  }

  predicate Proper(w: World, a: Action)
    requires Ready(w, a)
  {
    a.Reply? ==> Contract(w, a.k, EntryIds(Present(a.entries)))
  }

  /** A run in which the server keeps its contract. */
  predicate Orderly(w: World, actions: seq<Action>)
    requires Possible(w, actions)
    decreases actions
  {
    actions != [] ==> Proper(w, actions[0]) && Orderly(Next(w, actions[0]), actions[1..])
  }

  /** One older page at most is on its way, and while it is, `loading` holds. */
  predicate Latched(w: World) {
    Asked(w.pending) <= 1 && (Asked(w.pending) == 1 ==> w.view.loading)
  }

  /** A connection going keeps this half of `Matches`; only a login's batch can break it. */
  lemma LatchedKept(w: World, a: Action)
    requires Ready(w, a) && Latched(w)
    ensures Latched(Next(w, a)) <==> !(a.Reply? && w.pending[a.k].Initial? && Asked(w.pending) == 1)
  {
    match a
    case Connect =>
    case Fetch(_) => AskedAppend(w.pending, [Initial]);
    case ClickOlder(sent) =>
      ClickLoads(w.view, sent);
      AskedAppend(w.pending, [OlderThan(w.view.oldest)]);
    case Reply(k, entries, more) =>
      AskedWithout(w.pending, k);
      BatchIdle(w.view, entries, more);
      if w.pending[k].OlderThan? {
        AskedSome(w.pending, k);
      }
    case Say(_) =>
    case Close =>
    case Wipe =>
  }

  /** The awaited page was asked for with the cursor as it still stands. */
  predicate Current(w: World) {
    forall k | 0 <= k < |w.pending| && w.pending[k].OlderThan? :: w.pending[k].before == w.view.oldest
  }

  /** The cursor is no higher than any id shown. */
  predicate Floor(o: nat, ids: seq<nat>) {
    forall i | 0 <= i < |ids| :: 0 < o <= ids[i]
  }

  /** `loading` covers the page on its way, the cursor is below what is shown, nothing is shown twice. */
  predicate Sound(w: World) {
    && Inv(w.view) && Early(w) && Latched(w) && Current(w)
    && Floor(w.view.oldest, Ids(Plain(w.view.rows))) && OnlyOnce(Shown(w.view))
  }

  lemma NoneAsked(pending: seq<Request>)
    requires Asked(pending) == 0
    ensures forall k | 0 <= k < |pending| :: !pending[k].OlderThan?
  {
    forall k | 0 <= k < |pending| ensures !pending[k].OlderThan? {
      if pending[k].OlderThan? {
        AskedSome(pending, k);
        assert false;
      }
    }
  }

  lemma CurrentKept(w: World, a: Action)
    requires Enabled(w, a) && Early(w) && Latched(w) && Current(w)
    ensures Current(Next(w, a))
  {
    match a
    case Connect =>
    case Fetch(_) =>
    case ClickOlder(sent) =>
      ClickLoads(w.view, sent);
      if !w.view.loading {
        NoneAsked(w.pending);
      }
    case Reply(k, entries, more) =>
      AskedWithout(w.pending, k);
      if w.pending[k].OlderThan? {
        AskedSome(w.pending, k);
      } else {
        LoginComesFirst(w, k);
      }
      NoneAsked(Next(w, a).pending);
    case Say(_) =>
    case Close =>
    case Wipe =>
  }

  lemma FloorFalls(o: nat, x: seq<nat>, all: seq<nat>, page: seq<nat>, l: nat)
    requires Floor(o, x) && IsLowest(l, [o] + page) && multiset(all) == multiset(x) + multiset(page)
    requires 0 !in page
    ensures Floor(l, all)
  {
    var both := [o] + page;
    forall i | 0 <= i < |all| ensures 0 < l <= all[i] {
      assert all[i] in multiset(all);
      if all[i] in multiset(x) {
        assert all[i] in x;
        assert both[0] == o;
      } else {
        assert all[i] in page;
        var j :| 0 <= j < |page| && page[j] == all[i];
        assert both[j + 1] == all[i];
      }
    }
  }

  lemma BelowFloor(o: nat, ids: seq<nat>, id: nat)
    requires Floor(o, ids) && id < o
    ensures id !in ids
  {
  }

  lemma {:induction false} LinesShowNothing(rows: seq<Row>)
    requires OnlyLines(rows)
    ensures Ids(Plain(rows)) == []
  {
    if rows != [] {
      assert rows[0].content.Line?;
      LinesShowNothing(rows[1..]);
      IdsAppend([rows[0]], Plain(rows[1..]));
    }
  }

  lemma FloorIsPositive(o: nat, ids: seq<nat>)
    requires Floor(o, ids)
    ensures ids == [] || 0 < o
  {
    if ids != [] {
      assert o <= ids[0] && 0 < o;
    }
  }

  /** A page has nothing that is shown: it is below the cursor, or nothing is shown yet. */
  lemma PageIsNew(w: World, k: nat, page: seq<nat>)
    requires Sound(w) && k < |w.pending| && Contract(w, k, page)
    ensures multiset(page) !! Shown(w.view)
  {
    var ids, r := Ids(Plain(w.view.rows)), w.pending[k];
    if r.Initial? {
      LoginComesFirst(w, k);
      LinesShowNothing(w.view.rows);
    } else if r.before == 0 {
      FloorIsPositive(w.view.oldest, ids);
    } else {
      forall j | 0 <= j < |page| ensures page[j] !in multiset(ids) {
        BelowFloor(w.view.oldest, ids, page[j]);
      }
    }
  }

  lemma EventNext(w: World, a: Action)
    requires Ready(w, a) && !a.Fetch? && !a.Close?
    ensures Next(w, a).view == Step(w.view, EventOf(a))
  {
  }

  lemma OnceTogether(x: multiset<nat>, y: multiset<nat>)
    requires OnlyOnce(x) && OnlyOnce(y) && x !! y
    ensures OnlyOnce(x + y)
  {
    forall id | id in x + y ensures (x + y)[id] == 1 {
      assert !(id in x && id in y);
    }
  }

  lemma StepSound(s: State, e: Event, t: State)
    requires Inv(s) && Floor(s.oldest, Ids(Plain(s.rows))) && OnlyOnce(Shown(s)) && t == Step(s, e)
    requires OnlyOnce(multiset(PageOf(e))) && 0 !in PageOf(e) && multiset(PageOf(e)) !! Shown(s)
    ensures Inv(t) && Floor(t.oldest, Ids(Plain(t.rows))) && OnlyOnce(Shown(t))
  {
    StepInv(s, e);
    StepShows(s, e);
    StepCursor(s, e);
    if !e.ClearEvent? {
      FloorFalls(s.oldest, Ids(Plain(s.rows)), Ids(Plain(t.rows)), PageOf(e), t.oldest);
      OnceTogether(Shown(s), multiset(PageOf(e)));
    }
  }

  lemma SoundKept(w: World, a: Action)
    requires Sound(w) && Enabled(w, a) && Proper(w, a)
    ensures Sound(Next(w, a))
  {
    EarlyKept(w, a);
    LatchedKept(w, a);
    if a.Reply? && w.pending[a.k].Initial? {
      LoginComesFirst(w, a.k);
    }
    CurrentKept(w, a);
    if !a.Fetch? && !a.Close? {
      EventNext(w, a);
      if a.Reply? {
        PageIsNew(w, a.k, EntryIds(Present(a.entries)));
      }
      StepSound(w.view, EventOf(a), Next(w, a).view);
    }
  }

  /**
   Over every run in which the server keeps its contract, with connections that come and go and
   clears at any time: an older page on its way is the only one and `loading` covers it, it was
   asked for with the cursor as it stands, no id shown is below the cursor, and no message is
   shown twice.
   */
  lemma {:induction false} RunSound(w: World, actions: seq<Action>)
    requires Sound(w) && Possible(w, actions) && Orderly(w, actions)
    ensures Sound(Runs(w, actions))
    decreases actions
  {
    if actions != [] {
      SoundKept(w, actions[0]);
      RunSound(Next(w, actions[0]), actions[1..]);
    }
  }

  lemma StartSound()
    ensures Sound(START)
  {
  }

  lemma LowestFalls(o: nat, page: seq<nat>, l: nat)
    requires IsLowest(l, [o] + page) && page != [] && page[0] != 0 && (o == 0 || page[0] < o)
    ensures 0 < l && (o == 0 || l < o)
  {
    assert ([o] + page)[1] == page[0];
  }

  /** Along an orderly run every answer to "Load older" with a message in it lowers the cursor. */
  lemma PageLowersCursor(actions: seq<Action>, k: nat, entries: seq<Option<Entry>>, more: bool, w: World)
    requires Possible(START, actions) && Orderly(START, actions) && w == Runs(START, actions)
    requires k < |w.pending| && w.pending[k].OlderThan? && Contract(w, k, EntryIds(Present(entries)))
    requires Present(entries) != []
    ensures var t := Next(w, Reply(k, entries, more));
            0 < t.view.oldest && (w.view.oldest == 0 || t.view.oldest < w.view.oldest)
  {
    StartSound();
    RunSound(START, actions);
    var page := EntryIds(Present(entries));
    StepCursor(w.view, BatchEvent(entries, more));
    assert page[0] in page;
    LowestFalls(w.view.oldest, page, Step(w.view, BatchEvent(entries, more)).oldest);
  }

  // ---- What a clear takes away ----

  /** What a run is to the view. */
  function EventsOf(actions: seq<Action>): seq<Event> {
    if actions == [] then []
    else (if actions[0].Fetch? || actions[0].Close? then [] else [EventOf(actions[0])]) + EventsOf(actions[1..])
  }

  lemma RunCons(s: State, e: Event, rest: seq<Event>)
    ensures Run(s, [e] + rest) == Run(Step(s, e), rest)
  {
    assert ([e] + rest)[1..] == rest;
  }

  lemma {:induction false} RunsView(w: World, actions: seq<Action>)
    requires Possible(w, actions)
    ensures Runs(w, actions).view == Run(w.view, EventsOf(actions))
    decreases actions
  {
    if actions != [] {
      var a, rest := actions[0], actions[1..];
      RunsView(Next(w, a), rest);
      if a.Fetch? || a.Close? {
        assert [] + EventsOf(rest) == EventsOf(rest);
      } else {
        EventNext(w, a);
        RunCons(w.view, EventOf(a), EventsOf(rest));
      }
    }
  }

  /** Every id received in a run. */
  function Received(actions: seq<Action>): seq<nat> {
    Flat(Pages(EventsOf(actions)))
  }

  /** Over every run the cursor is the lowest id received. */
  lemma RunsCursor(actions: seq<Action>, w: World, ids: seq<nat>)
    requires Possible(START, actions) && w == Runs(START, actions) && ids == Received(actions)
    ensures IsLowest(w.view.oldest, [0] + ids)
  {
    RunsView(START, actions);
    RunCursor(FRESH, EventsOf(actions));
  }

  lemma AllBelow(o: nat, ids: seq<nat>, page: seq<nat>)
    requires IsLowest(o, [0] + ids) && 0 !in page && forall i | 0 <= i < |page| :: page[i] < o
    ensures forall i | 0 <= i < |page| :: page[i] !in ids
  {
    forall i | 0 <= i < |page| ensures page[i] !in ids {
      BelowLowest(o, ids, page[i]);
    }
  }

  lemma RunsCurrent(actions: seq<Action>, w: World)
    requires Possible(START, actions) && Orderly(START, actions) && w == Runs(START, actions)
    ensures Current(w)
  {
    StartSound();
    RunSound(START, actions);
  }

  /**
   Along an orderly run a page before a cursor has no message that was ever received: what a
   clear took away, or a new connection, no "Load older" brings back.
   */
  lemma PageIsUnseen(actions: seq<Action>, k: nat, page: seq<nat>, w: World, ids: seq<nat>)
    requires Possible(START, actions) && Orderly(START, actions) && w == Runs(START, actions)
    requires k < |w.pending| && w.pending[k].OlderThan? && w.pending[k].before != 0 && Contract(w, k, page)
    requires ids == Received(actions)
    ensures forall i | 0 <= i < |page| :: page[i] !in ids
  {
    RunsCurrent(actions, w);
    RunsCursor(actions, w, ids);
    AllBelow(w.view.oldest, ids, page);
  }

  lemma BelowLowest(o: nat, ids: seq<nat>, id: nat)
    requires IsLowest(o, [0] + ids) && 0 < id < o
    ensures id !in ids
  {
    forall j | 0 <= j < |ids| ensures ids[j] != id {
      assert ([0] + ids)[j + 1] == ids[j];
    }
  }

  lemma {:induction false} SinceIsReceived(events: seq<Event>, id: nat)
    requires id in Flat(Pages(SinceClear(events)))
    ensures id in Flat(Pages(events))
    decreases events
  {
    if HasClear(events) {
      SinceIsReceived(events[1..], id);
      PagesFrom(events);
    }
  }

  lemma LowestAmong(o: nat, all: seq<nat>, since: seq<nat>, shown: seq<nat>)
    requires IsLowest(o, [0] + all) && multiset(shown) == multiset(since) && forall id | id in since :: id in all
    ensures IsLowest(o, [0] + shown) <==> o == 0 || o in since
  {
    forall i | 0 <= i < |shown| && shown[i] != 0 ensures 0 < o <= shown[i] {
      assert shown[i] in multiset(shown) && shown[i] in since;
      var j :| 0 <= j < |all| && all[j] == shown[i];
      assert ([0] + all)[j + 1] == shown[i];
    }
    assert o in multiset(shown) <==> o in multiset(since);
  }

  /**
   Over every run, with any server, the cursor is the lowest id shown if and only if the lowest
   id ever received was received since the last clear.
   */
  lemma CursorIsLowestShown(actions: seq<Action>, w: World, since: seq<nat>)
    requires Possible(START, actions) && w == Runs(START, actions)
    requires since == Flat(Pages(SinceClear(EventsOf(actions))))
    ensures IsLowest(w.view.oldest, [0] + Ids(Plain(w.view.rows))) <==> w.view.oldest == 0 || w.view.oldest in since
  {
    var all := Received(actions);
    RunsView(START, actions);
    RunsCursor(actions, w, all);
    RunShows(FRESH, EventsOf(actions));
    forall id | id in since ensures id in all {
      SinceIsReceived(EventsOf(actions), id);
    }
    LowestAmong(w.view.oldest, all, since, Ids(Plain(w.view.rows)));
  }
}
