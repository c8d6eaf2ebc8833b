/**
 The order and the cursor of a conversation's history, over whole runs: when the pages
 above the anchor, or those after a clear, read from oldest to newest, what stands above
 the sentinel, that every entry received since the last clear is drawn as often as it
 came, and that the cursor is the lowest id received.
 */
module ChatHistoryOrder {
  import opened Wrappers
  import opened ChatHistory
  import opened ChatHistoryProofs
  import opened ChatHistoryRuns

  // ---- Pages above the anchor ----

  predicate Ascending(ids: seq<nat>) {
    forall i, j | 0 <= i < j < |ids| :: ids[i] < ids[j]
  }

  /** Every id of `low` is below every id of `high`. */
  predicate Under(low: seq<nat>, high: seq<nat>) {
    forall i, j | 0 <= i < |low| && 0 <= j < |high| :: low[i] < high[j]
  }

  /** Pages as the cursor asks for them: each oldest first, and each older than those before it. */
  predicate Sinking(pages: seq<seq<nat>>) {
    pages != [] ==> Ascending(pages[0]) && Under(Flat(pages[1..]), pages[0]) && Sinking(pages[1..])
  }

  function Filled(pages: seq<seq<nat>>): nat {
    if pages == [] then 0 else (if pages[0] == [] then 0 else 1) + Filled(pages[1..])
  }

  lemma {:induction false} FlatEmpty(pages: seq<seq<nat>>)
    ensures Flat(pages) == [] <==> Filled(pages) == 0
  {
    if pages != [] {
      FlatEmpty(pages[1..]);
    }
  }

  lemma AscendingJoin(high: seq<nat>, low: seq<nat>)
    requires Ascending(high) && Under(low, high)
    ensures Ascending(high + low) <==> (high == [] && Ascending(low)) || low == []
  {
    if high == [] {
      assert high + low == low;
    } else if low == [] {
      assert high + low == high;
    } else {
      assert (high + low)[0] == high[0] && (high + low)[|high|] == low[0];
    }
  }

  lemma {:induction false} FlatAscends(pages: seq<seq<nat>>)
    requires Sinking(pages)
    ensures Ascending(Flat(pages)) <==> Filled(pages) <= 1
  {
    if pages != [] {
      FlatAscends(pages[1..]);
      FlatEmpty(pages[1..]);
      AscendingJoin(pages[0], Flat(pages[1..]));
    }
  }

  /**
   After a first batch and any run of older pages, clicks and lines, the block above the
   opening divider reads from oldest to newest if and only if at most one of the pages had
   anything in it: the second one lands below the first.
   */
  lemma BlockOrdered(s: State, events: seq<Event>)
    requires Inv(s) && s.anchor.Some? && Anchored(s) && Later(s, events)
    requires Block(s) == [] && Sinking(Pages(events))
    ensures Ascending(Block(Run(s, events))) <==> Filled(Pages(events)) <= 1
  {
    RunBlock(s, events);
    FlatAscends(Pages(events));
    assert [] + Flat(Pages(events)) == Flat(Pages(events));
  }

  /** No page has more than one message. */
  predicate Single(pages: seq<seq<nat>>) {
    pages != [] ==> |pages[0]| <= 1 && Single(pages[1..])
  }

  lemma {:induction false} TurnedAt(ids: seq<nat>)
    ensures |Turned(ids)| == |ids|
    ensures forall i | 0 <= i < |ids| :: Turned(ids)[i] == ids[|ids| - 1 - i]
  {
    if ids != [] {
      TurnedAt(ids[1..]);
    }
  }

  lemma TurnedAscends(page: seq<nat>)
    requires Ascending(page)
    ensures Ascending(Turned(page)) <==> |page| <= 1
  {
    TurnedAt(page);
    if |page| > 1 {
      assert Turned(page)[0] == page[|page| - 1] && Turned(page)[|page| - 1] == page[0];
    }
  }

  lemma TurnedUnder(low: seq<nat>, high: seq<nat>)
    requires Under(low, high)
    ensures Under(Turned(low), Turned(high))
  {
    TurnedAt(low);
    TurnedAt(high);
  }

  lemma AscendingOver(low: seq<nat>, high: seq<nat>)
    requires Under(low, high)
    ensures Ascending(low + high) <==> Ascending(low) && Ascending(high)
  {
    var all := low + high;
    if Ascending(all) {
      forall i, j | 0 <= i < j < |low| ensures low[i] < low[j] {
        assert all[i] < all[j];
      }
      forall i, j | 0 <= i < j < |high| ensures high[i] < high[j] {
        assert all[|low| + i] < all[|low| + j];
      }
    }
  }

  lemma {:induction false} TurnedFlatAscends(pages: seq<seq<nat>>)
    requires Sinking(pages)
    ensures Ascending(Turned(Flat(pages))) <==> Single(pages)
  {
    if pages != [] {
      var page, rest := pages[0], Flat(pages[1..]);
      TurnedFlatAscends(pages[1..]);
      TurnedAppend(page, rest);
      TurnedUnder(rest, page);
      AscendingOver(Turned(rest), Turned(page));
      TurnedAscends(page);
    }
  }

  /**
   After a clear that takes the anchor, any run of older pages, clicks and lines shows the
   messages turned round, the last one received on top: from oldest to newest if and only
   if no page had more than one.
   */
  lemma ClearedOrdered(s: State, events: seq<Event>)
    requires Inv(s) && s.anchor.Some? && Later(Clear(s), events) && Sinking(Pages(events))
    ensures var shown := Ids(Plain(Run(Clear(s), events).rows));
            shown == Turned(Flat(Pages(events))) && (Ascending(shown) <==> Single(Pages(events)))
  {
    StepInv(s, ClearEvent);
    RunHead(Clear(s), events);
    TurnedFlatAscends(Pages(events));
    assert Turned(Flat(Pages(events))) + [] == Turned(Flat(Pages(events)));
  }

  lemma ClickThenPage(s: State, entries: seq<Option<Entry>>, more: bool, rest: seq<Event>, t: State)
    requires !s.loading && entries != [] && t == Batch(Click(s, true), entries, more) && Later(t, rest)
    ensures Later(s, [ClickEvent(true), BatchEvent(entries, more)] + rest) && !t.loading
    ensures Pages([ClickEvent(true), BatchEvent(entries, more)] + rest) == [EntryIds(Present(entries))] + Pages(rest)
  {
    var tail := [BatchEvent(entries, more)] + rest;
    var all := [ClickEvent(true), BatchEvent(entries, more)] + rest;
    assert all[1..] == tail && tail[1..] == rest;
    assert Click(s, true).loading;
    assert Later(Click(s, true), tail);
    assert [] + Pages(tail) == Pages(tail);
  }

  function Message(id: nat): Option<Entry> {
    Some(Entry(id, 0, 0, None, None))
  }

  lemma TwoMessages(a: nat, b: nat)
    ensures EntryIds(Present([Message(a), Message(b)])) == [a, b]
  {
    var x, y := Message(a).value, Message(b).value;
    var both, second := [Message(a), Message(b)], [Message(b)];
    assert both[1..] == second && second[1..] == [];
    assert Present(second) == [y] + [];
    assert Present(both) == [x, y];
    assert [x, y][1..] == [y] && [y][1..] == [];
    assert EntryIds([y]) == [b] + [];
  }

  function TwoClicks(first: seq<Option<Entry>>, second: seq<Option<Entry>>, more: bool): seq<Event> {
    [ClickEvent(true), BatchEvent(first, true)] + ([ClickEvent(true), BatchEvent(second, more)] + [])
  }

  /** Two pages, each asked for by a click: the second one stands below the first. */
  lemma TwoPages(s: State, first: seq<Option<Entry>>, second: seq<Option<Entry>>, more: bool)
    requires Inv(s) && s.anchor.Some? && Anchored(s) && !s.loading && Block(s) == [] && first != [] && second != []
    ensures Block(Run(s, TwoClicks(first, second, more))) == EntryIds(Present(first)) + EntryIds(Present(second))
  {
    var t := Batch(Click(s, true), first, true);
    var u := Batch(Click(t, true), second, more);
    BatchIdle(Click(s, true), first, true);
    ClickThenPage(t, second, more, [], u);
    ClickThenPage(s, first, true, [ClickEvent(true), BatchEvent(second, more)] + [], t);
    RunBlock(s, TwoClicks(first, second, more));
    FlatTwo(EntryIds(Present(first)), EntryIds(Present(second)));
    assert [] + (EntryIds(Present(first)) + EntryIds(Present(second))) == EntryIds(Present(first)) + EntryIds(Present(second));
  }

  /** Messages 3 and 4 and then 1 and 2: they stand as 3, 4, 1, 2. */
  lemma SecondPageLandsBelow(s: State, more: bool)
    requires Inv(s) && s.anchor.Some? && Anchored(s) && !s.loading && Block(s) == []
    ensures Block(Run(s, TwoClicks([Message(3), Message(4)], [Message(1), Message(2)], more))) == [3, 4, 1, 2]
  {
    TwoMessages(3, 4);
    TwoMessages(1, 2);
    TwoPages(s, [Message(3), Message(4)], [Message(1), Message(2)], more);
  }

  lemma BatchIdle(s: State, entries: seq<Option<Entry>>, more: bool)
    ensures !Batch(s, entries, more).loading
  {
  }

  lemma FlatTwo(x: seq<nat>, y: seq<nat>)
    ensures Flat([x] + ([y] + [])) == x + y
  {
    var rest: seq<seq<nat>> := [y] + [];
    assert rest[1..] == [] && Flat(rest) == y + [];
    assert ([x] + rest)[1..] == rest;
  }

  // ---- What stands above the sentinel ----

  function AboveMarker(s: State): seq<nat>
    requires s.loadOlder.Some?
  {
    Ids(s.rows[..Find(s.rows, s.loadOlder.value)])
  }

  lemma MarkerIsAt(s: State, x: seq<Row>, row: Row, y: seq<Row>)
    requires Inv(s) && s.loadOlder == Some(row.mark) && s.rows == x + ([row] + y)
    ensures AboveMarker(s) == Ids(x)
  {
    assert s.rows[|x|] == row;
    forall j | 0 <= j < |x| ensures s.rows[j].mark != row.mark {
      assert s.rows[|x|].mark != s.rows[j].mark;
    }
    FindIs(s.rows, row.mark, |x|);
  }

  lemma MarkerAbove(s: State, p: seq<Row>, a: nat, row: Row, page: seq<Row>)
    requires Inv(s) && s.loadOlder == Some(row.mark) && a <= |p|
    requires s.rows == p[..a] + [row] + page + p[a..]
    ensures AboveMarker(s) == Ids(p[..a])
  {
    assert p[..a] + [row] + page + p[a..] == p[..a] + ([row] + (page + p[a..]));
    MarkerIsAt(s, p[..a], row, page + p[a..]);
  }

  lemma OlderMarker(s: State, entries: seq<Option<Entry>>, t: State)
    requires Inv(s) && s.loading && s.anchor.Some? && t == Batch(s, entries, true)
    ensures Inv(t) && t.loadOlder == Some(s.next)
  {
    BatchInv(s, entries, true);
  }

  lemma SentinelIs(mark: nat)
    ensures Sentinel(true, mark) == [Row(mark, Older)]
  {
  }

  /** A page's sentinel goes above the page and below every page before it. */
  lemma SentinelUnderBlock(s: State, entries: seq<Option<Entry>>, t: State)
    requires Inv(s) && s.loading && s.anchor.Some? && Anchored(s) && t == Batch(s, entries, true)
    ensures t.loadOlder.Some? && AboveMarker(t) == Block(s)
  {
    var p, a, page := Plain(s.rows), AnchorAt(s), Drawn(Present(entries), s.next + 1);
    OlderMarker(s, entries, t);
    SentinelIs(s.next);
    SentinelIs(0);
    OlderRows(s, entries, true, page);
    MarkerAbove(t, p, a, Row(s.next, Older), page);
  }

  lemma InsertOne(p: seq<Row>, a: nat, row: Row)
    requires a <= |p|
    ensures Insert(p, a, [row]) == p[..a] + [row] + [] + p[a..]
  {
  }

  lemma ClickMarker(s: State, t: State)
    requires Inv(s) && !s.loading && s.loadOlder.Some? && t == Click(s, true)
    ensures Inv(t) && t.loadOlder == Some(s.next)
  {
    ClickInv(s, true);
  }

  /** The loading row goes below the whole block. */
  lemma LoadingUnderBlock(s: State, t: State)
    requires Inv(s) && !s.loading && s.loadOlder.Some? && t == Click(s, true)
    ensures t.loadOlder.Some? && AboveMarker(t) == Block(s)
  {
    var p, a := Plain(s.rows), AnchorAt(s);
    ClickMarker(s, t);
    ClickRows(s);
    InsertOne(p, a, Row(s.next, Loading));
    MarkerAbove(t, p, a, Row(s.next, Loading), []);
  }

  /**
   The sentinel of the page that ends a run is on top of the block if and only if every
   page before it was empty: what earlier pages put there stays above it.
   */
  lemma SentinelOnTop(s: State, events: seq<Event>, entries: seq<Option<Entry>>)
    requires Inv(s) && s.anchor.Some? && Anchored(s) && Later(s, events) && Block(s) == []
    requires Run(s, events).loading
    ensures var t := Batch(Run(s, events), entries, true);
            && t.loadOlder.Some? && AboveMarker(t) == Flat(Pages(events))
            && (AboveMarker(t) == [] <==> Filled(Pages(events)) == 0)
  {
    RunBlock(s, events);
    var t := Run(s, events);
    SentinelUnderBlock(t, entries, Batch(t, entries, true));
    FlatEmpty(Pages(events));
    assert [] + Flat(Pages(events)) == Flat(Pages(events));
  }

  // ---- Every entry received is drawn once ----

  lemma {:induction false} ReversedIds(rows: seq<Row>)
    ensures multiset(Ids(Reversed(rows))) == multiset(Ids(rows))
  {
    if rows != [] {
      ReversedIds(rows[1..]);
      IdsAppend(Reversed(rows[1..]), [rows[0]]);
      IdsAppend([rows[0]], rows[1..]);
      assert [rows[0]] + rows[1..] == rows;
    }
  }

  lemma OlderIds(s: State, es: seq<Entry>, page: seq<Row>, next: nat, piece: seq<Row>)
    requires page == Drawn(es, next) && piece == PageRows(s.rows, s.anchor, true, page)
    ensures multiset(Ids(piece)) == multiset(EntryIds(es))
  {
    IdsDrawn(es, next);
    ReversedIds(page);
  }

  lemma BlockIds(es: seq<Entry>, next: nat, open: Row, page: seq<Row>, close: Row, piece: seq<Row>)
    requires open.content.Opening? && close.content.Closing?
    requires page == Drawn(es, next) && piece == [open] + page + [close]
    ensures Ids(piece) == EntryIds(es)
  {
    IdsDrawn(es, next);
    IdsOfBlock([open], page, [close]);
  }

  lemma BatchNewIds(s: State, entries: seq<Option<Entry>>, more: bool, es: seq<Entry>, piece: seq<Row>)
    requires entries != [] && es == Present(entries) && piece == StepNew(s, BatchEvent(entries, more))
    ensures multiset(Ids(piece)) == multiset(EntryIds(es))
  {
    var k := |Sentinel(more, 0)|;
    if s.loading {
      var page := Drawn(es, s.next + k);
      OlderIds(s, es, page, s.next + k, piece);
    } else {
      var page, open := Drawn(es, s.next + 1 + k), Row(s.next, Opening(|entries|));
      BlockIds(es, s.next + 1 + k, open, page, Row(s.next + 1 + k + |es|, Closing), piece);
    }
  }

  lemma LineHasNoId(mark: nat, text: string)
    ensures Ids([Row(mark, Line(text))]) == []
  {
  }

  /** What the rows a step adds hold, wherever they go. */
  lemma NewIds(s: State, e: Event, piece: seq<Row>)
    requires piece == StepNew(s, e)
    ensures multiset(Ids(piece)) == multiset(PageOf(e))
  {
    if e.BatchEvent? && e.entries != [] {
      BatchNewIds(s, e.entries, e.more, Present(e.entries), piece);
    } else if e.LineEvent? {
      LineHasNoId(s.next, e.text);
    } else {
      assert piece == [];
    }
  }

  lemma IdsOfBlock(open: seq<Row>, page: seq<Row>, close: seq<Row>)
    requires |open| == 1 && open[0].content.Opening? && |close| == 1 && close[0].content.Closing?
    ensures Ids(open + page + close) == Ids(page)
  {
    IdsAppend(open + page, close);
    IdsAppend(open, page);
    assert open[1..] == [] && close[1..] == [];
    assert [] + Ids(page) == Ids(page) && Ids(page) + [] == Ids(page);
  }

  function Shown(s: State): multiset<nat> {
    multiset(Ids(Plain(s.rows)))
  }

  lemma IdsInserted(p: seq<Row>, at: nat, piece: seq<Row>)
    requires at <= |p|
    ensures multiset(Ids(Insert(p, at, piece))) == multiset(Ids(p)) + multiset(Ids(piece))
  {
    IdsAppend(p[..at] + piece, p[at..]);
    IdsAppend(p[..at], piece);
    IdsAppend(p[..at], p[at..]);
    assert p[..at] + p[at..] == p;
  }

  lemma StepShows(s: State, e: Event)
    requires Inv(s)
    ensures Shown(Step(s, e)) == if e.ClearEvent? then multiset{} else Shown(s) + multiset(PageOf(e))
  {
    if !e.ClearEvent? {
      StepInserts(s, e);
      NewIds(s, e, StepNew(s, e));
      IdsInserted(Plain(s.rows), StepAt(s, e), StepNew(s, e));
    }
  }

  /** What follows the last clear of a run, or all of it. */
  function SinceClear(events: seq<Event>): seq<Event> {
    if HasClear(events) then SinceClear(events[1..]) else events
  }

  lemma {:induction false} RunAdds(s: State, events: seq<Event>)
    requires Inv(s) && !HasClear(events)
    ensures Shown(Run(s, events)) == Shown(s) + multiset(Flat(Pages(events)))
    decreases events
  {
    if events != [] {
      StepInv(s, events[0]);
      StepShows(s, events[0]);
      RunAdds(Step(s, events[0]), events[1..]);
      PagesFrom(events);
    }
  }

  /**
   Over every run, what is shown is exactly what was received since the last clear, each
   entry as often as it came.
   */
  lemma {:induction false} RunShows(s: State, events: seq<Event>)
    requires Inv(s)
    ensures Shown(Run(s, events))
         == (if HasClear(events) then multiset{} else Shown(s)) + multiset(Flat(Pages(SinceClear(events))))
    decreases events
  {
    if !HasClear(events) {
      RunAdds(s, events);
    } else {
      StepInv(s, events[0]);
      StepShows(s, events[0]);
      RunShows(Step(s, events[0]), events[1..]);
    }
  }

  // ---- The cursor ----

  /** `o` is the lowest non-zero id of `ids`, or 0 when there is none. */
  predicate IsLowest(o: nat, ids: seq<nat>) {
    && (forall i | 0 <= i < |ids| && ids[i] != 0 :: 0 < o <= ids[i])
    && (o != 0 ==> o in ids)
  }

  lemma {:induction false} LowestIsLowest(o: nat, es: seq<Entry>)
    ensures IsLowest(Lowest(o, es), [o] + EntryIds(es))
    decreases es
  {
    if es != [] {
      var id, rest := es[0].id, EntryIds(es[1..]);
      var o' := if id != 0 && (o == 0 || id < o) then id else o;
      LowestIsLowest(o', es[1..]);
      var all, short := [o] + EntryIds(es), [o'] + rest;
      forall i | 0 <= i < |all| && all[i] != 0 ensures 0 < Lowest(o', es[1..]) <= all[i] {
        if i < 2 {
          assert short[0] == o';
        } else {
          assert all[i] == short[i - 1];
        }
      }
    }
  }

  lemma LowestTrans(o: nat, x: seq<nat>, m: nat, y: seq<nat>, l: nat)
    requires IsLowest(m, [o] + x) && IsLowest(l, [m] + y)
    ensures IsLowest(l, [o] + (x + y))
  {
    var all, first, second := [o] + (x + y), [o] + x, [m] + y;
    assert all == first + y;
    forall i | 0 <= i < |all| && all[i] != 0 ensures 0 < l <= all[i] {
      if i < |first| {
        assert first[i] == all[i] && second[0] == m;
      } else {
        assert second[i - |first| + 1] == all[i];
      }
    }
  }

  lemma StepCursor(s: State, e: Event)
    ensures IsLowest(Step(s, e).oldest, [s.oldest] + PageOf(e))
    ensures !e.BatchEvent? ==> Step(s, e).oldest == s.oldest
  {
    match e
    case BatchEvent(entries, more) =>
      BatchCursor(s, entries, more);
      LowestIsLowest(s.oldest, Present(entries));
    case ClickEvent(_) =>
    case LineEvent(_) =>
    case ClearEvent =>
  }

  lemma BatchCursor(s: State, entries: seq<Option<Entry>>, more: bool)
    ensures Batch(s, entries, more).oldest == Lowest(s.oldest, Present(entries))
  {
  }

  /** Over every run the cursor is the lowest non-zero id received, and 0 before there is one. */
  lemma {:induction false} RunCursor(s: State, events: seq<Event>)
    ensures IsLowest(Run(s, events).oldest, [s.oldest] + Flat(Pages(events)))
    decreases events
  {
    if events != [] {
      var t := Step(s, events[0]);
      StepCursor(s, events[0]);
      RunCursor(t, events[1..]);
      PagesFrom(events);
      LowestTrans(s.oldest, PageOf(events[0]), t.oldest, Flat(Pages(events[1..])), Run(s, events).oldest);
    }
  }
}
