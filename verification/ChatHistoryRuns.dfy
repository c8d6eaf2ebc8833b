/**
 Chat history over whole runs: the piece every step adds and its place, and the block
 that the pages make above the anchor, or at the head once a clear took the anchor.
 */
module ChatHistoryRuns {
  import opened Wrappers
  import opened ChatHistory
  import opened ChatHistoryProofs

  // ---- Every step inserts one contiguous piece ----

  /** What a step adds to the rows other than the marker. */
  function StepNew(s: State, e: Event): seq<Row> {
    match e
    case LineEvent(text) => [Row(s.next, Line(text))]
    case ClickEvent(_) => []
    case BatchEvent(entries, more) =>
      var k := |Sentinel(more, 0)|;
      if entries == [] then []
      else if s.loading then PageRows(s.rows, s.anchor, true, Drawn(Present(entries), s.next + k))
      else [Row(s.next, Opening(|entries|))] + Drawn(Present(entries), s.next + 1 + k)
           + [Row(s.next + 1 + k + |Present(entries)|, Closing)]
    case ClearEvent => []
  }

  /** Where: an older page just above the anchor, or at the head without its row; else the end. */
  function StepAt(s: State, e: Event): (at: nat)
    ensures at <= |Plain(s.rows)|
  {
    if e.BatchEvent? && s.loading && s.anchor.Some? then AnchorAt(s) else |Plain(s.rows)|
  }

  lemma PlainWithSentinel(x: seq<Row>, more: bool, mark: nat, y: seq<Row>)
    requires NoMarker(x) && NoMarker(y)
    ensures Plain(x + Sentinel(more, mark) + y) == x + y
  {
    PlainOfPlain(x + y);
    if more {
      PlainAround(x, Row(mark, Older), y);
      assert x + Sentinel(more, mark) + y == x + ([Row(mark, Older)] + y);
    } else {
      assert x + [] + y == x + y;
    }
  }

  lemma PlainOfBlock(p: seq<Row>, more: bool, mark: nat, open: Row, page: seq<Row>, close: Row)
    requires NoMarker(p) && NoMarker(page) && !IsMarker(open.content) && !IsMarker(close.content)
    ensures Plain(p + Sentinel(more, mark) + [open] + page + [close]) == p + ([open] + page + [close])
  {
    var piece := [open] + page + [close];
    assert p + Sentinel(more, mark) + [open] + page + [close] == p + Sentinel(more, mark) + piece;
    PlainWithSentinel(p, more, mark, piece);
  }

  lemma InitialInserts(s: State, entries: seq<Option<Entry>>, more: bool, page: seq<Row>, close: Row)
    requires Inv(s) && !s.loading && entries != []
    requires page == Drawn(Present(entries), s.next + 1 + |Sentinel(more, 0)|)
    requires close == Row(s.next + 1 + |Sentinel(more, 0)| + |Present(entries)|, Closing)
    ensures Plain(Batch(s, entries, more).rows)
         == Plain(s.rows) + ([Row(s.next, Opening(|entries|))] + page + [close])
  {
    InitialRows(s, entries, more, page, close);
    DrawnClean(Present(entries), s.next + 1 + |Sentinel(more, 0)|);
    EvictedIsPlain(s);
    PlainOfBlock(Plain(s.rows), more, s.next + 1, Row(s.next, Opening(|entries|)), page, close);
  }

  lemma PlainOfPage(p: seq<Row>, a: nat, more: bool, mark: nat, page: seq<Row>)
    requires a <= |p| && NoMarker(p) && NoMarker(page)
    ensures Plain(p[..a] + Sentinel(more, mark) + page + p[a..]) == Insert(p, a, page)
  {
    var x, y := p[..a], p[a..];
    assert x + Sentinel(more, mark) + page + y == x + Sentinel(more, mark) + (page + y);
    PlainWithSentinel(x, more, mark, page + y);
    assert x + (page + y) == x + page + y;
  }

  lemma RegroupRows(x: seq<Row>, y: seq<Row>, z: seq<Row>)
    ensures x + y + z == [] + x + (y + z)
  {
  }

  lemma PlainOfTail(p: seq<Row>, more: bool, mark: nat, page: seq<Row>)
    requires NoMarker(p) && NoMarker(page)
    ensures Plain(Sentinel(more, mark) + p + page) == Insert(p, |p|, page)
  {
    RegroupRows(Sentinel(more, mark), p, page);
    PlainWithSentinel([], more, mark, p + page);
    InsertAtEnd(p, page);
    assert [] + (p + page) == p + page;
  }

  lemma PlainOfHead(p: seq<Row>, more: bool, mark: nat, page: seq<Row>)
    requires NoMarker(p) && NoMarker(page)
    ensures Plain(page + (Sentinel(more, mark) + p)) == Insert(p, 0, page)
  {
    PlainWithSentinel(page, more, mark, p);
    assert page + Sentinel(more, mark) + p == page + (Sentinel(more, mark) + p);
    AtHead(p, page);
  }

  lemma StaleInserts(s: State, entries: seq<Option<Entry>>, more: bool, page: seq<Row>)
    requires Inv(s) && s.loading && Stale(s.rows, s.anchor) && (entries != [] || more)
    requires page == Drawn(Present(entries), s.next + |Sentinel(more, 0)|)
    ensures Plain(Batch(s, entries, more).rows) == Insert(Plain(s.rows), 0, Reversed(page))
  {
    var next := s.next + |Sentinel(more, 0)|;
    DrawnClean(Present(entries), next);
    ReversedPage(page, next);
    EvictedIsPlain(s);
    StaleRows(s, entries, more, page);
    PlainOfHead(Plain(s.rows), more, s.next, Reversed(page));
  }

  lemma OlderInserts(s: State, entries: seq<Option<Entry>>, more: bool, page: seq<Row>)
    requires Inv(s) && s.loading && (entries != [] || more)
    requires page == Drawn(Present(entries), s.next + |Sentinel(more, 0)|)
    ensures Plain(Batch(s, entries, more).rows)
         == Insert(Plain(s.rows), if s.anchor.Some? then AnchorAt(s) else |Plain(s.rows)|,
                   PageRows(s.rows, s.anchor, true, page))
  {
    DrawnClean(Present(entries), s.next + |Sentinel(more, 0)|);
    EvictedIsPlain(s);
    if Stale(s.rows, s.anchor) {
      StaleStays(s);
      StaleInserts(s, entries, more, page);
    } else if s.anchor.Some? {
      OlderRows(s, entries, more, page);
      PlainOfPage(Plain(s.rows), AnchorAt(s), more, s.next, page);
    } else {
      UnanchoredRows(s, entries, more, page);
      PlainOfTail(Plain(s.rows), more, s.next, page);
    }
  }

  lemma PlainOfLoading(p: seq<Row>, a: nat, row: Row)
    requires a <= |p| && NoMarker(p) && IsMarker(row.content)
    ensures Plain(Insert(p, a, [row])) == p
  {
    PlainAround(p[..a], row, p[a..]);
    assert p[..a] + ([row] + p[a..]) == p[..a] + [row] + p[a..];
  }

  lemma ClickInserts(s: State, sent: bool)
    requires Inv(s)
    ensures Plain(Click(s, sent).rows) == Plain(s.rows)
  {
    if !s.loading && sent && s.loadOlder.Some? {
      ClickRows(s);
      EvictedIsPlain(s);
      PlainOfLoading(Plain(s.rows), AnchorAt(s), Row(s.next, Loading));
    }
  }

  lemma LineInserts(s: State, text: string)
    requires Inv(s)
    ensures Plain(Append(s, Line(text)).rows) == Insert(Plain(s.rows), |Plain(s.rows)|, [Row(s.next, Line(text))])
  {
    var row := [Row(s.next, Line(text))];
    PlainAppend(s.rows, row);
    PlainOfPlain(row);
    InsertAtEnd(Plain(s.rows), row);
  }

  lemma EmptyInserts(s: State, more: bool, at: nat)
    requires Inv(s) && !(s.loading && more) && at <= |Plain(s.rows)|
    ensures Plain(Batch(s, [], more).rows) == Insert(Plain(s.rows), at, [])
  {
    EmptyRows(s, more);
    EvictedIsPlain(s);
    PlainOfPlain(Plain(s.rows));
  }

  lemma OlderPieceInserts(s: State, entries: seq<Option<Entry>>, more: bool, page: seq<Row>, piece: seq<Row>)
    requires Inv(s) && s.loading && (entries != [] || more)
    requires page == Drawn(Present(entries), s.next + |Sentinel(more, 0)|)
    requires piece == StepNew(s, BatchEvent(entries, more))
    ensures Plain(Batch(s, entries, more).rows)
         == Insert(Plain(s.rows), StepAt(s, BatchEvent(entries, more)), piece)
  {
    assert entries == [] ==> page == [] && Reversed(page) == [];
    OlderInserts(s, entries, more, page);
  }

  lemma FirstPieceInserts(s: State, entries: seq<Option<Entry>>, more: bool, k: nat, piece: seq<Row>)
    requires Inv(s) && !s.loading && entries != [] && k == |Sentinel(more, 0)|
    requires piece == StepNew(s, BatchEvent(entries, more))
    ensures Plain(Batch(s, entries, more).rows) == Insert(Plain(s.rows), |Plain(s.rows)|, piece)
  {
    var page, close := Drawn(Present(entries), s.next + 1 + k), Row(s.next + 1 + k + |Present(entries)|, Closing);
    InitialInserts(s, entries, more, page, close);
    FirstPieceIs(s, entries, more, page, close, piece);
    InsertAtEnd(Plain(s.rows), piece);
  }

  lemma FirstPieceIs(s: State, entries: seq<Option<Entry>>, more: bool, page: seq<Row>, close: Row, piece: seq<Row>)
    requires !s.loading && entries != [] && piece == StepNew(s, BatchEvent(entries, more))
    requires page == Drawn(Present(entries), s.next + 1 + |Sentinel(more, 0)|)
    requires close == Row(s.next + 1 + |Sentinel(more, 0)| + |Present(entries)|, Closing)
    ensures piece == [Row(s.next, Opening(|entries|))] + page + [close]
  {
  }

  lemma BatchInserts(s: State, entries: seq<Option<Entry>>, more: bool, at: nat, piece: seq<Row>)
    requires Inv(s) && at == StepAt(s, BatchEvent(entries, more)) && piece == StepNew(s, BatchEvent(entries, more))
    ensures Plain(Batch(s, entries, more).rows) == Insert(Plain(s.rows), at, piece)
  {
    if entries == [] && !(s.loading && more) {
      EmptyInserts(s, more, at);
    } else if s.loading {
      OlderPieceInserts(s, entries, more, Drawn(Present(entries), s.next + |Sentinel(more, 0)|), piece);
    } else {
      FirstPieceInserts(s, entries, more, |Sentinel(more, 0)|, piece);
    }
  }

  /** Every step but a clear leaves the rows already drawn in order, around the piece it adds. */
  lemma StepInserts(s: State, e: Event)
    requires Inv(s) && !e.ClearEvent?
    ensures Plain(Step(s, e).rows) == Insert(Plain(s.rows), StepAt(s, e), StepNew(s, e))
  {
    match e
    case LineEvent(text) => LineInserts(s, text);
    case ClickEvent(sent) =>
      ClickInserts(s, sent);
      assert Insert(Plain(s.rows), |Plain(s.rows)|, []) == Plain(s.rows);
    case BatchEvent(entries, more) => BatchInserts(s, entries, more, StepAt(s, e), StepNew(s, e));
  }

  // ---- Rows keep their order over every run ----

  /** `x` is left when some rows of `y` are struck out. */
  predicate Sub(x: seq<Row>, y: seq<Row>)
    decreases |y|
  {
    x == [] || (y != [] && if x[0] == y[0] then Sub(x[1..], y[1..]) else Sub(x, y[1..]))
  }

  lemma {:induction false} SubTail(x: seq<Row>, y: seq<Row>)
    requires x != [] && Sub(x, y)
    ensures Sub(x[1..], y)
    decreases |y|, 1
  {
    if x[0] == y[0] {
      SubCons(x[1..], y);
    } else {
      SubTail(x, y[1..]);
      SubCons(x[1..], y);
    }
  }

  lemma {:induction false} SubCons(x: seq<Row>, y: seq<Row>)
    requires y != [] && Sub(x, y[1..])
    ensures Sub(x, y)
    decreases |y|, 0
  {
    if x != [] && x[0] == y[0] {
      SubTail(x, y[1..]);
    }
  }

  lemma {:induction false} SubTrans(x: seq<Row>, y: seq<Row>, z: seq<Row>)
    requires Sub(x, y) && Sub(y, z)
    ensures Sub(x, z)
    decreases |z|, |y|
  {
    if x != [] {
      if y[0] == z[0] {
        if x[0] == y[0] {
          SubTrans(x[1..], y[1..], z[1..]);
        } else {
          SubTrans(x, y[1..], z[1..]);
        }
      } else {
        SubTrans(x, y, z[1..]);
        SubCons(x, z);
      }
    }
  }

  lemma {:induction false} SubSelf(x: seq<Row>)
    ensures Sub(x, x)
  {
    if x != [] {
      SubSelf(x[1..]);
    }
  }

  lemma {:induction false} SubAppended(x: seq<Row>, y: seq<Row>)
    ensures Sub(y, x + y)
  {
    if x == [] {
      assert x + y == y;
      SubSelf(y);
    } else {
      assert (x + y)[1..] == x[1..] + y;
      SubAppended(x[1..], y);
      SubCons(y, x + y);
    }
  }

  lemma {:induction false} SubInsert(rows: seq<Row>, at: nat, more: seq<Row>)
    requires at <= |rows|
    ensures Sub(rows, Insert(rows, at, more))
    decreases at
  {
    var all := Insert(rows, at, more);
    if at == 0 {
      assert all == more + rows;
      SubAppended(more, rows);
    } else {
      assert all[0] == rows[0] && all[1..] == Insert(rows[1..], at - 1, more);
      SubInsert(rows[1..], at - 1, more);
    }
  }

  /** Over every run without a clear, the rows already drawn keep their relative order. */
  lemma {:induction false} RunKeepsOrder(s: State, events: seq<Event>)
    requires Inv(s) && !HasClear(events)
    ensures Sub(Plain(s.rows), Plain(Run(s, events).rows))
    decreases events
  {
    if events == [] {
      SubSelf(Plain(s.rows));
    } else {
      var t := Step(s, events[0]);
      StepInv(s, events[0]);
      StepInserts(s, events[0]);
      SubInsert(Plain(s.rows), StepAt(s, events[0]), StepNew(s, events[0]));
      RunKeepsOrder(t, events[1..]);
      SubTrans(Plain(s.rows), Plain(t.rows), Plain(Run(s, events).rows));
    }
  }

  // ---- The block above the anchor ----

  /** The message ids of the history rows. */
  function Ids(rows: seq<Row>): seq<nat> {
    if rows == [] then []
    else (if rows[0].content.History? then [rows[0].content.id] else []) + Ids(rows[1..])
  }

  function EntryIds(es: seq<Entry>): seq<nat> {
    if es == [] then [] else [es[0].id] + EntryIds(es[1..])
  }

  lemma Regroup(x: seq<nat>, y: seq<nat>, z: seq<nat>)
    ensures (x + y) + z == x + (y + z)
  {
  }

  lemma {:induction false} IdsAppend(x: seq<Row>, y: seq<Row>)
    ensures Ids(x + y) == Ids(x) + Ids(y)
  {
    if x == [] {
      assert x + y == y;
    } else {
      assert (x + y)[1..] == x[1..] + y;
      IdsAppend(x[1..], y);
      Regroup(if x[0].content.History? then [x[0].content.id] else [], Ids(x[1..]), Ids(y));
    }
  }

  lemma {:induction false} IdsDrawn(es: seq<Entry>, next: nat)
    ensures Ids(Drawn(es, next)) == EntryIds(es)
  {
    if es != [] {
      IdsDrawn(es[1..], next + 1);
      var row, rest := Row(next, Draw(es[0])), Drawn(es[1..], next + 1);
      assert Drawn(es, next) == [row] + rest && ([row] + rest)[1..] == rest;
    }
  }

  /** The ids of the history rows above the anchor. */
  function Block(s: State): seq<nat> {
    Ids(Plain(s.rows)[..AnchorAt(s)])
  }

  /** No clear, and no batch but a page asked for, or an empty one. */
  predicate Later(s: State, events: seq<Event>)
    decreases events
  {
    events != [] ==>
      && IsLater(s, events[0])
      && Later(Step(s, events[0]), events[1..])
  }

  /** The ids of each batch of a run, in the order they came. */
  function Pages(events: seq<Event>): seq<seq<nat>> {
    if events == [] then []
    else (if events[0].BatchEvent? then [EntryIds(Present(events[0].entries))] else []) + Pages(events[1..])
  }

  function Flat(pages: seq<seq<nat>>): seq<nat> {
    if pages == [] then [] else pages[0] + Flat(pages[1..])
  }

  lemma InsertBelow(p: seq<Row>, at: nat, piece: seq<Row>, a: nat)
    requires a <= at <= |p|
    ensures Insert(p, at, piece)[..a] == p[..a]
  {
  }

  lemma InsertAbove(p: seq<Row>, at: nat, piece: seq<Row>)
    requires at <= |p|
    ensures Insert(p, at, piece)[..at + |piece|] == p[..at] + piece
  {
  }

  /** The anchor moves down by exactly what an older page puts above it. */
  lemma StepAnchorAt(s: State, e: Event)
    requires Inv(s) && s.anchor.Some? && Anchored(s) && IsLater(s, e)
    ensures var t, k := Step(s, e), if e.BatchEvent? then |StepNew(s, e)| else 0;
            && AnchorAt(t) == AnchorAt(s) + k
            && Plain(t.rows)[..AnchorAt(t)] == Plain(s.rows)[..AnchorAt(s)] + (if e.BatchEvent? then StepNew(s, e) else [])
  {
    var t, p, piece := Step(s, e), Plain(s.rows), StepNew(s, e);
    StepInv(s, e);
    StepInserts(s, e);
    AnchorStays(s);
    AnchorStays(t);
    PlainMarks(s);
    StepMarks(s, e);
    if e.BatchEvent? && s.loading {
      FindInserted(p, AnchorAt(s), piece, s.anchor.value);
      InsertAbove(p, AnchorAt(s), piece);
    } else {
      FindAppended(p, piece, s.anchor.value);
      InsertAtEnd(p, piece);
      InsertBelow(p, |p|, piece, AnchorAt(s));
    }
  }

  lemma FindAppended(p: seq<Row>, piece: seq<Row>, mark: nat)
    requires Find(p, mark) < |p|
    ensures Find(p + piece, mark) == Find(p, mark)
  {
    FindIsFirst(p, mark);
    FindIs(p + piece, mark, Find(p, mark));
  }

  lemma StepMarks(s: State, e: Event)
    requires Inv(s) && s.anchor.Some? && Anchored(s)
    ensures forall r | r in StepNew(s, e) :: r.mark != s.anchor.value
  {
    if e.BatchEvent? {
      var n := s.next + |Sentinel(e.more, 0)|;
      DrawnClean(Present(e.entries), n);
      DrawnClean(Present(e.entries), n + 1);
    }
  }

  /** What a batch's rows above the anchor are: its ids. */
  lemma PieceIds(s: State, e: Event)
    requires e.BatchEvent? && !Stale(s.rows, s.anchor) && (e.entries != [] ==> s.loading)
    ensures Ids(StepNew(s, e)) == EntryIds(Present(e.entries))
  {
    if e.entries != [] {
      IdsDrawn(Present(e.entries), s.next + |Sentinel(e.more, 0)|);
    }
  }

  /** The block grows by a page's ids at its lower end, and by nothing else. */
  lemma StepBlock(s: State, e: Event)
    requires Inv(s) && s.anchor.Some? && Anchored(s) && IsLater(s, e)
    ensures Block(Step(s, e)) == Block(s) + (if e.BatchEvent? then EntryIds(Present(e.entries)) else [])
  {
    StepAnchorAt(s, e);
    var above, piece := Plain(s.rows)[..AnchorAt(s)], if e.BatchEvent? then StepNew(s, e) else [];
    IdsAppend(above, piece);
    if e.BatchEvent? {
      PieceIds(s, e);
    }
  }

  /** The ids a step adds to the block, as a page or none. */
  function PageOf(e: Event): seq<nat> {
    if e.BatchEvent? then EntryIds(Present(e.entries)) else []
  }

  lemma PagesFrom(events: seq<Event>)
    requires events != []
    ensures Flat(Pages(events)) == PageOf(events[0]) + Flat(Pages(events[1..]))
  {
    var rest := Pages(events[1..]);
    if events[0].BatchEvent? {
      var page := PageOf(events[0]);
      assert Pages(events) == [page] + rest && ([page] + rest)[1..] == rest;
    } else {
      assert Pages(events) == [] + rest && [] + rest == rest;
      assert [] + Flat(rest) == Flat(rest);
    }
  }

  /** Over any run of older pages, clicks and lines: the pages, in the order they came. */
  lemma {:induction false} RunBlock(s: State, events: seq<Event>)
    requires Inv(s) && s.anchor.Some? && Anchored(s) && Later(s, events)
    ensures var t := Run(s, events);
            && Block(t) == Block(s) + Flat(Pages(events))
            && t.anchor == s.anchor && Inv(t) && Anchored(t)
    decreases events
  {
    if events != [] {
      var e, rest := events[0], events[1..];
      StepInv(s, e);
      StepBlock(s, e);
      RunBlock(Step(s, e), rest);
      PagesFrom(events);
      Regroup(Block(s), PageOf(e), Flat(Pages(rest)));
    } else {
      assert Block(s) + [] == Block(s);
    }
  }

  // ---- Pages after a clear ----

  function Turned(ids: seq<nat>): seq<nat> {
    if ids == [] then [] else Turned(ids[1..]) + [ids[0]]
  }

  lemma {:induction false} TurnedAppend(x: seq<nat>, y: seq<nat>)
    ensures Turned(x + y) == Turned(y) + Turned(x)
  {
    if x == [] {
      assert x + y == y && Turned(y) + [] == Turned(y);
    } else {
      assert (x + y)[1..] == x[1..] + y;
      TurnedAppend(x[1..], y);
      Regroup(Turned(y), Turned(x[1..]), [x[0]]);
    }
  }

  lemma {:induction false} IdsReversed(rows: seq<Row>)
    ensures Ids(Reversed(rows)) == Turned(Ids(rows))
  {
    if rows != [] {
      var row, rest := [rows[0]], rows[1..];
      IdsReversed(rest);
      IdsAppend(Reversed(rest), row);
      IdsAppend(row, rest);
      assert row + rest == rows;
      TurnedAppend(Ids(row), Ids(rest));
      OneTurned(rows[0]);
    }
  }

  lemma OneTurned(row: Row)
    ensures Ids([row]) == Turned(Ids([row]))
  {
    var rest: seq<Row> := [row][1..];
    assert rest == [];
  }

  lemma StalePiece(s: State, e: Event)
    requires e.BatchEvent? && s.loading && Stale(s.rows, s.anchor)
    ensures Ids(StepNew(s, e)) == Turned(PageOf(e))
  {
    if e.entries != [] {
      var page := Drawn(Present(e.entries), s.next + |Sentinel(e.more, 0)|);
      IdsDrawn(Present(e.entries), s.next + |Sentinel(e.more, 0)|);
      IdsReversed(page);
    }
  }

  /** With the anchor gone, a page's ids stand turned round above all the others. */
  lemma StepHead(s: State, e: Event)
    requires Inv(s) && Stale(s.rows, s.anchor) && IsLater(s, e)
    ensures Ids(Plain(Step(s, e).rows)) == Turned(PageOf(e)) + Ids(Plain(s.rows))
  {
    StepInserts(s, e);
    var p, piece := Plain(s.rows), StepNew(s, e);
    if e.BatchEvent? && s.loading {
      StaleStays(s);
      AtHead(p, piece);
      IdsAppend(piece, p);
      StalePiece(s, e);
    } else {
      InsertAtEnd(p, piece);
      IdsAppend(p, piece);
    }
  }

  /**
   Over any run of older pages, clicks and lines whose anchor a clear took away: the pages
   from the last to the first, each newest first, above what was there.
   */
  lemma {:induction false} RunHead(s: State, events: seq<Event>)
    requires Inv(s) && Stale(s.rows, s.anchor) && Later(s, events)
    ensures var t := Run(s, events);
            && Ids(Plain(t.rows)) == Turned(Flat(Pages(events))) + Ids(Plain(s.rows))
            && Inv(t) && Stale(t.rows, t.anchor)
    decreases events
  {
    if events != [] {
      var e, rest := events[0], events[1..];
      StepInv(s, e);
      StepHead(s, e);
      RunHead(Step(s, e), rest);
      PagesFrom(events);
      TurnedAppend(PageOf(e), Flat(Pages(rest)));
      Regroup(Turned(Flat(Pages(rest))), Turned(PageOf(e)), Ids(Plain(s.rows)));
    }
  }
}
