/**
 What holds of a conversation's history over every run of batches, Load-older clicks,
 live lines and clears: one sentinel at most, and the exact place of every page.
 */
module ChatHistoryProofs {
  import opened Wrappers
  import opened ChatHistory

  // ---- The rows other than the marker ----

  function Plain(rows: seq<Row>): seq<Row> {
    if rows == [] then []
    else (if IsMarker(rows[0].content) then [] else [rows[0]]) + Plain(rows[1..])
  }

  lemma {:induction false} PlainAppend(x: seq<Row>, y: seq<Row>)
    ensures Plain(x + y) == Plain(x) + Plain(y)
  {
    if x == [] {
      assert x + y == y;
    } else {
      assert (x + y)[1..] == x[1..] + y;
      PlainAppend(x[1..], y);
    }
  }

  predicate NoMarker(rows: seq<Row>) {
    forall i | 0 <= i < |rows| :: !IsMarker(rows[i].content)
  }

  lemma {:induction false} PlainOfPlain(rows: seq<Row>)
    requires NoMarker(rows)
    ensures Plain(rows) == rows
  {
    if rows != [] {
      assert !IsMarker(rows[0].content);
      PlainOfPlain(rows[1..]);
      assert rows == [rows[0]] + rows[1..];
    }
  }

  function Markers(rows: seq<Row>): nat {
    if rows == [] then 0 else (if IsMarker(rows[0].content) then 1 else 0) + Markers(rows[1..])
  }

  lemma {:induction false} MarkersAppend(x: seq<Row>, y: seq<Row>)
    ensures Markers(x + y) == Markers(x) + Markers(y)
  {
    if x == [] {
      assert x + y == y;
    } else {
      assert (x + y)[1..] == x[1..] + y;
      MarkersAppend(x[1..], y);
    }
  }

  lemma {:induction false} MarkersOfPlain(rows: seq<Row>)
    requires NoMarker(rows)
    ensures Markers(rows) == 0
  {
    if rows != [] {
      assert !IsMarker(rows[0].content);
      MarkersOfPlain(rows[1..]);
    }
  }

  lemma PlainCons(row: Row, y: seq<Row>)
    ensures Plain([row] + y) == (if IsMarker(row.content) then [] else [row]) + Plain(y)
    ensures Markers([row] + y) == (if IsMarker(row.content) then 1 else 0) + Markers(y)
  {
    assert ([row] + y)[1..] == y;
  }

  /** One marker among other rows. */
  lemma PlainAround(x: seq<Row>, row: Row, y: seq<Row>)
    requires IsMarker(row.content) && NoMarker(x) && NoMarker(y)
    ensures Plain(x + ([row] + y)) == x + y && Markers(x + ([row] + y)) == 1
  {
    var tail := [row] + y;
    PlainCons(row, y);
    PlainOfPlain(x);
    PlainOfPlain(y);
    MarkersOfPlain(x);
    MarkersOfPlain(y);
    assert [] + Plain(y) == Plain(y);
    PlainAppend(x, tail);
    MarkersAppend(x, tail);
  }

  /** A row other than the one `load_older_ent` names is no marker. */
  lemma OtherIsPlain(s: State, i: nat, j: nat)
    requires Inv(s) && s.loadOlder.Some? && i == Find(s.rows, s.loadOlder.value) < |s.rows|
    requires j < |s.rows| && j != i
    ensures !IsMarker(s.rows[j].content)
  {
    if i < j {
      assert s.rows[i].mark != s.rows[j].mark;
    } else {
      assert s.rows[j].mark != s.rows[i].mark;
    }
  }

  lemma SplitAt(rows: seq<Row>, i: nat)
    requires i < |rows|
    ensures rows == rows[..i] + ([rows[i]] + rows[i + 1..])
  {
  }

  /** The rows on either side of the marker. */
  lemma MarkerSplits(s: State) returns (x: seq<Row>, y: seq<Row>)
    requires Inv(s) && s.loadOlder.Some? && Posted(s)
    ensures var i := Find(s.rows, s.loadOlder.value);
            && i < |s.rows| && IsMarker(s.rows[i].content) && NoMarker(x) && NoMarker(y)
            && x == s.rows[..i] && y == s.rows[i + 1..] && s.rows == x + ([s.rows[i]] + y)
  {
    var i := Find(s.rows, s.loadOlder.value);
    x, y := s.rows[..i], s.rows[i + 1..];
    SplitAt(s.rows, i);
    forall j | 0 <= j < |x| ensures !IsMarker(x[j].content) {
      OtherIsPlain(s, i, j);
    }
    forall j | 0 <= j < |y| ensures !IsMarker(y[j].content) {
      OtherIsPlain(s, i, i + 1 + j);
    }
  }

  /** No marker stands in the rows when `load_older_ent` names none, or one that is gone. */
  lemma UnpostedIsPlain(s: State)
    requires Inv(s) && (s.loadOlder.Some? ==> !Posted(s))
    ensures NoMarker(s.rows)
  {
    if s.loadOlder.Some? {
      FindNone(s.rows, s.loadOlder.value);
    }
  }

  /** Evicting the marker leaves exactly the other rows. */
  lemma EvictedIsPlain(s: State)
    requires Inv(s)
    ensures Evict(s).rows == Plain(s.rows) && NoMarker(Plain(s.rows))
  {
    if s.loadOlder.None? || !Posted(s) {
      UnpostedIsPlain(s);
      PlainOfPlain(s.rows);
    } else {
      var x, y := MarkerSplits(s);
      PlainAround(x, s.rows[Find(s.rows, s.loadOlder.value)], y);
    }
  }

  // ---- The exact rows after each step ----

  function Sentinel(more: bool, mark: nat): seq<Row> {
    if more then [Row(mark, Older)] else []
  }

  /** The anchor's place among the rows other than the marker. */
  function AnchorAt(s: State): (i: nat)
    ensures i <= |Plain(s.rows)|
  {
    Before(Plain(s.rows), s.anchor)
  }

  /** A click on a shown sentinel swaps it for a loading row just above the anchor. */
  lemma ClickRows(s: State)
    requires Inv(s) && !s.loading && s.loadOlder.Some?
    ensures Click(s, true).rows == Insert(Plain(s.rows), AnchorAt(s), [Row(s.next, Loading)])
  {
    EvictedIsPlain(s);
  }

  lemma AboveLast(p: seq<Row>, row: Row, more: seq<Row>)
    ensures Insert(p + [row], |p|, more) == p + more + [row]
  {
  }

  /** The opening divider and the sentinel above it. */
  lemma OpenedRows(s: State, entries: seq<Option<Entry>>, more: bool)
    requires Inv(s)
    ensures var s3 := Opened(s, entries, more);
            && s3.rows == Plain(s.rows) + Sentinel(more, s.next + 1) + [Row(s.next, Opening(|entries|))]
            && s3.next == s.next + 1 + |Sentinel(more, 0)|
  {
    ReceivedRows(s, entries, more);
    var p, row := Plain(s.rows), Row(s.next, Opening(|entries|));
    NewAnchorFound(s, row);
    if more {
      AboveLast(p, row, [Row(s.next + 1, Older)]);
    } else {
      assert p + [] + [row] == p + [row];
    }
  }

  /** A first batch, up to its entries. */
  function Opened(s: State, entries: seq<Option<Entry>>, more: bool): State {
    var s2 := Open(Receive(s, entries, more), |entries|);
    if more then Post(s2, Older) else s2
  }

  lemma InitialSteps(s: State, entries: seq<Option<Entry>>, more: bool, page: seq<Row>, t: State, close: Row)
    requires !s.loading && entries != [] && t == Opened(s, entries, more)
    requires page == Drawn(Present(entries), t.next) && close == Row(t.next + |Present(entries)|, Closing)
    ensures Batch(s, entries, more).rows == Insert(t.rows, |t.rows|, page) + [close]
  {
  }

  /** The first batch: the sentinel, then the block between its two dividers, at the end. */
  lemma InitialRows(s: State, entries: seq<Option<Entry>>, more: bool, page: seq<Row>, close: Row)
    requires Inv(s) && !s.loading && entries != []
    requires page == Drawn(Present(entries), s.next + 1 + |Sentinel(more, 0)|)
    requires close == Row(s.next + 1 + |Sentinel(more, 0)| + |Present(entries)|, Closing)
    ensures Batch(s, entries, more).rows
            == Plain(s.rows) + Sentinel(more, s.next + 1) + [Row(s.next, Opening(|entries|))] + page + [close]
  {
    var t := Opened(s, entries, more);
    OpenedRows(s, entries, more);
    InitialSteps(s, entries, more, page, t, close);
    InsertAtEnd(t.rows, page);
  }

  lemma InsertAtEnd(rows: seq<Row>, more: seq<Row>)
    ensures Insert(rows, |rows|, more) == rows + more
  {
  }

  lemma NewAnchorFound(s: State, row: Row)
    requires Inv(s) && row.mark == s.next
    ensures Find(Plain(s.rows) + [row], s.next) == |Plain(s.rows)|
  {
    var p := Plain(s.rows);
    PlainMarks(s);
    forall j | 0 <= j < |p| ensures (p + [row])[j].mark != s.next {
      assert p[j].mark < s.next;
    }
    FindIs(p + [row], s.next, |p|);
  }

  lemma DistinctWithout(rows: seq<Row>, i: nat, next: nat)
    requires i < |rows| && Distinct(rows) && forall j | 0 <= j < |rows| :: rows[j].mark < next
    ensures var rest := rows[..i] + rows[i + 1..];
            Distinct(rest) && forall j | 0 <= j < |rest| :: rest[j].mark < next
  {
    var rest := rows[..i] + rows[i + 1..];
    forall j | 0 <= j < |rest| ensures rest[j] == if j < i then rows[j] else rows[j + 1] {
    }
  }

  lemma PlainMarks(s: State)
    requires Inv(s)
    ensures Distinct(Plain(s.rows)) && forall i | 0 <= i < |Plain(s.rows)| :: Plain(s.rows)[i].mark < s.next
  {
    EvictedIsPlain(s);
    if s.loadOlder.Some? && Posted(s) {
      DistinctWithout(s.rows, Find(s.rows, s.loadOlder.value), s.next);
    }
  }

  lemma ReceivedRows(s: State, entries: seq<Option<Entry>>, more: bool)
    requires Inv(s)
    ensures var r := Receive(s, entries, more);
            r.rows == Plain(s.rows) && r.next == s.next && r.anchor == s.anchor && r.loadOlder.None? && !r.loading
  {
    EvictedIsPlain(s);
  }

  lemma WithoutAt(rows: seq<Row>, i: nat, rest: seq<Row>, j: nat)
    requires i < |rows| && rest == rows[..i] + rows[i + 1..] && j < |rest|
    ensures rest[j] == if j < i then rows[j] else rows[j + 1]
  {
  }

  lemma FindWithout(rows: seq<Row>, i: nat, mark: nat, a: nat, rest: seq<Row>)
    requires i < |rows| && a == Find(rows, mark) < |rows| && a != i && rest == rows[..i] + rows[i + 1..]
    ensures var b := if a < i then a else a - 1;
            Find(rest, mark) == b && b < |rest| && rest[b] == rows[a]
  {
    FindIsFirst(rows, mark);
    var b := if a < i then a else a - 1;
    WithoutAt(rows, i, rest, b);
    forall j | 0 <= j < b ensures rest[j].mark != mark {
      WithoutAt(rows, i, rest, j);
    }
    FindIs(rest, mark, b);
  }

  lemma RemoveKeeps(rows: seq<Row>, mark: nat, other: nat, rest: seq<Row>)
    requires mark != other && Find(rows, other) < |rows| && rest == Remove(rows, mark)
    ensures Find(rest, other) < |rest| && rest[Find(rest, other)] == rows[Find(rows, other)]
  {
    var i := Find(rows, mark);
    if i < |rows| {
      FindWithout(rows, i, other, Find(rows, other), rest);
    }
  }

  lemma MarksDiffer(s: State)
    requires Inv(s) && s.anchor.Some? && Anchored(s) && s.loadOlder.Some?
    ensures s.anchor.value != s.loadOlder.value
  {
  }

  /** The anchor is still where it was among the other rows. */
  lemma AnchorStays(s: State)
    requires Inv(s) && s.anchor.Some? && Anchored(s)
    ensures var p, i := Plain(s.rows), Find(Plain(s.rows), s.anchor.value);
            && i < |p| && AnchorAt(s) == i
            && p[i] == s.rows[Find(s.rows, s.anchor.value)]
  {
    EvictedIsPlain(s);
    if s.loadOlder.Some? {
      MarksDiffer(s);
      RemoveKeeps(s.rows, s.loadOlder.value, s.anchor.value, Plain(s.rows));
    }
  }

  lemma {:induction false} FindInPlain(rows: seq<Row>, mark: nat)
    requires Find(rows, mark) == |rows|
    ensures Find(Plain(rows), mark) == |Plain(rows)|
  {
    if rows != [] {
      FindInPlain(rows[1..], mark);
      PlainCons(rows[0], rows[1..]);
      assert [rows[0]] + rows[1..] == rows;
      assert [] + Plain(rows[1..]) == Plain(rows[1..]);
      assert ([rows[0]] + Plain(rows[1..]))[1..] == Plain(rows[1..]);
    }
  }

  /** A stale anchor is stale among the other rows too. */
  lemma StaleStays(s: State)
    requires Stale(s.rows, s.anchor)
    ensures Stale(Plain(s.rows), s.anchor) && AnchorAt(s) == 0
  {
    FindInPlain(s.rows, s.anchor.value);
  }

  lemma AnchoredPlain(s: State)
    requires Inv(s)
    ensures Anchored(Evict(s)) == Anchored(s)
  {
    EvictedIsPlain(s);
    if Stale(s.rows, s.anchor) {
      StaleStays(s);
    } else if s.anchor.Some? {
      AnchorStays(s);
    }
  }

  lemma SentinelAboveAnchor(p: seq<Row>, a: nat, row: Row, anchor: nat)
    requires Find(p, anchor) == a < |p| && row.mark != anchor
    ensures var rows := Insert(p, a, [row]);
            && rows == p[..a] + [row] + p[a..] && PageAt(rows, Some(anchor), true) == a + 1
            && !Stale(rows, Some(anchor))
  {
    FindInserted(p, a, [row], anchor);
  }

  lemma NothingAboveAnchor(p: seq<Row>, a: nat, anchor: nat)
    requires Find(p, anchor) == a < |p|
    ensures p == p[..a] + [] + p[a..] && PageAt(p, Some(anchor), true) == a
  {
  }

  /** The sentinel of an older page, just above the anchor. */
  lemma OlderSentinel(s: State, entries: seq<Option<Entry>>, more: bool)
    requires Inv(s) && s.anchor.Some? && Anchored(s)
    ensures var p, a := Plain(s.rows), AnchorAt(s);
            var s1 := Receive(s, entries, more);
            var s3 := if more then Post(s1, Older) else s1;
            var head := p[..a] + Sentinel(more, s.next);
            && s3.rows == head + p[a..] && PageAt(s3.rows, s3.anchor, true) == |head|
            && !Stale(s3.rows, s3.anchor)
            && s3.next == s.next + |Sentinel(more, 0)| && s3.anchor == s.anchor
  {
    ReceivedRows(s, entries, more);
    AnchorStays(s);
    var p, a := Plain(s.rows), AnchorAt(s);
    if more {
      SentinelAboveAnchor(p, a, Row(s.next, Older), s.anchor.value);
    } else {
      NothingAboveAnchor(p, a, s.anchor.value);
    }
  }

  lemma InsertBetween(x: seq<Row>, y: seq<Row>, more: seq<Row>)
    ensures Insert(x + y, |x|, more) == x + more + y
  {
    assert (x + y)[..|x|] == x && (x + y)[|x|..] == y;
  }

  lemma OlderSteps(s: State, entries: seq<Option<Entry>>, more: bool, page: seq<Row>, t: State)
    requires s.loading && (entries != [] || more)
    requires t == if more then Post(Receive(s, entries, more), Older) else Receive(s, entries, more)
    requires page == PageRows(t.rows, t.anchor, true, Drawn(Present(entries), t.next))
    ensures Batch(s, entries, more).rows == Insert(t.rows, PageAt(t.rows, t.anchor, true), page)
  {
  }

  /**
   An older page: contiguous and in order just above the anchor, the sentinel just above
   the page. What an earlier page put above the anchor stays above the sentinel.
   */
  lemma OlderRows(s: State, entries: seq<Option<Entry>>, more: bool, page: seq<Row>)
    requires Inv(s) && s.loading && s.anchor.Some? && Anchored(s) && (entries != [] || more)
    requires page == Drawn(Present(entries), s.next + |Sentinel(more, 0)|)
    ensures var p, a := Plain(s.rows), AnchorAt(s);
            Batch(s, entries, more).rows == p[..a] + Sentinel(more, s.next) + page + p[a..]
  {
    OlderSentinel(s, entries, more);
    var t := if more then Post(Receive(s, entries, more), Older) else Receive(s, entries, more);
    var p, a := Plain(s.rows), AnchorAt(s);
    OlderPlaced(s, entries, more, page, t, p[..a] + Sentinel(more, s.next), p[a..]);
  }

  lemma OlderPlaced(s: State, entries: seq<Option<Entry>>, more: bool, page: seq<Row>, t: State, head: seq<Row>, tail: seq<Row>)
    requires s.loading && (entries != [] || more)
    requires t == if more then Post(Receive(s, entries, more), Older) else Receive(s, entries, more)
    requires page == Drawn(Present(entries), t.next) && !Stale(t.rows, t.anchor)
    requires t.rows == head + tail && PageAt(t.rows, t.anchor, true) == |head|
    ensures Batch(s, entries, more).rows == head + page + tail
  {
    OlderSteps(s, entries, more, page, t);
    InsertBetween(head, tail, page);
  }

  lemma AtHead(p: seq<Row>, more: seq<Row>)
    ensures Insert(p, 0, more) == more + p
  {
    assert p[..0] == [] && p[0..] == p && [] + more == more;
  }

  /** A batch with no anchor yet, which a click before the first one makes an older page. */
  lemma UnanchoredRows(s: State, entries: seq<Option<Entry>>, more: bool, page: seq<Row>)
    requires Inv(s) && s.loading && s.anchor.None? && (entries != [] || more)
    requires page == Drawn(Present(entries), s.next + |Sentinel(more, 0)|)
    ensures Batch(s, entries, more).rows == Sentinel(more, s.next) + Plain(s.rows) + page
  {
    ReceivedRows(s, entries, more);
    var t := if more then Post(Receive(s, entries, more), Older) else Receive(s, entries, more);
    AtHead(Plain(s.rows), [Row(s.next, Older)]);
    assert [] + Plain(s.rows) == Plain(s.rows);
    OlderSteps(s, entries, more, page, t);
    InsertAtEnd(t.rows, page);
  }

  lemma StaleUnderSentinel(p: seq<Row>, row: Row, anchor: nat)
    requires Find(p, anchor) == |p| && row.mark != anchor
    ensures Insert(p, 0, [row]) == [row] + p && Stale(Insert(p, 0, [row]), Some(anchor))
  {
    AtHead(p, [row]);
    assert ([row] + p)[1..] == p;
  }

  /** The sentinel of an older page whose anchor is gone: at the head. */
  lemma StaleSentinel(s: State, entries: seq<Option<Entry>>, more: bool, t: State)
    requires Inv(s) && Stale(s.rows, s.anchor)
    requires t == if more then Post(Receive(s, entries, more), Older) else Receive(s, entries, more)
    ensures t.rows == Sentinel(more, s.next) + Plain(s.rows) && Stale(t.rows, t.anchor)
    ensures t.next == s.next + |Sentinel(more, 0)| && t.anchor == s.anchor
  {
    ReceivedRows(s, entries, more);
    StaleStays(s);
    if more {
      StaleUnderSentinel(Plain(s.rows), Row(s.next, Older), s.anchor.value);
    } else {
      assert [] + Plain(s.rows) == Plain(s.rows);
    }
  }

  /**
   An older page whose anchor the view no longer has, as after a clear: at the head, newest
   first, and its sentinel under it.
   */
  lemma StaleRows(s: State, entries: seq<Option<Entry>>, more: bool, page: seq<Row>)
    requires Inv(s) && s.loading && Stale(s.rows, s.anchor) && (entries != [] || more)
    requires page == Drawn(Present(entries), s.next + |Sentinel(more, 0)|)
    ensures Batch(s, entries, more).rows == Reversed(page) + (Sentinel(more, s.next) + Plain(s.rows))
  {
    var t := if more then Post(Receive(s, entries, more), Older) else Receive(s, entries, more);
    StaleSentinel(s, entries, more, t);
    OlderSteps(s, entries, more, Reversed(page), t);
    AtHead(t.rows, Reversed(page));
  }

  // ---- What a history row says ----

  lemma FlagsAre(k: nat, deleted: nat, server: nat, action: nat)
    requires deleted < 2 && server < 2 && action < 2
    ensures var flags := 8 * k + 4 * deleted + 2 * server + action;
            Flag(flags, 4) == (deleted == 1) && Flag(flags, 2) == (server == 1) && Flag(flags, 1) == (action == 1)
  {
    var flags := 8 * k + 4 * deleted + 2 * server + action;
    assert flags / 4 == 2 * k + deleted && flags / 2 == 4 * k + 2 * deleted + server;
  }

  function TextOr(s: Option<string>): string {
    match s
    case Some(text) => text
    case None => ""
  }

  /**
   What a row shows, by the flags of its entry: bit 2 for a removed message, bit 1 for the
   server's, bit 0 for an action, the first of them that is set counting. A removed message
   shows nothing of itself but its id and time; the server's and an action stand in the text
   alone, and a plain message has its sender in the gutter.
   */
  lemma RowTells(e: Entry, k: nat, deleted: nat, server: nat, action: nat)
    requires deleted < 2 && server < 2 && action < 2 && e.flags == 8 * k + 4 * deleted + 2 * server + action
    ensures var c := Draw(e);
            && c.History? && c.id == e.id && c.stamp == e.stamp
            && (deleted == 1 ==> Gutter(c.words) == None && BodyText(c.words) == "[message removed]")
            && (deleted == 0 && server == 1 ==> Gutter(c.words) == None && BodyText(c.words) == "*** " + TextOr(e.message))
            && (deleted == 0 && server == 0 && action == 1 ==>
                  Gutter(c.words) == None && BodyText(c.words) == "* " + TextOr(e.nick) + " " + TextOr(e.message))
            && (deleted == 0 && server == 0 && action == 0 ==>
                  Gutter(c.words) == Some("<" + TextOr(e.nick) + ">") && BodyText(c.words) == TextOr(e.message))
    ensures deleted == 1 ==> forall n, m :: Draw(e.(nick := n, message := m)) == Draw(e)
  {
    FlagsAre(k, deleted, server, action);
  }

  /** Entries that are there are all drawn, in order, and missing ones are passed over. */
  lemma {:induction false} PresentAre(x: seq<Option<Entry>>, e: Option<Entry>, y: seq<Option<Entry>>)
    ensures Present(x + ([e] + y)) == Present(x) + ((if e.Some? then [e.value] else []) + Present(y))
  {
    var one := [e] + y;
    assert one[1..] == y;
    if x == [] {
      assert x + one == one;
      assert [] + Present(one) == Present(one);
    } else {
      PresentAre(x[1..], e, y);
      assert (x + one)[0] == x[0] && (x + one)[1..] == x[1..] + one;
      JoinEntries(if x[0].Some? then [x[0].value] else [], Present(x[1..]), Present(one));
    }
  }

  lemma JoinEntries(x: seq<Entry>, y: seq<Entry>, z: seq<Entry>)
    ensures x + (y + z) == x + y + z
  {
  }

  /** What a batch, a click and a clear leave beside the rows. */
  lemma StepTells(s: State, entries: seq<Option<Entry>>, more: bool, sent: bool)
    ensures var t := Batch(s, entries, more); t.hasMore == more && !t.loading
    ensures var t := Click(s, sent); t.hasMore == s.hasMore && t.oldest == s.oldest && t.anchor == s.anchor
                                     && t.loading == (s.loading || sent)
    ensures Click(s, false) == s && (s.loading ==> Click(s, sent) == s)
    ensures sent && s.loadOlder.None? ==> Click(s, sent) == s.(loading := true)
    ensures Batch(s, entries, more).anchor == if s.loading || entries == [] then s.anchor else Some(s.next)
    ensures var t := Clear(s); t.rows == [] && t.hasMore == s.hasMore && t.oldest == s.oldest && t.loading == s.loading
                               && t.anchor == s.anchor && t.loadOlder == s.loadOlder
  {
  }

  /** A batch with nothing in it and nothing to come only takes the marker away. */
  lemma EmptyRows(s: State, more: bool)
    requires Inv(s) && !(s.loading && more)
    ensures Batch(s, [], more).rows == Plain(s.rows)
  {
    ReceivedRows(s, [], more);
  }

  // ---- The invariant ----

  /** Rows without a marker, all marks distinct and used up to `next`. */
  predicate CleanRows(rows: seq<Row>, next: nat) {
    NoMarker(rows) && Distinct(rows) && forall i | 0 <= i < |rows| :: rows[i].mark < next
  }

  lemma EvictClean(s: State)
    requires Inv(s)
    ensures CleanRows(Evict(s).rows, s.next) && Inv(Evict(s))
    ensures Evict(s).rows == Plain(s.rows)
  {
    EvictedIsPlain(s);
    PlainMarks(s);
    if Stale(s.rows, s.anchor) {
      StaleStays(s);
    } else if s.anchor.Some? {
      AnchorStays(s);
    }
  }

  /** Rows drawn from `next` on: marks used once and not before. */
  predicate NewMarks(more: seq<Row>, next: nat) {
    Distinct(more) && forall i | 0 <= i < |more| :: next <= more[i].mark < next + |more|
  }

  lemma InsertDistinct(rows: seq<Row>, at: nat, more: seq<Row>, next: nat)
    requires at <= |rows| && Distinct(rows) && forall i | 0 <= i < |rows| :: rows[i].mark < next
    requires NewMarks(more, next)
    ensures var all := Insert(rows, at, more);
            Distinct(all) && forall i | 0 <= i < |all| :: all[i].mark < next + |more|
  {
    var all := Insert(rows, at, more);
    forall i | 0 <= i < |all|
      ensures all[i] == if i < at then rows[i] else if i < at + |more| then more[i - at] else rows[i - |more|]
    {
    }
  }

  /** Rows inserted anywhere leave the other marks findable, and the stale ones stale. */
  lemma FindAfterInsert(rows: seq<Row>, at: nat, more: seq<Row>, next: nat, mark: nat)
    requires at <= |rows| && Distinct(rows) && forall i | 0 <= i < |rows| :: rows[i].mark < next
    requires NewMarks(more, next) && mark < next
    ensures var all, i := Insert(rows, at, more), Find(rows, mark);
            if i == |rows| then Find(all, mark) == |all|
            else Find(all, mark) == (if i < at then i else i + |more|) < |all| && all[Find(all, mark)] == rows[i]
  {
    if Find(rows, mark) == |rows| {
      StaleAfterInsert(rows, at, more, next, mark);
    } else {
      InsertDistinct(rows, at, more, next);
      var all, i := Insert(rows, at, more), Find(rows, mark);
      var j := if i < at then i else i + |more|;
      assert all[j] == rows[i];
      FindIs(all, mark, j);
    }
  }

  lemma StaleAfterInsert(rows: seq<Row>, at: nat, more: seq<Row>, next: nat, mark: nat)
    requires at <= |rows| && NewMarks(more, next) && mark < next && Find(rows, mark) == |rows|
    ensures Find(Insert(rows, at, more), mark) == |rows| + |more|
  {
    var all := Insert(rows, at, more);
    FindNone(rows, mark);
    forall i | 0 <= i < |all| ensures all[i].mark != mark {
      InsertAt(rows, at, more, i);
    }
    FindNone(all, mark);
  }

  lemma AppendInv(s: State, c: Content)
    requires Inv(s) && !IsMarker(c)
    ensures var t := Append(s, c);
            Inv(t) && Anchored(t) == Anchored(s) && (Posted(s) ==> Posted(t))
  {
    InsertAtEnd(s.rows, [Row(s.next, c)]);
    InsertInv(s, |s.rows|, [Row(s.next, c)]);
  }

  lemma OpenInv(s: State, count: nat)
    requires Inv(s)
    ensures Inv(Open(s, count)) && Anchored(Open(s, count))
  {
    AppendInv(s, Opening(count));
    var rows := s.rows + [Row(s.next, Opening(count))];
    FindIs(rows, s.next, |s.rows|);
  }

  lemma PostInv(s: State, c: Content)
    requires Marked(s) && NoMarker(s.rows) && c == if s.loading then Loading else Older
    ensures Inv(Post(s, c)) && Posted(Post(s, c)) && Anchored(Post(s, c)) == Anchored(s)
  {
    var at, more := Before(s.rows, s.anchor), [Row(s.next, c)];
    InsertMarked(s, at, more);
    OneAmongPlain(s.rows, at, more[0], Post(s, c).rows);
  }

  /** New rows keep the marks apart and the anchor's row, or its absence, as it was. */
  lemma InsertMarked(s: State, at: nat, more: seq<Row>)
    requires Marked(s) && at <= |s.rows| && NewMarks(more, s.next)
    ensures var t := s.(rows := Insert(s.rows, at, more), next := s.next + |more|);
            Marked(t) && Anchored(t) == Anchored(s)
  {
    InsertDistinct(s.rows, at, more, s.next);
    if s.anchor.Some? {
      FindAfterInsert(s.rows, at, more, s.next, s.anchor.value);
    }
  }

  /** The one marker among rows that are none is where its mark says. */
  lemma OneAmongPlain(rows: seq<Row>, at: nat, row: Row, all: seq<Row>)
    requires at <= |rows| && NoMarker(rows) && all == Insert(rows, at, [row])
    requires forall i | 0 <= i < |rows| :: rows[i].mark < row.mark
    ensures Find(all, row.mark) == at && all[at] == row
    ensures forall i | 0 <= i < |all| && IsMarker(all[i].content) :: all[i].mark == row.mark
  {
    forall i | 0 <= i < |all| ensures all[i] == if i < at then rows[i] else if i == at then row else rows[i - 1] {
      InsertAt(rows, at, [row], i);
    }
    FindIs(all, row.mark, at);
  }

  /** The rows of a page are marked in order and none of them is a marker. */
  lemma {:induction false} DrawnClean(es: seq<Entry>, next: nat)
    ensures |Drawn(es, next)| == |es| && NoMarker(Drawn(es, next))
    ensures NewMarks(Drawn(es, next), next)
  {
    if es != [] {
      DrawnClean(es[1..], next + 1);
    }
  }

  /** New rows that are not markers keep the invariant wherever they go. */
  lemma InsertInv(s: State, at: nat, more: seq<Row>)
    requires Inv(s) && at <= |s.rows| && NoMarker(more)
    requires NewMarks(more, s.next)
    ensures var t := s.(rows := Insert(s.rows, at, more), next := s.next + |more|);
            Inv(t) && Anchored(t) == Anchored(s) && (Posted(s) ==> Posted(t))
  {
    InsertMarked(s, at, more);
    if s.loadOlder.Some? {
      FindAfterInsert(s.rows, at, more, s.next, s.loadOlder.value);
    }
    var all := Insert(s.rows, at, more);
    forall i | 0 <= i < |all| && IsMarker(all[i].content) ensures s.loadOlder == Some(all[i].mark) {
      InsertAt(s.rows, at, more, i);
    }
  }

  lemma InsertAt(rows: seq<Row>, at: nat, more: seq<Row>, i: nat)
    requires at <= |rows| && i < |rows| + |more|
    ensures Insert(rows, at, more)[i] == if i < at then rows[i] else if i < at + |more| then more[i - at] else rows[i - |more|]
  {
  }

  lemma {:induction false} ReversedPage(rows: seq<Row>, next: nat)
    requires NewMarks(rows, next) && NoMarker(rows)
    ensures |Reversed(rows)| == |rows| && NewMarks(Reversed(rows), next) && NoMarker(Reversed(rows))
  {
    ReversedRows(rows);
    var turned := Reversed(rows);
    forall i, j | 0 <= i < j < |turned| ensures turned[i].mark != turned[j].mark {
      assert rows[|rows| - 1 - j].mark != rows[|rows| - 1 - i].mark;
    }
  }

  lemma PageInv(s: State, es: seq<Entry>, prepend: bool)
    requires Inv(s)
    ensures var t := Page(s, es, prepend);
            Inv(t) && Anchored(t) == Anchored(s) && (Posted(s) ==> Posted(t))
  {
    DrawnClean(es, s.next);
    ReversedPage(Drawn(es, s.next), s.next);
    InsertInv(s, PageAt(s.rows, s.anchor, prepend), PageRows(s.rows, s.anchor, prepend, Drawn(es, s.next)));
  }

  lemma BatchInv(s: State, entries: seq<Option<Entry>>, more: bool)
    requires Inv(s)
    ensures var t := Batch(s, entries, more);
            && Inv(t) && Posted(t)
            && Anchored(t) == (Anchored(s) || (!s.loading && entries != []))
  {
    EvictClean(s);
    var s1 := Receive(s, entries, more);
    ReceivedInv(s, s1, entries, more);
    if entries == [] && !(s.loading && more) {
      return;
    }
    var s2 := if s.loading then s1 else Open(s1, |entries|);
    if !s.loading {
      OpenInv(s1, |entries|);
    }
    var s3 := if more then Post(s2, Older) else s2;
    if more {
      PostInv(s2, Older);
    }
    PageInv(s3, Present(entries), s.loading);
    if !s.loading {
      AppendInv(Page(s3, Present(entries), s.loading), Closing);
    }
  }

  lemma ReceivedInv(s: State, t: State, entries: seq<Option<Entry>>, more: bool)
    requires Inv(s) && t == Receive(s, entries, more)
    ensures Inv(t) && NoMarker(t.rows) && t.loadOlder.None? && !t.loading && Anchored(t) == Anchored(s)
  {
    EvictClean(s);
    assert t.rows == Evict(s).rows;
    AnchoredPlain(s);
  }

  lemma ClickInv(s: State, sent: bool)
    requires Inv(s)
    ensures var t := Click(s, sent);
            Inv(t) && Anchored(t) == Anchored(s) && (Posted(s) ==> Posted(t))
  {
    if !s.loading && sent && s.loadOlder.Some? {
      EvictClean(s);
      var t := Evict(s).(loading := true);
      AnchoredPlain(s);
      PostInv(t, Loading);
      assert Evict(s.(loading := true)) == t;
    }
  }

  datatype Event =
    | BatchEvent(entries: seq<Option<Entry>>, more: bool)
    | ClickEvent(sent: bool)
    | LineEvent(text: string)
    | ClearEvent

  function Step(s: State, e: Event): State {
    match e
    case BatchEvent(entries, more) => Batch(s, entries, more)
    case ClickEvent(sent) => Click(s, sent)
    case LineEvent(text) => Append(s, Line(text))
    case ClearEvent => Clear(s)
  }

  function Run(s: State, events: seq<Event>): State
    decreases events
  {
    if events == [] then s else Run(Step(s, events[0]), events[1..])
  }

  /** A line, a click, a page asked for, or an empty batch. */
  predicate IsLater(s: State, e: Event) {
    !e.ClearEvent? && (e.BatchEvent? && e.entries != [] ==> s.loading)
  }

  /** Only a clear takes the anchor's row, or the sentinel's, away. */
  lemma StepInv(s: State, e: Event)
    requires Inv(s)
    ensures var t := Step(s, e);
            && Inv(t)
            && (!e.ClearEvent? ==> (Anchored(s) ==> Anchored(t)) && (Posted(s) ==> Posted(t)))
            && (IsLater(s, e) ==> Anchored(t) == Anchored(s) && t.anchor == s.anchor)
  {
    match e
    case BatchEvent(entries, more) => BatchInv(s, entries, more);
    case ClickEvent(sent) => ClickInv(s, sent);
    case LineEvent(text) => AppendInv(s, Line(text));
    case ClearEvent =>
  }

  predicate HasClear(events: seq<Event>) {
    events != [] && (events[0].ClearEvent? || HasClear(events[1..]))
  }

  /** Over every run: one marker at most, and `load_older_ent` names it. */
  lemma {:induction false} RunInv(s: State, events: seq<Event>)
    requires Inv(s)
    ensures var t := Run(s, events);
            Inv(t) && (!HasClear(events) ==> (Anchored(s) ==> Anchored(t)) && (Posted(s) ==> Posted(t)))
    decreases events
  {
    if events != [] {
      StepInv(s, events[0]);
      RunInv(Step(s, events[0]), events[1..]);
    }
  }

  /**
   From an empty conversation on: one marker while the row `load_older_ent` names is there,
   and otherwise none. Without a clear, that row is there whenever it is named.
   */
  lemma RunHasOneMarker(events: seq<Event>)
    ensures var s := Run(FRESH, events);
            && Markers(s.rows) == (if s.loadOlder.Some? && Posted(s) then 1 else 0)
            && (s.loadOlder.Some? && Posted(s) ==>
                  s.rows[Find(s.rows, s.loadOlder.value)].content == if s.loading then Loading else Older)
            && (!HasClear(events) ==> Anchored(s) && Posted(s))
  {
    RunInv(FRESH, events);
    var s := Run(FRESH, events);
    if s.loadOlder.Some? && Posted(s) {
      var x, y := MarkerSplits(s);
      PlainAround(x, s.rows[Find(s.rows, s.loadOlder.value)], y);
    } else {
      UnpostedIsPlain(s);
      MarkersOfPlain(s.rows);
    }
  }
}
