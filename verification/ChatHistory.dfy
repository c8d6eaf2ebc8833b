/**
 The chat-history part of a conversation's output (src/chat.c:81-107, 962-1195,
 1219-1283): the rows of the view, the weak marks into them, the cursor and the
 in-flight latch, and what a batch, a Load-older click, a live line and a clear do to them.
 */
module ChatHistory {
  import opened Wrappers

  /** A decoded history entry (src/chat_history.h). */
  datatype Entry = Entry(id: nat, stamp: int, flags: nat, nick: Option<string>, message: Option<string>)

  /** What a row shows. `Older` is the sentinel and `Loading` the row that replaces it. */
  datatype Content =
    | Line(text: string)
    | Opening(count: nat)
    | Closing
    | Older
    | Loading
    | History(id: nat, stamp: int, words: Words)

  /** A history row's words, by the kind of entry. */
  datatype Words =
    | Removed
    | Server(message: Option<string>)
    | Action(nick: Option<string>, message: Option<string>)
    | Said(nick: Option<string>, message: Option<string>)

  /** A row and the mark that names it. */
  datatype Row = Row(mark: nat, content: Content)

  /** The view's rows, the next unused mark, and `struct hx_chat_history_render`. */
  datatype State = State(rows: seq<Row>, next: nat, oldest: nat, hasMore: bool, loading: bool,
                         anchor: Option<nat>, loadOlder: Option<nat>)

  // ---- Entries ----

  function OrEmpty(s: Option<string>): string {
    if s.Some? then s.value else ""
  }

  predicate Flag(flags: nat, bit: nat)
    requires bit > 0
  {
    flags / bit % 2 == 1
  }

  /** An entry as a row, by its flags: deleted, server message, action, or plain. */
  function Draw(e: Entry): Content {
    History(e.id, e.stamp,
            if Flag(e.flags, 4) then Removed
            else if Flag(e.flags, 2) then Server(e.message)
            else if Flag(e.flags, 1) then Action(e.nick, e.message)
            else Said(e.nick, e.message))
  }

  /** The nick column of a history row. */
  function Gutter(w: Words): Option<string> {
    if w.Said? then Some("<" + OrEmpty(w.nick) + ">") else None
  }

  /** The text of a history row. */
  function BodyText(w: Words): string {
    match w
    case Removed => "[message removed]"
    case Server(message) => "*** " + OrEmpty(message)
    case Action(nick, message) => "* " + OrEmpty(nick) + " " + OrEmpty(message)
    case Said(_, message) => OrEmpty(message)
  }

  /** The entries that are there: a NULL one is passed over. */
  function Present(entries: seq<Option<Entry>>): seq<Entry> {
    if entries == [] then []
    else (if entries[0].Some? then [entries[0].value] else []) + Present(entries[1..])
  }

  /** The rows for `es`, marked from `next` on. */
  function Drawn(es: seq<Entry>, next: nat): seq<Row> {
    if es == [] then [] else [Row(next, Draw(es[0]))] + Drawn(es[1..], next + 1)
  }

  /** The lowest message id seen; 0 stands for none, both before and in an entry. */
  function Lowest(oldest: nat, es: seq<Entry>): nat
    decreases es
  {
    if es == [] then oldest else
    var id := es[0].id;
    Lowest(if id != 0 && (oldest == 0 || id < oldest) then id else oldest, es[1..])
  }

  // ---- The view ----

  /** Where the row named `mark` is, or `|rows|`. */
  function Find(rows: seq<Row>, mark: nat): (i: nat)
    ensures i <= |rows|
    ensures i < |rows| ==> rows[i].mark == mark
  {
    if rows == [] || rows[0].mark == mark then 0 else 1 + Find(rows[1..], mark)
  }

  /** Where an insertion before `mark` goes: to the head when there is no such row. */
  function Before(rows: seq<Row>, mark: Option<nat>): (i: nat)
    ensures i <= |rows|
  {
    if mark.Some? && Find(rows, mark.value) < |rows| then Find(rows, mark.value) else 0
  }

  function Insert(rows: seq<Row>, at: nat, more: seq<Row>): seq<Row>
    requires at <= |rows|
  {
    rows[..at] + more + rows[at..]
  }

  /** The row named `mark` taken out; a stale mark changes nothing. */
  function Remove(rows: seq<Row>, mark: nat): seq<Row> {
    var i := Find(rows, mark);
    if i < |rows| then rows[..i] + rows[i + 1..] else rows
  }

  // ---- Steps ----

  function Append(s: State, c: Content): State {
    s.(rows := s.rows + [Row(s.next, c)], next := s.next + 1)
  }

  /** The sentinel or loading row taken out. */
  function Evict(s: State): State {
    if s.loadOlder.None? then s
    else s.(rows := Remove(s.rows, s.loadOlder.value), loadOlder := None)
  }

  /** A new sentinel or loading row just above the anchor. */
  function Post(s: State, c: Content): State {
    s.(rows := Insert(s.rows, Before(s.rows, s.anchor), [Row(s.next, c)]), next := s.next + 1, loadOlder := Some(s.next))
  }

  /** The opening divider, which becomes the anchor. */
  function Open(s: State, count: nat): State {
    Append(s, Opening(count)).(anchor := Some(s.next))
  }

  /** Where a page goes: above the anchor when it is an older one, else at the end. */
  function PageAt(rows: seq<Row>, anchor: Option<nat>, prepend: bool): (i: nat)
    ensures i <= |rows|
  {
    if prepend && anchor.Some? then Before(rows, anchor) else |rows|
  }

  function Reversed(rows: seq<Row>): seq<Row> {
    if rows == [] then [] else Reversed(rows[1..]) + [rows[0]]
  }

  /** The anchor's row is gone: an insertion before it goes to the head. */
  predicate Stale(rows: seq<Row>, anchor: Option<nat>) {
    anchor.Some? && Find(rows, anchor.value) == |rows|
  }

  /** A page's rows as they come to stand: at the head each one goes above those before it. */
  function PageRows(rows: seq<Row>, anchor: Option<nat>, prepend: bool, page: seq<Row>): seq<Row> {
    if prepend && Stale(rows, anchor) then Reversed(page) else page
  }

  /** A page of entries drawn in its place. */
  function Page(s: State, es: seq<Entry>, prepend: bool): State {
    s.(rows := Insert(s.rows, PageAt(s.rows, s.anchor, prepend), PageRows(s.rows, s.anchor, prepend, Drawn(es, s.next))),
       next := s.next + |es|)
  }

  /** `output_chat_history_batch` up to the empty-batch test (src/chat.c:986-1020). */
  function Receive(s: State, entries: seq<Option<Entry>>, more: bool): State {
    Evict(s.(loading := false, oldest := Lowest(s.oldest, Present(entries)), hasMore := more))
  }

  /** `output_chat_history_batch` (src/chat.c:962-1195). */
  function Batch(s: State, entries: seq<Option<Entry>>, more: bool): State {
    var prepend := s.loading;
    var s1 := Receive(s, entries, more);
    if entries == [] && !(prepend && more) then s1 else
    var s2 := if prepend then s1 else Open(s1, |entries|);
    var s3 := if more then Post(s2, Older) else s2;
    var s4 := Page(s3, Present(entries), prepend);
    if prepend then s4 else Append(s4, Closing)
  }

  /** `chat_history_load_more` (src/chat.c:1219-1283); `sent` is what the fetch answers. */
  function Click(s: State, sent: bool): State {
    if s.loading || !sent then s else
    var t := s.(loading := true);
    if t.loadOlder.Some? then Post(Evict(t), Loading) else t
  }

  /** `hx_clear_chat` (src/chat.c:2107-2120): the rows go and the marks stay behind. */
  function Clear(s: State): State {
    s.(rows := [])
  }

  const FRESH := State([], 0, 0, false, false, None, None)

  // ---- What every step keeps ----

  /** The sentinel, or the row that replaces it while a page is on its way. */
  predicate IsMarker(c: Content) {
    c.Older? || c.Loading?
  }

  predicate Distinct(rows: seq<Row>) {
    forall i, j | 0 <= i < j < |rows| :: rows[i].mark != rows[j].mark
  }

  /** Marks are given out once; the anchor's row, while it is there, is an opening divider. */
  predicate Marked(s: State) {
    && Distinct(s.rows) && (forall i | 0 <= i < |s.rows| :: s.rows[i].mark < s.next)
    && (s.anchor.Some? ==>
          s.anchor.value < s.next
          && var i := Find(s.rows, s.anchor.value); i < |s.rows| ==> s.rows[i].content.Opening?)
  }

  /**
   At most one sentinel or loading row, and `load_older_ent` names it: the loading one
   exactly while a page is on its way.
   */
  predicate OneMarker(s: State) {
    && (forall i | 0 <= i < |s.rows| && IsMarker(s.rows[i].content) :: s.loadOlder == Some(s.rows[i].mark))
    && (s.loadOlder.Some? ==>
          s.loadOlder.value < s.next
          && var i := Find(s.rows, s.loadOlder.value);
             i < |s.rows| ==> s.rows[i].content == if s.loading then Loading else Older)
  }

  predicate Inv(s: State) {
    Marked(s) && OneMarker(s)
  }

  /** The anchor's row is there, as it is until the view is cleared. */
  predicate Anchored(s: State) {
    s.anchor.Some? ==> Find(s.rows, s.anchor.value) < |s.rows|
  }

  /** So is the sentinel or loading row. */
  predicate Posted(s: State) {
    s.loadOlder.Some? ==> Find(s.rows, s.loadOlder.value) < |s.rows|
  }

  // ---- The class ----

  /** A conversation's output view and its render state. */
  class Output {
    var rows: seq<Row>
    var nextMark: nat
    var oldestMsgid: nat
    var hasMore: bool
    var loading: bool
    var anchorEnt: Option<nat>
    var loadOlderEnt: Option<nat>

    function Value(): State
      reads this
    {
      State(rows, nextMark, oldestMsgid, hasMore, loading, anchorEnt, loadOlderEnt)
    }

    constructor ()
      ensures Value() == FRESH
    {
      rows, nextMark := [], 0;
      oldestMsgid, hasMore, loading := 0, false, false;
      anchorEnt, loadOlderEnt := None, None;
    }

    /** `rotulus_view_append`. */
    method AppendRow(c: Content) returns (mark: nat)
      modifies `rows, `nextMark
      ensures Value() == Append(old(Value()), c) && mark == old(nextMark)
    {
      mark := nextMark;
      rows := rows + [Row(mark, c)];
      nextMark := nextMark + 1;
    }

    /** `rotulus_view_insert_before`. */
    method InsertRowBefore(anchor: Option<nat>, c: Content) returns (mark: nat)
      modifies `rows, `nextMark
      ensures rows == Insert(old(rows), Before(old(rows), anchor), [Row(old(nextMark), c)])
      ensures nextMark == old(nextMark) + 1 && mark == old(nextMark)
    {
      mark := nextMark;
      rows := Insert(rows, Before(rows, anchor), [Row(mark, c)]);
      nextMark := nextMark + 1;
    }

    /** `rotulus_view_remove`: FALSE, and nothing done, for a stale mark. */
    method RemoveRow(mark: nat) returns (found: bool)
      modifies `rows
      ensures rows == Remove(old(rows), mark) && found == (Find(old(rows), mark) < |old(rows)|)
    {
      found := Find(rows, mark) < |rows|;
      rows := Remove(rows, mark);
    }

    method EvictOlder()
      modifies `rows, `loadOlderEnt
      ensures Value() == Evict(old(Value()))
    {
      if loadOlderEnt.Some? {
        var _ := RemoveRow(loadOlderEnt.value);
        loadOlderEnt := None;
      }
    }

    /** The cursor loop (src/chat.c:996-1007). */
    method LowerCursor(entries: seq<Option<Entry>>)
      modifies `oldestMsgid
      ensures oldestMsgid == Lowest(old(oldestMsgid), Present(entries))
    {
      for i := 0 to |entries|
        invariant Lowest(oldestMsgid, Present(entries[i..])) == Lowest(old(oldestMsgid), Present(entries))
      {
        PresentFrom(entries, i);
        var e := entries[i];
        if e.None? || e.value.id == 0 {
          continue;
        }
        if oldestMsgid == 0 || e.value.id < oldestMsgid {
          oldestMsgid := e.value.id;
        }
      }
    }

    static lemma PresentFrom(entries: seq<Option<Entry>>, i: nat)
      requires i < |entries|
      ensures var rest := Present(entries[i + 1..]);
              Present(entries[i..]) == (if entries[i].Some? then [entries[i].value] else []) + rest
      ensures forall o :: Lowest(o, Present(entries[i..])) ==
                if entries[i].None? then Lowest(o, Present(entries[i + 1..]))
                else Lowest(if entries[i].value.id != 0 && (o == 0 || entries[i].value.id < o) then entries[i].value.id else o,
                            Present(entries[i + 1..]))
    {
      assert entries[i..][1..] == entries[i + 1..];
      var rest := Present(entries[i + 1..]);
      if entries[i].Some? {
        assert ([entries[i].value] + rest)[1..] == rest;
      } else {
        assert [] + rest == rest;
      }
    }

    static lemma NextEntry(entries: seq<Option<Entry>>, i: nat, done: seq<Entry>)
      requires i < |entries|
      ensures done + Present(entries[i..])
           == (if entries[i].Some? then done + [entries[i].value] else done) + Present(entries[i + 1..])
    {
      PresentFrom(entries, i);
      var rest := Present(entries[i + 1..]);
      if entries[i].Some? {
        assert done + ([entries[i].value] + rest) == (done + [entries[i].value]) + rest;
      } else {
        assert [] + rest == rest;
      }
    }

    /** One row of a page (`HX_RENDER`, src/chat.c:1050-1064). */
    method Render(c: Content, prepend: bool)
      modifies `rows, `nextMark
      ensures rows == Insert(old(rows), PageAt(old(rows), anchorEnt, prepend), [Row(old(nextMark), c)])
      ensures nextMark == old(nextMark) + 1
    {
      if prepend && anchorEnt.Some? {
        var _ := InsertRowBefore(anchorEnt, c);
      } else {
        assert rows[..|rows|] == rows;
        var _ := AppendRow(c);
      }
    }

    /** The row of one entry, after those of `done`. */
    method RenderOne(e: Entry, prepend: bool, ghost base: seq<Row>, ghost done: seq<Entry>, ghost first: nat)
      requires anchorEnt.Some? ==> anchorEnt.value < first
      requires rows == Insert(base, PageAt(base, anchorEnt, prepend), PageRows(base, anchorEnt, prepend, Drawn(done, first)))
      requires nextMark == first + |done|
      modifies `rows, `nextMark
      ensures rows == Insert(base, PageAt(base, anchorEnt, prepend),
                             PageRows(base, anchorEnt, prepend, Drawn(done + [e], first)))
      ensures nextMark == first + |done| + 1
    {
      RowJoinsPage(base, anchorEnt, prepend, done, e, first);
      Render(Draw(e), prepend);
    }

    /** The entry loop (src/chat.c:1130-1178). */
    method RenderEntries(entries: seq<Option<Entry>>, prepend: bool)
      requires anchorEnt.Some? ==> anchorEnt.value < nextMark
      modifies `rows, `nextMark
      ensures Value() == Page(old(Value()), Present(entries), prepend)
    {
      ghost var base, first, at := rows, nextMark, PageAt(rows, anchorEnt, prepend);
      ghost var done: seq<Entry> := [];
      assert rows == Insert(base, at, PageRows(base, anchorEnt, prepend, []));
      for i := 0 to |entries|
        invariant rows == Insert(base, at, PageRows(base, anchorEnt, prepend, Drawn(done, first)))
        invariant nextMark == first + |done| && done + Present(entries[i..]) == Present(entries)
      {
        NextEntry(entries, i, done);
        var e := entries[i];
        if e.None? {
          continue;
        }
        RenderOne(e.value, prepend, base, done, first);
        done := done + [e.value];
      }
      assert done + [] == done;
    }

    /** The opening divider, saved as the anchor (src/chat.c:1073-1085). */
    method OpenBlock(count: nat)
      modifies `rows, `nextMark, `anchorEnt
      ensures Value() == Open(old(Value()), count)
    {
      var mark := AppendRow(Opening(count));
      anchorEnt := Some(mark);
    }

    /** The sentinel, or the row in its place, above the anchor. */
    method PostMarker(c: Content)
      modifies `rows, `nextMark, `loadOlderEnt
      ensures Value() == Post(old(Value()), c)
    {
      var mark := InsertRowBefore(anchorEnt, c);
      loadOlderEnt := Some(mark);
    }

    /** `output_chat_history_batch` (src/chat.c:962-1195). */
    method OutputBatch(entries: seq<Option<Entry>>, more: bool)
      requires anchorEnt.Some? ==> anchorEnt.value < nextMark
      modifies this
      ensures Value() == Batch(old(Value()), entries, more)
    {
      var prepend := loading;
      loading := false;
      LowerCursor(entries);
      hasMore := more;
      EvictOlder();
      if entries == [] && !(prepend && more) {
        return;
      }
      if !prepend {
        OpenBlock(|entries|);
      }
      if more {
        PostMarker(Older);
      }
      RenderEntries(entries, prepend);
      if !prepend {
        var _ := AppendRow(Closing);
      }
    }

    /** `hx_clear_chat`, for the view (src/chat.c:2107-2120). */
    method ClearView()
      modifies `rows
      ensures Value() == Clear(old(Value()))
    {
      rows := [];
    }

    /** `chat_history_load_more` (src/chat.c:1219-1283). */
    method LoadMore(sent: bool)
      modifies this
      ensures Value() == Click(old(Value()), sent)
    {
      if loading {
        return;
      }
      if !sent {
        return;
      }
      loading := true;
      if loadOlderEnt.Some? {
        EvictOlder();
        PostMarker(Loading);
      }
    }
  }

  // ---- A page as it grows ----

  lemma FindNone(rows: seq<Row>, mark: nat)
    ensures Find(rows, mark) == |rows| <==> forall i | 0 <= i < |rows| :: rows[i].mark != mark
  {
    FindIsFirst(rows, mark);
  }

  lemma {:induction false} ReversedRows(rows: seq<Row>)
    ensures |Reversed(rows)| == |rows|
    ensures forall i | 0 <= i < |rows| :: Reversed(rows)[i] == rows[|rows| - 1 - i]
  {
    if rows != [] {
      ReversedRows(rows[1..]);
    }
  }

  lemma {:induction false} ReversedAppend(rows: seq<Row>, row: Row)
    ensures Reversed(rows + [row]) == [row] + Reversed(rows)
  {
    if rows == [] {
      assert rows + [row] == [row] && [row][1..] == [];
    } else {
      assert (rows + [row])[1..] == rows[1..] + [row];
      ReversedAppend(rows[1..], row);
    }
  }

  /** One row more, in the place a page's rows go, is the page with one entry more. */
  lemma RowJoinsPage(base: seq<Row>, anchor: Option<nat>, prepend: bool, done: seq<Entry>, e: Entry, first: nat)
    requires anchor.Some? ==> anchor.value < first
    ensures var at, row := PageAt(base, anchor, prepend), Row(first + |done|, Draw(e));
            var all := Insert(base, at, PageRows(base, anchor, prepend, Drawn(done, first)));
            Insert(all, PageAt(all, anchor, prepend), [row])
            == Insert(base, at, PageRows(base, anchor, prepend, Drawn(done + [e], first)))
  {
    var at, row, page := PageAt(base, anchor, prepend), Row(first + |done|, Draw(e)), Drawn(done, first);
    DrawnMarks(done, first);
    DrawnAppend(done, e, first);
    if prepend && Stale(base, anchor) {
      ReversedAppend(page, row);
      AboveHead(base, page, row, anchor.value);
    } else {
      InsertAfter(base, at, page, row);
      if prepend && anchor.Some? {
        FindInserted(base, at, page, anchor.value);
      }
    }
  }

  /** Above a stale anchor, a row more goes on top of the page. */
  lemma AboveHead(base: seq<Row>, page: seq<Row>, row: Row, anchor: nat)
    requires Find(base, anchor) == |base| && forall r | r in page :: r.mark != anchor
    ensures var all := Insert(base, 0, Reversed(page));
            Before(all, Some(anchor)) == 0 && Insert(all, 0, [row]) == Insert(base, 0, [row] + Reversed(page))
  {
    StillStale(base, page, Reversed(page), anchor);
    HeadOnHead(base, Reversed(page), row);
  }

  lemma StillStale(base: seq<Row>, page: seq<Row>, turned: seq<Row>, anchor: nat)
    requires Find(base, anchor) == |base| && forall r | r in page :: r.mark != anchor
    requires turned == Reversed(page)
    ensures Find(Insert(base, 0, turned), anchor) == |base| + |page| == |Insert(base, 0, turned)|
  {
    var all := Insert(base, 0, turned);
    ReversedRows(page);
    FindNone(base, anchor);
    forall i | 0 <= i < |all| ensures all[i].mark != anchor {
      if i < |page| {
        assert all[i] == page[|page| - 1 - i] && page[|page| - 1 - i] in page;
      } else {
        assert all[i] == base[i - |page|];
      }
    }
    FindNone(all, anchor);
  }

  lemma HeadOnHead(base: seq<Row>, page: seq<Row>, row: Row)
    ensures Insert(Insert(base, 0, page), 0, [row]) == Insert(base, 0, [row] + page)
  {
  }

  /** The end of a growing page, wherever it is. */
  lemma InsertAfter(rows: seq<Row>, at: nat, page: seq<Row>, row: Row)
    requires at <= |rows|
    ensures var all := Insert(rows, at, page);
            && Insert(all, at + |page|, [row]) == Insert(rows, at, page + [row])
            && (at == |rows| ==> all + [row] == Insert(rows, at, page + [row]))
  {
    var all := Insert(rows, at, page);
    assert all[..at + |page|] == rows[..at] + page;
    assert all[at + |page|..] == rows[at..];
  }

  lemma {:induction false} DrawnAppend(es: seq<Entry>, e: Entry, next: nat)
    ensures Drawn(es + [e], next) == Drawn(es, next) + [Row(next + |es|, Draw(e))]
  {
    if es == [] {
      assert es + [e] == [e] && [e][1..] == [];
    } else {
      assert (es + [e])[1..] == es[1..] + [e];
      DrawnAppend(es[1..], e, next + 1);
    }
  }

  lemma {:induction false} DrawnMarks(es: seq<Entry>, next: nat)
    ensures |Drawn(es, next)| == |es|
    ensures forall i | 0 <= i < |es| :: Drawn(es, next)[i] == Row(next + i, Draw(es[i]))
  {
    if es != [] {
      DrawnMarks(es[1..], next + 1);
    }
  }

  lemma {:induction false} FindIs(rows: seq<Row>, mark: nat, i: nat)
    requires i < |rows| && rows[i].mark == mark && forall j | 0 <= j < i :: rows[j].mark != mark
    ensures Find(rows, mark) == i
  {
    if i > 0 {
      FindIs(rows[1..], mark, i - 1);
    }
  }

  lemma {:induction false} FindIsFirst(rows: seq<Row>, mark: nat)
    ensures forall j | 0 <= j < Find(rows, mark) :: rows[j].mark != mark
  {
    if rows != [] && rows[0].mark != mark {
      FindIsFirst(rows[1..], mark);
    }
  }

  /** Rows put in just above another push it down. */
  lemma FindInserted(rows: seq<Row>, at: nat, more: seq<Row>, mark: nat)
    requires Find(rows, mark) == at < |rows|
    requires forall r | r in more :: r.mark != mark
    ensures Find(Insert(rows, at, more), mark) == at + |more|
  {
    FindIsFirst(rows, mark);
    var all := Insert(rows, at, more);
    forall j | 0 <= j < at + |more| ensures all[j].mark != mark {
      if j >= at {
        assert all[j] == more[j - at] && more[j - at] in more;
      }
    }
    FindIs(all, mark, at + |more|);
  }
}
