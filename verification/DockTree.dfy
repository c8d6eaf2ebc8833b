/**
 The legacy dock-layout expression: its tree, the format it is printed in, and
 what the recursive-descent parser of `src/dock_layout_parse.c` computes.

 The two meet in `ParsesExactly`: a text parses to a node exactly when the node
 is well formed and the text is the node's tokens with any white space around
 each of them.
 */
module DockTree {
  import opened Wrappers
  import opened Text

  datatype Orientation = Horizontal | Vertical

  /** `selected` is an index into `ids`, or -1 when no page is marked. */
  datatype Node =
    | Leaf(ids: seq<string>, selected: int, role: Option<string>)
    | Split(orientation: Orientation, a: Node, b: Node)

  predicate IdChar(c: char) {
    c != ',' && c != ']' && c != ':' && c != '*' && !IsSpace(c)
  }

  predicate RoleChar(c: char) {
    c != ']' && !IsSpace(c)
  }

  predicate LegalId(id: string) {
    id != [] && forall c | c in id :: IdChar(c)
  }

  predicate LegalRole(role: string) {
    role != [] && forall c | c in role :: RoleChar(c)
  }

  predicate AllLegal(ids: seq<string>) {
    forall id | id in ids :: LegalId(id)
  }

  predicate WellFormed(n: Node) {
    match n
    case Leaf(ids, selected, role) =>
      && AllLegal(ids)
      && -1 <= selected < |ids|
      && (role.Some? ==> LegalRole(role.value))
    case Split(_, a, b) => WellFormed(a) && WellFormed(b)
  }

  // ---- The format: a node is a list of tokens ----

  /** A list of tokens: one-character symbols and words. */
  datatype Tokens =
    | End
    | Sym(symbol: char, more: Tokens)
    | Word(word: string, more: Tokens)

  /** The ids from the `i`-th on, the commas between them and the marker, then `k`. */
  function IdTokens(ids: seq<string>, selected: int, i: nat, k: Tokens): Tokens
    requires i < |ids|
    decreases |ids| - i
  {
    var id := Word(ids[i], if i + 1 < |ids| then Sym(',', IdTokens(ids, selected, i + 1, k)) else k);
    if selected == i then Sym('*', id) else id
  }

  function LeafEnd(role: Option<string>, k: Tokens): Tokens {
    match role
    case None => Sym(']', k)
    case Some(word) => Sym(':', Word(word, Sym(']', k)))
  }

  /** What follows the `L` of a leaf, then `k`. */
  function LeafTokens(n: Node, k: Tokens): Tokens
    requires n.Leaf?
  {
    var end := LeafEnd(n.role, k);
    Sym('[', if n.ids == [] then end else IdTokens(n.ids, n.selected, 0, end))
  }

  function Letter(o: Orientation): char {
    if o.Horizontal? then 'h' else 'v'
  }

  /** A node's tokens, then `k`. */
  function NodeTokens(n: Node, k: Tokens): Tokens {
    match n
    case Leaf(_, _, _) => Sym('L', LeafTokens(n, k))
    case Split(o, a, b) => Sym(Letter(o), Sym('(', NodeTokens(a, Sym(',', NodeTokens(b, Sym(')', k))))))
  }

  function Count(toks: Tokens): nat {
    if toks.End? then 0 else 1 + Count(toks.more)
  }

  function First(toks: Tokens): string
    requires !toks.End?
  {
    if toks.Sym? then [toks.symbol] else toks.word
  }

  /** The tokens with `gaps[i]` before the `i`-th and the last gap at the end. */
  function Spaced(toks: Tokens, gaps: seq<string>): string
    requires |gaps| == Count(toks) + 1
  {
    if toks.End? then gaps[0] else gaps[0] + (First(toks) + Spaced(toks.more, gaps[1..]))
  }

  function Joined(toks: Tokens): string {
    if toks.End? then [] else First(toks) + Joined(toks.more)
  }

  /** The compact form of a node, with no white space. */
  function Print(n: Node): string {
    Joined(NodeTokens(n, End))
  }

  /** Read the tokens off the front of `s`, skipping white space before each. */
  function Consume(s: string, toks: Tokens): Option<string>
    decreases toks
  {
    if toks.End? then Some(s) else
    var r := SkipSpace(s);
    if First(toks) <= r then Consume(r[|First(toks)|..], toks.more) else None
  }

  /** `text` is `n`'s tokens in order with only white space between and around them. */
  predicate Spells(text: string, n: Node) {
    var rest := Consume(text, NodeTokens(n, End));
    rest.Some? && AllSpace(rest.value)
  }

  // ---- What the parser computes ----

  /** `match` (src/dock_layout_parse.c:65-74). */
  function Match(s: string, ch: char): (r: Option<string>)
    ensures r.Some? ==> |r.value| < |s|
  {
    var t := SkipSpace(s);
    if t != [] && t[0] == ch then Some(t[1..]) else None
  }

  predicate AtIdEnd(s: string) {
    s == [] || s[0] == ']' || s[0] == ':'
  }

  /** One turn of the id loop: the marker, the id, and where it leaves off. */
  datatype IdTurn = IdTurn(marked: bool, id: string, rest: string)

  function NextId(s: string): IdTurn
    requires s != []
  {
    var marked := s[0] == '*';
    var t := if marked then SkipSpace(s[1..]) else s;
    var n := Span(t, IdChar);
    IdTurn(marked, t[..n], t[n..])
  }

  datatype IdList = IdList(ids: seq<string>, selected: int, rest: string)

  /** The id loop of `parse_leaf` from its head, with `ids` and `selected` so far. */
  function ParseIds(s: string, ids: seq<string>, selected: int): (r: Option<IdList>)
    ensures r.Some? ==> |r.value.rest| <= |s|
    decreases |s|
  {
    if AtIdEnd(s) then Some(IdList(ids, selected, s)) else
    if s[0] == '*' && selected >= 0 then None else
    var turn := NextId(s);
    if turn.id == [] then None else
    var ids' := ids + [turn.id];
    var selected' := if turn.marked then |ids| else selected;
    var u := SkipSpace(turn.rest);
    match Match(u, ',')
    case None => Some(IdList(ids', selected', u))
    case Some(v) =>
      var w := SkipSpace(v);
      if AtIdEnd(w) then None else ParseIds(w, ids', selected')
  }

  datatype RoleText = RoleText(role: Option<string>, rest: string)

  function ParseRole(s: string): (r: Option<RoleText>)
    ensures r.Some? ==> |r.value.rest| <= |s|
  {
    match Match(s, ':')
    case None => Some(RoleText(None, s))
    case Some(t) =>
      var u := SkipSpace(t);
      var k := Span(u, RoleChar);
      if k == 0 then None else Some(RoleText(Some(u[..k]), u[k..]))
  }

  /** What follows the `L` of a leaf. */
  function ParseLeaf(s: string): (r: Option<(Node, string)>)
    ensures r.Some? ==> |r.value.1| < |s|
  {
    var t :- Match(s, '[');
    var list :- ParseIds(SkipSpace(t), [], -1);
    var role :- ParseRole(list.rest);
    var end :- Match(role.rest, ']');
    Some((Leaf(list.ids, list.selected, role.role), end))
  }

  function ParseNode(s: string): (r: Option<(Node, string)>)
    ensures r.Some? ==> |r.value.1| < |s|
    decreases |s|, 1
  {
    var t := SkipSpace(s);
    if t == [] then None
    else if t[0] == 'h' then ParseSplit(t[1..], Horizontal)
    else if t[0] == 'v' then ParseSplit(t[1..], Vertical)
    else if t[0] == 'L' then ParseLeaf(t[1..])
    else None
  }

  /** What follows the letter of a split. */
  function ParseSplit(s: string, o: Orientation): (r: Option<(Node, string)>)
    ensures r.Some? ==> |r.value.1| < |s|
    decreases |s|, 0
  {
    var t :- Match(s, '(');
    var (a, u) :- ParseNode(t);
    var v :- Match(u, ',');
    var (b, w) :- ParseNode(v);
    var end :- Match(w, ')');
    Some((Split(o, a, b), end))
  }

  function ParseTree(text: string): Option<Node> {
    var (n, rest) :- ParseNode(text);
    if SkipSpace(rest) == [] then Some(n) else None
  }

  // ---- Reading tokens ----

  /** A symbol is what `Match` reads. */
  lemma ConsumeSym(s: string, ch: char, k: Tokens)
    ensures Consume(s, Sym(ch, k))
         == match Match(s, ch) { case None => None case Some(r) => Consume(r, k) }
  {
    var r := SkipSpace(s);
    assert [ch] <= r <==> r != [] && r[0] == ch;
  }

  lemma ConsumeSkipped(s: string, toks: Tokens)
    requires !toks.End?
    ensures Consume(SkipSpace(s), toks) == Consume(s, toks)
  {
    SkipSpaceSkipped(SkipSpace(s));
  }

  lemma MatchSkipped(s: string, ch: char)
    ensures Match(SkipSpace(s), ch) == Match(s, ch)
  {
    SkipSpaceSkipped(SkipSpace(s));
  }

  /** A word followed by something that cannot continue it is read whole. */
  lemma SpanWord(word: string, s: string, p: char -> bool)
    requires forall c | c in word :: p(c)
    requires word <= s && (|word| < |s| ==> !p(s[|word|]))
    ensures Span(s, p) == |word| && s[..|word|] == word
  {
    forall i | 0 <= i < |word| ensures p(s[i]) {
      assert word[i] in word;
    }
    SpanOf(s, p, |word|);
  }

  // ---- The parser accepts every spacing of every well-formed node ----

  /** Once white space is skipped, `c` is next. */
  predicate Next(s: string, c: char) {
    Match(s, c).Some?
  }

  lemma NextIsHere(s: string, c: char)
    requires Next(s, c) && !IsSpace(c)
    ensures s != [] && (s[0] == c || IsSpace(s[0]))
  {
    if s != [] && !IsSpace(s[0]) {
      SkipSpaceSkipped(s);
    }
  }

  lemma EndIsNext(s: string, role: Option<string>, k: Tokens)
    requires Consume(s, LeafEnd(role, k)).Some?
    ensures (Next(s, ':') || Next(s, ']')) && AtIdEnd(SkipSpace(s)) && Match(s, ',').None?
  {
    ConsumeSym(s, if role.Some? then ':' else ']', LeafEnd(role, k).more);
  }

  /** An id, marked or not, does not look like the end of the list. */
  lemma IdIsNext(s: string, ids: seq<string>, selected: int, i: nat, k: Tokens)
    requires i < |ids| && LegalId(ids[i])
    requires Consume(s, IdTokens(ids, selected, i, k)).Some?
    ensures !AtIdEnd(SkipSpace(s))
    ensures SkipSpace(s)[0] == '*' <==> selected == i
  {
    var r := SkipSpace(s);
    if selected == i {
      ConsumeSym(s, '*', IdTokens(ids, selected, i, k).more);
    } else {
      assert ids[i] <= r && ids[i][0] == r[0] && r[0] in ids[i];
    }
  }

  /** An id followed by `k`, where `k` starts with a separator. */
  lemma WordAccepted(t: string, id: string, k: Tokens, c: char)
    requires LegalId(id) && Consume(t, Word(id, k)).Some?
    requires SkipSpace(t) == t
    requires k.Sym? && k.symbol == c && (c == ',' || c == ':' || c == ']')
    ensures Span(t, IdChar) == |id| && t[..|id|] == id
    ensures Consume(t[|id|..], k) == Consume(t, Word(id, k))
  {
    var u := t[|id|..];
    ConsumeSym(u, c, k.more);
    NextIsHere(u, c);
    SpanWord(id, t, IdChar);
  }

  /** What follows an id's word: a comma and the next, or the end. */
  function After(ids: seq<string>, selected: int, i: nat, end: Tokens): Tokens
    requires i < |ids|
  {
    if i + 1 == |ids| then end else Sym(',', IdTokens(ids, selected, i + 1, end))
  }

  /** One turn of the loop takes one id and its mark. */
  lemma TurnAccepted(s: string, ids: seq<string>, selected: int, i: nat, role: Option<string>, k: Tokens)
    requires i < |ids| && LegalId(ids[i]) && SkipSpace(s) == s
    requires Consume(s, IdTokens(ids, selected, i, LeafEnd(role, k))).Some?
    ensures !AtIdEnd(s) && NextId(s).id == ids[i] && NextId(s).marked == (selected == i)
    ensures Consume(NextId(s).rest, After(ids, selected, i, LeafEnd(role, k)))
         == Consume(s, IdTokens(ids, selected, i, LeafEnd(role, k)))
  {
    var end := LeafEnd(role, k);
    var after := After(ids, selected, i, end);
    var t := if selected == i then SkipSpace(s[1..]) else s;
    IdIsNext(s, ids, selected, i, end);
    if selected == i {
      ConsumeSym(s, '*', Word(ids[i], after));
      ConsumeSkipped(s[1..], Word(ids[i], after));
      SkipSpaceSkipped(t);
    }
    WordAccepted(t, ids[i], after, after.symbol);
  }

  /** What one turn of the loop makes of the list so far. */
  lemma TurnReads(s: string, found: seq<string>, mark: int, found': seq<string>, mark': int)
    requires !AtIdEnd(s) && SkipSpace(s) == s && NextId(s).id != [] && !(NextId(s).marked && mark >= 0)
    requires found' == found + [NextId(s).id] && mark' == if NextId(s).marked then |found| else mark
    ensures var u := NextId(s).rest;
            ParseIds(s, found, mark) ==
            match Match(u, ',')
            case None => Some(IdList(found', mark', SkipSpace(u)))
            case Some(v) => if AtIdEnd(SkipSpace(v)) then None else ParseIds(SkipSpace(v), found', mark')
  {
    assert s != [] && (NextId(s).marked <==> s[0] == '*');
    MatchSkipped(NextId(s).rest, ',');
  }

  /** After a comma the next id is at hand. */
  lemma CommaAccepted(u: string, ids: seq<string>, selected: int, i: nat, end: Tokens) returns (v: string)
    requires i < |ids| && LegalId(ids[i])
    requires Consume(u, Sym(',', IdTokens(ids, selected, i, end))).Some?
    ensures Match(u, ',') == Some(v) && !AtIdEnd(SkipSpace(v)) && SkipSpace(SkipSpace(v)) == SkipSpace(v)
    ensures Consume(SkipSpace(v), IdTokens(ids, selected, i, end)) == Consume(u, Sym(',', IdTokens(ids, selected, i, end)))
  {
    var next := IdTokens(ids, selected, i, end);
    ConsumeSym(u, ',', next);
    v := Match(u, ',').value;
    ConsumeSkipped(v, next);
    IdIsNext(v, ids, selected, i, end);
    SkipSpaceSkipped(SkipSpace(v));
  }

  lemma PrefixGrows(ids: seq<string>, i: nat, found: seq<string>)
    requires i < |ids| && found == ids[..i]
    ensures found + [ids[i]] == ids[..i + 1] && (i + 1 == |ids| ==> found + [ids[i]] == ids)
  {
  }

  lemma {:induction false} IdsAccepted(s: string, ids: seq<string>, selected: int, i: nat, role: Option<string>, k: Tokens,
                                            found: seq<string>, mark: int) returns (rest: string)
    requires i < |ids| && -1 <= selected < |ids|
    requires found == ids[..i] && mark == if selected < i then selected else -1
    requires AllLegal(ids) && SkipSpace(s) == s
    requires Consume(s, IdTokens(ids, selected, i, LeafEnd(role, k))).Some?
    ensures ParseIds(s, found, mark) == Some(IdList(ids, selected, rest))
    ensures Consume(rest, LeafEnd(role, k)) == Consume(s, IdTokens(ids, selected, i, LeafEnd(role, k)))
    decreases |ids| - i
  {
    var end := LeafEnd(role, k);
    assert LegalId(ids[i]);
    TurnAccepted(s, ids, selected, i, role, k);
    var u := NextId(s).rest;
    var found', mark' := found + [ids[i]], if selected == i then i else mark;
    PrefixGrows(ids, i, found);
    TurnReads(s, found, mark, found', mark');
    if i + 1 == |ids| {
      EndIsNext(u, role, k);
      ConsumeSkipped(u, end);
      rest := SkipSpace(u);
    } else {
      assert LegalId(ids[i + 1]);
      var v := CommaAccepted(u, ids, selected, i + 1, end);
      rest := IdsAccepted(SkipSpace(v), ids, selected, i + 1, role, k, found', mark');
    }
  }

  lemma RoleAccepted(s: string, role: Option<string>, k: Tokens)
    requires role.Some? ==> LegalRole(role.value)
    requires Consume(s, LeafEnd(role, k)).Some?
    ensures var r := ParseRole(s);
            && r.Some? && r.value.role == role && Match(r.value.rest, ']').Some?
            && Consume(Match(r.value.rest, ']').value, k) == Consume(s, LeafEnd(role, k))
  {
    ConsumeSym(s, if role.Some? then ':' else ']', LeafEnd(role, k).more);
    if role.Some? {
      var u := SkipSpace(Match(s, ':').value);
      var v := u[|role.value|..];
      ConsumeSym(v, ']', k);
      NextIsHere(v, ']');
      SpanWord(role.value, u, RoleChar);
    }
  }

  function ListTokens(n: Node, k: Tokens): Tokens
    requires n.Leaf?
  {
    if n.ids == [] then LeafEnd(n.role, k) else IdTokens(n.ids, n.selected, 0, LeafEnd(n.role, k))
  }

  lemma NoIds(u: string, role: Option<string>, k: Tokens)
    requires Consume(u, LeafEnd(role, k)).Some? && SkipSpace(u) == u
    ensures ParseIds(u, [], -1) == Some(IdList([], -1, u))
  {
    EndIsNext(u, role, k);
  }

  lemma ListAccepted(u: string, n: Node, k: Tokens) returns (rest: string)
    requires n.Leaf? && WellFormed(n) && SkipSpace(u) == u
    requires Consume(u, ListTokens(n, k)).Some?
    ensures ParseIds(u, [], -1) == Some(IdList(n.ids, n.selected, rest))
    ensures Consume(rest, LeafEnd(n.role, k)) == Consume(u, ListTokens(n, k))
  {
    if n.ids == [] {
      NoIds(u, n.role, k);
      rest := u;
    } else {
      assert AllLegal(n.ids);
      rest := IdsAccepted(u, n.ids, n.selected, 0, n.role, k, [], -1);
    }
  }

  /** A leaf read piece by piece. */
  lemma LeafReads(s: string, t: string, list: IdList, role: RoleText, x: string)
    requires Match(s, '[') == Some(t) && ParseIds(SkipSpace(t), [], -1) == Some(list)
    requires ParseRole(list.rest) == Some(role) && Match(role.rest, ']') == Some(x)
    ensures ParseLeaf(s) == Some((Leaf(list.ids, list.selected, role.role), x))
  {
  }

  lemma LeafAccepted(s: string, n: Node, k: Tokens)
    requires n.Leaf? && WellFormed(n)
    requires Consume(s, LeafTokens(n, k)).Some?
    ensures var r := ParseLeaf(s);
            r.Some? && r.value.0 == n && Consume(r.value.1, k) == Consume(s, LeafTokens(n, k))
  {
    var list := ListTokens(n, k);
    assert LeafTokens(n, k) == Sym('[', list);
    ConsumeSym(s, '[', list);
    var t := Match(s, '[').value;
    ConsumeSkipped(t, list);
    SkipSpaceSkipped(SkipSpace(t));
    var rest := ListAccepted(SkipSpace(t), n, k);
    RoleAccepted(rest, n.role, k);
    var role := ParseRole(rest).value;
    LeafReads(s, t, IdList(n.ids, n.selected, rest), role, Match(role.rest, ']').value);
  }

  /** A split read piece by piece. */
  lemma SplitReads(s: string, o: Orientation, u: string, x: string, a: Node, v: string, w: string, b: Node, y: string)
    requires Match(s, Letter(o)).Some? && Match(Match(s, Letter(o)).value, '(') == Some(u)
    requires ParseNode(u) == Some((a, v)) && Match(v, ',') == Some(w)
    requires ParseNode(w) == Some((b, y)) && Match(y, ')') == Some(x)
    ensures ParseNode(s) == Some((Split(o, a, b), x))
  {
    assert ParseSplit(Match(s, Letter(o)).value, o) == Some((Split(o, a, b), x));
  }

  /** The letter of a split and its bracket. */
  lemma SplitHead(s: string, o: Orientation, rest: Tokens) returns (u: string)
    requires Consume(s, Sym(Letter(o), Sym('(', rest))).Some?
    ensures Match(s, Letter(o)).Some? && Match(Match(s, Letter(o)).value, '(') == Some(u)
    ensures Consume(u, rest) == Consume(s, Sym(Letter(o), Sym('(', rest)))
  {
    ConsumeSym(s, Letter(o), Sym('(', rest));
    var t := Match(s, Letter(o)).value;
    ConsumeSym(t, '(', rest);
    u := Match(t, '(').value;
  }

  lemma NodeIsLeaf(s: string)
    requires Match(s, 'L').Some?
    ensures ParseNode(s) == ParseLeaf(Match(s, 'L').value)
  {
  }

  lemma LeafNodeAccepted(s: string, n: Node, k: Tokens)
    requires n.Leaf? && WellFormed(n) && Consume(s, Sym('L', LeafTokens(n, k))).Some?
    ensures var r := ParseNode(s);
            r.Some? && r.value.0 == n && Consume(r.value.1, k) == Consume(s, Sym('L', LeafTokens(n, k)))
  {
    ConsumeSym(s, 'L', LeafTokens(n, k));
    NodeIsLeaf(s);
    LeafAccepted(Match(s, 'L').value, n, k);
  }

  lemma {:induction false} NodeAccepted(s: string, n: Node, k: Tokens)
    requires WellFormed(n) && Consume(s, NodeTokens(n, k)).Some?
    ensures var r := ParseNode(s);
            r.Some? && r.value.0 == n && Consume(r.value.1, k) == Consume(s, NodeTokens(n, k))
    decreases n
  {
    match n
    case Leaf(_, _, _) => LeafNodeAccepted(s, n, k);
    case Split(o, a, b) =>
      var closing := Sym(')', k);
      var second := Sym(',', NodeTokens(b, closing));
      var u := SplitHead(s, o, NodeTokens(a, second));
      NodeAccepted(u, a, second);
      var v := ParseNode(u).value.1;
      ConsumeSym(v, ',', NodeTokens(b, closing));
      var w := Match(v, ',').value;
      NodeAccepted(w, b, closing);
      var y := ParseNode(w).value.1;
      ConsumeSym(y, ')', k);
      SplitReads(s, o, u, Match(y, ')').value, a, v, w, b, y);
  }

  // ---- The parser accepts nothing else ----

  /** `r` extends the ids and the mark found so far. */
  predicate Extends(r: IdList, ids: seq<string>, selected: int) {
    ids < r.ids && -1 <= r.selected < |r.ids|
    && (if r.selected < |ids| then r.selected == selected else selected == -1)
  }

  lemma NextIdRead(s: string, k: Tokens)
    requires s != [] && SkipSpace(s) == s && NextId(s).id != []
    ensures var turn := NextId(s);
            && LegalId(turn.id)
            && Consume(s, if turn.marked then Sym('*', Word(turn.id, k)) else Word(turn.id, k)) == Consume(turn.rest, k)
  {
    var turn := NextId(s);
    var t := if turn.marked then SkipSpace(s[1..]) else s;
    SkipSpaceSkipped(t);
    assert turn.id <= t && t[|turn.id|..] == turn.rest;
    if turn.marked {
      ConsumeSym(s, '*', Word(turn.id, k));
      ConsumeSkipped(s[1..], Word(turn.id, k));
    }
  }

  /** One turn of the loop reads one id's tokens. */
  lemma IdTurnRead(s: string, all: seq<string>, selected: int, i: nat, k: Tokens)
    requires s != [] && SkipSpace(s) == s && NextId(s).id != []
    requires i < |all| && all[i] == NextId(s).id && (selected == i) == NextId(s).marked
    ensures Consume(s, IdTokens(all, selected, i, k))
         == Consume(NextId(s).rest, if i + 1 < |all| then Sym(',', IdTokens(all, selected, i + 1, k)) else k)
  {
    NextIdRead(s, if i + 1 < |all| then Sym(',', IdTokens(all, selected, i + 1, k)) else k);
  }

  /** A mark on one id more, and what follows. */
  lemma ExtendsBack(r: IdList, ids: seq<string>, selected: int, id: string, marked: bool)
    requires -1 <= selected < |ids| && (marked ==> selected == -1)
    requires Extends(r, ids + [id], if marked then |ids| else selected) || (r.ids == ids + [id] && r.selected == if marked then |ids| else selected)
    ensures Extends(r, ids, selected) && r.ids[|ids|] == id && (r.selected == |ids|) == marked
  {
    assert r.ids[|ids|] == (ids + [id])[|ids|];
    assert ids <= ids + [id];
  }

  /** What one turn of the loop leaves: the rest of the list, or its end. */
  lemma OneTurnOn(s: string, ids: seq<string>, selected: int)
    requires ParseIds(s, ids, selected).Some? && !AtIdEnd(s) && SkipSpace(s) == s
    ensures NextId(s).id != [] && (NextId(s).marked ==> selected < 0)
    ensures var turn, r := NextId(s), ParseIds(s, ids, selected).value;
            var ids', selected' := ids + [turn.id], if turn.marked then |ids| else selected;
            match Match(turn.rest, ',')
            case None => r == IdList(ids', selected', SkipSpace(turn.rest))
            case Some(v) =>
              var w := SkipSpace(v);
              |w| < |s| && !AtIdEnd(w) && SkipSpace(w) == w && ParseIds(w, ids', selected') == Some(r)
  {
    var turn := NextId(s);
    MatchSkipped(turn.rest, ',');
    if Match(turn.rest, ',').Some? {
      SkipSpaceSkipped(SkipSpace(Match(turn.rest, ',').value));
    }
  }

  /** What the loop finds extends what it had, by the next id first. */
  lemma {:induction false} IdsExtend(s: string, ids: seq<string>, selected: int)
    requires -1 <= selected < |ids|
    requires ParseIds(s, ids, selected).Some? && !AtIdEnd(s) && SkipSpace(s) == s
    ensures var r := ParseIds(s, ids, selected).value;
            Extends(r, ids, selected) && r.ids[|ids|] == NextId(s).id && (r.selected == |ids|) == NextId(s).marked
    decreases |s|
  {
    OneTurnOn(s, ids, selected);
    var turn := NextId(s);
    if Match(turn.rest, ',').Some? {
      IdsExtend(SkipSpace(Match(turn.rest, ',').value), ids + [turn.id], if turn.marked then |ids| else selected);
    }
    ExtendsBack(ParseIds(s, ids, selected).value, ids, selected, turn.id, turn.marked);
  }

  lemma {:induction false} IdsLegal(s: string, ids: seq<string>, selected: int)
    requires AllLegal(ids)
    requires ParseIds(s, ids, selected).Some? && !AtIdEnd(s) && SkipSpace(s) == s
    ensures AllLegal(ParseIds(s, ids, selected).value.ids)
    decreases |s|
  {
    OneTurnOn(s, ids, selected);
    var turn := NextId(s);
    NextIdRead(s, End);
    LegalAppend(ids, turn.id);
    if Match(turn.rest, ',').Some? {
      IdsLegal(SkipSpace(Match(turn.rest, ',').value), ids + [turn.id], if turn.marked then |ids| else selected);
    }
  }

  lemma LegalAppend(ids: seq<string>, id: string)
    requires AllLegal(ids) && LegalId(id)
    ensures AllLegal(ids + [id])
  {
  }

  /** One turn, a comma, and the rest. */
  lemma SpellsMore(s: string, all: seq<string>, selected: int, i: nat, k: Tokens, v: string, rest: string)
    requires s != [] && SkipSpace(s) == s && NextId(s).id != [] && i + 1 < |all|
    requires all[i] == NextId(s).id && (selected == i) == NextId(s).marked
    requires Match(NextId(s).rest, ',') == Some(v)
    requires Consume(SkipSpace(v), IdTokens(all, selected, i + 1, k)) == Consume(rest, k)
    ensures Consume(s, IdTokens(all, selected, i, k)) == Consume(rest, k)
  {
    var next := IdTokens(all, selected, i + 1, k);
    IdTurnRead(s, all, selected, i, k);
    ConsumeSym(NextId(s).rest, ',', next);
    ConsumeSkipped(v, next);
  }

  /** The last turn. */
  lemma SpellsLast(s: string, all: seq<string>, selected: int, i: nat, k: Tokens)
    requires s != [] && SkipSpace(s) == s && NextId(s).id != [] && i + 1 == |all| && !k.End?
    requires all[i] == NextId(s).id && (selected == i) == NextId(s).marked
    ensures Consume(s, IdTokens(all, selected, i, k)) == Consume(SkipSpace(NextId(s).rest), k)
  {
    IdTurnRead(s, all, selected, i, k);
    ConsumeSkipped(NextId(s).rest, k);
  }

  lemma NextIdIsFound(s: string, ids: seq<string>, selected: int, i: nat, r: IdList)
    requires i == |ids| && -1 <= selected < i
    requires ParseIds(s, ids, selected) == Some(r) && !AtIdEnd(s) && SkipSpace(s) == s
    ensures i < |r.ids| && r.ids[i] == NextId(s).id && (r.selected == i) == NextId(s).marked
  {
    IdsExtend(s, ids, selected);
  }

  lemma {:induction false} IdsSound(s: string, ids: seq<string>, selected: int, i: nat, k: Tokens, r: IdList)
    requires i == |ids| && -1 <= selected < i && !k.End?
    requires ParseIds(s, ids, selected) == Some(r) && !AtIdEnd(s) && SkipSpace(s) == s
    ensures i < |r.ids| && Consume(s, IdTokens(r.ids, r.selected, i, k)) == Consume(r.rest, k)
    decreases |s|
  {
    OneTurnOn(s, ids, selected);
    NextIdIsFound(s, ids, selected, i, r);
    var turn := NextId(s);
    if Match(turn.rest, ',').Some? {
      var v := Match(turn.rest, ',').value;
      IdsSound(SkipSpace(v), ids + [turn.id], if turn.marked then i else selected, i + 1, k, r);
      SpellsMore(s, r.ids, r.selected, i, k, v, r.rest);
    } else {
      SpellsLast(s, r.ids, r.selected, i, k);
    }
  }

  lemma RoleSound(s: string, k: Tokens)
    requires ParseRole(s).Some? && Match(ParseRole(s).value.rest, ']').Some?
    ensures var r := ParseRole(s).value;
            && (r.role.Some? ==> LegalRole(r.role.value))
            && Consume(s, LeafEnd(r.role, k)) == Consume(Match(r.rest, ']').value, k)
  {
    var r := ParseRole(s).value;
    ConsumeSym(s, if r.role.Some? then ':' else ']', LeafEnd(r.role, k).more);
    ConsumeSym(r.rest, ']', k);
  }

  lemma LeafSound(s: string, k: Tokens)
    requires ParseLeaf(s).Some?
    ensures var (n, rest) := ParseLeaf(s).value;
            n.Leaf? && WellFormed(n) && Consume(s, LeafTokens(n, k)) == Consume(rest, k)
  {
    var (n, rest) := ParseLeaf(s).value;
    var t := Match(s, '[').value;
    var u := SkipSpace(t);
    SkipSpaceSkipped(u);
    RoleSound(ParseIds(u, [], -1).value.rest, k);
    var end := LeafEnd(n.role, k);
    if !AtIdEnd(u) {
      IdsExtend(u, [], -1);
      IdsLegal(u, [], -1);
      IdsSound(u, [], -1, 0, end, ParseIds(u, [], -1).value);
    }
    var list := if n.ids == [] then end else IdTokens(n.ids, n.selected, 0, end);
    ConsumeSym(s, '[', list);
    ConsumeSkipped(t, list);
  }

  lemma {:induction false} NodeSound(s: string, k: Tokens)
    requires ParseNode(s).Some?
    ensures var (n, rest) := ParseNode(s).value;
            WellFormed(n) && Consume(s, NodeTokens(n, k)) == Consume(rest, k)
    decreases |s|
  {
    var (n, rest) := ParseNode(s).value;
    var t := SkipSpace(s);
    if t[0] == 'L' {
      LeafSound(t[1..], k);
      ConsumeSym(s, 'L', LeafTokens(n, k));
    } else {
      var closing := Sym(')', k);
      var second := Sym(',', NodeTokens(n.b, closing));
      var u := Match(t[1..], '(').value;
      NodeSound(u, second);
      var v := ParseNode(u).value.1;
      var w := Match(v, ',').value;
      NodeSound(w, closing);
      ConsumeSym(s, Letter(n.orientation), Sym('(', NodeTokens(n.a, second)));
      ConsumeSym(t[1..], '(', NodeTokens(n.a, second));
      ConsumeSym(v, ',', NodeTokens(n.b, closing));
      ConsumeSym(ParseNode(w).value.1, ')', k);
    }
  }

  // ---- Main results ----

  lemma SkipsToNothing(s: string)
    ensures SkipSpace(s) == [] <==> AllSpace(s)
  {
    if AllSpace(s) && SkipSpace(s) != [] {
      assert SkipSpace(s)[0] in s;
    }
    assert SkipSpace(s) == [] ==> s[..|s| - 0] == s;
  }

  /** The parser and the format agree, on every text and every node, both ways. */
  lemma ParsesExactly(text: string, n: Node)
    ensures ParseTree(text) == Some(n) <==> WellFormed(n) && Spells(text, n)
  {
    if ParseTree(text) == Some(n) {
      NodeSound(text, End);
      SkipsToNothing(ParseNode(text).value.1);
    }
    if WellFormed(n) && Spells(text, n) {
      NodeAccepted(text, n, End);
      SkipsToNothing(ParseNode(text).value.1);
    }
  }

  /** Tokens that hold no white space and are not empty. */
  predicate Solid(toks: Tokens) {
    toks.End? || (First(toks) != [] && (forall c | c in First(toks) :: !IsSpace(c)) && Solid(toks.more))
  }

  lemma {:induction false} IdTokensSolid(ids: seq<string>, selected: int, i: nat, k: Tokens)
    requires i < |ids| && (forall id | id in ids :: LegalId(id)) && Solid(k)
    ensures Solid(IdTokens(ids, selected, i, k))
    decreases |ids| - i
  {
    assert LegalId(ids[i]);
    if i + 1 < |ids| {
      IdTokensSolid(ids, selected, i + 1, k);
    }
  }

  lemma {:induction false} NodeTokensSolid(n: Node, k: Tokens)
    requires WellFormed(n) && Solid(k)
    ensures Solid(NodeTokens(n, k))
    decreases n
  {
    match n
    case Leaf(ids, selected, role) =>
      assert Solid(LeafEnd(role, k));
      if ids != [] {
        IdTokensSolid(ids, selected, 0, LeafEnd(role, k));
      }
    case Split(_, a, b) =>
      NodeTokensSolid(b, Sym(')', k));
      NodeTokensSolid(a, Sym(',', NodeTokens(b, Sym(')', k))));
  }

  lemma {:induction false} SpacedIsConsumed(toks: Tokens, gaps: seq<string>)
    requires Solid(toks) && |gaps| == Count(toks) + 1
    requires forall g | g in gaps :: AllSpace(g)
    ensures Consume(Spaced(toks, gaps), toks) == Some(gaps[|gaps| - 1])
  {
    if !toks.End? {
      var tok, rest := First(toks), Spaced(toks.more, gaps[1..]);
      assert gaps[0] in gaps && tok[0] in tok;
      SkipSpacePrefix(gaps[0], tok + rest);
      SkipSpaceSkipped(tok + rest);
      assert (tok + rest)[|tok|..] == rest && tok <= tok + rest;
      SpacedIsConsumed(toks.more, gaps[1..]);
    }
  }

  /** Parsing undoes printing, whatever white space is put around the tokens. */
  lemma ParseUndoesPrint(n: Node, gaps: seq<string>)
    requires WellFormed(n)
    requires |gaps| == Count(NodeTokens(n, End)) + 1 && forall g | g in gaps :: AllSpace(g)
    ensures ParseTree(Spaced(NodeTokens(n, End), gaps)) == Some(n)
  {
    NodeTokensSolid(n, End);
    SpacedIsConsumed(NodeTokens(n, End), gaps);
    assert gaps[|gaps| - 1] in gaps;
    ParsesExactly(Spaced(NodeTokens(n, End), gaps), n);
  }

  function WithoutSpace(s: string): string {
    if s == [] then []
    else if IsSpace(s[0]) then WithoutSpace(s[1..])
    else [s[0]] + WithoutSpace(s[1..])
  }

  lemma {:induction false} WithoutSpaceSkipped(s: string)
    ensures WithoutSpace(SkipSpace(s)) == WithoutSpace(s)
  {
    if s != [] && IsSpace(s[0]) {
      WithoutSpaceSkipped(s[1..]);
    }
  }

  lemma {:induction false} WithoutSpaceOfWord(word: string, s: string)
    requires word <= s && forall c | c in word :: !IsSpace(c)
    ensures WithoutSpace(s) == word + WithoutSpace(s[|word|..])
  {
    if word != [] {
      assert word[0] in word && word[1..] <= s[1..];
      WithoutSpaceOfWord(word[1..], s[1..]);
      assert s[1..][|word[1..]|..] == s[|word|..];
    }
  }

  lemma {:induction false} ConsumedText(s: string, toks: Tokens)
    requires Consume(s, toks).Some? && Solid(toks)
    decreases toks
    ensures WithoutSpace(s) == Joined(toks) + WithoutSpace(Consume(s, toks).value)
  {
    if !toks.End? {
      var r := SkipSpace(s);
      WithoutSpaceSkipped(s);
      WithoutSpaceOfWord(First(toks), r);
      ConsumedText(r[|First(toks)|..], toks.more);
    }
  }

  /** Printing undoes parsing: an accepted text is its tree printed, plus white space. */
  lemma PrintUndoesParse(text: string)
    requires ParseTree(text).Some?
    ensures WellFormed(ParseTree(text).value)
    ensures WithoutSpace(text) == Print(ParseTree(text).value)
  {
    var n := ParseTree(text).value;
    ParsesExactly(text, n);
    NodeTokensSolid(n, End);
    ConsumedText(text, NodeTokens(n, End));
    var rest := Consume(text, NodeTokens(n, End)).value;
    WithoutSpaceSkipped(rest);
    SkipsToNothing(rest);
  }

  lemma {:induction false} JoinedIsConsumed(toks: Tokens)
    requires Solid(toks)
    ensures Consume(Joined(toks), toks) == Some([])
  {
    if !toks.End? {
      var tok, rest := First(toks), Joined(toks.more);
      assert tok[0] in tok;
      SkipSpaceSkipped(tok + rest);
      assert (tok + rest)[|tok|..] == rest && tok <= tok + rest;
      JoinedIsConsumed(toks.more);
    }
  }

  /** A tree printed without white space parses to itself. */
  lemma PrintParses(n: Node)
    requires WellFormed(n)
    ensures ParseTree(Print(n)) == Some(n)
  {
    NodeTokensSolid(n, End);
    JoinedIsConsumed(NodeTokens(n, End));
    ParsesExactly(Print(n), n);
  }

  /** No two well-formed trees print alike. */
  lemma PrintIsInjective(m: Node, n: Node)
    requires WellFormed(m) && WellFormed(n) && Print(m) == Print(n)
    ensures m == n
  {
    PrintParses(m);
    PrintParses(n);
  }

  // ---- The format, character by character ----

  /** An id is any text but the empty one without a separator, a marker or white space. */
  lemma IdsAre(id: string)
    ensures WellFormed(Leaf([id], -1, None)) <==> id != "" && forall c | c in id :: c !in ",]:*" && !IsSpace(c)
  {
    forall c ensures IdChar(c) <==> c !in ",]:*" && !IsSpace(c) {
      var all := ",]:*";
      assert all[0] == ',' && all[1] == ']' && all[2] == ':' && all[3] == '*';
    }
    assert id in [id];
  }

  /** A role is any text but the empty one without a closing bracket or white space. */
  lemma RolesAre(role: string)
    ensures WellFormed(Leaf([], -1, Some(role))) <==> role != "" && forall c | c in role :: c != ']' && !IsSpace(c)
  {
  }

  function IdsWritten(ids: seq<string>, selected: int, i: nat): string
    requires i < |ids|
    decreases |ids| - i
  {
    (if selected == i then "*" else "") + (ids[i] + if i + 1 < |ids| then "," + IdsWritten(ids, selected, i + 1) else "")
  }

  /**
   The expression as it is documented: side by side `h(A,B)`, one above the other `v(A,B)`, and a
   leaf `L[id1,*id2:role]`, the star before the page in front and the role only when there is one.
   */
  function Written(n: Node): string {
    match n
    case Leaf(ids, selected, role) =>
      "L[" + ((if ids == [] then "" else IdsWritten(ids, selected, 0)) + ((if role.Some? then ":" + role.value else "") + "]"))
    case Split(o, a, b) => (if o == Horizontal then "h(" else "v(") + (Written(a) + ("," + (Written(b) + ")")))
  }

  lemma {:induction false} IdTokensWritten(ids: seq<string>, selected: int, i: nat, k: Tokens)
    requires i < |ids|
    ensures Joined(IdTokens(ids, selected, i, k)) == IdsWritten(ids, selected, i) + Joined(k)
    decreases |ids| - i
  {
    var star, rest := if selected == i then "*" else "", if i + 1 < |ids| then "," + IdsWritten(ids, selected, i + 1) else "";
    var more := if i + 1 < |ids| then Sym(',', IdTokens(ids, selected, i + 1, k)) else k;
    if i + 1 < |ids| {
      IdTokensWritten(ids, selected, i + 1, k);
      assert Joined(more) == "," + Joined(more.more);
      Regroup(",", IdsWritten(ids, selected, i + 1), Joined(k));
    } else {
      NothingBefore(Joined(k));
    }
    assert Joined(more) == rest + Joined(k);
    StarAndId(star, ids[i], more, selected == i);
    Regroup(star, ids[i] + rest, Joined(k));
    Regroup(ids[i], rest, Joined(k));
  }

  lemma NothingBefore(s: string)
    ensures "" + s == s
  {
  }

  lemma StarAndId(star: string, id: string, more: Tokens, marked: bool)
    requires star == if marked then "*" else ""
    ensures Joined(if marked then Sym('*', Word(id, more)) else Word(id, more)) == star + (id + Joined(more))
  {
    assert Joined(Word(id, more)) == id + Joined(more);
    NothingBefore(id + Joined(more));
  }

  lemma EndWritten(role: Option<string>, k: Tokens)
    ensures Joined(LeafEnd(role, k)) == (if role.Some? then ":" + role.value else "") + ("]" + Joined(k))
  {
    assert Joined(Sym(']', k)) == "]" + Joined(k);
    if role.Some? {
      assert Joined(Word(role.value, Sym(']', k))) == role.value + ("]" + Joined(k));
      Regroup(":", role.value, "]" + Joined(k));
    } else {
      NothingBefore("]" + Joined(k));
    }
  }

  lemma LeafRegroup(open: string, ids: string, role: string, close: string, k: string)
    ensures open + (ids + (role + (close + k))) == open + (ids + (role + close)) + k
  {
  }

  lemma LeafWritten(n: Node, k: Tokens)
    requires n.Leaf?
    ensures Joined(NodeTokens(n, k)) == Written(n) + Joined(k)
  {
    var end := LeafEnd(n.role, k);
    var ids := if n.ids == [] then "" else IdsWritten(n.ids, n.selected, 0);
    var role := if n.role.Some? then ":" + n.role.value else "";
    EndWritten(n.role, k);
    var list := if n.ids == [] then end else IdTokens(n.ids, n.selected, 0, end);
    if n.ids != [] {
      IdTokensWritten(n.ids, n.selected, 0, end);
    } else {
      NothingBefore(Joined(end));
    }
    assert Joined(list) == ids + (role + ("]" + Joined(k)));
    OpenLeaf(n, k, list);
    LeafRegroup("L[", ids, role, "]", Joined(k));
  }

  lemma OpenLeaf(n: Node, k: Tokens, list: Tokens)
    requires n.Leaf? && LeafTokens(n, k) == Sym('[', list)
    ensures Joined(NodeTokens(n, k)) == "L[" + Joined(list)
  {
    assert Joined(Sym('[', list)) == "[" + Joined(list);
    assert Joined(Sym('L', Sym('[', list))) == "L" + ("[" + Joined(list));
  }

  lemma SplitRegroup(open: string, a: string, comma: string, b: string, close: string, k: string)
    ensures open + (a + (comma + (b + (close + k)))) == open + (a + (comma + (b + close))) + k
  {
  }

  /** What is printed, and parsed back, is the expression as it is documented. */
  lemma {:induction false} PrintIsWritten(n: Node, k: Tokens)
    ensures Joined(NodeTokens(n, k)) == Written(n) + Joined(k)
    decreases n
  {
    match n
    case Leaf(_, _, _) => LeafWritten(n, k);
    case Split(o, a, b) =>
      var close := Sym(')', k);
      var second := Sym(',', NodeTokens(b, close));
      PrintIsWritten(b, close);
      PrintIsWritten(a, second);
      assert Joined(close) == ")" + Joined(k);
      assert Joined(second) == "," + Joined(second.more);
      OpenSplit(o, NodeTokens(a, second));
      SplitRegroup(if o == Horizontal then "h(" else "v(", Written(a), ",", Written(b), ")", Joined(k));
  }

  lemma OpenSplit(o: Orientation, more: Tokens)
    ensures Joined(Sym(Letter(o), Sym('(', more))) == (if o == Horizontal then "h(" else "v(") + Joined(more)
  {
    assert Joined(Sym('(', more)) == "(" + Joined(more);
  }

  /** The documented expression of a well-formed tree parses to the tree. */
  lemma WrittenParses(n: Node)
    requires WellFormed(n)
    ensures ParseTree(Written(n)) == Some(n)
  {
    PrintIsWritten(n, End);
    assert Written(n) + Joined(End) == Written(n);
    PrintParses(n);
  }
}
