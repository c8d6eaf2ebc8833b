/**
 The recursive-descent parser of `src/dock_layout_parse.c`: a cursor that the
 parse methods advance in place. Each method computes what the function of the
 same name in `DockTree` says, and leaves the cursor on what is left to read.
 */
module DockParser {
  import opened Wrappers
  import opened Text
  import opened DockTree

  /** How a turn of the id loop ends: refused, out of the loop, or round again. */
  datatype Step = Bad | Done | More

  class Cursor {
    const text: string
    var p: nat

    constructor (text: string)
      ensures this.text == text && p == 0
    {
      this.text := text;
      p := 0;
    }

    ghost predicate Valid()
      reads this
    {
      p <= |text|
    }

    /** What is left to read. */
    ghost function Rest(): string
      reads this
      requires Valid()
    {
      text[p..]
    }

    method SkipWs()
      requires Valid()
      modifies this
      ensures Valid() && Rest() == SkipSpace(old(Rest()))
    {
      while p < |text| && IsSpace(text[p])
        invariant Valid() && SkipSpace(Rest()) == SkipSpace(old(Rest()))
      {
        assert text[p..][1..] == text[p + 1..];
        p := p + 1;
      }
    }

    method MatchChar(ch: char) returns (found: bool)
      requires Valid()
      modifies this
      ensures Valid()
      ensures match Match(old(Rest()), ch)
              case None => !found && Rest() == SkipSpace(old(Rest()))
              case Some(rest) => found && Rest() == rest
    {
      SkipWs();
      if p < |text| && text[p] == ch {
        assert text[p..][1..] == text[p + 1..];
        p := p + 1;
        return true;
      }
      return false;
    }

    method MatchPrefix(prefix: string) returns (found: bool)
      requires Valid()
      modifies this
      ensures Valid() && found == (prefix <= SkipSpace(old(Rest())))
      ensures Rest() == if found then SkipSpace(old(Rest()))[|prefix|..] else SkipSpace(old(Rest()))
    {
      SkipWs();
      var n := |prefix|;
      if |text| - p >= n && text[p..p + n] == prefix {
        assert text[p..][..n] == text[p..p + n];
        assert text[p..][n..] == text[p + n..];
        p := p + n;
        return true;
      }
      assert n <= |text| - p ==> text[p..][..n] == text[p..p + n];
      return false;
    }

    /** Advance over the characters that satisfy `accept` and return them. */
    method Scan(accept: char -> bool) returns (word: string)
      requires Valid()
      modifies this
      ensures Valid()
      ensures var k := Span(old(Rest()), accept);
              word == old(Rest())[..k] && Rest() == old(Rest())[k..]
    {
      var start := p;
      while p < |text| && accept(text[p])
        invariant start <= p <= |text|
        invariant Span(text[start..], accept) == p - start + Span(text[p..], accept)
      {
        assert text[p..][1..] == text[p + 1..];
        p := p + 1;
      }
      word := text[start..p];
      assert text[start..][..p - start] == word;
      assert text[start..][p - start..] == text[p..];
    }

    /** The marker, if any, and one id: one turn of the id loop. */
    method ReadId(selected: int) returns (ok: bool, isSelected: bool, id: string)
      requires Valid() && p < |text|
      modifies this
      ensures Valid() && |Rest()| <= |old(Rest())|
      ensures ok == !((old(Rest())[0] == '*' && selected >= 0) || NextId(old(Rest())).id == [])
      ensures ok ==> NextId(old(Rest())) == IdTurn(isSelected, id, Rest())
      ensures ok ==> |Rest()| < |old(Rest())|
    {
      id, isSelected := [], false;
      if text[p] == '*' {
        if selected >= 0 {
          return false, isSelected, id;
        }
        isSelected := true;
        assert text[p..][1..] == text[p + 1..];
        p := p + 1;
        SkipWs();
      }
      id := Scan(IdChar);
      ok := id != [];
    }

    /** One turn of the id loop of `parse_leaf`, from its head. */
    method ReadTurn(ids: seq<string>, selected: int) returns (step: Step, ids': seq<string>, selected': int)
      requires Valid() && !AtIdEnd(Rest()) && -1 <= selected < |ids|
      modifies this
      ensures Valid() && (step.More? ==> |Rest()| < |old(Rest())|)
      ensures -1 <= selected' < |ids'|
      ensures ParseIds(old(Rest()), ids, selected) ==
              match step
              case Bad => None
              case Done => Some(IdList(ids', selected', Rest()))
              case More => ParseIds(Rest(), ids', selected')
    {
      ghost var s := Rest();
      var found, isSelected, id := ReadId(selected);
      ids', selected' := ids + [id], if isSelected then |ids| else selected;
      if !found {
        return Bad, ids', selected';
      }
      SkipWs();
      ghost var u := Rest();
      assert u == SkipSpace(NextId(s).rest);
      SkipSpaceSkipped(u);
      var comma := MatchChar(',');
      if !comma {
        return Done, ids', selected';
      }
      SkipWs();
      step := if p >= |text| || text[p] == ']' || text[p] == ':' then Bad else More;
    }

    /** The id loop of `parse_leaf` (src/dock_layout_parse.c:104-158). */
    method ReadIds() returns (ok: bool, ids: seq<string>, selected: int)
      requires Valid()
      modifies this
      ensures Valid()
      ensures match ParseIds(SkipSpace(old(Rest())), [], -1)
              case None => !ok
              case Some(list) => ok && IdList(ids, selected, Rest()) == list
    {
      ids, selected := [], -1;
      SkipWs();
      ghost var goal := ParseIds(Rest(), [], -1);
      while p < |text| && text[p] != ']' && text[p] != ':'
        invariant Valid() && -1 <= selected < |ids|
        invariant ParseIds(Rest(), ids, selected) == goal
        decreases |text| - p
      {
        var step;
        step, ids, selected := ReadTurn(ids, selected);
        if step != More {
          return step.Done?, ids, selected;
        }
      }
      ok := true;
    }

    /** The role of a leaf (src/dock_layout_parse.c:160-174). */
    method ReadRole() returns (ok: bool, role: Option<string>)
      requires Valid()
      modifies this
      ensures Valid()
      ensures match ParseRole(old(Rest()))
              case None => !ok
              case Some(r) => ok && role == r.role && (Rest() == r.rest || Rest() == SkipSpace(r.rest))
    {
      role := None;
      ghost var s := Rest();
      SkipWs();
      MatchSkipped(s, ':');
      SkipSpaceSkipped(Rest());
      var colon := MatchChar(':');
      if colon {
        SkipWs();
        var word := Scan(RoleChar);
        if word == [] {
          return false, None;
        }
        role := Some(word);
      }
      ok := true;
    }

    /** `parse_leaf`: the `L` is already consumed. */
    method ReadLeaf() returns (n: Option<Node>)
      requires Valid()
      modifies this
      ensures Valid()
      ensures match ParseLeaf(old(Rest()))
              case None => n.None?
              case Some(r) => n == Some(r.0) && Rest() == r.1
    {
      var open := MatchChar('[');
      if !open {
        return None;
      }
      var found, ids, selected := ReadIds();
      if !found {
        return None;
      }
      var ok, role := ReadRole();
      if !ok {
        return None;
      }
      ghost var s := Rest();
      var close := MatchChar(']');
      if !close {
        n := None;
      } else {
        n := Some(Leaf(ids, selected, role));
      }
      forall t: string | s == SkipSpace(t) ensures Match(s, ']') == Match(t, ']') {
        MatchSkipped(t, ']');
      }
    }

    method ReadSplit(orientation: Orientation) returns (n: Option<Node>)
      requires Valid()
      modifies this
      ensures Valid()
      ensures match ParseSplit(old(Rest()), orientation)
              case None => n.None?
              case Some(r) => n == Some(r.0) && Rest() == r.1
      decreases |text| - p, 0
    {
      var found := MatchChar('(');
      if !found {
        return None;
      }
      var a := ReadNode();
      if a.None? {
        return None;
      }
      found := MatchChar(',');
      if !found {
        return None;
      }
      var b := ReadNode();
      if b.None? {
        return None;
      }
      found := MatchChar(')');
      if !found {
        return None;
      }
      return Some(Split(orientation, a.value, b.value));
    }

    method ReadNode() returns (n: Option<Node>)
      requires Valid()
      modifies this
      ensures Valid()
      ensures match ParseNode(old(Rest()))
              case None => n.None?
              case Some(r) => n == Some(r.0) && Rest() == r.1
      decreases |text| - p, 1
    {
      SkipWs();
      if p >= |text| {
        return None;
      }
      SkipSpaceSkipped(Rest());
      var found := MatchPrefix("h");
      if found {
        n := ReadSplit(Horizontal);
        return;
      }
      found := MatchPrefix("v");
      if found {
        n := ReadSplit(Vertical);
        return;
      }
      found := MatchPrefix("L");
      if found {
        n := ReadLeaf();
        return;
      }
      return None;
    }
  }

  /** `dl_parse_tree` (src/dock_layout_parse.c:239-253): NULL for anything but one whole tree. */
  method ParseTreeText(text: Option<string>) returns (root: Option<Node>)
    ensures text.None? ==> root.None?
    ensures text.Some? ==> root == ParseTree(text.value)
    ensures root.Some? ==> WellFormed(root.value) && WithoutSpace(text.value) == Print(root.value)
    ensures text.Some? ==> forall n | WellFormed(n) && Spells(text.value, n) :: root == Some(n)
  {
    if text.None? {
      return None;
    }
    var c := new Cursor(text.value);
    assert c.Rest() == text.value;
    root := c.ReadNode();
    c.SkipWs();
    if root.None? || c.p != |c.text| {
      root := None;
    }
    if root.Some? {
      PrintUndoesParse(text.value);
    }
    forall n | WellFormed(n) && Spells(text.value, n) ensures root == Some(n) {
      ParsesExactly(text.value, n);
    }
  }
}
