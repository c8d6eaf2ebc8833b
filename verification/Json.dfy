/**
 JSON texts (RFC 8259): the compact form the layout import writes, and a reader
 for the whole grammar. The reader takes `\u` escapes for ASCII only; the writer
 uses them for control characters and copies every other byte through.
 */
module Json {
  import opened Wrappers
  import opened Text
  import opened Decimal

  datatype Json =
    | Str(text: string)
    | Num(lexeme: string)
    | Arr(items: Items)
    | Obj(members: Members)

  datatype Items = NoItems | Item(head: Json, tail: Items)

  datatype Members = NoMembers | Member(key: string, value: Json, others: Members)

  // ---- Writing ----

  const HEX := "0123456789abcdef"

  /** One character as `json_string` writes it (src/dock_layout_parse.c:261-270). */
  function EscapeChar(c: char): (e: string)
    ensures e != []
  {
    var n := c as int;
    if c == '"' || c == '\\' then ['\\', c]
    else if n < 0x20 then ['\\', 'u', '0', '0', HEX[n / 16], HEX[n % 16]]
    else [c]
  }

  function Escape(s: string): string {
    if s == [] then [] else EscapeChar(s[0]) + Escape(s[1..])
  }

  function Quote(s: string): string {
    "\"" + Escape(s) + "\""
  }

  function Emit(j: Json): string
    decreases j, 0
  {
    match j
    case Str(s) => Quote(s)
    case Num(lexeme) => lexeme
    case Arr(items) => "[" + EmitItems(items) + "]"
    case Obj(members) => "{" + EmitMembers(members) + "}"
  }

  function EmitItems(items: Items): string
    decreases items, 0
  {
    match items
    case NoItems => []
    case Item(head, tail) => Emit(head) + if tail.NoItems? then [] else "," + EmitItems(tail)
  }

  function EmitMember(key: string, value: Json): string
    decreases value, 1
  {
    Quote(key) + ":" + Emit(value)
  }

  function EmitMembers(members: Members): string
    decreases members, 0
  {
    match members
    case NoMembers => []
    case Member(key, value, others) =>
      EmitMember(key, value) + if others.NoMembers? then [] else "," + EmitMembers(others)
  }

  // ---- Reading ----

  /** The white space of RFC 8259, section 2. */
  predicate IsJsonSpace(c: char) {
    c == ' ' || c == '\t' || c == '\n' || c == '\r'
  }

  function Skip(s: string): (r: string)
    ensures |r| <= |s|
  {
    if s != [] && IsJsonSpace(s[0]) then Skip(s[1..]) else s
  }

  function Expect(s: string, c: char): (r: Option<string>)
    ensures r.Some? ==> |r.value| < |s|
  {
    var t := Skip(s);
    if t != [] && t[0] == c then Some(t[1..]) else None
  }

  /** The escape after a backslash (RFC 8259, section 7). */
  function ReadEscape(s: string): (r: Option<(char, string)>)
    ensures r.Some? ==> |r.value.1| < |s|
  {
    if s == [] then None
    else if s[0] == '"' || s[0] == '\\' || s[0] == '/' then Some((s[0], s[1..]))
    else if s[0] == 'b' then Some((8 as char, s[1..]))
    else if s[0] == 'f' then Some((12 as char, s[1..]))
    else if s[0] == 'n' then Some(('\n', s[1..]))
    else if s[0] == 'r' then Some(('\r', s[1..]))
    else if s[0] == 't' then Some(('\t', s[1..]))
    else if s[0] == 'u' && |s| >= 5 then
      var a :- HexValue(s[1]);
      var b :- HexValue(s[2]);
      var c :- HexValue(s[3]);
      var d :- HexValue(s[4]);
      if a == 0 && b == 0 && c < 8 then Some(((16 * c + d) as char, s[5..])) else None
    else None
  }

  /** The characters of a string, up to and past its closing quote. */
  function ReadChars(s: string): (r: Option<(string, string)>)
    ensures r.Some? ==> |r.value.1| < |s|
    decreases |s|
  {
    if s == [] || s[0] as int < 0x20 then None
    else if s[0] == '"' then Some(([], s[1..]))
    else if s[0] == '\\' then
      var (c, t) :- ReadEscape(s[1..]);
      var (cs, rest) :- ReadChars(t);
      Some(([c] + cs, rest))
    else
      var (cs, rest) :- ReadChars(s[1..]);
      Some(([s[0]] + cs, rest))
  }

  function IntLength(s: string): (k: nat)
    ensures k <= |s|
  {
    if s != [] && s[0] == '0' then 1 else Span(s, IsDigit)
  }

  function FractionLength(s: string): (k: nat)
    ensures k <= |s|
  {
    if s == [] || s[0] != '.' then 0 else
    var d := Span(s[1..], IsDigit);
    if d == 0 then 0 else d + 1
  }

  function ExponentLength(s: string): (k: nat)
    ensures k <= |s|
  {
    if s == [] || (s[0] != 'e' && s[0] != 'E') then 0 else
    var sign := if |s| > 1 && (s[1] == '+' || s[1] == '-') then 1 else 0;
    var d := Span(s[1 + sign..], IsDigit);
    if d == 0 then 0 else 1 + sign + d
  }

  /** The fraction and exponent after an integer. */
  function TailLength(s: string): (k: nat)
    ensures k <= |s|
  {
    var f := FractionLength(s);
    f + ExponentLength(s[f..])
  }

  function UnsignedLength(s: string): (k: nat)
    ensures k <= |s|
  {
    var i := IntLength(s);
    if i == 0 then 0 else i + TailLength(s[i..])
  }

  /** How much of `s` is a number (RFC 8259, section 6), or 0. */
  function NumberLength(s: string): (k: nat)
    ensures k <= |s|
  {
    if s != [] && s[0] == '-' then
      var u := UnsignedLength(s[1..]);
      if u == 0 then 0 else u + 1
    else UnsignedLength(s)
  }

  function ReadValue(s: string): (r: Option<(Json, string)>)
    ensures r.Some? ==> |r.value.1| < |s|
    decreases |s|, 1
  {
    var t := Skip(s);
    if t == [] then None
    else if t[0] == '"' then
      var (text, rest) :- ReadChars(t[1..]);
      Some((Str(text), rest))
    else if t[0] == '[' then
      var u := Expect(t[1..], ']');
      if u.Some? then Some((Arr(NoItems), u.value)) else
      var (items, rest) :- ReadItems(t[1..]);
      Some((Arr(items), rest))
    else if t[0] == '{' then
      var u := Expect(t[1..], '}');
      if u.Some? then Some((Obj(NoMembers), u.value)) else
      var (members, rest) :- ReadMembers(t[1..]);
      Some((Obj(members), rest))
    else
      var k := NumberLength(t);
      if k == 0 then None else Some((Num(t[..k]), t[k..]))
  }

  /** One or more items, up to and past the closing bracket. */
  function ReadItems(s: string): (r: Option<(Items, string)>)
    ensures r.Some? ==> |r.value.1| < |s|
    decreases |s|, 2
  {
    var (head, t) :- ReadValue(s);
    var comma := Expect(t, ',');
    if comma.Some? then
      var (tail, rest) :- ReadItems(comma.value);
      Some((Item(head, tail), rest))
    else
      var rest :- Expect(t, ']');
      Some((Item(head, NoItems), rest))
  }

  /** One or more members, up to and past the closing brace. */
  function ReadMembers(s: string): (r: Option<(Members, string)>)
    ensures r.Some? ==> |r.value.1| < |s|
    decreases |s|, 2
  {
    var q :- Expect(s, '"');
    var (key, t) :- ReadChars(q);
    var u :- Expect(t, ':');
    var (value, v) :- ReadValue(u);
    var comma := Expect(v, ',');
    if comma.Some? then
      var (others, rest) :- ReadMembers(comma.value);
      Some((Member(key, value, others), rest))
    else
      var rest :- Expect(v, '}');
      Some((Member(key, value, NoMembers), rest))
  }

  /** A whole text: one value and nothing after it. */
  function ReadText(s: string): Option<Json> {
    var (j, rest) :- ReadValue(s);
    if Skip(rest) == [] then Some(j) else None
  }

  // ---- Reading undoes writing ----

  predicate Lexeme(s: string) {
    s != [] && NumberLength(s) == |s|
  }

  /** Every number in the value is spelled as one. */
  predicate Proper(j: Json) {
    match j
    case Str(_) => true
    case Num(lexeme) => Lexeme(lexeme)
    case Arr(items) => ProperItems(items)
    case Obj(members) => ProperMembers(members)
  }

  predicate ProperItems(items: Items) {
    items.Item? ==> Proper(items.head) && ProperItems(items.tail)
  }

  predicate ProperMembers(members: Members) {
    members.Member? ==> Proper(members.value) && ProperMembers(members.others)
  }

  /** `k` cannot lengthen a number it follows. */
  predicate StopsNumber(k: string) {
    k != [] ==> !IsDigit(k[0]) && k[0] != '.' && k[0] != 'e' && k[0] != 'E'
  }

  lemma HexOf(d: nat)
    requires d < 16
    ensures HexValue(HEX[d]) == Some(d)
  {
  }

  lemma EscapeRead(c: char, k: string)
    ensures var s := EscapeChar(c) + k;
            && s[0] as int >= 0x20 && s[0] != '"'
            && (if s[0] == '\\' then ReadEscape(s[1..]) == Some((c, k)) else s[0] == c && s[1..] == k)
  {
    var s := EscapeChar(c) + k;
    var n := c as int;
    if c == '"' || c == '\\' {
      assert s[1..] == [c] + k && s[1..][1..] == k;
    } else if n < 0x20 {
      HexOf(n / 16);
      HexOf(n % 16);
      assert s[1..][5..] == k;
      assert s[1..][..5] == ['u', '0', '0', HEX[n / 16], HEX[n % 16]];
    } else {
      assert s[1..] == k;
    }
  }

  /** Escaping is undone for every string of bytes. */
  lemma {:induction false} CharsRead(s: string, k: string)
    ensures ReadChars(Escape(s) + ("\"" + k)) == Some((s, k))
  {
    if s == [] {
      CharsEnd(Escape(s), "\"", k);
    } else {
      var more := Escape(s[1..]) + ("\"" + k);
      Regroup(EscapeChar(s[0]), Escape(s[1..]), "\"" + k);
      EscapeRead(s[0], more);
      CharsRead(s[1..], k);
      assert s == [s[0]] + s[1..];
    }
  }

  lemma CharsEnd(none: string, quote: string, k: string)
    requires none == [] && |quote| == 1
    ensures none + (quote + k) == quote + k && (quote + k)[1..] == k
  {
  }

  lemma SliceJoin(s: string, k: string, i: nat)
    requires i <= |s|
    ensures (s + k)[i..] == s[i..] + k
  {
  }

  lemma SpanStops(s: string, k: string)
    requires k == [] || !IsDigit(k[0])
    ensures Span(s + k, IsDigit) == Span(s, IsDigit)
  {
    var n := Span(s, IsDigit);
    if n == |s| && k != [] {
      assert (s + k)[n] == k[0];
    }
    SpanOf(s + k, IsDigit, n);
  }

  lemma NumberStops(s: string, k: string)
    requires Lexeme(s) && StopsNumber(k)
    ensures NumberLength(s + k) == |s|
  {
    if s[0] == '-' {
      SliceJoin(s, k, 1);
      UnsignedStops(s[1..], k);
    } else {
      UnsignedStops(s, k);
    }
  }

  lemma UnsignedStops(s: string, k: string)
    requires UnsignedLength(s) == |s| > 0 && StopsNumber(k)
    ensures UnsignedLength(s + k) == |s|
  {
    SpanStops(s, k);
    var i := IntLength(s);
    SliceJoin(s, k, i);
    TailStops(s[i..], k);
  }

  lemma TailStops(s: string, k: string)
    requires TailLength(s) == |s| && StopsNumber(k)
    ensures TailLength(s + k) == |s|
  {
    FractionStops(s, k);
    var f := FractionLength(s);
    assert (s + k)[f..] == s[f..] + k;
    ExponentStops(s[f..], k);
  }

  lemma FractionStops(s: string, k: string)
    requires StopsNumber(k)
    ensures FractionLength(s + k) == FractionLength(s)
  {
    if s == [] {
      assert s + k == k;
    } else {
      assert (s + k)[1..] == s[1..] + k;
      SpanStops(s[1..], k);
    }
  }

  lemma ExponentStops(s: string, k: string)
    requires StopsNumber(k) && ExponentLength(s) == |s|
    ensures ExponentLength(s + k) == ExponentLength(s)
  {
    if s == [] {
      assert s + k == k;
    } else {
      assert |s| > 1;
      var sign := if s[1] == '+' || s[1] == '-' then 1 else 0;
      assert (s + k)[1 + sign..] == s[1 + sign..] + k;
      SpanStops(s[1 + sign..], k);
    }
  }

  lemma ExpectHere(c: char, k: string)
    requires !IsJsonSpace(c)
    ensures Expect([c] + k, c) == Some(k)
    ensures forall d | d != c :: Expect([c] + k, d).None?
  {
    assert ([c] + k)[1..] == k;
  }

  /** What a written value starts with. */
  lemma EmitStarts(j: Json)
    requires Proper(j)
    ensures Emit(j) != [] && !IsJsonSpace(Emit(j)[0]) && Emit(j)[0] != ']' && Emit(j)[0] != ','
  {
    if j.Num? && j.lexeme[0] != '-' {
      assert j.lexeme[0..] == j.lexeme;
      assert IsDigit(j.lexeme[0]);
    }
  }

  lemma LexemeStarts(s: string)
    requires Lexeme(s)
    ensures s[0] == '-' || IsDigit(s[0])
  {
  }

  /** Where neither a string nor a list starts, the reader reads a number. */
  lemma ReadsNumber(s: string, k: nat)
    requires s != [] && (s[0] == '-' || IsDigit(s[0]))
    requires NumberLength(s) == k > 0
    ensures ReadValue(s) == Some((Num(s[..k]), s[k..]))
  {
    NothingToSkip(s);
    ReadsAsNumber(s, k);
  }

  lemma NothingToSkip(s: string)
    requires s != [] && !IsJsonSpace(s[0])
    ensures Skip(s) == s
  {
  }

  lemma ReadsAsNumber(s: string, k: nat)
    requires s != [] && Skip(s) == s && s[0] != '"' && s[0] != '[' && s[0] != '{'
    requires NumberLength(s) == k > 0
    ensures ReadValue(s) == Some((Num(s[..k]), s[k..]))
  {
  }

  lemma NumRead(lexeme: string, k: string)
    requires Lexeme(lexeme) && StopsNumber(k)
    ensures ReadValue(lexeme + k) == Some((Num(lexeme), k))
  {
    LexemeStarts(lexeme);
    NumberStops(lexeme, k);
    var s := lexeme + k;
    assert s[..|lexeme|] == lexeme && s[|lexeme|..] == k;
    ReadsNumber(s, |lexeme|);
  }

  lemma StrRead(text: string, k: string)
    ensures ReadValue(Quote(text) + k) == Some((Str(text), k))
  {
    var s := Quote(text) + k;
    assert s[0] == '"' && s[1..] == Escape(text) + ("\"" + k);
    CharsRead(text, k);
  }

  lemma ReadsArr(s: string, items: Items, rest: string, k: string)
    requires s != "" && s[0] == '[' && s[1..] == rest
    requires if items.NoItems? then Expect(rest, ']') == Some(k)
             else Expect(rest, ']').None? && ReadItems(rest) == Some((items, k))
    ensures ReadValue(s) == Some((Arr(items), k))
  {
    assert Skip(s) == s;
  }

  lemma ReadsObj(s: string, members: Members, rest: string, k: string)
    requires s != "" && s[0] == '{' && s[1..] == rest
    requires if members.NoMembers? then Expect(rest, '}') == Some(k)
             else Expect(rest, '}').None? && ReadMembers(rest) == Some((members, k))
    ensures ReadValue(s) == Some((Obj(members), k))
  {
    assert Skip(s) == s;
  }

  lemma Bracketed(s: string, open: char, body: string, close: char, k: string)
    requires s == [open] + body + [close]
    ensures (s + k)[0] == open && (s + k)[1..] == body + ([close] + k)
  {
  }

  lemma ArrRead(items: Items, k: string)
    requires items.Item? ==> ReadItems(EmitItems(items) + ("]" + k)) == Some((items, k))
                             && Expect(EmitItems(items) + ("]" + k), ']').None?
    ensures ReadValue(Emit(Arr(items)) + k) == Some((Arr(items), k))
  {
    var body := EmitItems(items);
    Bracketed(Emit(Arr(items)), '[', body, ']', k);
    if items.NoItems? {
      ExpectHere(']', k);
      assert "" + ("]" + k) == "]" + k;
    }
    ReadsArr(Emit(Arr(items)) + k, items, body + ("]" + k), k);
  }

  lemma ObjRead(members: Members, k: string)
    requires members.Member? ==> ReadMembers(EmitMembers(members) + ("}" + k)) == Some((members, k))
                                 && Expect(EmitMembers(members) + ("}" + k), '}').None?
    ensures ReadValue(Emit(Obj(members)) + k) == Some((Obj(members), k))
  {
    var body := EmitMembers(members);
    Bracketed(Emit(Obj(members)), '{', body, '}', k);
    if members.NoMembers? {
      ExpectHere('}', k);
      assert "" + ("}" + k) == "}" + k;
    }
    ReadsObj(Emit(Obj(members)) + k, members, body + ("}" + k), k);
  }

  lemma {:induction false} ValueRead(j: Json, k: string)
    requires Proper(j) && StopsNumber(k)
    ensures ReadValue(Emit(j) + k) == Some((j, k))
    decreases j
  {
    match j
    case Str(text) => StrRead(text, k);
    case Num(lexeme) => NumRead(lexeme, k);
    case Arr(items) =>
      if items.Item? {
        ItemsRead(items, k);
      }
      ArrRead(items, k);
    case Obj(members) =>
      if members.Member? {
        MembersRead(members, k);
      }
      ObjRead(members, k);
  }

  lemma {:induction false} ItemsRead(items: Items, k: string)
    requires ProperItems(items) && items.Item?
    ensures ReadItems(EmitItems(items) + ("]" + k)) == Some((items, k))
    ensures Expect(EmitItems(items) + ("]" + k), ']').None?
    decreases items
  {
    var s := EmitItems(items) + ("]" + k);
    EmitStarts(items.head);
    assert s[0] == Emit(items.head)[0];
    var tail := EmitItems(items.tail) + ("]" + k);
    var more := if items.tail.NoItems? then "]" + k else "," + tail;
    assert s == Emit(items.head) + more;
    ValueRead(items.head, more);
    if items.tail.NoItems? {
      ExpectHere(']', k);
    } else {
      ExpectHere(',', tail);
      ItemsRead(items.tail, k);
    }
  }

  lemma RegroupMember(q: string, text: string, c: string, value: string, more: string)
    ensures q + text + q + c + value + more == q + (text + (q + (c + (value + more))))
  {
  }

  /** A key, up to its closing quote. */
  lemma KeyRead(key: string, colon: string)
    ensures var s := "\"" + (Escape(key) + ("\"" + colon));
            var q := Expect(s, '"');
            && q.Some? && Expect(s, '}').None? && ReadChars(q.value) == Some((key, colon))
  {
    ExpectHere('"', Escape(key) + ("\"" + colon));
    CharsRead(key, colon);
  }

  lemma MemberText(key: string, value: Json, more: string)
    ensures EmitMember(key, value) + more == "\"" + (Escape(key) + ("\"" + (":" + (Emit(value) + more))))
  {
    RegroupMember("\"", Escape(key), ":", Emit(value), more);
  }

  /** A member is a key, a colon and a value. */
  lemma MemberRead(key: string, value: Json, more: string)
    ensures var s := EmitMember(key, value) + more;
            var q := Expect(s, '"');
            && q.Some? && Expect(s, '}').None?
            && var t := ReadChars(q.value);
            && t.Some? && t.value.0 == key
            && Expect(t.value.1, ':') == Some(Emit(value) + more)
  {
    MemberText(key, value, more);
    KeyRead(key, ":" + (Emit(value) + more));
    ExpectHere(':', Emit(value) + more);
  }

  /** The members from the first on, and what follows them. */
  lemma MembersText(members: Members, end: string, more: string)
    requires members.Member?
    requires more == if members.others.NoMembers? then end else "," + (EmitMembers(members.others) + end)
    ensures EmitMembers(members) + end == EmitMember(members.key, members.value) + more
  {
    var one := EmitMember(members.key, members.value);
    if members.others.NoMembers? {
      Regroup(one, "", end);
      assert "" + end == end;
    } else {
      Regroup(one, "," + EmitMembers(members.others), end);
      Regroup(",", EmitMembers(members.others), end);
    }
  }

  lemma {:induction false} MembersRead(members: Members, k: string)
    requires ProperMembers(members) && members.Member?
    ensures ReadMembers(EmitMembers(members) + ("}" + k)) == Some((members, k))
    ensures Expect(EmitMembers(members) + ("}" + k), '}').None?
    decreases members
  {
    var Member(key, value, others) := members;
    var tail := EmitMembers(others) + ("}" + k);
    var more := if others.NoMembers? then "}" + k else "," + tail;
    MembersText(members, "}" + k, more);
    ValueRead(value, more);
    MemberRead(key, value, more);
    if others.NoMembers? {
      ExpectHere('}', k);
    } else {
      ExpectHere(',', tail);
      MembersRead(others, k);
    }
  }

  /** A JSON reader recovers every value written. */
  lemma ReadUndoesEmit(j: Json)
    requires Proper(j)
    ensures ReadText(Emit(j)) == Some(j)
  {
    ValueRead(j, []);
    assert Emit(j) + [] == Emit(j);
  }
}
