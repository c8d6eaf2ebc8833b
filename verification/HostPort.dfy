/**
 `host:port` text (src/host_port.c): the parser, the printer, and exactly when the one
 undoes the other.
 */
module HostPort {
  import opened Wrappers
  import opened Text
  import opened Decimal

  datatype Endpoint = Endpoint(host: string, port: nat, hadPort: bool)

  /** A whole decimal number in 1..65535; like `strtoll`, white space and a sign may come first. */
  function PortOf(s: string): Option<nat> {
    var n :- ScanInt(s, IsSpaceC);
    if n.rest == "" && 1 <= n.value <= 65535 then Some(n.value) else None
  }

  function Colons(s: string): nat {
    if s == [] then 0 else (if s[0] == ':' then 1 else 0) + Colons(s[1..])
  }

  /** The text before a port, and the port's text when there is one. */
  datatype Halves = Halves(host: string, port: Option<string>)

  /** Where the text splits: at the bracket's end, or at a colon that is the only one. */
  function Halve(s: string): Option<Halves> {
    if s != "" && s[0] == '[' then
      var close := IndexOf(s, ']');
      if close == |s| then None
      else if close + 1 == |s| then Some(Halves(s[1..close], None))
      else if s[close + 1] == ':' then Some(Halves(s[1..close], Some(s[close + 2..])))
      else None
    else if Colons(s) == 1 then
      var k := IndexOf(s, ':');
      Some(if k < |s| then Halves(s[..k], Some(s[k + 1..])) else Halves(s, None))
    else Some(Halves(s, None))
  }

  /** `gtkhx_parse_host_port`: the endpoint a text names. */
  function Parse(s: string, defaultPort: nat): Option<Endpoint> {
    var halves :- Halve(s);
    if halves.host == "" then None
    else if halves.port.None? then Some(Endpoint(halves.host, defaultPort, false))
    else
      var port :- PortOf(halves.port.value);
      Some(Endpoint(halves.host, port, true))
  }

  /** `gtkhx_join_host_port`. */
  function Join(host: string, port: nat): string {
    if ':' in host then "[" + host + "]:" + Digits(port) else host + ":" + Digits(port)
  }

  // ---- Colons ----

  lemma {:induction false} ColonsAppend(x: string, y: string)
    ensures Colons(x + y) == Colons(x) + Colons(y)
  {
    if x == [] {
      assert x + y == y;
    } else {
      assert (x + y)[1..] == x[1..] + y;
      ColonsAppend(x[1..], y);
    }
  }

  lemma {:induction false} NoColons(s: string)
    ensures Colons(s) == 0 <==> ':' !in s
  {
    if s != [] {
      NoColons(s[1..]);
      assert ':' in s <==> s[0] == ':' || ':' in s[1..];
    }
  }

  /** A single colon, wherever it is. */
  lemma OneColon(x: string, y: string)
    ensures Colons(x + ":" + y) == Colons(x) + 1 + Colons(y)
  {
    ColonsAppend(x + ":", y);
    ColonsAppend(x, ":");
    assert ":"[1..] == [];
  }

  lemma SplitAtColon(x: string, y: string)
    requires ':' !in x
    ensures var s := x + ":" + y; IndexOf(s, ':') == |x| && s[..|x|] == x && s[|x| + 1..] == y
  {
    var s := x + ":" + y;
    assert s[..|x|] == x;
    IndexOfIs(s, ':', |x|);
  }

  // ---- What the parser accepts ----

  /** The text's four forms: a host alone or in brackets, with a port after a colon or without. */
  predicate Spells(s: string, e: Endpoint, defaultPort: nat, bracketed: bool, tail: string) {
    && e.host != ""
    && (if bracketed then ']' !in e.host else e.host[0] != '[')
    && s == (if bracketed then "[" + e.host + "]" else e.host) + tail
    && if tail == "" then !e.hadPort && e.port == defaultPort && (!bracketed ==> Colons(e.host) != 1)
       else tail[0] == ':' && e.hadPort && PortOf(tail[1..]) == Some(e.port) && (!bracketed ==> ':' !in e.host)
  }

  lemma BracketHalves(host: string, tail: string)
    requires ']' !in host && (tail == "" || tail[0] == ':')
    ensures Halve("[" + host + "]" + tail) == Some(Halves(host, if tail == "" then None else Some(tail[1..])))
  {
    var s, k := "[" + host + "]" + tail, |host| + 1;
    assert s[..k] == "[" + host && s[k] == ']' && s[0] == '[';
    IndexOfIs(s, ']', k);
    assert s[1..k] == host;
    if tail != "" {
      assert s[k + 1] == tail[0] && s[k + 2..] == tail[1..];
    }
  }

  lemma PlainHalves(host: string, port: string)
    requires host != "" && host[0] != '[' && ':' !in host && ':' !in port
    ensures Halve(host + ":" + port) == Some(Halves(host, Some(port)))
  {
    SplitAtColon(host, port);
    OneColon(host, port);
    NoColons(host);
    NoColons(port);
  }

  /** A port's text holds no colon: nothing but white space, a sign and digits. */
  lemma PortHasNoColon(s: string)
    requires PortOf(s).Some?
    ensures ':' !in s
  {
    var k := Span(s, IsSpaceC);
    var t := s[k..];
    var u := if t != [] && (t[0] == '-' || t[0] == '+') then t[1..] else t;
    var n := Span(u, IsDigit);
    assert u[n..] == "" && |u| == n;
    forall i | 0 <= i < |s| ensures s[i] != ':' {
      if i < k {
        assert IsSpaceC(s[i]);
      } else {
        assert s[i] == t[i - k];
        if i >= |s| - |u| {
          assert s[i] == u[i - (|s| - |u|)] && IsDigit(u[i - (|s| - |u|)]);
        }
      }
    }
  }

  lemma PlainTail(host: string, tail: string)
    requires host != "" && host[0] != '[' && ':' !in host && tail != "" && tail[0] == ':' && ':' !in tail[1..]
    ensures Halve(host + tail) == Some(Halves(host, Some(tail[1..])))
  {
    assert host + tail == host + ":" + tail[1..];
    PlainHalves(host, tail[1..]);
  }

  lemma HostAlone(host: string)
    requires host != "" && host[0] != '[' && Colons(host) != 1
    ensures Halve(host + "") == Some(Halves(host, None))
  {
    assert host + "" == host;
  }

  lemma SpelledHalves(s: string, e: Endpoint, defaultPort: nat, bracketed: bool, tail: string)
    requires Spells(s, e, defaultPort, bracketed, tail)
    ensures Halve(s) == Some(Halves(e.host, if tail == "" then None else Some(tail[1..])))
  {
    if bracketed {
      BracketHalves(e.host, tail);
    } else if tail == "" {
      HostAlone(e.host);
    } else {
      PortHasNoColon(tail[1..]);
      PlainTail(e.host, tail);
    }
  }

  lemma SpelledParses(s: string, e: Endpoint, defaultPort: nat, bracketed: bool, tail: string)
    requires Spells(s, e, defaultPort, bracketed, tail)
    ensures Parse(s, defaultPort) == Some(e)
  {
    SpelledHalves(s, e, defaultPort, bracketed, tail);
  }

  /** What is left after the host, as the port's text has it. */
  predicate PortTail(tail: string, port: Option<string>) {
    if tail == "" then port.None? else tail[0] == ':' && port == Some(tail[1..])
  }

  lemma BracketedShape(s: string, h: Halves, tail: string)
    requires s != "" && s[0] == '[' && Halve(s) == Some(h) && tail == s[IndexOf(s, ']') + 1..]
    ensures ']' !in h.host && s == "[" + h.host + "]" + tail && PortTail(tail, h.port)
  {
    var close := IndexOf(s, ']');
    assert s[..close] == "[" + h.host;
    assert s == s[..close] + [s[close]] + tail;
  }

  lemma PlainShape(s: string, h: Halves, tail: string)
    requires s != "" && s[0] != '[' && Halve(s) == Some(h)
    requires tail == if Colons(s) == 1 then s[IndexOf(s, ':')..] else ""
    ensures s == h.host + tail && PortTail(tail, h.port)
    ensures if tail == "" then Colons(h.host) != 1 else ':' !in h.host
  {
    NoColons(s);
    if Colons(s) == 1 {
      var k := IndexOf(s, ':');
      assert s == s[..k] + tail && tail[1..] == s[k + 1..];
    } else {
      assert s == s + tail;
    }
  }

  lemma ParsedHalves(s: string, e: Endpoint, defaultPort: nat) returns (h: Halves)
    requires Parse(s, defaultPort) == Some(e)
    ensures Halve(s) == Some(h) && e.host == h.host && h.host != "" && s != ""
    ensures if h.port.None? then e.port == defaultPort && !e.hadPort
            else PortOf(h.port.value) == Some(e.port) && e.hadPort
  {
    h := Halve(s).value;
  }

  lemma ParsedSpells(s: string, e: Endpoint, defaultPort: nat) returns (bracketed: bool, tail: string)
    requires Parse(s, defaultPort) == Some(e)
    ensures Spells(s, e, defaultPort, bracketed, tail)
  {
    var h := ParsedHalves(s, e, defaultPort);
    bracketed := s[0] == '[';
    if bracketed {
      tail := s[IndexOf(s, ']') + 1..];
      BracketedShape(s, h, tail);
    } else {
      tail := if Colons(s) == 1 then s[IndexOf(s, ':')..] else "";
      PlainShape(s, h, tail);
    }
  }

  /** The parser accepts the four forms and nothing else. */
  lemma ParsesExactly(s: string, e: Endpoint, defaultPort: nat)
    ensures Parse(s, defaultPort) == Some(e) <==> exists bracketed, tail :: Spells(s, e, defaultPort, bracketed, tail)
  {
    if Parse(s, defaultPort) == Some(e) {
      var bracketed, tail := ParsedSpells(s, e, defaultPort);
    }
    if exists bracketed, tail :: Spells(s, e, defaultPort, bracketed, tail) {
      var bracketed, tail :| Spells(s, e, defaultPort, bracketed, tail);
      SpelledParses(s, e, defaultPort, bracketed, tail);
    }
  }

  // ---- Printed and parsed ----

  /** A host the printer leaves readable: brackets only where they cannot be taken for its own. */
  predicate Readable(host: string) {
    host != "" && if ':' in host then ']' !in host else host[0] != '['
  }

  lemma PortReadsBack(port: nat)
    ensures PortOf(Digits(port)) == if 1 <= port <= 65535 then Some(port) else None
  {
    ScanDigits(port, "", IsSpaceC);
    assert Digits(port) + "" == Digits(port);
  }

  lemma JoinHalves(host: string, port: nat)
    requires Readable(host)
    ensures Halve(Join(host, port)) == Some(Halves(host, Some(Digits(port))))
  {
    ValueOfDigits(port);
    var d := Digits(port);
    if ':' in host {
      var tail := ":" + d;
      BracketHalves(host, tail);
      assert tail[1..] == d && "[" + host + "]:" + d == "[" + host + "]" + tail;
    } else {
      PlainHalves(host, d);
    }
  }

  lemma NoneInRest(host: string, rest: string, c: char)
    requires c !in rest
    ensures IndexOf(host + rest, c) < |host| || c !in host + rest
  {
    var s := host + rest;
    forall i | |host| <= i < |s| ensures s[i] != c {
      assert s[i] == rest[i - |host|];
    }
  }

  lemma BracketInHost(host: string, d: string)
    requires AllDigits(d)
    ensures IndexOf(host + ":" + d, ']') < |host| || ']' !in host + ":" + d
  {
    var rest := ":" + d;
    assert host + ":" + d == host + rest;
    assert forall c | c in rest :: c == ':' || c in d;
    NoneInRest(host, rest, ']');
  }

  /** A host that is not readable comes back shorter, if at all. */
  lemma UnreadableIsShort(host: string, port: nat)
    requires !Readable(host) && host != "" && Halve(Join(host, port)).Some?
    ensures |Halve(Join(host, port)).value.host| < |host|
  {
    var s, d := Join(host, port), Digits(port);
    ValueOfDigits(port);
    assert s[0] == '[';
    if ':' in host {
      var k := IndexOf(host, ']');
      assert s[..k + 1] == "[" + host[..k] && s[k + 1] == host[k];
      IndexOfIs(s, ']', k + 1);
    } else {
      BracketInHost(host, d);
    }
  }

  lemma ReadableParses(host: string, port: nat, defaultPort: nat)
    requires port <= 65535 && Readable(host)
    ensures Parse(Join(host, port), defaultPort) == if port >= 1 then Some(Endpoint(host, port, true)) else None
  {
    PortReadsBack(port);
    JoinHalves(host, port);
  }

  lemma UnreadableDiffers(host: string, port: nat, defaultPort: nat)
    requires !Readable(host)
    ensures Parse(Join(host, port), defaultPort) != Some(Endpoint(host, port, true))
  {
    var halves := Halve(Join(host, port));
    if host != "" && halves.Some? {
      UnreadableIsShort(host, port);
    }
  }

  /**
   What is printed is parsed back, host and port, if and only if the port is not 0 and the
   host is readable.
   */
  lemma ParseUndoesJoin(host: string, port: nat, defaultPort: nat)
    requires port <= 65535
    ensures Parse(Join(host, port), defaultPort) == Some(Endpoint(host, port, true)) <==> port >= 1 && Readable(host)
  {
    if Readable(host) {
      ReadableParses(host, port, defaultPort);
    } else {
      UnreadableDiffers(host, port, defaultPort);
    }
  }

  // ---- The code ----

  /** `strrchr`, as an index, or `|s|`. */
  function LastIndexOf(s: string, c: char): (k: nat)
    ensures k <= |s|
    ensures k < |s| ==> s[k] == c && c !in s[k + 1..]
    ensures k == |s| <==> c !in s
  {
    if s == [] then 0
    else if s[|s| - 1] == c then |s| - 1
    else
      assert s == s[..|s| - 1] + [s[|s| - 1]];
      var k := LastIndexOf(s[..|s| - 1], c);
      if k == |s| - 1 then |s|
      else
        assert s[k + 1..] == s[..|s| - 1][k + 1..] + [s[|s| - 1]];
        k
  }

  lemma LastIndexOfIs(s: string, c: char, k: nat)
    requires k < |s| && s[k] == c && c !in s[k + 1..]
    ensures LastIndexOf(s, c) == k
  {
    forall i | k < i < |s| ensures s[i] != c {
      assert s[k + 1..][i - k - 1] == s[i];
    }
  }

  lemma ColonsFrom(s: string)
    ensures var k := IndexOf(s, ':'); Colons(s) == if k < |s| then 1 + Colons(s[k + 1..]) else 0
  {
    var k := IndexOf(s, ':');
    NoColons(s);
    if k < |s| {
      OneColon(s[..k], s[k + 1..]);
      NoColons(s[..k]);
      AroundColon(s, k);
    }
  }

  lemma AroundColon(s: string, k: nat)
    requires k < |s| && s[k] == ':'
    ensures s == s[..k] + ":" + s[k + 1..]
  {
  }

  lemma LastIsFirst(s: string)
    requires ':' in s
    ensures LastIndexOf(s, ':') == IndexOf(s, ':') <==> ':' !in s[IndexOf(s, ':') + 1..]
  {
    var k, last := IndexOf(s, ':'), LastIndexOf(s, ':');
    forall i | 0 <= i < k ensures s[i] != ':' {
      assert s[..k][i] == s[i];
    }
    if last > k {
      assert s[k + 1..][last - k - 1] == ':';
    }
  }

  lemma OnlyColon(s: string)
    ensures Colons(s) == 1 <==> IndexOf(s, ':') < |s| && IndexOf(s, ':') == LastIndexOf(s, ':')
  {
    ColonsFrom(s);
    if ':' in s {
      LastIsFirst(s);
      NoColons(s[IndexOf(s, ':') + 1..]);
    }
  }

  /** `gtkhx_parse_host_port`, up to the empty-host test: where the host and the port's text are. */
  method FindHalves(s: string) returns (halves: Option<Halves>)
    ensures halves == Halve(s)
  {
    var hostStart, hostEnd: nat;
    var portAt: Option<nat> := None;
    if s != "" && s[0] == '[' {
      var close := IndexOf(s, ']');
      if close == |s| {
        return None;
      }
      hostStart, hostEnd := 1, close;
      var after := close + 1;
      if after < |s| && s[after] == ':' {
        portAt := Some(after + 1);
      } else if after < |s| {
        return None;
      }
    } else {
      var first, last := IndexOf(s, ':'), LastIndexOf(s, ':');
      OnlyColon(s);
      if first < |s| && first == last {
        hostStart, hostEnd := 0, last;
        portAt := Some(last + 1);
        assert s[0..last] == s[..last];
      } else {
        hostStart, hostEnd := 0, |s|;
        assert s[0..|s|] == s;
      }
    }
    halves := Some(Halves(s[hostStart..hostEnd], if portAt.Some? then Some(s[portAt.value..]) else None));
  }

  /** `gtkhx_parse_host_port`. */
  method ParseHostPort(str: Option<string>, defaultPort: nat) returns (e: Option<Endpoint>)
    ensures e == if str.None? then None else Parse(str.value, defaultPort)
  {
    if str.None? {
      return None;
    }
    var halves := FindHalves(str.value);
    if halves.None? || halves.value.host == "" {
      return None;
    }
    var port, hadPort := defaultPort, false;
    if halves.value.port.Some? {
      var read := ScanInt(halves.value.port.value, IsSpaceC);
      if read.None? || read.value.rest != "" || read.value.value < 1 || read.value.value > 65535 {
        return None;
      }
      port, hadPort := read.value.value, true;
    }
    e := Some(Endpoint(halves.value.host, port, hadPort));
  }

  // ---- Ports ----

  lemma NumberChars()
    ensures !IsSpaceC('-') && !IsSpaceC('+') && forall c | IsDigit(c) :: !IsSpaceC(c)
  {
  }

  /**
   A port is a number from 1 to 65535 in digits, with white space or a plus sign before it and
   nothing after it, and no other text is one.
   */
  lemma PortsAre(s: string, port: nat)
    ensures PortOf(s) == Some(port) <==>
            1 <= port <= 65535
            && exists w, sign, d :: Numeral(s, IsSpaceC, w, sign, d, "") && sign != "-" && Value(d) == port
  {
    NumberChars();
    if PortOf(s) == Some(port) {
      var w, sign, d := ScannedIsNumeral(s, IsSpaceC);
      assert Numeral(s, IsSpaceC, w, sign, d, "");
    }
    if 1 <= port <= 65535 && exists w, sign, d :: Numeral(s, IsSpaceC, w, sign, d, "") && sign != "-" && Value(d) == port {
      var w, sign, d :| Numeral(s, IsSpaceC, w, sign, d, "") && sign != "-" && Value(d) == port;
      NumeralScans(s, IsSpaceC, w, sign, d, "");
    }
  }

  /** A port is printed after a colon, and a host with a colon in it in brackets. */
  lemma JoinIs(host: string, port: nat)
    ensures ':' !in host ==> Join(host, port) == host + ":" + Digits(port)
    ensures ':' in host ==> Join(host, port) == "[" + host + "]:" + Digits(port)
  {
  }
}
