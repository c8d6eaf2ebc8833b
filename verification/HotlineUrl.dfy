/**
 `hotline://` addresses (src/hotline_url.c): the parser, percent-decoding (RFC 3986,
 section 2.1), and which hosts, ports and credentials come back as they were written.
 */
module HotlineUrl {
  import opened Wrappers
  import opened Text
  import opened Decimal
  import opened HostPort

  const HOST_SIZE := 128
  const LOGIN_SIZE := 33
  const PASS_SIZE := 33
  const PORT_SIZE := 8

  datatype Parts = Parts(host: string, login: string, pass: string, port: nat)

  // ---- Percent-decoding ----

  /** The byte of a `%` and two hexadecimal digits; not a NUL. */
  function Byte(high: char, low: char): Option<char> {
    var h :- HexValue(high);
    var l :- HexValue(low);
    if 0 < 16 * h + l < 256 then Some((16 * h + l) as char) else None
  }

  /** `g_uri_unescape_string`. */
  function Unescape(s: string): Option<string> {
    if s == "" then Some("")
    else if s[0] == '%' then
      if |s| < 3 then None else
      var c :- Byte(s[1], s[2]);
      var rest :- Unescape(s[3..]);
      Some([c] + rest)
    else
      var rest :- Unescape(s[1..]);
      Some([s[0]] + rest)
  }

  /** `g_strlcpy` into a buffer of `size` bytes. */
  function Fitted(s: string, size: nat): string
    requires size > 0
  {
    if |s| < size then s else s[..size - 1]
  }

  /** `unescape_segment`. */
  function Segment(s: string, size: nat): Option<string>
    requires size > 0
  {
    var decoded :- Unescape(s);
    Some(Fitted(decoded, size))
  }

  // ---- The parser ----

  predicate IsScheme(s: string) {
    |s| == 10 && forall i | 0 <= i < 10 :: Lower(s[i]) == "hotline://"[i]
  }

  predicate InAuthority(c: char) {
    c != '/' && c != '?' && c != '#'
  }

  function Authority(p: string): string {
    p[..Span(p, InAuthority)]
  }

  /** Login and password at the first colon. */
  function Credentials(userinfo: string): Option<(string, string)> {
    var k := IndexOf(userinfo, ':');
    var login :- Segment(userinfo[..k], LOGIN_SIZE);
    var pass :- if k == |userinfo| then Some("") else Segment(userinfo[k + 1..], PASS_SIZE);
    Some((login, pass))
  }

  /** As `host:port` text is split, but without brackets no more than one colon is taken. */
  function SplitHost(hostinfo: string): Option<Halves> {
    if Colons(hostinfo) > 1 && hostinfo[0] != '[' then None else Halve(hostinfo)
  }

  /** A port that is none leaves 0, as a missing one does. */
  function PortField(text: Option<string>): Option<nat> {
    if text.None? then Some(0) else
    var portbuf :- Segment(text.value, PORT_SIZE);
    Some(if PortOf(portbuf).Some? then PortOf(portbuf).value else 0)
  }

  function Location(hostinfo: string): Option<(string, nat)> {
    var halves :- SplitHost(hostinfo);
    if halves.host == "" then None else
    var host :- Segment(halves.host, HOST_SIZE);
    var port :- PortField(halves.port);
    Some((host, port))
  }

  /** The host's part of an authority: what follows the last `@`. */
  function HostInfo(a: string): string {
    var at := LastIndexOf(a, '@');
    if at == |a| then a else a[at + 1..]
  }

  function UserInfo(a: string): Option<(string, string)> {
    var at := LastIndexOf(a, '@');
    if at == |a| then Some(("", "")) else Credentials(a[..at])
  }

  function FromAuthority(a: string): Option<Parts> {
    var user :- UserInfo(a);
    var location :- Location(HostInfo(a));
    Some(Parts(location.0, user.0, user.1, location.1))
  }

  /** `hotline_url_parse`. */
  function Parse(url: string): Option<Parts> {
    if |url| >= 10 && IsScheme(url[..10]) then FromAuthority(Authority(url[10..])) else None
  }

  // ---- Decoding what was encoded ----

  lemma {:induction false} UnescapeShorter(s: string)
    requires Unescape(s).Some?
    ensures |Unescape(s).value| <= |s|
    ensures Unescape(s).value == s <==> '%' !in s
    ensures '%' in s ==> |Unescape(s).value| < |s|
  {
    if s != "" {
      if s[0] == '%' {
        UnescapeShorter(s[3..]);
      } else {
        UnescapeShorter(s[1..]);
        assert s == [s[0]] + s[1..];
        assert '%' in s <==> '%' in s[1..];
      }
    }
  }

  lemma {:induction false} UnescapePlain(s: string)
    requires '%' !in s
    ensures Unescape(s) == Some(s)
  {
    if s != "" {
      UnescapePlain(s[1..]);
      assert s == [s[0]] + s[1..];
    }
  }

  function HexChar(n: nat): char
    requires n < 16
  {
    if n < 10 then ('0' as int + n) as char else ('A' as int + (n - 10)) as char
  }

  /** RFC 3986, section 2.3. */
  predicate Unreserved(c: char) {
    'a' <= c <= 'z' || 'A' <= c <= 'Z' || '0' <= c <= '9' || c == '-' || c == '.' || c == '_' || c == '~'
  }

  predicate Bytes(s: string) {
    forall c | c in s :: 0 < c as int < 256
  }

  /** Everything but the unreserved characters as a `%` and two digits. */
  function Escape(s: string): string
    requires Bytes(s)
  {
    if s == "" then "" else
    assert s[0] in s && forall c | c in s[1..] :: c in s;
    (if Unreserved(s[0]) then [s[0]] else ['%', HexChar(s[0] as int / 16), HexChar(s[0] as int % 16)]) + Escape(s[1..])
  }

  lemma ByteOfHex(c: char)
    requires 0 < c as int < 256
    ensures Byte(HexChar(c as int / 16), HexChar(c as int % 16)) == Some(c)
  {
  }

  /** A byte string written out in full reads back, and holds nothing an address gives a meaning. */
  lemma {:induction false} UnescapeUndoesEscape(s: string)
    requires Bytes(s)
    ensures Unescape(Escape(s)) == Some(s)
    ensures forall c | c in Escape(s) :: c == '%' || Unreserved(c)
  {
    if s != "" {
      assert s[0] in s && forall c | c in s[1..] :: c in s;
      var rest, text := Escape(s[1..]), Escape(s);
      UnescapeUndoesEscape(s[1..]);
      assert s == [s[0]] + s[1..];
      if Unreserved(s[0]) {
        assert text[1..] == rest;
      } else {
        ByteOfHex(s[0]);
        assert text[3..] == rest;
      }
    }
  }

  // ---- What comes back ----

  /** What a login or password may be written as, between what splits an address. */
  predicate Encodes(text: string, meant: string, size: nat) {
    Unescape(text) == Some(meant) && |meant| < size && forall c | c in text :: InAuthority(c)
  }

  /** The credentials as written: none, a login, or a login and a password. */
  datatype User =
    | NoUser
    | Login(loginText: string)
    | LoginPass(loginText: string, passText: string)

  function UserText(u: User): string {
    match u
    case NoUser => ""
    case Login(login) => login + "@"
    case LoginPass(login, pass) => login + ":" + pass + "@"
  }

  predicate Means(u: User, login: string, pass: string) {
    match u
    case NoUser => login == "" && pass == ""
    case Login(text) => Encodes(text, login, LOGIN_SIZE) && ':' !in text && pass == ""
    case LoginPass(text, passText) => Encodes(text, login, LOGIN_SIZE) && ':' !in text && Encodes(passText, pass, PASS_SIZE)
  }

  /** A host an address can hold as it is. */
  predicate UrlHost(host: string) {
    Readable(host) && |host| < HOST_SIZE && forall c | c in host :: InAuthority(c) && c != '@' && c != '%'
  }

  predicate IsTail(tail: string) {
    tail == "" || !InAuthority(tail[0])
  }

  lemma AuthorityIs(a: string, tail: string)
    requires (forall c | c in a :: InAuthority(c)) && IsTail(tail)
    ensures Authority(a + tail) == a
  {
    var p := a + tail;
    forall i | 0 <= i < |a| ensures InAuthority(p[i]) {
      assert p[i] == a[i] && a[i] in a;
    }
    SpanOf(p, InAuthority, |a|);
    assert p[..|a|] == a;
  }

  lemma LastAtIs(user: string, rest: string)
    requires '@' !in rest
    ensures LastIndexOf(user + "@" + rest, '@') == |user|
  {
    var a := user + "@" + rest;
    assert a[|user| + 1..] == rest;
    LastIndexOfIs(a, '@', |user|);
  }

  lemma UserInfoIs(u: User, rest: string, login: string, pass: string)
    requires Means(u, login, pass) && '@' !in rest
    ensures UserInfo(UserText(u) + rest) == Some((login, pass)) && HostInfo(UserText(u) + rest) == rest
  {
    match u
    case NoUser =>
      assert "" + rest == rest;
    case Login(text) =>
      LastAtIs(text, rest);
      LoginReads(text, login);
      SplitsAt(text, rest);
    case LoginPass(text, passText) =>
      var user := text + ":" + passText;
      LastAtIs(user, rest);
      LoginPassReads(text, passText, login, pass);
      SplitsAt(user, rest);
  }

  lemma SplitsAt(user: string, rest: string)
    ensures var a := user + "@" + rest; a[..|user|] == user && a[|user| + 1..] == rest
  {
  }

  lemma LoginReads(text: string, login: string)
    requires Encodes(text, login, LOGIN_SIZE) && ':' !in text
    ensures Credentials(text) == Some((login, ""))
  {
    assert text[..|text|] == text;
  }

  lemma LoginPassReads(text: string, passText: string, login: string, pass: string)
    requires Encodes(text, login, LOGIN_SIZE) && ':' !in text && Encodes(passText, pass, PASS_SIZE)
    ensures Credentials(text + ":" + passText) == Some((login, pass))
  {
    SplitAtColon(text, passText);
  }

  lemma DigitsReadAsPort(port: nat)
    requires port <= 65535
    ensures PortField(Some(Digits(port))) == Some(port)
  {
    ValueOfDigits(port);
    UnescapePlain(Digits(port));
    assert Pow10(5) == 100000 by {
      assert Pow10(1) == 10 && Pow10(2) == 100 && Pow10(3) == 1000 && Pow10(4) == 10000;
    }
    DigitsLength(port, 5);
    PortReadsBack(port);
  }

  lemma SplitHostOfJoin(host: string, port: nat)
    requires Readable(host)
    ensures SplitHost(Join(host, port)) == Some(Halves(host, Some(Digits(port))))
  {
    JoinHalves(host, port);
    ValueOfDigits(port);
    if ':' !in host {
      OneColon(host, Digits(port));
      NoColons(host);
      NoColons(Digits(port));
    }
  }

  lemma LocationOfJoin(host: string, port: nat)
    requires UrlHost(host) && port <= 65535
    ensures Location(Join(host, port)) == Some((host, port))
  {
    SplitHostOfJoin(host, port);
    UnescapePlain(host);
    DigitsReadAsPort(port);
  }

  lemma JoinChars(host: string, port: nat)
    ensures forall c | c in Join(host, port) :: c in host || IsDigit(c) || c == '[' || c == ']' || c == ':'
  {
    ValueOfDigits(port);
  }

  lemma UserChars(u: User, login: string, pass: string)
    requires Means(u, login, pass)
    ensures forall c | c in UserText(u) :: InAuthority(c)
  {
  }

  lemma SchemeReads(scheme: string, rest: string)
    requires IsScheme(scheme)
    ensures Parse(scheme + rest) == FromAuthority(Authority(rest))
  {
    assert (scheme + rest)[..10] == scheme && (scheme + rest)[10..] == rest;
  }

  /**
   Whatever scheme spelling, credentials and path it stands between, a printed `host:port`
   comes back from an address, and so do a login and a password that fit their fields.
   */
  lemma UrlReadsBack(scheme: string, u: User, host: string, port: nat, tail: string, login: string, pass: string)
    requires IsScheme(scheme) && Means(u, login, pass) && UrlHost(host) && port <= 65535 && IsTail(tail)
    ensures Parse(scheme + (UserText(u) + Join(host, port) + tail)) == Some(Parts(host, login, pass, port))
  {
    var a := UserText(u) + Join(host, port);
    SchemeReads(scheme, a + tail);
    JoinChars(host, port);
    UserChars(u, login, pass);
    AuthorityIs(a, tail);
    UserInfoIs(u, Join(host, port), login, pass);
    LocationOfJoin(host, port);
  }

  // ---- Which hosts come back ----

  lemma SplitBound(x: string)
    requires SplitHost(x).Some? && x != ""
    ensures |SplitHost(x).value.host| <= |x|
    ensures x[0] == '[' ==> 0 < IndexOf(x, ']') < |x| && |SplitHost(x).value.host| == IndexOf(x, ']') - 1
    ensures x[0] != '[' ==> |SplitHost(x).value.host| <= IndexOf(x, ':')
  {
    NoColons(x);
  }

  lemma ShortDiffers(x: string, host: string)
    requires SplitHost(x).Some? ==> |SplitHost(x).value.host| < |host|
    ensures Location(x).Some? ==> Location(x).value.0 != host
  {
    if Location(x).Some? {
      UnescapeShorter(SplitHost(x).value.host);
    }
  }

  /** A host with a path's first character in it is cut there. */
  lemma CutIsShort(host: string, a: string, k: nat)
    requires k < |host| && a == (if ':' in host then "[" else "") + host[..k]
    ensures SplitHost(HostInfo(a)).Some? ==> |SplitHost(HostInfo(a)).value.host| < |host|
  {
    var x := HostInfo(a);
    if SplitHost(x).Some? && x != "" {
      SplitBound(x);
      if ':' in host {
        assert a[0] == '[';
      }
    }
  }

  lemma AtInPlain(host: string, d: string, j: nat, close: string)
    requires ':' !in host && j < |host| && AllDigits(d) && close == ":" + d
    ensures var x := host[j + 1..] + close;
            SplitHost(x).Some? ==> |SplitHost(x).value.host| < |host|
  {
    var rest := host[j + 1..];
    var x := rest + close;
    assert forall c | c in rest :: c in host;
    assert x == rest + ":" + d;
    if SplitHost(x).Some? {
      SplitBound(x);
      BracketInHost(rest, d);
      SplitAtColon(rest, d);
    }
  }

  lemma AtInBrackets(host: string, j: nat, close: string)
    requires ':' in host && j < |host| && host[j] == '@'
    requires |close| >= 2 && close[0] == ']' && close[1] == ':'
    ensures var x := host[j + 1..] + close;
            SplitHost(x).Some? ==> |SplitHost(x).value.host| < |host|
  {
    var rest := host[j + 1..];
    var x := rest + close;
    assert x[|rest|] == ']' && x[|rest| + 1] == ':';
    IndexOfAtMost(x, ']', |rest|);
    IndexOfAtMost(x, ':', |rest| + 1);
    if j == 0 {
      var i :| 0 <= i < |host| && host[i] == ':';
      assert x[i - 1] == ':';
      IndexOfAtMost(x, ':', i - 1);
    }
    if SplitHost(x).Some? {
      SplitBound(x);
    }
  }

  lemma {:induction false} IndexOfAtMost(s: string, c: char, i: nat)
    requires i < |s| && s[i] == c
    ensures IndexOf(s, c) <= i
  {
    if i > 0 && s[0] != c {
      IndexOfAtMost(s[1..], c, i - 1);
    }
  }

  lemma HostInfoAfter(a: string, before: string, after: string)
    requires a == before + "@" + after && '@' !in after
    ensures HostInfo(a) == after
  {
    LastAtIs(before, after);
    SplitsAt(before, after);
  }

  lemma RegroupAt(open: string, host: string, j: nat, close: string)
    requires j < |host| && host[j] == '@'
    ensures open + host + close == open + host[..j] + "@" + (host[j + 1..] + close)
  {
    assert host == host[..j] + "@" + host[j + 1..];
  }

  lemma InfoAt(open: string, host: string, close: string, j: nat)
    requires j < |host| && host[j] == '@' && '@' !in host[j + 1..] && '@' !in close
    ensures HostInfo(open + host + close) == host[j + 1..] + close
  {
    RegroupAt(open, host, j, close);
    HostInfoAfter(open + host + close, open + host[..j], host[j + 1..] + close);
  }

  lemma JoinBracketed(host: string, port: nat, close: string)
    requires ':' in host && close == "]:" + Digits(port)
    ensures Join(host, port) == "[" + host + close
  {
  }

  lemma JoinPlain(host: string, port: nat, close: string)
    requires ':' !in host && close == ":" + Digits(port)
    ensures Join(host, port) == "" + host + close
  {
  }

  lemma NoAtIn(d: string)
    requires AllDigits(d)
    ensures '@' !in "]:" + d && '@' !in ":" + d
  {
  }

  /** A host with an `@` in it loses what comes before. */
  lemma AtIsShort(host: string, port: nat)
    requires '@' in host
    ensures var x := HostInfo(Join(host, port));
            SplitHost(x).Some? ==> |SplitHost(x).value.host| < |host|
  {
    ValueOfDigits(port);
    var d, j := Digits(port), LastIndexOf(host, '@');
    NoAtIn(d);
    if ':' in host {
      var close := "]:" + d;
      JoinBracketed(host, port, close);
      InfoAt("[", host, close, j);
      AtInBrackets(host, j, close);
    } else {
      var close := ":" + d;
      JoinPlain(host, port, close);
      InfoAt("", host, close, j);
      AtInPlain(host, d, j, close);
    }
  }

  lemma CutAt(open: string, kept: string, rest: string)
    requires (forall c | c in open :: InAuthority(c)) && (forall c | c in kept :: InAuthority(c))
    requires rest != "" && !InAuthority(rest[0])
    ensures Authority(open + kept + rest) == open + kept
  {
    AuthorityIs(open + kept, rest);
  }

  lemma CutHost(open: string, host: string, rest: string, k: nat)
    requires (forall c | c in open :: InAuthority(c)) && k == Span(host, InAuthority) < |host|
    ensures Authority(open + host + rest) == open + host[..k]
  {
    assert forall c | c in host[..k] :: InAuthority(c);
    CutAt(open, host[..k], host[k..] + rest);
    Regrouped(open, host, rest, k);
  }

  lemma Regrouped(open: string, host: string, rest: string, k: nat)
    requires k <= |host|
    ensures open + host[..k] + (host[k..] + rest) == open + host + rest
  {
  }

  lemma AuthorityCut(host: string, port: nat, tail: string, k: nat)
    requires k == Span(host, InAuthority) < |host|
    ensures Authority(Join(host, port) + tail) == (if ':' in host then "[" else "") + host[..k]
  {
    if ':' in host {
      CutHost("[", host, "]:" + Digits(port) + tail, k);
      Joins("[" + host, "]:", Digits(port), tail);
    } else {
      CutHost("", host, ":" + Digits(port) + tail, k);
      Joins(host, ":", Digits(port), tail);
      assert "" + host == host;
    }
  }

  lemma Joins(a: string, b: string, c: string, d: string)
    ensures a + (b + c + d) == a + b + c + d
  {
  }

  lemma UnreadableHostDiffers(host: string, port: nat)
    requires !Readable(host)
    ensures Location(Join(host, port)).Some? ==> Location(Join(host, port)).value.0 != host
  {
    if host == "" {
      assert Join(host, port)[0] == ':';
      EmptyHost(Digits(port));
    } else if SplitHost(Join(host, port)).Some? {
      UnreadableIsShort(host, port);
      ShortDiffers(Join(host, port), host);
    }
  }

  lemma EmptyHost(d: string)
    ensures Location("" + ":" + d).None?
  {
    assert Colons(":" + d) >= 1 by {
      assert (":" + d)[0] == ':';
    }
    SplitAtColon("", d);
  }

  lemma EncodedHostDiffers(host: string, port: nat)
    requires Readable(host) && ('%' in host || |host| >= HOST_SIZE)
    ensures Location(Join(host, port)).Some? ==> Location(Join(host, port)).value.0 != host
  {
    SplitHostOfJoin(host, port);
    if Location(Join(host, port)).Some? {
      UnescapeShorter(host);
    }
  }

  /** Why a host does not come back: cut, split at an `@`, bracketed wrongly, decoded or truncated. */
  lemma OtherHostDiffers(host: string, port: nat, tail: string)
    requires !UrlHost(host) && IsTail(tail)
    ensures var location := Location(HostInfo(Authority(Join(host, port) + tail)));
            location.Some? ==> location.value.0 != host
  {
    var k := Span(host, InAuthority);
    if k < |host| {
      AuthorityCut(host, port, tail, k);
      var a := Authority(Join(host, port) + tail);
      CutIsShort(host, a, k);
      ShortDiffers(HostInfo(a), host);
    } else {
      JoinChars(host, port);
      AuthorityIs(Join(host, port), tail);
      if '@' in host {
        AtIsShort(host, port);
        ShortDiffers(HostInfo(Join(host, port)), host);
      } else if !Readable(host) {
        UnreadableHostDiffers(host, port);
      } else {
        EncodedHostDiffers(host, port);
      }
    }
  }

  /**
   A printed `host:port` comes back from an address, whatever path follows, if and only if
   the host is one an address can hold as it is.
   */
  lemma UrlUndoesJoin(scheme: string, host: string, port: nat, tail: string)
    requires IsScheme(scheme) && port <= 65535 && IsTail(tail)
    ensures Parse(scheme + (Join(host, port) + tail)) == Some(Parts(host, "", "", port)) <==> UrlHost(host)
  {
    var url := scheme + (Join(host, port) + tail);
    assert url[..10] == scheme && url[10..] == Join(host, port) + tail;
    if UrlHost(host) {
      UrlReadsBack(scheme, NoUser, host, port, tail, "", "");
      assert "" + Join(host, port) == Join(host, port);
    } else {
      OtherHostDiffers(host, port, tail);
    }
  }

  lemma EncodesPlainly(text: string, s: string, size: nat)
    requires Unescape(text) == Some(s) && |s| < size && forall c | c in text :: c == '%' || Unreserved(c)
    ensures Encodes(text, s, size) && ':' !in text
  {
  }

  lemma EscapedEncodes(s: string, size: nat)
    requires Bytes(s) && |s| < size
    ensures Encodes(Escape(s), s, size) && ':' !in Escape(s)
  {
    UnescapeUndoesEscape(s);
    EncodesPlainly(Escape(s), s, size);
  }

  /** Any login and password of bytes that fit, escaped, come back. */
  lemma EscapedUserReadsBack(login: string, pass: string)
    requires Bytes(login) && |login| < LOGIN_SIZE && Bytes(pass) && |pass| < PASS_SIZE
    ensures Means(LoginPass(Escape(login), Escape(pass)), login, pass)
  {
    EscapedEncodes(login, LOGIN_SIZE);
    EscapedEncodes(pass, PASS_SIZE);
  }
}
