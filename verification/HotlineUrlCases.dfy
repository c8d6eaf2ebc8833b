/**
 Which `hotline://` addresses are taken and with what parts (src/hotline_url.c:26-194), form by
 form: with and without a port, a port that is none, and what is refused.
 */
module HotlineUrlCases {
  import opened Wrappers
  import opened Text
  import opened Decimal
  import opened HostPort
  import opened HotlineUrl

  /** The scheme in any spelling of its letters. */
  lemma SchemesAre(s: string)
    ensures IsScheme(s) <==> |s| == 10 && forall i | 0 <= i < 10 :: s[i] == "hotline://"[i] || s[i] == "HOTLINE://"[i]
  {
    forall i | 0 <= i < 10 && |s| == 10
      ensures Lower(s[i]) == "hotline://"[i] <==> s[i] == "hotline://"[i] || s[i] == "HOTLINE://"[i]
    {
      LetterPairs(s[i], i);
    }
  }

  lemma LetterPairs(c: char, i: nat)
    requires i < 10
    ensures Lower(c) == "hotline://"[i] <==> c == "hotline://"[i] || c == "HOTLINE://"[i]
  {
  }

  /** A path, a query or a fragment ends the authority. */
  lemma AuthorityEnds(c: char)
    ensures InAuthority(c) <==> c !in "/?#"
  {
    var all := "/?#";
    assert all[0] == '/' && all[1] == '?' && all[2] == '#';
  }

  // ---- Decoding ----

  lemma PercentFirst(t: string)
    ensures ("%" + t)[0] == '%' && |"%" + t| == 1 + |t| && (|t| >= 2 ==> ("%" + t)[3..] == t[2..])
    ensures |t| >= 2 ==> ("%" + t)[1] == t[0] && ("%" + t)[2] == t[1]
  {
  }

  /** What follows a `%` is decoded when it is two hexadecimal digits of a byte other than NUL, and else refused. */
  lemma PercentReads(t: string)
    ensures |t| < 2 ==> Unescape("%" + t).None?
    ensures |t| >= 2 ==>
              var a, b, rest := HexValue(t[0]), HexValue(t[1]), Unescape(t[2..]);
              if a.None? || b.None? || (a.value == 0 && b.value == 0) || rest.None? then Unescape("%" + t).None?
              else Unescape("%" + t) == Some([(16 * a.value + b.value) as char] + rest.value)
  {
    PercentFirst(t);
    if |t| >= 2 && HexValue(t[0]).Some? && HexValue(t[1]).Some? {
      HexBelow(t[0]);
      HexBelow(t[1]);
    }
  }

  lemma HexBelow(c: char)
    ensures HexValue(c).Some? ==> HexValue(c).value < 16
  {
  }

  /** Any other character is itself. */
  lemma PlainReads(c: char, t: string)
    requires c != '%'
    ensures Unescape([c] + t) == (match Unescape(t) case None => None case Some(rest) => Some([c] + rest))
  {
    assert ([c] + t)[1..] == t;
  }

  /** A decoded text goes into its field whole when it fits, and else as much of it as does. */
  lemma FieldHolds(s: string, size: nat, meant: string)
    requires size > 0 && Unescape(s) == Some(meant)
    ensures Segment(s, size).Some?
    ensures var r := Segment(s, size).value; r <= meant && |r| == if |meant| < size then |meant| else size - 1
  {
  }

  lemma FieldSizes()
    ensures HOST_SIZE == 128 && LOGIN_SIZE == 33 && PASS_SIZE == 33 && PORT_SIZE == 8
  {
  }

  // ---- From the authority's host part to the address ----

  predicate HostPart(x: string) {
    '@' !in x && forall c | c in x :: InAuthority(c)
  }

  /** An address is its host part's, with the credentials before it, whatever tail follows. */
  lemma AddressOf(scheme: string, u: User, x: string, tail: string, login: string, pass: string)
    requires IsScheme(scheme) && Means(u, login, pass) && HostPart(x) && IsTail(tail)
    ensures HotlineUrl.Parse(scheme + (UserText(u) + x + tail)) ==
            match Location(x) case None => None case Some(at) => Some(Parts(at.0, login, pass, at.1))
  {
    var a := UserText(u) + x;
    SchemeReads(scheme, a + tail);
    UserChars(u, login, pass);
    AuthorityIs(a, tail);
    UserInfoIs(u, x, login, pass);
  }

  /** No other scheme is taken. */
  lemma OtherScheme(url: string)
    requires |url| < 10 || !IsScheme(url[..10])
    ensures HotlineUrl.Parse(url).None?
  {
  }

  /** A host on its own: not in brackets and without a colon, or in brackets. */
  predicate HostAlone(host: string, bracketed: bool) {
    && host != "" && |host| < 128 && '%' !in host && HostPart(host)
    && if bracketed then ']' !in host else ':' !in host && host[0] != '['
  }

  function Shown(host: string, bracketed: bool): string {
    if bracketed then "[" + host + "]" else host
  }

  lemma ShownPart(host: string, bracketed: bool)
    requires HostAlone(host, bracketed)
    ensures HostPart(Shown(host, bracketed))
  {
  }

  lemma ShownLocation(host: string, bracketed: bool)
    requires HostAlone(host, bracketed)
    ensures SplitHost(Shown(host, bracketed)) == Some(Halves(host, None))
  {
    var x := Shown(host, bracketed);
    if bracketed {
      BracketHalves(host, "");
      assert "[" + host + "]" + "" == x && x[0] == '[';
    } else {
      NoColons(host);
    }
  }

  /**
   A host alone, plain or in brackets, with any credentials and tail, is an address: its parts
   come back, and the port is 0 for the caller's own.
   */
  lemma HostReadsBack(scheme: string, u: User, host: string, bracketed: bool, tail: string, login: string, pass: string)
    requires IsScheme(scheme) && Means(u, login, pass) && HostAlone(host, bracketed) && IsTail(tail)
    ensures HotlineUrl.Parse(scheme + (UserText(u) + Shown(host, bracketed) + tail)) == Some(Parts(host, login, pass, 0))
  {
    ShownPart(host, bracketed);
    AddressOf(scheme, u, Shown(host, bracketed), tail, login, pass);
    ShownLocation(host, bracketed);
    UnescapePlain(host);
  }

  // ---- A port ----

  /** What a port's text can hold: no more colons after a host without brackets. */
  predicate PortPart(text: string, bracketed: bool) {
    HostPart(text) && (!bracketed ==> ':' !in text)
  }

  function WithPort(host: string, bracketed: bool, text: string): string {
    Shown(host, bracketed) + (":" + text)
  }

  lemma PortedPart(host: string, bracketed: bool, text: string)
    requires HostAlone(host, bracketed) && PortPart(text, bracketed)
    ensures HostPart(WithPort(host, bracketed, text))
  {
    ShownPart(host, bracketed);
  }

  lemma PortedHalves(host: string, bracketed: bool, text: string)
    requires HostAlone(host, bracketed) && PortPart(text, bracketed)
    ensures SplitHost(WithPort(host, bracketed, text)) == Some(Halves(host, Some(text)))
  {
    if bracketed {
      var tail := ":" + text;
      BracketHalves(host, tail);
      assert tail[1..] == text && WithPort(host, bracketed, text)[0] == '[';
    } else {
      assert WithPort(host, bracketed, text) == host + ":" + text;
      PlainHalves(host, text);
      OneColon(host, text);
      NoColons(host);
      NoColons(text);
    }
  }

  /** The port in the first seven bytes of what its text means, or 0 when there is none in them. */
  function PortIn(meant: string): nat {
    var kept := if |meant| < 8 then meant else meant[..7];
    match PortOf(kept)
    case Some(port) => port
    case None => 0
  }

  /**
   A host and a port's text, which decodes, are an address: the port is the one the text means,
   and one that is no port leaves 0 and refuses nothing.
   */
  lemma PortReads(scheme: string, u: User, host: string, bracketed: bool, text: string, meant: string, tail: string,
                  login: string, pass: string)
    requires IsScheme(scheme) && Means(u, login, pass) && HostAlone(host, bracketed) && IsTail(tail)
    requires PortPart(text, bracketed) && Unescape(text) == Some(meant)
    ensures HotlineUrl.Parse(scheme + (UserText(u) + WithPort(host, bracketed, text) + tail))
         == Some(Parts(host, login, pass, PortIn(meant)))
  {
    PortedPart(host, bracketed, text);
    AddressOf(scheme, u, WithPort(host, bracketed, text), tail, login, pass);
    PortedHalves(host, bracketed, text);
    UnescapePlain(host);
  }

  /** A port's text that does not decode refuses the address. */
  lemma BadEscapeRefused(scheme: string, u: User, host: string, bracketed: bool, text: string, tail: string,
                         login: string, pass: string)
    requires IsScheme(scheme) && Means(u, login, pass) && HostAlone(host, bracketed) && IsTail(tail)
    requires PortPart(text, bracketed) && Unescape(text).None?
    ensures HotlineUrl.Parse(scheme + (UserText(u) + WithPort(host, bracketed, text) + tail)).None?
  {
    PortedPart(host, bracketed, text);
    AddressOf(scheme, u, WithPort(host, bracketed, text), tail, login, pass);
    PortedHalves(host, bracketed, text);
  }

  // ---- What is refused ----

  lemma {:induction false} ManyColons(x: string, i: nat, j: nat)
    requires i < j < |x| && x[i] == ':' && x[j] == ':'
    ensures Colons(x) > 1
  {
    if i > 0 {
      ManyColons(x[1..], i - 1, j - 1);
    } else {
      NoColons(x[1..]);
      assert x[1..][j - 1] == ':';
    }
  }

  /** What stands where a host should: nothing, a port alone, colons without brackets, or brackets that do not close. */
  predicate NoHost(x: string, i: nat, j: nat) {
    || x == ""
    || (x[0] == ':' && ':' !in x[1..])
    || (x[0] != '[' && i < j < |x| && x[i] == ':' && x[j] == ':')
    || (x[0] == '[' && ']' !in x)
    || (x[0] == '[' && i + 1 < |x| && x[i] == ']' && ']' !in x[..i] && x[i + 1] != ':')
    || (x[0] == '[' && |x| > 1 && x[1] == ']')
  }

  lemma ColonAlone(x: string)
    requires x != "" && x[0] == ':' && ':' !in x[1..]
    ensures Halve(x) == Some(Halves("", Some(x[1..]))) && Colons(x) == 1
  {
    NoColons(x[1..]);
    IndexOfIs(x, ':', 0);
  }

  lemma BracketAt(x: string, i: nat)
    requires x != "" && x[0] == '[' && i < |x| && x[i] == ']' && ']' !in x[..i]
    ensures IndexOf(x, ']') == i
  {
    IndexOfIs(x, ']', i);
  }

  lemma NoLocation(x: string, i: nat, j: nat)
    requires NoHost(x, i, j)
    ensures Location(x).None?
  {
    if x == "" {
      assert Colons(x) == 0;
    } else if x[0] == '[' {
      if i + 1 < |x| && x[i] == ']' && ']' !in x[..i] && x[i + 1] != ':' {
        BracketAt(x, i);
      } else if ']' in x {
        BracketAt(x, 1);
        assert x[1..1] == "";
      }
    } else if x[0] == ':' && ':' !in x[1..] {
      ColonAlone(x);
    } else {
      ManyColons(x, i, j);
    }
  }

  /** An address without a host is refused, whatever credentials and tail it has. */
  lemma NoHostRefused(scheme: string, u: User, x: string, i: nat, j: nat, tail: string, login: string, pass: string)
    requires IsScheme(scheme) && Means(u, login, pass) && HostPart(x) && IsTail(tail) && NoHost(x, i, j)
    ensures HotlineUrl.Parse(scheme + (UserText(u) + x + tail)).None?
  {
    AddressOf(scheme, u, x, tail, login, pass);
    NoLocation(x, i, j);
  }

  // ---- Credentials ----

  /** A login or a password that does not decode refuses the address. */
  lemma BadUserRefused(scheme: string, text: string, x: string, tail: string)
    requires IsScheme(scheme) && HostPart(x) && IsTail(tail) && ':' !in text && Unescape(text).None?
    requires forall c | c in text :: InAuthority(c)
    ensures HotlineUrl.Parse(scheme + (text + "@" + x + tail)).None?
  {
    var a := text + "@" + x;
    SchemeReads(scheme, a + tail);
    assert InAuthority('@');
    AuthorityIs(a, tail);
    LastAtIs(text, x);
    SplitsAt(text, x);
    assert text[..|text|] == text;
  }
}
