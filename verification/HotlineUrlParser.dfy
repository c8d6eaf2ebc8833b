/** The scans of `hotline_url_parse` (src/hotline_url.c:26-194), into the fields of `*out`. */
module HotlineUrlParser {
  import opened Wrappers
  import opened Text
  import opened Decimal
  import opened HostPort
  import opened HotlineUrl

  /** `HotlineUrlParts`. */
  class UrlParts {
    var host: string
    var login: string
    var pass: string
    var port: nat

    function Value(): Parts
      reads this
    {
      Parts(host, login, pass, port)
    }

    constructor ()
      ensures Value() == Parts("", "", "", 0)
    {
      host, login, pass, port := "", "", "", 0;
    }

    /** `memset`. */
    method Clear()
      modifies this
      ensures Value() == Parts("", "", "", 0)
    {
      host, login, pass, port := "", "", "", 0;
    }
  }

  /** `unescape_segment`: what the buffer holds, when the text decodes. */
  method UnescapeSegment(text: string, size: nat) returns (ok: bool, buffer: string)
    requires size > 0
    ensures ok == Segment(text, size).Some?
    ensures ok ==> buffer == Segment(text, size).value && |buffer| < size
  {
    buffer := "";
    if text == "" {
      return true, "";
    }
    var decoded := Unescape(text);
    if decoded.None? {
      return false, "";
    }
    ok := true;
    buffer := Fitted(decoded.value, size);
  }

  /** The last `@` (src/hotline_url.c:89-97). */
  method LastAt(a: string) returns (userEnd: Option<nat>)
    ensures userEnd == if LastIndexOf(a, '@') == |a| then None else Some(LastIndexOf(a, '@'))
  {
    userEnd := None;
    for scan := 0 to |a|
      invariant userEnd.None? ==> '@' !in a[..scan]
      invariant userEnd.Some? ==> userEnd.value < scan && a[userEnd.value] == '@' && '@' !in a[userEnd.value + 1..scan]
    {
      assert a[..scan + 1] == a[..scan] + [a[scan]];
      if userEnd.Some? {
        assert a[userEnd.value + 1..scan + 1] == a[userEnd.value + 1..scan] + [a[scan]];
      }
      if a[scan] == '@' {
        userEnd := Some(scan);
      }
    }
    assert a[..|a|] == a;
    if userEnd.Some? {
      assert a[userEnd.value + 1..|a|] == a[userEnd.value + 1..];
      LastIndexOfIs(a, '@', userEnd.value);
    }
  }

  /** The first colon (src/hotline_url.c:103-109). */
  method FirstColon(s: string) returns (k: nat)
    ensures k == IndexOf(s, ':')
  {
    k := 0;
    while k < |s| && s[k] != ':'
      invariant k <= |s| && ':' !in s[..k]
    {
      assert s[..k + 1] == s[..k] + [s[k]];
      k := k + 1;
    }
    IndexOfIs(s, ':', k);
  }

  /** The colons, and where the last is (src/hotline_url.c:149-156). */
  method CountColons(s: string) returns (n: nat, last: Option<nat>)
    ensures n == Colons(s)
    ensures last == if LastIndexOf(s, ':') == |s| then None else Some(LastIndexOf(s, ':'))
  {
    n, last := 0, None;
    for scan := 0 to |s|
      invariant n == Colons(s[..scan])
      invariant last.None? ==> ':' !in s[..scan]
      invariant last.Some? ==> last.value < scan && s[last.value] == ':' && ':' !in s[last.value + 1..scan]
    {
      ColonsNext(s, scan);
      if last.Some? {
        assert s[last.value + 1..scan + 1] == s[last.value + 1..scan] + [s[scan]];
      }
      if s[scan] == ':' {
        n, last := n + 1, Some(scan);
      }
    }
    assert s[..|s|] == s;
    if last.Some? {
      assert s[last.value + 1..|s|] == s[last.value + 1..];
      LastIndexOfIs(s, ':', last.value);
    }
  }

  lemma ColonsNext(s: string, k: nat)
    requires k < |s|
    ensures s[..k + 1] == s[..k] + [s[k]]
    ensures Colons(s[..k + 1]) == Colons(s[..k]) + if s[k] == ':' then 1 else 0
  {
    ColonsAppend(s[..k], [s[k]]);
    assert s[..k + 1] == s[..k] + [s[k]] && [s[k]][1..] == [];
  }

  /** Login and password into their fields (src/hotline_url.c:98-117). */
  method TakeCredentials(userinfo: string, out: UrlParts) returns (ok: bool)
    requires out.pass == ""
    modifies out`login, out`pass
    ensures ok == Credentials(userinfo).Some?
    ensures ok ==> (out.login, out.pass) == Credentials(userinfo).value
  {
    var userEnd := FirstColon(userinfo);
    ok, out.login := UnescapeSegment(userinfo[..userEnd], LOGIN_SIZE);
    if !ok {
      return false;
    }
    if userEnd < |userinfo| {
      ok, out.pass := UnescapeSegment(userinfo[userEnd + 1..], PASS_SIZE);
    }
  }

  /** Where the host and the port's text are (src/hotline_url.c:127-168). */
  method FindHost(hostinfo: string) returns (halves: Option<Halves>)
    ensures halves == SplitHost(hostinfo)
  {
    if hostinfo != "" && hostinfo[0] == '[' {
      var close := IndexOf(hostinfo, ']');
      if close == |hostinfo| {
        return None;
      }
      if close + 1 < |hostinfo| {
        if hostinfo[close + 1] != ':' {
          return None;
        }
        return Some(Halves(hostinfo[1..close], Some(hostinfo[close + 2..])));
      }
      return Some(Halves(hostinfo[1..close], None));
    }
    var colons, portSep := CountColons(hostinfo);
    NoColons(hostinfo);
    OnlyColon(hostinfo);
    if colons > 1 {
      return None;
    }
    if portSep.Some? {
      return Some(Halves(hostinfo[..portSep.value], Some(hostinfo[portSep.value + 1..])));
    }
    halves := Some(Halves(hostinfo, None));
  }

  /** The port's field (src/hotline_url.c:178-191); `strtoul` of a short text cannot wrap into range. */
  method TakePort(text: Option<string>, out: UrlParts) returns (ok: bool)
    requires out.port == 0
    modifies out`port
    ensures ok == PortField(text).Some?
    ensures ok ==> out.port == PortField(text).value
  {
    if text.None? {
      return true;
    }
    var portbuf: string;
    ok, portbuf := UnescapeSegment(text.value, PORT_SIZE);
    if !ok {
      return false;
    }
    if portbuf != "" {
      var read := ScanInt(portbuf, IsSpaceC);
      if read.Some? && read.value.rest == "" && 0 < read.value.value <= 65535 {
        out.port := read.value.value;
      }
    }
  }

  /** Host and port into their fields. */
  method TakeLocation(hostinfo: string, out: UrlParts) returns (ok: bool)
    requires out.port == 0
    modifies out`host, out`port
    ensures ok == Location(hostinfo).Some?
    ensures ok ==> (out.host, out.port) == Location(hostinfo).value
  {
    var halves := FindHost(hostinfo);
    if halves.None? || halves.value.host == "" {
      return false;
    }
    ok, out.host := UnescapeSegment(halves.value.host, HOST_SIZE);
    if !ok {
      return false;
    }
    ok := TakePort(halves.value.port, out);
  }

  /** `hotline_url_parse`. */
  method ParseUrl(url: Option<string>, out: UrlParts) returns (ok: bool)
    modifies out
    ensures ok == (url.Some? && HotlineUrl.Parse(url.value).Some?)
    ensures ok ==> Some(out.Value()) == HotlineUrl.Parse(url.value)
  {
    if url.None? {
      return false;
    }
    out.Clear();
    var text := url.value;
    if |text| < 10 || !IsScheme(text[..10]) {
      return false;
    }
    var p := text[10..];
    var a := p[..Span(p, InAuthority)];
    var userEnd := LastAt(a);
    var hostinfo := a;
    if userEnd.Some? {
      ok := TakeCredentials(a[..userEnd.value], out);
      if !ok {
        return false;
      }
      hostinfo := a[userEnd.value + 1..];
    }
    ok := TakeLocation(hostinfo, out);
  }
}
