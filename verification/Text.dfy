/** Character classes of the C library and GLib, and scans over byte strings. */
module Text {
  import opened Wrappers

  lemma Regroup(x: string, y: string, z: string)
    ensures x + y + z == x + (y + z)
  {
  }

  /** `g_ascii_isspace`: tab, line feed, form feed, carriage return, space. */
  predicate IsSpace(c: char) {
    var n := c as int;
    n == 9 || n == 10 || n == 12 || n == 13 || n == 32
  }

  predicate AllSpace(s: string) {
    forall c | c in s :: IsSpace(c)
  }

  function SkipSpace(s: string): (r: string)
    ensures |r| <= |s|
    ensures r != [] ==> !IsSpace(r[0])
  {
    if s != [] && IsSpace(s[0]) then SkipSpace(s[1..]) else s
  }

  /** `g_ascii_xdigit_value`. */
  function HexValue(c: char): Option<nat> {
    if '0' <= c <= '9' then Some(c as int - '0' as int)
    else if 'a' <= c <= 'f' then Some(10 + c as int - 'a' as int)
    else if 'A' <= c <= 'F' then Some(10 + c as int - 'A' as int)
    else None
  }

  /** `g_ascii_tolower`. */
  function Lower(c: char): char {
    if 'A' <= c <= 'Z' then (c as int + 32) as char else c
  }

  /** The length of the longest prefix whose characters all satisfy `p`. */
  function Span(s: string, p: char -> bool): (k: nat)
    ensures k <= |s|
    ensures forall i | 0 <= i < k :: p(s[i])
    ensures k < |s| ==> !p(s[k])
  {
    if s != [] && p(s[0]) then 1 + Span(s[1..], p) else 0
  }

  lemma SpanOf(s: string, p: char -> bool, k: nat)
    requires k <= |s|
    requires forall i | 0 <= i < k :: p(s[i])
    requires k < |s| ==> !p(s[k])
    ensures Span(s, p) == k
  {
  }

  /** Where `c` first occurs in `s`, or `|s|`. */
  function IndexOf(s: string, c: char): (k: nat)
    ensures k <= |s|
    ensures c !in s[..k]
    ensures k < |s| ==> s[k] == c
    ensures k == |s| <==> c !in s
  {
    if s == [] || s[0] == c then 0 else 1 + IndexOf(s[1..], c)
  }

  lemma IndexOfIs(s: string, c: char, k: nat)
    requires k <= |s| && c !in s[..k]
    requires k < |s| ==> s[k] == c
    ensures IndexOf(s, c) == k
  {
    if k > 0 {
      assert s[0] in s[..k];
      assert s[1..][..k - 1] == s[..k][1..];
      IndexOfIs(s[1..], c, k - 1);
    }
  }

  lemma SkipSpaceSkipped(s: string)
    requires s == [] || !IsSpace(s[0])
    ensures SkipSpace(s) == s
  {
  }

  lemma SkipSpacePrefix(w: string, s: string)
    requires AllSpace(w)
    ensures SkipSpace(w + s) == SkipSpace(s)
  {
    if w == [] {
      assert w + s == s;
    } else {
      assert w[0] in w;
      assert (w + s)[1..] == w[1..] + s;
      SkipSpacePrefix(w[1..], s);
    }
  }

  // ---- The classes, character by character ----

  /** A tab, a line or form feed, a carriage return or a space, and no vertical tab. */
  lemma SpacesAre(c: char)
    ensures IsSpace(c) <==> c in "\t\n\U{c}\r "
    ensures !IsSpace('\U{b}')
  {
    var all := "\t\n\U{c}\r ";
    assert all[0] == 9 as char && all[1] == 10 as char && all[2] == 12 as char && all[3] == 13 as char && all[4] == ' ';
  }

  /** The sixteen digits, in either case, and no other character. */
  lemma HexValueIs(c: char, d: nat)
    ensures HexValue(c) == Some(d) <==> d < 16 && (c == "0123456789abcdef"[d] || c == "0123456789ABCDEF"[d])
  {
  }

  /** Capitals become small letters; any other character stays. */
  lemma LowerIs(c: char, i: nat)
    requires i < 26
    ensures Lower("ABCDEFGHIJKLMNOPQRSTUVWXYZ"[i]) == Lower("abcdefghijklmnopqrstuvwxyz"[i]) == "abcdefghijklmnopqrstuvwxyz"[i]
    ensures !('A' <= c <= 'Z') ==> Lower(c) == c
  {
  }
}
