/** Decimal numerals: `%d`/`%u` printing, and the C library's reading of integers. */
module Decimal {
  import opened Wrappers
  import opened Text

  predicate IsDigit(c: char) {
    '0' <= c <= '9'
  }

  predicate AllDigits(s: string) {
    forall c | c in s :: IsDigit(c)
  }

  function DigitChar(d: nat): (c: char)
    requires d < 10
    ensures IsDigit(c) && DigitValue(c) == d
  {
    ('0' as int + d) as char
  }

  function DigitValue(c: char): (d: nat)
    requires IsDigit(c)
    ensures d < 10
  {
    c as int - '0' as int
  }

  function Digits(n: nat): (s: string)
    ensures s != []
  {
    if n < 10 then [DigitChar(n)] else Digits(n / 10) + [DigitChar(n % 10)]
  }

  /** What a run of digits means. */
  function Value(s: string): nat
    requires AllDigits(s)
  {
    if s == [] then 0 else
    assert s[|s| - 1] in s;
    10 * Value(s[..|s| - 1]) + DigitValue(s[|s| - 1])
  }

  lemma {:induction false} ValueOfDigits(n: nat)
    ensures AllDigits(Digits(n)) && Value(Digits(n)) == n
    ensures Digits(n)[0] == '0' <==> n == 0
  {
    if n < 10 {
      assert Digits(n)[..0] == [];
    } else {
      ValueOfDigits(n / 10);
      var s := Digits(n);
      assert s[..|s| - 1] == Digits(n / 10);
    }
  }

  function Pow10(k: nat): (p: nat)
    ensures p > 0
  {
    if k == 0 then 1 else 10 * Pow10(k - 1)
  }

  lemma {:induction false} DigitsLength(n: nat, k: nat)
    requires 0 < k && n < Pow10(k)
    ensures |Digits(n)| <= k
  {
    if n >= 10 {
      assert Pow10(0) == 1 && Pow10(1) == 10;
      DigitsLength(n / 10, k - 1);
    }
  }

  /** `isspace` in the C locale, which unlike `IsSpace` takes the vertical tab. */
  predicate IsSpaceC(c: char) {
    IsSpace(c) || c as int == 11
  }

  datatype Scanned = Scanned(value: int, rest: string)

  /**
   Base-10 `strtol` and its like: white space, a sign, digits; None without a digit.
   The value is exact here; each caller cuts it to its own type.
   */
  function ScanInt(s: string, space: char -> bool): (r: Option<Scanned>)
    ensures r.Some? ==> |r.value.rest| < |s|
  {
    var t := s[Span(s, space)..];
    var negative := t != [] && t[0] == '-';
    var u := if t != [] && (t[0] == '-' || t[0] == '+') then t[1..] else t;
    var k := Span(u, IsDigit);
    if k == 0 then None
    else
      var v: int := Value(u[..k]);
      Some(Scanned(if negative then -v else v, u[k..]))
  }

  /** A saturating 64-bit read cast to `int`. */
  function ToInt(v: int): (r: int)
    ensures -0x8000_0000 <= r < 0x8000_0000
    ensures -0x8000_0000 <= v < 0x8000_0000 ==> r == v
  {
    var max := 0x7fff_ffff_ffff_ffff;
    var clamped := if v > max then max else if v < -max - 1 then -max - 1 else v;
    var low := clamped % 0x1_0000_0000;
    if low < 0x8000_0000 then low else low - 0x1_0000_0000
  }

  /** A printed number followed by something else is read back whole. */
  lemma ScanDigits(n: nat, rest: string, space: char -> bool)
    requires rest == [] || !IsDigit(rest[0])
    requires forall c | IsDigit(c) :: !space(c)
    ensures ScanInt(Digits(n) + rest, space) == Some(Scanned(n, rest))
  {
    ValueOfDigits(n);
    var d := Digits(n);
    var s := d + rest;
    assert d[0] in d && s[0] == d[0];
    assert Span(s, space) == 0 && s[0..] == s;
    forall i | 0 <= i < |d| ensures IsDigit(s[i]) {
      assert d[i] in d;
    }
    SpanOf(s, IsDigit, |d|);
    assert s[..|d|] == d && s[|d|..] == rest;
  }

  // ---- What a reader of integers takes ----

  /** White space, a sign or none, one or more digits, and what follows them. */
  predicate Numeral(s: string, space: char -> bool, w: string, sign: string, d: string, rest: string) {
    && s == w + sign + d + rest
    && (forall c | c in w :: space(c))
    && (sign == "" || sign == "-" || sign == "+")
    && d != "" && AllDigits(d) && (rest == "" || !IsDigit(rest[0]))
  }

  function Signed(sign: string, d: string): int
    requires AllDigits(d)
  {
    if sign == "-" then -(Value(d) as int) else Value(d)
  }

  lemma NumeralScans(s: string, space: char -> bool, w: string, sign: string, d: string, rest: string)
    requires Numeral(s, space, w, sign, d, rest)
    requires !space('-') && !space('+') && forall c | IsDigit(c) :: !space(c)
    ensures ScanInt(s, space) == Some(Scanned(Signed(sign, d), rest))
  {
    var u, t := d + rest, sign + (d + rest);
    Regroup(w + sign, d, rest);
    Regroup(w, sign, u);
    assert d[0] in d && u[0] == d[0];
    SignAhead(sign, u, t);
    SpacesEnd(s, space, w, t);
    DigitsEnd(u, d, rest);
    ScanIs(s, space, t, u, d, rest);
  }

  lemma SignAhead(sign: string, u: string, t: string)
    requires t == sign + u && u != "" && IsDigit(u[0]) && (sign == "" || sign == "-" || sign == "+")
    ensures t != "" && (t[0] == '-' <==> sign == "-") && (t[0] == '-' || t[0] == '+' || IsDigit(t[0]))
    ensures u == if t[0] == '-' || t[0] == '+' then t[1..] else t
  {
    if sign == "" {
      assert t == u;
    } else {
      assert t[0] == sign[0] && t[1..] == u;
    }
  }

  lemma ScanIs(s: string, space: char -> bool, t: string, u: string, d: string, rest: string)
    requires s[Span(s, space)..] == t && t != ""
    requires u == if t[0] == '-' || t[0] == '+' then t[1..] else t
    requires d != "" && Span(u, IsDigit) == |d| && u[..|d|] == d && u[|d|..] == rest && AllDigits(d)
    ensures ScanInt(s, space) == Some(Scanned(if t[0] == '-' then -(Value(d) as int) else Value(d), rest))
  {
  }

  lemma SpacesEnd(s: string, space: char -> bool, w: string, t: string)
    requires s == w + t && (forall c | c in w :: space(c)) && (t == "" || !space(t[0]))
    ensures Span(s, space) == |w| && s[|w|..] == t
  {
    forall i | 0 <= i < |w| ensures space(s[i]) {
      assert s[i] == w[i] && w[i] in w;
    }
    SpanOf(s, space, |w|);
  }

  lemma DigitsEnd(u: string, d: string, rest: string)
    requires u == d + rest && AllDigits(d) && (rest == "" || !IsDigit(rest[0]))
    ensures Span(u, IsDigit) == |d| && u[..|d|] == d && u[|d|..] == rest
  {
    forall i | 0 <= i < |d| ensures IsDigit(u[i]) {
      assert u[i] == d[i] && d[i] in d;
    }
    SpanOf(u, IsDigit, |d|);
  }

  lemma SignTaken(t: string) returns (sign: string, u: string)
    ensures u == if t != [] && (t[0] == '-' || t[0] == '+') then t[1..] else t
    ensures t == sign + u && (sign == "" || sign == "-" || sign == "+")
    ensures sign == "-" <==> t != [] && t[0] == '-'
  {
    if t != [] && (t[0] == '-' || t[0] == '+') {
      sign, u := [t[0]], t[1..];
    } else {
      sign, u := "", t;
    }
  }

  lemma SplitsIn(u: string, k: nat)
    requires k <= |u|
    ensures u == u[..k] + u[k..]
  {
  }

  lemma ScannedIsNumeral(s: string, space: char -> bool) returns (w: string, sign: string, d: string)
    requires ScanInt(s, space).Some?
    ensures var r := ScanInt(s, space).value;
            Numeral(s, space, w, sign, d, r.rest) && r.value == Signed(sign, d)
  {
    var i := Span(s, space);
    w := s[..i];
    var t := s[i..];
    var u: string;
    sign, u := SignTaken(t);
    var k := Span(u, IsDigit);
    d := u[..k];
    SplitsIn(s, i);
    SplitsIn(u, k);
    Regroup(w, sign, u);
    Regroup(w + sign, d, u[k..]);
  }

  /** The reader takes a numeral, to its last digit, and nothing else. */
  lemma ScanIntExactly(s: string, space: char -> bool, v: int, rest: string)
    requires !space('-') && !space('+') && forall c | IsDigit(c) :: !space(c)
    ensures ScanInt(s, space) == Some(Scanned(v, rest)) <==>
            exists w, sign, d :: Numeral(s, space, w, sign, d, rest) && v == Signed(sign, d)
  {
    if ScanInt(s, space) == Some(Scanned(v, rest)) {
      var w, sign, d := ScannedIsNumeral(s, space);
    }
    if exists w, sign, d :: Numeral(s, space, w, sign, d, rest) && v == Signed(sign, d) {
      var w, sign, d :| Numeral(s, space, w, sign, d, rest) && v == Signed(sign, d);
      NumeralScans(s, space, w, sign, d, rest);
    }
  }

  /** Zeros before a number do not change it. */
  lemma {:induction false} ZeroAhead(d: string)
    requires AllDigits(d)
    ensures AllDigits("0" + d) && Value("0" + d) == Value(d)
  {
    var z := "0" + d;
    if d == "" {
      assert z == "0" && z[..0] == "";
    } else {
      var k := |d| - 1;
      assert forall c | c in d[..k] :: c in d;
      ZeroAhead(d[..k]);
      assert z[..|z| - 1] == "0" + d[..k] && z[|z| - 1] == d[k];
    }
  }

  /** Past 64 bits the value sticks at the end; within them its low 32 bits are kept, as a signed number. */
  lemma ToIntIs(v: int)
    ensures v >= 0x7fff_ffff_ffff_ffff ==> ToInt(v) == -1
    ensures v <= -0x8000_0000_0000_0000 ==> ToInt(v) == 0
    ensures -0x8000_0000_0000_0000 <= v < 0x8000_0000_0000_0000 ==> (ToInt(v) - v) % 0x1_0000_0000 == 0
  {
  }
}
