/**
 `human_readable` and `human_size` (src/human_readable.c): the scaling loop, and the
 digits written backwards into the caller's buffer.
 */
module HumanReadable {
  import opened Wrappers
  import opened Decimal
  import opened HumanSize
  import Proofs = HumanSizeProofs

  /** What is written so far: `text` ends at the terminator, and nothing else has changed. */
  twostate predicate Written(buf: array<char>, p: nat, text: string)
    requires buf.Length > LONGEST
    reads buf
  {
    && p <= LONGEST
    && buf[p..LONGEST] == text && buf[LONGEST] == '\0'
    && buf[..p] == old(buf[..p]) && buf[LONGEST + 1..] == old(buf[LONGEST + 1..])
  }

  /** `*--p = c`. */
  method Put(buf: array<char>, p: nat, c: char) returns (p': nat)
    requires buf.Length > LONGEST && 0 < p <= LONGEST
    modifies buf
    ensures p' == p - 1
    ensures buf[..] == old(buf[..])[p' := c]
    ensures buf[p'..LONGEST] == [c] + old(buf[p..LONGEST]) && buf[LONGEST] == old(buf[LONGEST])
    ensures buf[..p'] == old(buf[..p']) && buf[LONGEST + 1..] == old(buf[LONGEST + 1..])
  {
    p' := p - 1;
    buf[p'] := c;
  }

  /** The digits of `amt`, last one first (src/human_readable.c:188-190). */
  method PutDigits(buf: array<char>, p: nat, amt: nat) returns (p': nat)
    requires buf.Length > LONGEST && |Digits(amt)| <= p <= LONGEST
    modifies buf
    ensures p' == p - |Digits(amt)|
    ensures buf[p'..LONGEST] == Digits(amt) + old(buf[p..LONGEST]) && buf[LONGEST] == old(buf[LONGEST])
    ensures buf[..p'] == old(buf[..p']) && buf[LONGEST + 1..] == old(buf[LONGEST + 1..])
  {
    ghost var was := buf[..];
    p' := PutOver(buf, p, amt);
    ghost var all := buf[..];
    Around(was, all, p', p, Digits(amt));
    assert all[p'..LONGEST] == buf[p'..LONGEST] && was[p..LONGEST] == old(buf[p..LONGEST]);
    assert all[..p'] == buf[..p'] && was[..p'] == old(buf[..p']);
    assert all[LONGEST + 1..] == buf[LONGEST + 1..] && was[LONGEST + 1..] == old(buf[LONGEST + 1..]);
  }

  /** The loop, told of the buffer as a whole. */
  method PutOver(buf: array<char>, p: nat, amt: nat) returns (p': nat)
    requires buf.Length > LONGEST && |Digits(amt)| <= p <= LONGEST
    modifies buf
    ensures p' == p - |Digits(amt)|
    ensures buf[..] == Over(old(buf[..]), p', p, Digits(amt))
  {
    ghost var was := buf[..];
    ghost var done := [DigitChar(amt % 10)];
    var rest: nat := amt / 10;
    Back(was, p, p, [], done[0]);
    p' := Put(buf, p, DigitChar(amt % 10));
    while rest != 0
      invariant |was| == buf.Length && p' == p - |done| && |done| <= p
      invariant Digits(amt) == Before(rest) + done
      invariant buf[..] == Over(was, p', p, done)
    {
      var c := DigitChar(rest % 10);
      Back(was, p', p, done, c);
      Peel(rest, done);
      p' := Put(buf, p', c);
      done := [c] + done;
      rest := rest / 10;
    }
  }

  /** The digits still to be written. */
  function Before(rest: nat): string {
    if rest == 0 then "" else Digits(rest)
  }

  lemma Peel(rest: nat, done: string)
    requires rest != 0
    ensures Before(rest) + done == Before(rest / 10) + ([DigitChar(rest % 10)] + done)
    ensures |Before(rest)| > 0
  {
  }

  /** The buffer with `done` written just before `p`. */
  function Over(was: seq<char>, p': nat, p: nat, done: seq<char>): seq<char>
    requires p' <= p <= |was|
  {
    was[..p'] + done + was[p..]
  }

  /** One more character written just before those there are. */
  lemma Back(was: seq<char>, p': nat, p: nat, done: seq<char>, c: char)
    requires 0 < p' <= p <= |was| && |done| == p - p'
    ensures Over(was, p', p, done)[p' - 1 := c] == Over(was, p' - 1, p, [c] + done)
    ensures done == [] ==> Over(was, p', p, done) == was
  {
  }

  lemma Around(was: seq<char>, all: seq<char>, p': nat, p: nat, done: seq<char>)
    requires |was| > LONGEST && p' <= p <= LONGEST && |done| == p - p'
    requires all == Over(was, p', p, done)
    ensures all[p'..LONGEST] == done + was[p..LONGEST] && all[LONGEST] == was[LONGEST]
    ensures all[..p'] == was[..p'] && all[LONGEST + 1..] == was[LONGEST + 1..]
  {
    assert was[p..] == was[p..LONGEST] + was[LONGEST..];
  }

  lemma {:induction false} ScaleShrinks(s: Summary, base: nat, power: nat)
    requires base > 0 && power < MAX_POWER && s.tenths < 10 && s.rounding < 4
    ensures var r := Scale(s, base, power).s; r.amt <= s.amt && r.tenths < 10 && r.rounding < 4
    decreases MAX_POWER - power
  {
    TurnShrinks(s, base);
    var t := Turn(s, base);
    if base <= t.amt && power + 1 < MAX_POWER {
      ScaleShrinks(t, base, power + 1);
    }
  }

  lemma TurnShrinks(s: Summary, base: nat)
    requires base > 0 && s.tenths < 10
    ensures Turn(s, base).amt <= s.amt && Turn(s, base).tenths < 10 && Turn(s, base).rounding < 4
  {
    var a := Mod(s.amt, base);
    TenthsBound(a, s.tenths, base);
    DivMono(U32(a * 10 + s.tenths), a * 10 + s.tenths, base);
    DivSmaller(s.amt, base);
  }

  lemma DivMono(a: nat, b: nat, d: nat)
    requires d > 0 && a <= b
    ensures Div(a, d) <= Div(b, d)
  {
    DivMod(a, d);
    DivMod(b, d);
    if Div(b, d) < Div(a, d) {
      MultiplesGrow(Div(b, d), Div(a, d), d);
    }
  }

  lemma DivSmaller(a: nat, d: nat)
    requires d > 0
    ensures Div(a, d) <= a
  {
    DivMod(a, d);
    GrowsBy(d, Div(a, d));
  }

  lemma DigitsFit(n: nat)
    requires n <= TWO_64
    ensures |Digits(n)| <= 20
  {
    assert Pow10(0) == 1 && Pow10(5) == 100000 by { PowersOfTen(); }
    PowersOfTen();
    DigitsLength(n, 20);
  }

  lemma PowersOfTen()
    ensures Pow10(5) == 1_00000 && Pow10(10) == 1_00000_00000 && Pow10(15) == 1_00000_00000_00000
    ensures Pow10(20) == 1_00000_00000_00000_00000
  {
    PowerOfTenFive(0);
    PowerOfTenFive(5);
    PowerOfTenFive(10);
    PowerOfTenFive(15);
  }

  lemma PowerOfTenFive(k: nat)
    ensures Pow10(k + 5) == 100000 * Pow10(k)
  {
    assert Pow10(k + 1) == 10 * Pow10(k) && Pow10(k + 2) == 10 * Pow10(k + 1);
    assert Pow10(k + 3) == 10 * Pow10(k + 2) && Pow10(k + 4) == 10 * Pow10(k + 3);
  }

  /** The body of the scaling loop (src/human_readable.c:154-159). */
  method OneTurn(s: Summary, base: nat) returns (t: Summary)
    requires base > 0 && s.tenths < 10
    ensures t == Turn(s, base)
  {
    var r10 := U32(Mod(s.amt, base) * 10 + s.tenths);
    var r2 := U32(Mod(r10, base) * 2 + s.rounding / 2);
    var sum := U32(r2 + s.rounding);
    t := Summary(Div(s.amt, base), Div(r10, base), if r2 < base then Bit(0 < sum) else 2 + Bit(base < sum));
  }

  /** The scaling loop (src/human_readable.c:150-161). */
  method ScaleDown(start: Summary, base: nat) returns (s: Summary, power: nat)
    requires base > 0 && start.tenths < 10 && start.rounding < 4
    ensures Scaled(s, power) == Scale(start, base, 0)
    ensures s.amt <= start.amt && s.tenths < 10 && s.rounding < 4 && 0 < power <= MAX_POWER
  {
    ScaleShrinks(start, base, 0);
    ghost var goal := Scale(start, base, 0);
    s, power := start, 0;
    var again := true;
    while again
      invariant power <= MAX_POWER && s.tenths < 10 && (if again then power < MAX_POWER else power > 0)
      invariant if again then Scale(s, base, power) == goal else Scaled(s, power) == goal
      decreases MAX_POWER - power, again
    {
      TurnShrinks(s, base);
      s := OneTurn(s, base);
      power := power + 1;
      again := base <= s.amt && power < MAX_POWER;
    }
  }

  /** A C `guint64`. */
  function U64(x: nat): nat {
    x % TWO_64
  }

  lemma QuotientBelow(a: nat, m: nat, n: nat)
    requires m > 0 && a < Times(n, m)
    ensures Div(a, m) < n
  {
    DivMod(a, m);
    Multiples(Div(a, m), n, m);
  }

  /** Dividing the product again tells exactly whether it fitted 64 bits. */
  lemma OverflowShows(n: nat, m: nat)
    requires m > 0
    ensures Div(U64(Times(n, m)), m) == n <==> Times(n, m) < TWO_64
  {
    var product, kept := Times(n, m), U64(Times(n, m));
    DivMod(kept, m);
    if product < TWO_64 {
      QuotientIs(product, m, n, 0);
    } else {
      QuotientBelow(kept, m, n);
    }
  }

  /** The way into the output's units multiplies, and past 64 bits. */
  predicate Overflows(n: nat, from: nat, output: int)
    requires from > 0 && output != 0
  {
    output <= from && Units(n, from, output).amt >= TWO_64
  }

  /** It does so exactly when the input unit, as often as the output's goes into it, times the number is 2^64 or more. */
  lemma OverflowsIff(n: nat, from: nat, output: int, m: nat)
    requires from > 0 && output != 0 && m == if output < 0 then from else from / output
    ensures Overflows(n, from, output) <==> output <= from && Times(n, m) >= 0x1_0000_0000_0000_0000
  {
    if output < 0 {
      assert from / 1 == from;
    }
  }

  /** Out of one unit and into another (src/human_readable.c:101-146); none when that overflows. */
  method IntoUnits(n: nat, from: nat, output: int) returns (s: Option<Summary>)
    requires n < TWO_64 && from > 0 && output != 0
    ensures s.None? <==> Overflows(n, from, output)
    ensures s.Some? ==> s.value == Units(n, from, output)
                        && s.value.amt < TWO_64 && s.value.tenths < 10 && s.value.rounding < 4
                        && (output < 0 ==> s.value.tenths == 0)
  {
    var to := if output < 0 then 1 else output;
    if to <= from {
      QuotientPositive(from, to);
      var multiplier := from / to;
      var amt := U64(Times(n, multiplier));
      OverflowShows(n, multiplier);
      if Div(amt, multiplier) != n {
        return None;
      }
      s := Some(Summary(amt, 0, 0));
    } else {
      QuotientPositive(to, from);
      var divisor := to / from;
      var r10 := U32(Mod(n, divisor) * 10);
      var r2 := U32(Mod(r10, divisor) * 2);
      s := Some(Summary(Div(n, divisor), Div(r10, divisor), if r2 < divisor then Bit(0 < r2) else 2 + Bit(divisor < r2)));
      DivSmaller(n, divisor);
      TenthsBound(Mod(n, divisor), 0, divisor);
      DivMono(r10, Mod(n, divisor) * 10, divisor);
    }
  }

  /** The suffix, the tenths and the point (src/human_readable.c:163-174), and what is left to print. */
  method PutTenths(buf: array<char>, p: nat, s: Summary, power: nat) returns (p': nat, amt: nat)
    requires buf.Length > LONGEST && 3 <= p <= LONGEST && s.tenths < 10 && s.rounding < 4 && power <= MAX_POWER
    modifies buf
    ensures p' == p - 3 && amt == Tenths(s) / 10
    ensures Digits(amt) + buf[p'..LONGEST] == Abbreviated(Tenths(s), power) + old(buf[p..LONGEST])
    ensures buf[LONGEST] == old(buf[LONGEST])
    ensures buf[..p'] == old(buf[..p']) && buf[LONGEST + 1..] == old(buf[LONGEST + 1..])
  {
    ghost var was := buf[p..LONGEST];
    p' := Put(buf, p, SUFFIXES[power]);
    var tenths := s.tenths + Bit(2 < s.rounding + s.tenths % 2);
    amt := s.amt;
    if tenths == 10 {
      amt := amt + 1;
      tenths := 0;
    }
    p' := Put(buf, p', DigitChar(tenths));
    p' := Put(buf, p', '.');
    CarriedTenths(s, amt, tenths);
    TenthsText(Tenths(s), amt, tenths, power, was);
  }

  /** Ten tenths are carried into the whole part. */
  lemma CarriedTenths(s: Summary, amt: nat, tenths: nat)
    requires s.tenths < 10
    requires var all := s.tenths + Bit(2 < s.rounding + s.tenths % 2);
             if all == 10 then amt == s.amt + 1 && tenths == 0 else amt == s.amt && tenths == all
    ensures Tenths(s) == 10 * amt + tenths && tenths < 10
  {
  }

  lemma TenthsText(t: nat, amt: nat, tenths: nat, power: nat, was: string)
    requires t == 10 * amt + tenths && tenths < 10 && power <= MAX_POWER
    ensures t / 10 == amt
    ensures Digits(amt) + (['.'] + ([DigitChar(tenths)] + ([SUFFIXES[power]] + was))) == Abbreviated(t, power) + was
  {
    RegroupTenths(Digits(amt), ".", [DigitChar(tenths)], [SUFFIXES[power]], was);
  }

  lemma RegroupTenths(whole: string, point: string, tenth: string, suffix: string, was: string)
    ensures whole + (point + (tenth + (suffix + was))) == whole + point + tenth + suffix + was
  {
  }

  /** The final rounding (src/human_readable.c:177-186); the inner branch never runs. */
  method RoundWhole(s: Summary, base: nat) returns (amt: nat)
    requires base > 0 ==> s.tenths == 0
    ensures amt == Whole(s)
  {
    amt := s.amt;
    if 5 < s.tenths + Bit(2 < s.rounding + amt % 2) {
      amt := amt + 1;
      if amt == base {
        assert false;
      }
    }
  }

  /** The abbreviated form, from the terminator to the first digit (src/human_readable.c:150-190). */
  method PutScaled(buf: array<char>, s: Summary, base: nat) returns (p: nat)
    requires buf.Length > LONGEST && 0 < base <= s.amt < TWO_64 && s.tenths == 0 && s.rounding < 4
    modifies buf
    ensures p <= LONGEST && buf[p..LONGEST] == Show(s, base) && buf[LONGEST] == old(buf[LONGEST])
    ensures buf[..p] == old(buf[..p]) && buf[LONGEST + 1..] == old(buf[LONGEST + 1..])
  {
    var r, power := ScaleDown(s, base);
    var q, amt := PutTenths(buf, LONGEST, r, power);
    amt := RoundWhole(Summary(amt, 0, r.rounding), base);
    DigitsFit(amt);
    ghost var before := buf[..q];
    p := PutDigits(buf, q, amt);
    assert buf[..p] == before[..p];
  }

  /** From the terminator to the first digit, in powers of `base` or whole. */
  method PutSummary(buf: array<char>, s: Summary, base: nat) returns (p: nat)
    requires buf.Length > LONGEST
    requires s.amt < TWO_64 && s.tenths < 10 && s.rounding < 4 && (base > 0 ==> s.tenths == 0)
    modifies buf
    ensures p <= LONGEST && buf[p..LONGEST] == Show(s, base) && buf[LONGEST] == old(buf[LONGEST])
    ensures buf[..p] == old(buf[..p]) && buf[LONGEST + 1..] == old(buf[LONGEST + 1..])
  {
    if base > 0 && base <= s.amt {
      p := PutScaled(buf, s, base);
    } else {
      var amt := RoundWhole(s, base);
      DigitsFit(amt);
      p := PutDigits(buf, LONGEST, amt);
    }
  }

  /**
   `human_readable` (src/human_readable.c:71-193). The text is `buf[p..]`, and the buffer
   before it is left alone; none when the call goes on to print in floating point.
   */
  method Format(n: nat, buf: array<char>, from: nat, output: int) returns (p: Option<nat>)
    requires buf.Length > LONGEST && n < TWO_64 && from > 0 && output != 0
    modifies buf
    ensures p.None? <==> Overflows(n, from, output)
    ensures p.Some? ==> Written(buf, p.value, Readable(n, from, output))
  {
    buf[LONGEST] := '\0';
    var s := IntoUnits(n, from, output);
    if s.None? {
      return None;
    }
    var start := PutSummary(buf, s.value, Base(output));
    p := Some(start);
  }

  /** `human_size` (src/human_readable.c:195-199): at most seven characters, at the very end. */
  method SizeText(buf: array<char>, size: nat) returns (p: nat)
    requires buf.Length > LONGEST && size < TWO_64
    modifies buf
    ensures Written(buf, p, NearestText(size, 1024)) && p >= LONGEST - 7
    ensures buf[..LONGEST - 7] == old(buf[..LONGEST - 7])
  {
    assert 1 / 1 == 1 && Times(size, 1) == size;
    var start := Format(size, buf, 1, -1024);
    p := start.value;
    ReadableIsNearest(size, 1, -1024);
    Proofs.SizeFits(size);
    assert buf[..LONGEST - 7] == buf[..p][..LONGEST - 7];
    assert old(buf[..LONGEST - 7]) == old(buf[..p])[..LONGEST - 7];
  }
}
