/**
 Byte counts for people (src/human_readable.c): what the formatter prints, as the
 nearest number of tenths of the largest unit that fits, ties to even.
 */
module HumanSize {
  import opened Decimal

  /** The letter of each power; the first one is not used. */
  const SUFFIXES := "?kMGTPEZY"
  const LONGEST := 32
  const MAX_POWER := 8
  const TWO_32 := 0x1_0000_0000
  const TWO_64 := 0x1_0000_0000_0000_0000

  /** The widest base that 32-bit tenths leave room for. */
  const WIDEST := 429496729

  function Times(a: nat, b: nat): nat {
    a * b
  }

  /** A C `guint`. */
  function U32(x: nat): nat {
    x % TWO_32
  }

  function Div(a: nat, b: nat): nat
    requires b > 0
  {
    a / b
  }

  function Mod(a: nat, b: nat): (r: nat)
    requires b > 0
    ensures r < b
  {
    a % b
  }

  function Pow(b: nat, k: nat): nat {
    if k == 0 then 1 else b * Pow(b, k - 1)
  }

  // ---- What the code computes ----

  /** `amt.tenths` and how far the exact value lies above it, as one of four classes. */
  datatype Summary = Summary(amt: nat, tenths: nat, rounding: nat)

  function Bit(b: bool): nat {
    if b then 1 else 0
  }

  /** The class a remainder of `r2` half-units falls in (src/human_readable.c:145). */
  function Start(n: nat, divisor: nat): Summary
    requires divisor > 0
  {
    var r10 := U32(Mod(n, divisor) * 10);
    var r2 := U32(Mod(r10, divisor) * 2);
    Summary(Div(n, divisor), Div(r10, divisor), if r2 < divisor then Bit(0 < r2) else 2 + Bit(divisor < r2))
  }

  /** One turn of the scaling loop (src/human_readable.c:154-159). */
  function Turn(s: Summary, base: nat): Summary
    requires base > 0
  {
    var r10 := U32(Mod(s.amt, base) * 10 + s.tenths);
    var r2 := U32(Mod(r10, base) * 2 + s.rounding / 2);
    var sum := U32(r2 + s.rounding);
    Summary(Div(s.amt, base), Div(r10, base), if r2 < base then Bit(0 < sum) else 2 + Bit(base < sum))
  }

  datatype Scaled = Scaled(s: Summary, power: nat)

  /** The whole loop from its head. */
  function Scale(s: Summary, base: nat, power: nat): (r: Scaled)
    requires base > 0 && power < MAX_POWER
    ensures power < r.power <= MAX_POWER
    decreases MAX_POWER - power
  {
    var t := Turn(s, base);
    if base <= t.amt && power + 1 < MAX_POWER then Scale(t, base, power + 1) else Scaled(t, power + 1)
  }

  /** Tenths with a suffix. */
  function Abbreviated(t: nat, power: nat): string
    requires power <= MAX_POWER
  {
    Digits(t / 10) + "." + [DigitChar(t % 10)] + [SUFFIXES[power]]
  }

  function Tenths(s: Summary): nat {
    10 * s.amt + s.tenths + Bit(2 < s.rounding + s.tenths % 2)
  }

  /** The final rounding to a whole number (src/human_readable.c:177-178). */
  function Whole(s: Summary): nat {
    s.amt + Bit(5 < s.tenths + Bit(2 < s.rounding + s.amt % 2))
  }

  /** The text for a summary: abbreviated when it reaches `base`, whole otherwise. */
  function Show(s: Summary, base: nat): string {
    if base > 0 && base <= s.amt then
      var r := Scale(s, base, 0);
      Abbreviated(Tenths(r.s), r.power)
    else Digits(Whole(s))
  }

  function Base(output: int): nat {
    if output < 0 then -output else 0
  }

  function Units(n: nat, from: nat, output: int): Summary
    requires from > 0 && output != 0
  {
    var to := if output < 0 then 1 else output;
    if to <= from then Summary(Times(n, from / to), 0, 0)
    else
      assert to / from > 0 by { QuotientPositive(to, from); }
      Start(n, to / from)
  }

  lemma QuotientPositive(a: nat, b: nat)
    requires 0 < b <= a
    ensures a / b > 0
  {
  }

  /** Everything `human_readable` prints, short of the floating-point overflow path. */
  function Readable(n: nat, from: nat, output: int): string
    requires from > 0 && output != 0
  {
    Show(Units(n, from, output), Base(output))
  }

  // ---- What it should print ----

  /** The whole number nearest to num/den, ties to even. */
  function Nearest(num: nat, den: nat): nat
    requires den > 0
  {
    var q, r := num / den, num % den;
    if 2 * r < den then q else if 2 * r > den then q + 1 else q + q % 2
  }

  /** The largest power of `base` that `n` reaches, up to the last suffix. */
  function PowerFrom(n: nat, base: nat, k: nat): (r: nat)
    requires k <= MAX_POWER
    ensures k <= r <= MAX_POWER
    decreases MAX_POWER - k
  {
    if k < MAX_POWER && Pow(base, k + 1) <= n then PowerFrom(n, base, k + 1) else k
  }

  /** `n` in the largest unit it reaches, to the nearest tenth. */
  function NearestText(n: nat, base: nat): string
    requires base > 1
  {
    if n < base then Digits(n)
    else
      var k := PowerFrom(n, base, 0);
      PowPositive(base, k);
      Abbreviated(Nearest(10 * n, Pow(base, k)), k)
  }

  lemma {:induction false} PowPositive(b: nat, k: nat)
    requires b > 0
    ensures Pow(b, k) > 0
  {
    if k > 0 {
      PowPositive(b, k - 1);
      assert b * Pow(b, k - 1) > 0;
    }
  }

  // ---- The summary is exact ----

  /** Twenty times the part of num/den that `amt.tenths` leaves over, times `den`. */
  function Left(num: nat, den: nat, s: Summary): int {
    20 * num - den * (20 * s.amt + 2 * s.tenths)
  }

  /** The class of a remainder of `left` twentieths of `den`. */
  predicate Class(left: int, den: nat, rounding: nat) {
    && 0 <= left < 2 * den
    && rounding == (if left == 0 then 0 else if left < den then 1 else if left == den then 2 else 3)
  }

  /**
   num/den = amt + tenths/10 + f with 0 <= f < 0.1, and `rounding` is 0, 1, 2 or 3
   as f is 0, below, equal to or above 0.05.
   */
  predicate Exact(num: nat, den: nat, s: Summary) {
    s.tenths < 10 && Class(Left(num, den, s), den, s.rounding)
  }

  /** Multiples of `den` compare as their factors do. */
  lemma Multiples(half: nat, b: nat, den: nat)
    requires den > 0
    ensures half < b ==> half * den + den <= b * den
    ensures half == b ==> half * den == b * den
    ensures half > b ==> half * den >= b * den + den
  {
    if half < b {
      MultiplesGrow(half, b, den);
    } else if half > b {
      MultiplesGrow(b, half, den);
    }
  }

  lemma {:induction false} MultiplesGrow(a: nat, b: nat, den: nat)
    requires a < b
    ensures a * den + den <= b * den
    decreases b
  {
    OneMore(b - 1, den);
    if a < b - 1 {
      MultiplesGrow(a, b - 1, den);
    }
  }

  lemma GrowsBy(d: nat, q: nat)
    requires d > 0
    ensures q <= d * q
  {
  }

  lemma OneMore(q: nat, den: nat)
    ensures (q + 1) * den == q * den + den
  {
  }

  /** The class of what a turn leaves over, from the half-units the code counts. */
  lemma NextClass(left: int, den: nat, q: nat, b: nat, rounding: nat)
    requires den > 0 && Class(left, den, rounding) && q < b
    ensures var half := 2 * q + rounding / 2;
            var next := if half < b then Bit(0 < half + rounding) else 2 + Bit(b < half + rounding);
            Class(left + 2 * (q * den), b * den, next) <==> !(rounding == 2 && half == b)
  {
    var h := rounding / 2;
    var half := 2 * q + h;
    Multiples(half, b, den);
    Multiples(q, b, den);
    HalfUnits(q, h, den);
    ClassOf(left, den, q * den, b * den, half, b, half * den, rounding);
  }

  lemma HalfUnits(q: nat, h: nat, den: nat)
    requires h < 2
    ensures (2 * q + h) * den == 2 * (q * den) + (if h == 0 then 0 else den)
  {
    if h == 0 {
      Twice(den, q);
    } else {
      OneMore(2 * q, den);
      Twice(den, q);
    }
  }

  /** The same with the products as numbers: `x` half-units dropped, of `y` to a unit. */
  lemma ClassOf(left: int, den: nat, x: nat, y: nat, half: nat, b: nat, z: nat, rounding: nat)
    requires den > 0 && Class(left, den, rounding) && z == 2 * x + (if rounding / 2 == 0 then 0 else den)
    requires half < b ==> z + den <= y
    requires half == b ==> z == y
    requires half > b ==> z >= y + den
    requires x + den <= y && (half == 0 <==> z == 0)
    ensures var next := if half < b then Bit(0 < half + rounding) else 2 + Bit(b < half + rounding);
            Class(left + 2 * x, y, next) <==> !(rounding == 2 && half == b)
  {
  }

  lemma DivMod(a: nat, b: nat)
    requires b > 0
    ensures a == b * Div(a, b) + Mod(a, b)
  {
  }

  lemma NoWrap(x: nat)
    requires x < TWO_32
    ensures U32(x) == x
  {
  }

  /** The half-units a turn counts. */
  function Half(s: Summary, base: nat): nat
    requires base > 0
  {
    2 * Mod(Mod(s.amt, base) * 10 + s.tenths, base) + s.rounding / 2
  }

  /** Below the widest base nothing in a turn wraps. */
  lemma TurnPlain(s: Summary, base: nat)
    requires 1 < base <= WIDEST && s.tenths < 10 && s.rounding < 4
    ensures var r10 := Mod(s.amt, base) * 10 + s.tenths;
            Turn(s, base) == Summary(Div(s.amt, base), Div(r10, base),
                                     if Half(s, base) < base then Bit(0 < Half(s, base) + s.rounding)
                                     else 2 + Bit(base < Half(s, base) + s.rounding))
  {
    NoWrap(Mod(s.amt, base) * 10 + s.tenths);
    NoWrap(Half(s, base));
    NoWrap(Half(s, base) + s.rounding);
  }

  lemma Spread(den: nat, base: nat, x: nat, q: nat)
    ensures den * (base * x + 2 * q) == (base * den) * x + 2 * (q * den)
  {
  }

  /** What a turn leaves over is what was left plus the half-units it drops. */
  lemma TurnLeaves(num: nat, den: nat, s: Summary, base: nat)
    requires den > 0 && 1 < base <= WIDEST && s.tenths < 10 && s.rounding < 4
    ensures var q := Mod(Mod(s.amt, base) * 10 + s.tenths, base);
            Left(num, base * den, Turn(s, base)) == Left(num, den, s) + 2 * (q * den)
    ensures Turn(s, base).tenths < 10
  {
    TurnPlain(s, base);
    var m, a := Div(s.amt, base), Mod(s.amt, base);
    var r10 := a * 10 + s.tenths;
    var t, q := Div(r10, base), Mod(r10, base);
    DivMod(s.amt, base);
    DivMod(r10, base);
    TenthsBound(a, s.tenths, base);
    Digest(s.amt, s.tenths, base, m, a, t, q);
    Spread(den, base, 20 * m + 2 * t, q);
  }

  lemma Digest(amt: nat, tenths: nat, base: nat, m: nat, a: nat, t: nat, q: nat)
    requires amt == base * m + a && a * 10 + tenths == base * t + q
    ensures 20 * amt + 2 * tenths == base * (20 * m + 2 * t) + 2 * q
  {
    assert base * (20 * m + 2 * t) == 20 * (base * m) + 2 * (base * t);
  }

  lemma TenthsBound(a: nat, tenths: nat, base: nat)
    requires a < base && tenths < 10
    ensures Div(a * 10 + tenths, base) < 10
  {
    DivMod(a * 10 + tenths, base);
    var t := Div(a * 10 + tenths, base);
    if t >= 10 {
      MultiplesGrow(9, t, base);
    }
  }

  /**
   A turn keeps the summary exact in all cases but one: a tie in the class that is
   carried in, together with half-units that equal the base.
   */
  lemma TurnExact(num: nat, den: nat, s: Summary, base: nat)
    requires den > 0 && 1 < base <= WIDEST && Exact(num, den, s)
    ensures Exact(num, base * den, Turn(s, base)) <==> !(s.rounding == 2 && Half(s, base) == base)
  {
    TurnPlain(s, base);
    TurnLeaves(num, den, s, base);
    NextClass(Left(num, den, s), den, Mod(Mod(s.amt, base) * 10 + s.tenths, base), base, s.rounding);
  }

  /** No tie can arise in an odd base, and in an even one the case above cannot occur. */
  predicate TieFree(base: nat, s: Summary) {
    base % 2 == 1 ==> s.rounding != 2
  }

  lemma TieFreeKept(num: nat, den: nat, s: Summary, base: nat)
    requires den > 0 && 1 < base <= WIDEST && Exact(num, den, s) && TieFree(base, s)
    ensures !(s.rounding == 2 && Half(s, base) == base)
    ensures TieFree(base, Turn(s, base))
  {
    TurnPlain(s, base);
    Parity(Mod(Mod(s.amt, base) * 10 + s.tenths, base), s.rounding, base);
  }

  lemma Parity(q: nat, rounding: nat, base: nat)
    requires rounding < 4 && (base % 2 == 1 ==> rounding != 2)
    ensures !(rounding == 2 && 2 * q + rounding / 2 == base)
    ensures base % 2 == 1 && 2 * q + rounding / 2 >= base ==> base != 2 * q + rounding / 2 + rounding
  {
    if 2 * q + rounding / 2 == base {
      assert rounding == 2 ==> base == 2 * q + 1;
      assert rounding == 0 ==> base == 2 * q;
    }
  }

  lemma PowStep(base: nat, k: nat)
    ensures Pow(base, k + 1) == base * Pow(base, k)
  {
  }

  /** The amount is the whole part of the value. */
  lemma ExactWhole(num: nat, den: nat, s: Summary)
    requires den > 0 && Exact(num, den, s)
    ensures s.amt * den <= num < s.amt * den + den
  {
    Unspread(den, s.amt, s.tenths);
    Multiples(s.tenths, 10, den);
  }

  lemma Unspread(den: nat, amt: nat, tenths: nat)
    ensures den * (20 * amt + 2 * tenths) == 20 * (amt * den) + 2 * (tenths * den)
  {
  }

  /** Whether to go on scaling is whether the next power is reached. */
  lemma GoesOn(n: nat, base: nat, s: Summary, k: nat)
    requires base > 1 && Exact(n, Pow(base, k), s)
    ensures base <= s.amt <==> Pow(base, k + 1) <= n
  {
    PowPositive(base, k);
    ExactWhole(n, Pow(base, k), s);
    Multiples(s.amt, base, Pow(base, k));
  }

  /** The loop ends exactly, in the largest power the number reaches, for every base. */
  lemma {:induction false} ScaleExact(n: nat, base: nat, s: Summary, k: nat)
    requires 1 < base <= WIDEST && k < MAX_POWER
    requires Exact(n, Pow(base, k), s) && TieFree(base, s) && base <= s.amt
    ensures var r := Scale(s, base, k);
            r.power == PowerFrom(n, base, k) && Exact(n, Pow(base, r.power), r.s)
    decreases MAX_POWER - k
  {
    PowPositive(base, k);
    GoesOn(n, base, s, k);
    TieFreeKept(n, Pow(base, k), s, base);
    TurnExact(n, Pow(base, k), s, base);
    PowStep(base, k);
    var t := Turn(s, base);
    GoesOn(n, base, t, k + 1);
    if base <= t.amt && k + 1 < MAX_POWER {
      ScaleExact(n, base, t, k + 1);
    }
  }

  lemma Twice(den: nat, x: nat)
    ensures den * (2 * x) == 2 * (den * x)
  {
  }

  lemma LeftTwice(num: nat, den: nat, s: Summary, q: nat)
    requires q == 10 * s.amt + s.tenths
    ensures Left(num, den, s) == 2 * (10 * num - den * q)
  {
    assert 20 * s.amt + 2 * s.tenths == 2 * q;
    Twice(den, q);
  }

  lemma NearestOf(a: nat, den: nat, q: nat, r: nat)
    requires den > 0 && a == den * q + r && r < den
    ensures Nearest(a, den) == if 2 * r < den then q else if 2 * r > den then q + 1 else q + q % 2
  {
    QuotientIs(a, den, q, r);
  }

  lemma RoundTenths(s: Summary, r: nat, den: nat)
    requires den > 0 && s.tenths < 10 && Class(2 * r, den, s.rounding)
    ensures var q := 10 * s.amt + s.tenths;
            Tenths(s) == if 2 * r < den then q else if 2 * r > den then q + 1 else q + q % 2
  {
    assert (10 * s.amt + s.tenths) % 2 == s.tenths % 2;
  }

  /** The tenths of an exact summary are the nearest ones, ties to even. */
  lemma TenthsNearest(num: nat, den: nat, s: Summary)
    requires den > 0 && Exact(num, den, s)
    ensures Tenths(s) == Nearest(10 * num, den)
  {
    var q := 10 * s.amt + s.tenths;
    LeftTwice(num, den, s, q);
    var r := 10 * num - den * q;
    RoundTenths(s, r, den);
    NearestOf(10 * num, den, q, r);
  }

  lemma QuotientIs(a: nat, b: nat, q: nat, r: nat)
    requires b > 0 && a == b * q + r && r < b
    ensures a / b == q && a % b == r
  {
    var q', r' := a / b, a % b;
    assert a == b * q' + r';
    Multiples(q, q', b);
    Multiples(q', q, b);
  }

  /** The loop's result for a number that reaches the base. */
  lemma ScaleIsNearest(num: nat, base: nat)
    requires 1 < base <= WIDEST && base <= num
    ensures var r := Scale(Summary(num, 0, 0), base, 0);
            var k := PowerFrom(num, base, 0);
            r.power == k && Pow(base, k) > 0 && Tenths(r.s) == Nearest(10 * num, Pow(base, k))
  {
    var s := Summary(num, 0, 0);
    assert Pow(base, 0) == 1;
    assert Exact(num, 1, s);
    ScaleExact(num, base, s, 0);
    var r := Scale(s, base, 0);
    PowPositive(base, r.power);
    TenthsNearest(num, Pow(base, r.power), r.s);
  }

  /** What `human_readable` prints in powers of a base is the nearest tenth, for every base. */
  lemma ReadableIsNearest(n: nat, from: nat, output: int)
    requires from > 0 && -WIDEST <= output < -1
    ensures Readable(n, from, output) == NearestText(Times(n, from), -output)
  {
    assert from / 1 == from;
    var num := Times(n, from);
    if -output <= num {
      ScaleIsNearest(num, -output);
    }
  }
}
