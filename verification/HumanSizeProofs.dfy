/**
 What the size formatter promises: the printed text reads back as the nearest tenth,
 bigger counts never look smaller, and exactly how far beyond that the code goes.
 */
module HumanSizeProofs {
  import opened Wrappers
  import opened Decimal
  import opened HumanSize

  // ---- Nearest ----

  function Distance(a: int, b: int): nat {
    if a < b then b - a else a - b
  }

  /** `t` is nearest: no more than half away, and even when it is exactly half. */
  lemma NearestIsNearest(num: nat, den: nat, t: nat)
    requires den > 0
    ensures t == Nearest(num, den) <==>
            2 * Distance(num, t * den) < den || (2 * Distance(num, t * den) == den && t % 2 == 0)
  {
    var q, r := num / den, num % den;
    assert num == q * den + r;
    if t < q {
      MultiplesGrow(t, q, den);
    } else if t > q + 1 {
      MultiplesGrow(q + 1, t, den);
    }
    OneMore(q, den);
  }

  lemma NearestMono(a: nat, b: nat, den: nat)
    requires den > 0 && a <= b
    ensures Nearest(a, den) <= Nearest(b, den)
  {
    var q, r := a / den, b / den;
    assert a == den * q + a % den && b == den * r + b % den;
    if q > r {
      MultiplesGrow(r, q, den);
    }
  }

  lemma NearestOfMultiple(k: nat, den: nat)
    requires den > 0
    ensures Nearest(Times(k, den), den) == k
  {
    QuotientIs(Times(k, den), den, k, 0);
  }

  // ---- Powers ----

  lemma {:induction false} PowerFromIs(n: nat, base: nat, k: nat)
    requires k <= MAX_POWER && Pow(base, k) <= n
    ensures var r := PowerFrom(n, base, k);
            Pow(base, r) <= n && (r < MAX_POWER ==> n < Pow(base, r + 1))
    decreases MAX_POWER - k
  {
    if k < MAX_POWER && Pow(base, k + 1) <= n {
      PowerFromIs(n, base, k + 1);
    }
  }

  lemma {:induction false} PowerFromMono(n: nat, m: nat, base: nat, k: nat)
    requires k <= MAX_POWER && n <= m
    ensures PowerFrom(n, base, k) <= PowerFrom(m, base, k)
    decreases MAX_POWER - k
  {
    if k < MAX_POWER && Pow(base, k + 1) <= n {
      PowerFromMono(n, m, base, k + 1);
    }
  }

  lemma {:induction false} PowMono(base: nat, i: nat, j: nat)
    requires base > 0 && i <= j
    ensures Pow(base, i) <= Pow(base, j)
    decreases j
  {
    if i < j {
      PowMono(base, i, j - 1);
      PowStep(base, j - 1);
      GrowsBy(base, Pow(base, j - 1));
    }
  }

  lemma FirstPower(n: nat, base: nat)
    requires 1 < base <= n
    ensures 1 <= PowerFrom(n, base, 0)
  {
    assert Pow(base, 1) == base * Pow(base, 0);
  }

  // ---- Reading a size back ----

  /** The power of the base a letter stands for. */
  function UnitOf(c: char): Option<nat> {
    match c
    case 'k' => Some(1)
    case 'M' => Some(2)
    case 'G' => Some(3)
    case 'T' => Some(4)
    case 'P' => Some(5)
    case 'E' => Some(6)
    case 'Z' => Some(7)
    case 'Y' => Some(8)
    case _ => None
  }

  /** What a printed size means, in tenths of a byte. */
  function ReadSize(text: string, base: nat): Option<nat> {
    if AllDigits(text) then Some(10 * Value(text))
    else if |text| < 4 || text[|text| - 3] != '.' || !IsDigit(text[|text| - 2]) || !AllDigits(text[..|text| - 3]) then None
    else
      var k :- UnitOf(text[|text| - 1]);
      Some(Times(10 * Value(text[..|text| - 3]) + DigitValue(text[|text| - 2]), Pow(base, k)))
  }

  lemma SuffixRead(k: nat)
    requires 1 <= k <= MAX_POWER
    ensures UnitOf(SUFFIXES[k]) == Some(k) && !IsDigit(SUFFIXES[k])
  {
  }

  lemma AbbreviatedRead(t: nat, k: nat, base: nat)
    requires 1 <= k <= MAX_POWER
    ensures ReadSize(Abbreviated(t, k), base) == Some(Times(t, Pow(base, k)))
  {
    var text, whole := Abbreviated(t, k), Digits(t / 10);
    ValueOfDigits(t / 10);
    SuffixRead(k);
    assert text[..|text| - 3] == whole;
    assert text[|text| - 1] in text && !IsDigit(text[|text| - 1]);
    assert t == 10 * (t / 10) + t % 10;
  }

  /** The value shown for `n`, in tenths. */
  function Shown(n: nat, base: nat): nat
    requires base > 1
  {
    if n < base then 10 * n
    else
      var k := PowerFrom(n, base, 0);
      PowPositive(base, k);
      Times(Nearest(10 * n, Pow(base, k)), Pow(base, k))
  }

  /**
   The text reads back as the value shown, which is within half a tenth of the unit
   it is printed in; below the base it is exact.
   */
  lemma SizeReadsBack(n: nat, base: nat)
    requires base > 1
    ensures ReadSize(NearestText(n, base), base) == Some(Shown(n, base))
    ensures n < base ==> Shown(n, base) == 10 * n
    ensures n >= base ==> var unit := Pow(base, PowerFrom(n, base, 0));
                          unit <= n && 2 * Distance(10 * n, Shown(n, base)) <= unit
  {
    if n < base {
      ValueOfDigits(n);
    } else {
      FirstPower(n, base);
      var k := PowerFrom(n, base, 0);
      PowPositive(base, k);
      var t := Nearest(10 * n, Pow(base, k));
      AbbreviatedRead(t, k, base);
      NearestIsNearest(10 * n, Pow(base, k), t);
      PowerFromIs(n, base, 0);
    }
  }

  lemma PowerIs(n: nat, base: nat, k: nat)
    requires 1 < base <= n && k <= 8 && Pow(base, k) <= n && (k < 8 ==> n < Pow(base, k + 1))
    ensures PowerFrom(n, base, 0) == k
  {
    var r := PowerFrom(n, base, 0);
    PowerFromIs(n, base, 0);
    if r < k {
      PowMono(base, r + 1, k);
    } else if k < r {
      PowMono(base, k + 1, r);
    }
  }

  /**
   A number that reaches the k-th power of the base, and no higher one up to the eighth, is
   printed as the nearest number of tenths of it with the k-th of these letters.
   */
  lemma UnitLetter(n: nat, base: nat, k: nat, t: nat)
    requires 1 < base && 1 <= k <= 8 && Pow(base, k) <= n && (k < 8 ==> n < Pow(base, k + 1)) && base <= n
    requires 2 * Distance(10 * n, Times(t, Pow(base, k))) < Pow(base, k)
             || (2 * Distance(10 * n, Times(t, Pow(base, k))) == Pow(base, k) && t % 2 == 0)
    ensures NearestText(n, base) == Digits(t / 10) + "." + Digits(t % 10) + ["kMGTPEZY"[k - 1]]
  {
    PowerIs(n, base, k);
    PowPositive(base, k);
    NearestIsNearest(10 * n, Pow(base, k), t);
    assert SUFFIXES[k] == "kMGTPEZY"[k - 1];
    assert Digits(t % 10) == [DigitChar(t % 10)];
  }

  lemma SizeCase(n: nat, k: nat, unit: nat, t: nat)
    requires 1024 <= n && 1 <= k < 8 && Pow(1024, k) == unit && Pow(1024, k + 1) == 1024 * unit
    requires unit <= n < 1024 * unit && 2 * Distance(10 * n, Times(t, unit)) < unit
    ensures NearestText(n, 1024) == Digits(t / 10) + "." + Digits(t % 10) + ["kMGTPEZY"[k - 1]]
  {
    UnitLetter(n, 1024, k, t);
  }

  lemma LowPowers()
    ensures Pow(1024, 1) == 1024 && Pow(1024, 2) == 1024 * 1024 && Pow(1024, 3) == 1024 * 1048576
    ensures Pow(1024, 4) == 1024 * 1073741824
  {
    PowStep(1024, 0);
    PowStep(1024, 1);
    PowStep(1024, 2);
    PowStep(1024, 3);
  }

  /** The sizes of tests/unit/test_human_readable.c:39-65. */
  lemma KilobytesOfTheTests()
    ensures NearestText(1, 1024) == "1" && NearestText(1024, 1024) == "1.0k"
    ensures NearestText(1500, 1024) == "1.5k" && NearestText(8500, 1024) == "8.3k"
  {
    LowPowers();
    SizeCase(1024, 1, 1024, 10);
    SizeCase(1500, 1, 1024, 15);
    SizeCase(8500, 1, 1024, 83);
  }

  /** The sizes of tests/unit/test_human_readable.c:82-83. */
  lemma MegabytesOfTheTests()
    ensures NearestText(1048576, 1024) == "1.0M" && NearestText(1572864, 1024) == "1.5M"
  {
    LowPowers();
    SizeCase(1048576, 2, 1048576, 10);
    SizeCase(1572864, 2, 1048576, 15);
  }

  /** The sizes of tests/unit/test_human_readable.c:94-96. */
  lemma GigabytesOfTheTests()
    ensures NearestText(1073741824, 1024) == "1.0G" && NearestText(4294967295, 1024) == "4.0G"
  {
    LowPowers();
    SizeCase(1073741824, 3, 1073741824, 10);
    SizeCase(4294967295, 3, 1073741824, 40);
  }

  /** A number never shows as less than ten tenths of the unit it reaches. */
  lemma ShownAtLeast(m: nat, base: nat)
    requires 1 < base <= m
    ensures 10 * Pow(base, PowerFrom(m, base, 0)) <= Shown(m, base)
  {
    var k := PowerFrom(m, base, 0);
    var unit := Pow(base, k);
    PowPositive(base, k);
    PowerFromIs(m, base, 0);
    NearestMono(Times(10, unit), 10 * m, unit);
    NearestOfMultiple(10, unit);
    TimesMono(10, Nearest(10 * m, unit), unit);
  }

  /** Nor as more than ten tenths of the next one. */
  lemma ShownAtMost(n: nat, base: nat)
    requires 1 < base <= n && PowerFrom(n, base, 0) < MAX_POWER
    ensures Shown(n, base) <= 10 * Pow(base, PowerFrom(n, base, 0) + 1)
  {
    var k := PowerFrom(n, base, 0);
    var unit := Pow(base, k);
    PowPositive(base, k);
    PowerFromIs(n, base, 0);
    TenTimes(base, unit);
    NearestMono(10 * n, Times(10 * base, unit), unit);
    NearestOfMultiple(10 * base, unit);
    TimesMono(Nearest(10 * n, unit), 10 * base, unit);
  }

  lemma TenTimes(base: nat, unit: nat)
    ensures Times(10 * base, unit) == 10 * (base * unit)
  {
  }

  lemma TimesMono(a: nat, b: nat, c: nat)
    requires a <= b
    ensures Times(a, c) <= Times(b, c)
  {
  }

  /** Bigger counts never show as smaller, across units too. */
  lemma ShownMonotone(n: nat, m: nat, base: nat)
    requires base > 1 && n <= m
    ensures Shown(n, base) <= Shown(m, base)
  {
    if m < base {
    } else if n < base {
      ShownAtLeast(m, base);
      FirstPower(m, base);
      PowMono(base, 1, PowerFrom(m, base, 0));
      assert Pow(base, 1) == base * Pow(base, 0);
    } else {
      PowerFromMono(n, m, base, 0);
      var k, j := PowerFrom(n, base, 0), PowerFrom(m, base, 0);
      if k == j {
        PowPositive(base, k);
        NearestMono(10 * n, 10 * m, Pow(base, k));
        TimesMono(Nearest(10 * n, Pow(base, k)), Nearest(10 * m, Pow(base, k)), Pow(base, k));
      } else {
        ShownAtMost(n, base);
        PowMono(base, k + 1, j);
        ShownAtLeast(m, base);
      }
    }
  }

  // ---- human_size ----

  lemma Powers1024()
    ensures Pow(1024, 6) == 0x1000_0000_0000_0000 && Pow(1024, 7) == 1024 * 0x1000_0000_0000_0000
  {
    assert Pow(1024, 0) == 1 && Pow(1024, 1) == 1024 && Pow(1024, 2) == 1024 * 1024;
    assert Pow(1024, 3) == 1024 * Pow(1024, 2) && Pow(1024, 4) == 1024 * Pow(1024, 3);
    assert Pow(1024, 5) == 1024 * Pow(1024, 4) && Pow(1024, 6) == 1024 * Pow(1024, 5);
  }

  /** A 64-bit size needs no suffix beyond exa, and four digits at most before the point. */
  lemma SizeFits(n: nat)
    requires n < TWO_64
    ensures |NearestText(n, 1024)| <= 7
    ensures n >= 1024 ==> PowerFrom(n, 1024, 0) <= 6
                          && Nearest(10 * n, Pow(1024, PowerFrom(n, 1024, 0))) / 10 <= 1024
  {
    assert Pow10(0) == 1 && Pow10(1) == 10 && Pow10(2) == 100 && Pow10(3) == 1000 && Pow10(4) == 10000;
    if n < 1024 {
      DigitsLength(n, 4);
    } else {
      var k := PowerFrom(n, 1024, 0);
      var unit := Pow(1024, k);
      PowPositive(1024, k);
      PowerFromIs(n, 1024, 0);
      Powers1024();
      if k > 6 {
        PowMono(1024, 7, k);
      }
      assert Pow(1024, k + 1) == 1024 * unit;
      NearestMono(10 * n, Times(10240, unit), unit);
      NearestOfMultiple(10240, unit);
      DigitsLength(Nearest(10 * n, unit) / 10, 4);
    }
  }

  // ---- A unit given outright ----

  /** Ten times the remainder as the code keeps it, in 32 bits. */
  function Kept10(n: nat, divisor: nat): nat
    requires divisor > 0
  {
    U32(10 * Mod(n, divisor))
  }

  lemma TenthsAre(r10: nat, divisor: nat, t: nat, m: nat)
    requires divisor > 0 && t == Div(r10, divisor) && m == Mod(r10, divisor)
    ensures r10 == t * divisor + m && m < divisor
    ensures 2 * r10 > 11 * divisor <==> t > 5 || (t == 5 && 2 * m > divisor)
    ensures 2 * r10 == 11 * divisor <==> t == 5 && 2 * m == divisor
  {
    DivMod(r10, divisor);
    Multiples(t, 5, divisor);
    Multiples(t, 6, divisor);
  }

  /** A divisor past half of 32 bits leaves the tenths at one or none. */
  lemma FewTenths(r10: nat, divisor: nat)
    requires r10 < TWO_32 <= 2 * divisor
    ensures Div(r10, divisor) < 2 && 2 * r10 < 11 * divisor
  {
    DivMod(r10, divisor);
    Multiples(Div(r10, divisor), 2, divisor);
  }

  /**
   In a unit given outright, of any size, the code does not round at one half: it goes up
   when the tenths it keeps pass 5.5, and at exactly 5.5 to the even number.
   */
  lemma WholeRule(n: nat, divisor: nat)
    requires divisor > 0
    ensures var q, r10 := Div(n, divisor), Kept10(n, divisor);
            Whole(Start(n, divisor)) == q + Bit(2 * r10 > 11 * divisor || (2 * r10 == 11 * divisor && q % 2 == 1))
  {
    var r10 := Kept10(n, divisor);
    TenthsAre(r10, divisor, Div(r10, divisor), Mod(r10, divisor));
    if TWO_32 <= 2 * divisor {
      FewTenths(r10, divisor);
    } else {
      NoWrap(Mod(r10, divisor) * 2);
    }
  }

  /**
   Where that is not the nearest whole number: past one half, or at it with an odd number
   below, while the tenths kept are short of 5.5, or at it with an even number below.
   */
  predicate InGap(n: nat, divisor: nat)
    requires divisor > 0
  {
    var q, r, r10 := Div(n, divisor), Mod(n, divisor), Kept10(n, divisor);
    && (2 * r > divisor || (2 * r == divisor && q % 2 == 1))
    && (2 * r10 < 11 * divisor || (2 * r10 == 11 * divisor && q % 2 == 0))
  }

  lemma KeptAtMost(n: nat, divisor: nat)
    requires divisor > 0
    ensures Kept10(n, divisor) <= 10 * Mod(n, divisor)
    ensures divisor <= WIDEST ==> Kept10(n, divisor) == 10 * Mod(n, divisor)
  {
  }

  /** The code rounds to the nearest whole number exactly outside that gap, whatever the unit. */
  lemma WholeIsNearestIff(n: nat, divisor: nat)
    requires divisor > 0
    ensures Whole(Start(n, divisor)) == Nearest(n, divisor) <==> !InGap(n, divisor)
  {
    WholeRule(n, divisor);
    KeptAtMost(n, divisor);
    DivMod(n, divisor);
    NearestOf(n, divisor, Div(n, divisor), Mod(n, divisor));
  }

  /** In a unit from 780903145 up the kept tenths never reach 5.5: the code cuts off. */
  lemma WideUnitCuts(n: nat, divisor: nat)
    requires 11 * divisor >= 2 * TWO_32
    ensures Whole(Start(n, divisor)) == Div(n, divisor)
  {
    WholeRule(n, divisor);
  }

  /** 510 bytes in units of 1000 are more than half a unit, and print as 0. */
  lemma GapExample()
    ensures Readable(510, 1, 1000) == "0" && Nearest(510, 1000) == 1 && InGap(510, 1000)
  {
    WholeRule(510, 1000);
  }

  /** In a positive output unit that the input unit holds `m` times: `m` for each. */
  lemma SmallerUnit(n: nat, from: nat, output: nat, m: nat)
    requires 0 < output <= from && m == from / output
    ensures Readable(n, from, output) == Digits(n * m)
  {
    PlainWhole(n * m);
  }

  /** `n` in units of `d`, rounded as `WholeRule` says. */
  function InUnits(n: nat, d: nat): nat
    requires d > 0
  {
    var q, r10 := Div(n, d), Kept10(n, d);
    q + Bit(2 * r10 > 11 * d || (2 * r10 == 11 * d && q % 2 == 1))
  }

  lemma UnitsStart(n: nat, from: nat, output: nat, d: nat)
    requires 0 < from < output && d == Div(output, from) && d > 0
    ensures Units(n, from, output) == Start(n, d)
  {
  }

  /** In one that holds the input unit `d` times: the quotient, rounded. */
  lemma LargerUnit(n: nat, from: nat, output: nat, d: nat)
    requires 0 < from < output && d == Div(output, from) && d > 0
    ensures Readable(n, from, output) == Digits(InUnits(n, d))
  {
    UnitsStart(n, from, output, d);
    WholeRule(n, d);
  }

  lemma PlainWhole(n: nat)
    ensures Whole(Summary(n, 0, 0)) == n
  {
  }

  lemma {:induction false} OnesStay(n: nat, power: nat)
    requires n > 0 && power < MAX_POWER
    ensures Scale(Summary(n, 0, 0), 1, power) == Scaled(Summary(n, 0, 0), MAX_POWER)
    decreases MAX_POWER - power
  {
    assert Turn(Summary(n, 0, 0), 1) == Summary(n, 0, 0);
    if power + 1 < MAX_POWER {
      OnesStay(n, power + 1);
    }
  }

  /** In powers of one every number but 0 goes up to the last letter as it is. */
  lemma BaseOne(n: nat, from: nat)
    requires from > 0
    ensures Readable(n, from, -1) == if Times(n, from) == 0 then "0" else Digits(Times(n, from)) + ".0Y"
  {
    var m := Times(n, from);
    assert from / 1 == from;
    if m > 0 {
      OnesStay(m, 0);
      assert Tenths(Summary(m, 0, 0)) == 10 * m && Abbreviated(10 * m, 8) == Digits(m) + "." + ['0'] + ['Y'];
    } else {
      PlainWhole(0);
    }
  }

  // ---- Bases too wide for 32-bit tenths ----

  /** The loop's result for `n` is exact. */
  predicate RunExact(n: nat, base: nat)
    requires base > 1
  {
    n >= base ==> var r := Scale(Summary(n, 0, 0), base, 0); Exact(n, Pow(base, r.power), r.s)
  }

  lemma RunIsExact(n: nat, base: nat)
    requires 1 < base <= WIDEST
    ensures RunExact(n, base)
  {
    assert Pow(base, 0) == 1 && Exact(n, 1, Summary(n, 0, 0));
    if n >= base {
      ScaleExact(n, base, Summary(n, 0, 0), 0);
    }
  }

  /** Two bases less one is one and nine tenths; a wider base loses them in the wrap. */
  lemma WideRunFails(base: nat)
    requires WIDEST + 1 < base < 0x8000_0000
    ensures !RunExact(2 * base - 1, base)
  {
    var n := 2 * base - 1;
    var s := Summary(n, 0, 0);
    QuotientIs(n, base, 1, base - 1);
    WrappedTenths(base);
    var t := Turn(s, base);
    assert t.amt == 1 && t.tenths < 9;
    assert Scale(s, base, 0) == Scaled(t, 1);
    assert Pow(base, 0) == 1 && Pow(base, 1) == base;
    TooMuchLeft(n, base, t);
  }

  lemma WrappedTenths(base: nat)
    requires WIDEST + 1 < base < 0x8000_0000
    ensures Div(U32((base - 1) * 10), base) < 9
  {
    var r10 := U32((base - 1) * 10);
    assert r10 <= 10 * base - 10 - TWO_32;
    DivMod(r10, base);
    var t := Div(r10, base);
    if t > 8 {
      MultiplesGrow(8, t, base);
    }
  }

  lemma TooMuchLeft(n: nat, base: nat, t: Summary)
    requires base > 10 && n == 2 * base - 1 && t.amt == 1 && t.tenths < 9
    ensures !Exact(n, base, t)
  {
    assert Left(n, base, t) == 20 * n - (20 * base + 2 * (t.tenths * base)) by {
      assert base * (20 * 1 + 2 * t.tenths) == 20 * base + 2 * (t.tenths * base);
    }
    Multiples(t.tenths, 9, base);
  }

  const NEXT := WIDEST + 1

  /** A number that takes two turns in the first base past the widest. */
  const TWO_TURNS := (2 * NEXT - 1) * NEXT + NEXT - 1

  lemma FirstTurn()
    ensures Turn(Summary(TWO_TURNS, 0, 0), NEXT) == Summary(2 * NEXT - 1, 9, 3)
  {
    QuotientIs(TWO_TURNS, NEXT, 2 * NEXT - 1, NEXT - 1);
  }

  lemma SecondTurn()
    ensures Turn(Summary(2 * NEXT - 1, 9, 3), NEXT) == Summary(1, 0, 1)
  {
  }

  lemma TooMuchLeftOver(n: nat, den: nat, s: Summary)
    requires s == Summary(1, 0, 1) && n >= den + den - 1 && den > 1
    ensures !Exact(n, den, s)
  {
    assert Left(n, den, s) == 20 * n - 20 * den;
  }

  /** The first base past the widest fails on it. */
  lemma NextBaseFails()
    ensures !RunExact(TWO_TURNS, NEXT)
  {
    var s, t, u := Summary(TWO_TURNS, 0, 0), Summary(2 * NEXT - 1, 9, 3), Summary(1, 0, 1);
    FirstTurn();
    SecondTurn();
    assert Scale(t, NEXT, 1) == Scaled(u, 2);
    assert Scale(s, NEXT, 0) == Scaled(u, 2);
    assert Pow(NEXT, 0) == 1 && Pow(NEXT, 1) == NEXT && Pow(NEXT, 2) == NEXT * NEXT;
    TooMuchLeftOver(TWO_TURNS, NEXT * NEXT, u);
  }

  /** The loop is exact for every 64-bit number precisely when the base is narrow enough. */
  lemma ExactIffNarrow(base: nat)
    requires 1 < base < 0x8000_0000
    ensures (forall n: nat | n < TWO_64 :: RunExact(n, base)) <==> base <= WIDEST
  {
    if base <= WIDEST {
      forall n: nat | n < TWO_64 ensures RunExact(n, base) {
        RunIsExact(n, base);
      }
    } else if base == NEXT {
      NextBaseFails();
      assert TWO_TURNS < TWO_64;
    } else {
      WideRunFails(base);
    }
  }
}
