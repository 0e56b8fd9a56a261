/**
  `format_dragon` without a digit count: the shortest digit string inside the rounding
  interval of the value, whose ends count when the significand is even.
*/
module DragonShortest {
  import opened BignumMath
  import opened Bigints
  import opened Decimal
  import opened Dragon

  /** The interval from v - l to v + u in units of 1/d; `low` and `high` say which of its ends belong to it. */
  datatype Interval = Interval(v: nat, d: nat, l: nat, u: nat, low: bool, high: bool)

  /** m / p is inside the interval. */
  predicate Inside(i: Interval, m: int, p: nat) {
    && ((i.v - i.l) * p < m * i.d || (i.low && (i.v - i.l) * p == m * i.d))
    && (m * i.d < (i.v + i.u) * p || (i.high && m * i.d == (i.v + i.u) * p))
  }

  /** No decimal with this many places is inside. */
  ghost predicate Missed(i: Interval, p: nat) {
    forall m: int :: !Inside(i, m, p)
  }

  function Distance(i: Interval, m: int, p: nat): nat {
    if m * i.d >= i.v * p then m * i.d - i.v * p else i.v * p - m * i.d
  }

  /** m / p is inside, and no decimal with as many places that is inside is nearer to the value. */
  ghost predicate Nearest(i: Interval, m: int, p: nat) {
    Inside(i, m, p) && forall m': int :: Inside(i, m', p) ==> Distance(i, m, p) <= Distance(i, m', p)
  }

  /** `t` units and a rest `r`: the value after a number of digits. */
  predicate Rest(i: Interval, p: nat, t: int, r: int) {
    i.v * p == t * i.d + r && 0 <= r < i.d
  }

  predicate Low(i: Interval, r: int, l: int) { r < l || (i.low && r == l) }
  predicate High(i: Interval, r: int, u: int) { r + u > i.d || (i.high && r + u == i.d) }

  lemma Scales(i: Interval, p: nat)
    ensures (i.v - i.l) * p == i.v * p - i.l * p && (i.v + i.u) * p == i.v * p + i.u * p
  {
    MulDist(i.v, i.l, p);
    MulDist(i.v, i.u, p);
  }

  /** How far a multiple of the unit is from `t` units. */
  lemma UnitsAway(i: Interval, m: int, t: int)
    ensures m <= t ==> m * i.d <= t * i.d
    ensures m < t ==> m * i.d <= t * i.d - i.d
    ensures m > t ==> m * i.d >= t * i.d + i.d
    ensures m > t + 1 ==> m * i.d >= t * i.d + 2 * i.d
    ensures (t + 1) * i.d == t * i.d + i.d
  {
    MulDist(t, 1, i.d);
    MulDist(t, 2, i.d);
    if m <= t { MulMono(m, t, i.d); }
    if m < t { MulMono(m, t - 1, i.d); }
    if m > t { MulMono(t + 1, m, i.d); }
    if m > t + 1 { MulMono(t + 2, m, i.d); }
  }

  /** With neither end in reach, no decimal of this length is inside. */
  lemma NeitherMeansMissed(i: Interval, p: nat, t: int, r: int)
    requires Rest(i, p, t, r) && !Low(i, r, i.l * p) && !High(i, r, i.u * p)
    ensures Missed(i, p)
  {
    Scales(i, p);
    forall m: int
      ensures !Inside(i, m, p)
    {
      UnitsAway(i, m, t);
    }
  }

  lemma DigitIsNearest(i: Interval, p: nat, t: int, r: int)
    requires Rest(i, p, t, r) && Low(i, r, i.l * p) && i.u * p > 0
    requires !High(i, r, i.u * p) || 2 * r <= i.d
    ensures Nearest(i, t, p)
  {
    Scales(i, p);
    forall m: int | Inside(i, m, p)
      ensures Distance(i, t, p) <= Distance(i, m, p)
    {
      UnitsAway(i, m, t);
    }
  }

  lemma NextIsNearest(i: Interval, p: nat, t: int, r: int)
    requires Rest(i, p, t, r) && High(i, r, i.u * p) && i.l * p > 0
    requires !Low(i, r, i.l * p) || 2 * r >= i.d
    ensures Nearest(i, t + 1, p)
  {
    Scales(i, p);
    UnitsAway(i, t, t);
    forall m: int | Inside(i, m, p)
      ensures Distance(i, t + 1, p) <= Distance(i, m, p)
    {
      UnitsAway(i, m, t);
    }
  }

  /** Adding one to the last digit cannot spill while the upper end stays below ten units. */
  predicate NoSpill(i: Interval, v: int, u: int) {
    v + u < 10 * i.d || (!i.high && v + u == 10 * i.d)
  }

  /** The next digit is a nine and is rounded up to ten. */
  predicate Spills(i: Interval, v: int, l: int, u: int) {
    var r := v - 9 * i.d;
    r >= 0 && High(i, r, u) && (!Low(i, r, l) || 2 * r >= i.d)
  }

  /** The first digit does. */
  predicate FirstSpills(i: Interval) {
    Spills(i, i.v, i.l, i.u)
  }

  lemma SpillsAtNine(i: Interval, v: int, l: int, u: int, digit: int, r: int)
    requires v == digit * i.d + r && 0 <= r < i.d && digit <= 9
    ensures Spills(i, v, l, u) <==> digit == 9 && High(i, r, u) && (!Low(i, r, l) || 2 * r >= i.d)
  {
    if digit < 9 { MulMono(digit, 8, i.d); }
  }

  /** A remainder exactly on the lower end is not the whole value: some digit was not zero. */
  lemma TieAfterADigit(i: Interval, p: nat, t: int, r: int)
    requires Rest(i, p, t, r) && r == i.l * p && i.l < i.v && p > 0
    ensures t > 0
  {
    MulMono(i.l + 1, i.v, p);
    MulDist(i.l, 1, p);
    if t <= 0 { MulMono(t, 0, i.d); }
  }

  method Increment(data: seq<nat>) returns (buf: seq<nat>)
    requires data != []
    ensures buf == data[..|data|-1] + [data[|data|-1] + 1] && Number(buf) == Number(data) + 1
  {
    buf := data[|data| - 1 := data[|data|-1] + 1];
    assert buf == data[..|data|-1] + [data[|data|-1] + 1];
    assert buf[..|buf|-1] == data[..|data|-1];
  }

  /** Whether the remainder is within `lower` of the digits so far; a tie with different exponents is not noticed. */
  method IsLow(numerator: Bigint, lower: Bigint, even: bool) returns (low: bool)
    requires Tidy(numerator.View()) && Lead(lower.View()) && numerator.exp <= lower.exp
    ensures low <==> || Val(numerator.View()) < Val(lower.View())
                     || (even && Val(numerator.View()) == Val(lower.View()) && numerator.exp == lower.exp)
  {
    var c := Compare(numerator, lower);
    low := c - (if even then 1 else 0) < 0;
  }

  method IsHigh(numerator: Bigint, upper: Bigint, denominator: Bigint, even: bool) returns (high: bool)
    requires Remains(numerator.View(), denominator.View()) && Lead(upper.View())
    ensures var s := Val(numerator.View()) + Val(upper.View()) - Val(denominator.View());
            high == (s > 0 || (even && s == 0))
  {
    var c := AddCompare(numerator, upper, denominator);
    high := c + (if even then 1 else 0) > 0;
  }

  /** The choice between the last digit and the next one up. */
  method Finish(numerator: Bigint, denominator: Bigint, data: seq<nat>, low: bool, high: bool) returns (buf: seq<nat>)
    requires data != [] && (low || high) && Remains(numerator.View(), denominator.View())
    ensures |buf| == |data| && buf[..|data|-1] == data[..|data|-1]
    ensures buf == data || (high && Number(buf) == Number(data) + 1 && buf[|data|-1] == data[|data|-1] + 1)
    ensures !low ==> buf != data
    ensures buf == data <==>
              low && (!high || 2 * Val(numerator.View()) < Val(denominator.View())
                      || (2 * Val(numerator.View()) == Val(denominator.View()) && data[|data|-1] % 2 == 0))
  {
    buf := data;
    if !low {
      buf := Increment(data);
    } else if high {
      var result := AddCompare(numerator, numerator, denominator);
      if result > 0 || (result == 0 && data[|data|-1] % 2 != 0) {
        buf := Increment(data);
      }
    }
  }

  /**
    The digit loop.  The result is inside the interval, nearest to the value among the decimals of
    its length, and no shorter decimal is inside.  The upper end belongs to the interval when the
    significand is even; the lower end only if, besides, `lower` has no larger exponent than the denominator.
  */
  method ShortestDigits(numerator: Bigint, denominator: Bigint, lower: Bigint, upper: Bigint, even: bool,
                        ghost i: Interval)
    returns (buf: seq<nat>)
    requires numerator != denominator && numerator != lower && numerator != upper
    requires denominator != lower && denominator != upper
    requires Ready(numerator.View(), denominator.View()) && Lead(lower.View()) && Lead(upper.View())
    requires numerator.exp == lower.exp && Val(lower.View()) < Val(numerator.View())
    requires i == Interval(Val(numerator.View()), Val(denominator.View()), Val(lower.View()), Val(upper.View()),
                           even && lower.exp <= denominator.exp, even)
    modifies numerator, lower, upper
    ensures buf != [] && Nearest(i, Number(buf), Pow(10, |buf| - 1))
    ensures forall j: nat | j < |buf| - 1 :: Missed(i, Pow(10, j))
    ensures (Digits(buf) <==> !FirstSpills(i)) && (FirstSpills(i) ==> buf == [10])
  {
    buf := [];
    assert Pow(10, 0) == 1;
    var done := false;
    while !done
      invariant denominator.View() == old(denominator.View())
      invariant !done ==> Going(i, numerator.View(), denominator.View(), lower.View(), upper.View(), buf)
      invariant done ==> Settled(i, buf)
      decreases !done, i.d - Val(lower.View())
    {
      buf, done := NextStep(numerator, denominator, lower, upper, even, buf, i);
    }
  }

  /** Which exponents can meet in the comparison with `lower`. */
  predicate Aligned(i: Interval, n: int, d: int, low: int, t: nat) {
    && n <= low && (i.low <==> i.high && low <= d)
    && (low <= d ==> n == low)
    && (t > 0 ==> n <= d)
  }

  /** The loop invariant: digits so far, distances scaled with them, and no shorter decimal inside. */
  ghost predicate Going(i: Interval, n: Num, d: Num, low: Num, up: Num, buf: seq<nat>) {
    && Val(d) == i.d && Ready(n, d) && Digits(buf)
    && Lead(low) && Lead(up) && i.l < i.v && Aligned(i, n.exp, d.exp, low.exp, Number(buf))
    && SoFar(i.v, i.d, buf, Val(n))
    && Val(low) == i.l * Pow(10, |buf|) && Val(up) == i.u * Pow(10, |buf|)
    && (forall j: nat | j < |buf| :: Missed(i, Pow(10, j)))
    && (buf != [] ==> NoSpill(i, Val(n), Val(up)) && !FirstSpills(i))
  }

  ghost predicate Settled(i: Interval, buf: seq<nat>) {
    && buf != [] && Nearest(i, Number(buf), Pow(10, |buf| - 1))
    && (forall j: nat | j < |buf| - 1 :: Missed(i, Pow(10, j)))
    && (Digits(buf) <==> !FirstSpills(i)) && (FirstSpills(i) ==> buf == [10])
  }

  /** One digit and the two comparisons that decide whether it is the last. */
  method NextDigit(numerator: Bigint, denominator: Bigint, lower: Bigint, upper: Bigint, even: bool, digits: seq<nat>,
                   ghost i: Interval)
    returns (digit: nat, low: bool, high: bool)
    requires numerator != denominator && numerator != lower && numerator != upper && even == i.high
    requires Going(i, numerator.View(), denominator.View(), lower.View(), upper.View(), digits)
    modifies numerator
    ensures digit <= 9 && Remains(numerator.View(), denominator.View())
    ensures old(Val(numerator.View())) == digit * i.d + Val(numerator.View())
    ensures Rest(i, Pow(10, |digits|), Number(digits + [digit]), Val(numerator.View()))
    ensures SoFar(i.v, i.d, digits + [digit], 10 * Val(numerator.View()))
    ensures Aligned(i, numerator.exp, denominator.exp, lower.exp, Number(digits + [digit]))
    ensures low <==> Low(i, Val(numerator.View()), Val(lower.View()))
    ensures high <==> High(i, Val(numerator.View()), Val(upper.View()))
  {
    ghost var v := Val(numerator.View());
    digit := TakeDigit(numerator, denominator);
    ghost var r := Val(numerator.View());
    SoFarStep(i.v, i.d, digits, v, digit, r);
    NumberSnoc(digits, digit);
    PowPos(10, |digits|);
    low := IsLow(numerator, lower, even);
    high := IsHigh(numerator, upper, denominator, even);
    if r == i.l * Pow(10, |digits|) { TieAfterADigit(i, Pow(10, |digits|), Number(digits + [digit]), r); }
  }

  method NextStep(numerator: Bigint, denominator: Bigint, lower: Bigint, upper: Bigint, even: bool, digits: seq<nat>,
                  ghost i: Interval)
    returns (buf: seq<nat>, done: bool)
    requires numerator != denominator && numerator != lower && numerator != upper
    requires denominator != lower && denominator != upper && even == i.high
    requires Going(i, numerator.View(), denominator.View(), lower.View(), upper.View(), digits)
    modifies numerator, lower, upper
    ensures done ==> Settled(i, buf)
    ensures !done ==> Going(i, numerator.View(), denominator.View(), lower.View(), upper.View(), buf)
    ensures !done ==> 0 < old(Val(lower.View())) < i.d && Val(lower.View()) > old(Val(lower.View()))
  {
    ghost var v, p := Val(numerator.View()), Pow(10, |digits|);
    LeadPositive(lower.View());
    LeadPositive(upper.View());
    var digit, low, high := NextDigit(numerator, denominator, lower, upper, even, digits, i);
    ghost var r := Val(numerator.View());
    FirstStep(i, digits, v, p);
    SpillsAtNine(i, v, i.l * p, i.u * p, digit, r);
    buf := digits + [digit];
    done := low || high;
    if done {
      buf := Conclude(numerator, denominator, buf, low, high, i, p, r, v);
    } else {
      NeitherMeansMissed(i, p, Number(buf), r);
      ScaleUp(numerator, denominator, lower, upper);
      MulAssoc(i.l, 10, p);
      MulAssoc(i.u, 10, p);
      forall j: nat | j < |buf| ensures Missed(i, Pow(10, j)) {
        if j == |digits| { assert Pow(10, j) == p; }
      }
    }
  }

  /** At the first digit the numerator is the value itself; later ones cannot spill. */
  lemma FirstStep(i: Interval, digits: seq<nat>, v: int, p: nat)
    requires SoFar(i.v, i.d, digits, v) && p == Pow(10, |digits|)
    requires digits != [] ==> NoSpill(i, v, i.u * p) && !FirstSpills(i)
    ensures FirstSpills(i) <==> Spills(i, v, i.l * p, i.u * p)
    ensures FirstSpills(i) ==> digits == []
  {
    if digits == [] { assert Pow(10, 0) == 1; }
  }

  method Conclude(numerator: Bigint, denominator: Bigint, data: seq<nat>, low: bool, high: bool,
                  ghost i: Interval, ghost p: nat, ghost r: int, ghost v: int)
    returns (buf: seq<nat>)
    requires data != [] && Digits(data) && (low || high) && Remains(numerator.View(), denominator.View())
    requires Val(denominator.View()) == i.d && p == Pow(10, |data| - 1)
    requires r == Val(numerator.View()) && Rest(i, p, Number(data), r) && v == data[|data|-1] * i.d + r
    requires low <==> Low(i, r, i.l * p)
    requires high <==> High(i, r, i.u * p)
    requires i.l * p > 0 && i.u * p > 0
    ensures |buf| == |data| && buf[..|data|-1] == data[..|data|-1] && Nearest(i, Number(buf), p)
    ensures Digits(buf) <==> !Spills(i, v, i.l * p, i.u * p)
    ensures buf[|data|-1] <= 10 && (Spills(i, v, i.l * p, i.u * p) ==> buf[|data|-1] == 10)
  {
    SpillsAtNine(i, v, i.l * p, i.u * p, data[|data|-1], r);
    buf := Finish(numerator, denominator, data, low, high);
    if buf == data {
      DigitIsNearest(i, p, Number(data), r);
    } else {
      NextIsNearest(i, p, Number(data), r);
    }
    assert forall k | 0 <= k < |data| - 1 :: buf[k] == buf[..|data|-1][k] == data[k];
  }

  method ScaleUp(numerator: Bigint, denominator: Bigint, lower: Bigint, upper: Bigint)
    requires numerator != denominator && numerator != lower && numerator != upper
    requires denominator != lower && denominator != upper
    requires Remains(numerator.View(), denominator.View()) && Lead(lower.View()) && Lead(upper.View())
    modifies numerator, lower, upper
    ensures Ready(numerator.View(), denominator.View()) && Lead(lower.View()) && Lead(upper.View())
    ensures Val(numerator.View()) == 10 * old(Val(numerator.View()))
    ensures Val(lower.View()) == 10 * old(Val(lower.View()))
    ensures Val(upper.View()) == 10 * old(Val(upper.View()))
    ensures numerator.exp == old(numerator.exp) && lower.exp == old(lower.exp)
  {
    TimesTen(numerator, denominator);
    lower.Multiply32(10);
    if upper != lower { upper.Multiply32(10); }
  }

  // ---------------------------------------------------------------------------
  // The whole of the shortest mode

  /** Does the lower end of the rounding interval of f * 2^e belong to the interval searched? */
  predicate LowerCounts(f: nat, e: int, exp10: int) {
    f % 2 == 0 && (e < 0 || e / 32 <= exp10 / 32)
  }

  /**
    The rounding interval of f * 2^e in units of 10^exp10: half the distance to the neighbours,
    the lower one at half distance when f is the smallest significand.
  */
  function RoundingInterval(f: nat, e: int, closer: bool, exp10: int, low: bool): Interval {
    var s, a := Pow(2, Shift(closer)), Above(e, exp10);
    Interval(f * s * a, Below(e, exp10) * s, a, if closer then 2 * a else a, low, f % 2 == 0)
  }

  /** Two intervals that differ only by the unit. */
  predicate Proportional(i: Interval, k: Interval) {
    && i.d > 0 && k.d > 0 && i.low == k.low && i.high == k.high
    && i.v * k.d == k.v * i.d && i.l * k.d == k.l * i.d && i.u * k.d == k.u * i.d
  }

  lemma Cross(a: int, b: int, m: int, p: int, d: int, d': int)
    requires d > 0 && d' > 0 && a * d' == b * d
    ensures a * p < m * d <==> b * p < m * d'
    ensures a * p == m * d <==> b * p == m * d'
    ensures (m * d - a * p) * d' == (m * d' - b * p) * d
  {
    assert (m * d - a * p) * d' == (m * d' - b * p) * d by {
      MulDist(m * d, a * p, d');
      MulDist(m * d', b * p, d);
      MulSwap(m, d, d');
      MulSwap(a, p, d');
      MulSwap(b, p, d);
    }
    var x, y := m * d - a * p, m * d' - b * p;
    SameSign(x, y, d, d');
  }

  lemma SameSign(x: int, y: int, d: int, d': int)
    requires d > 0 && d' > 0 && x * d' == y * d
    ensures x > 0 <==> y > 0
    ensures x == 0 <==> y == 0
  {
    if x > 0 && y <= 0 { MulMono(1, x, d'); MulMono(y, 0, d); }
    if x <= 0 && y > 0 { MulMono(1, y, d); MulMono(x, 0, d'); }
    if x < 0 && y == 0 { MulMono(x, -1, d'); }
    if y < 0 && x == 0 { MulMono(y, -1, d); }
  }

  lemma SameInside(i: Interval, k: Interval, m: int, p: nat)
    requires Proportional(i, k)
    ensures Inside(i, m, p) <==> Inside(k, m, p)
    ensures Distance(i, m, p) * k.d == Distance(k, m, p) * i.d
  {
    MulDist(i.v, i.l, k.d);
    MulDist(k.v, k.l, i.d);
    MulDist(i.v, i.u, k.d);
    MulDist(k.v, k.u, i.d);
    Cross(i.v - i.l, k.v - k.l, m, p, i.d, k.d);
    Cross(i.v + i.u, k.v + k.u, m, p, i.d, k.d);
    Cross(i.v, k.v, m, p, i.d, k.d);
    Negate(m * i.d - i.v * p, m * k.d - k.v * p, k.d, i.d);
  }

  lemma Negate(x: int, y: int, c: int, c': int)
    requires x * c == y * c'
    ensures -x * c == -y * c'
  {
  }

  lemma SameNearest(i: Interval, k: Interval, m: int, p: nat)
    requires Proportional(i, k) && Nearest(i, m, p)
    ensures Nearest(k, m, p)
  {
    SameInside(i, k, m, p);
    forall m': int | Inside(k, m', p)
      ensures Distance(k, m, p) <= Distance(k, m', p)
    {
      SameInside(i, k, m', p);
      var x, x' := Distance(i, m, p), Distance(i, m', p);
      var y, y' := Distance(k, m, p), Distance(k, m', p);
      MulMono(x, x', k.d);
      if y > y' {
        MulMono(y' + 1, y, i.d);
        MulDist(y', 1, i.d);
      }
    }
  }

  lemma SameMissed(i: Interval, k: Interval, p: nat)
    requires Proportional(i, k) && Missed(i, p)
    ensures Missed(k, p)
  {
    forall m: int
      ensures !Inside(k, m, p)
    {
      SameInside(i, k, m, p);
    }
  }

  lemma FractionIsProportional(f: nat, e: int, closer: bool, exp10: int, n: Num, d: Num, low: Num, up: Num, b: bool,
                               h: bool)
    requires Fraction(f, e, closer, exp10, n, d, low, up) && h == (f % 2 == 0)
    ensures Proportional(Interval(Val(n), Val(d), Val(low), Val(up), b, h), RoundingInterval(f, e, closer, exp10, b))
  {
    var s, a := Pow(2, Shift(closer)), Above(e, exp10);
    LeadPositive(d);
    PowPos(2, Shift(closer));
    Positive(Below(e, exp10), s);
    MulAssoc(f * s, Val(low), Below(e, exp10) * s);
    MulAssoc(f * s, a, Val(d));
    MulAssoc(2, Val(low), Below(e, exp10) * s);
    MulAssoc(2, a, Val(d));
  }

  lemma {:induction false} EightBelowTen(k: nat)
    ensures Pow(2, 3 * k) <= Pow(10, k)
  {
    if k > 0 {
      EightBelowTen(k - 1);
      assert Pow(2, 3 * k) == 8 * Pow(2, 3 * (k - 1)) by {
        PowAdd(2, 3, 3 * (k - 1));
        assert Pow(2, 3) == 8;
      }
    }
  }

  /** In the other two cases of the set-up the exponents are always the right way round. */
  lemma ExponentOrder(f: nat, e: int, closer: bool, exp10: int)
    requires 0 < f && (e >= 0 ==> exp10 >= 0) && f * Above(e, exp10) < 10 * Below(e, exp10)
    ensures LowerExp(e, exp10) <= BelowExp(e, closer, exp10) <==> e < 0 || e / 32 <= exp10 / 32
  {
    if e < 0 && exp10 < 0 {
      var m, t := -exp10, -e;
      assert Above(e, exp10) == Pow(10, m) && Below(e, exp10) == Pow(2, t);
      MulMono(1, f, Pow(10, m));
      assert Pow(10, m) == 10 * Pow(10, m - 1);
      EightBelowTen(m - 1);
      if t <= 3 * (m - 1) { PowMono(2, t, 3 * (m - 1)); }
    }
  }

  // ---------------------------------------------------------------------------
  // The lower end of the interval

  /** m / p is the lower end. */
  predicate OnLowerEnd(i: Interval, m: int, p: nat) {
    m * i.d == (i.v - i.l) * p
  }

  /** The lower end is a decimal with so many places, and there is none strictly inside. */
  ghost predicate LowerEndOnly(i: Interval, p: nat) {
    Missed(i, p) && exists m: int :: OnLowerEnd(i, m, p)
  }

  /** No decimal shorter than the result is inside. */
  ghost predicate NoneShorter(i: Interval, buf: seq<nat>) {
    forall j: nat | j < |buf| - 1 :: Missed(i, Pow(10, j))
  }

  /** The lower end is a decimal with so many places, and nearer to the value than any strictly inside. */
  ghost predicate LowerEndNearer(i: Interval, p: nat) {
    (exists m: int :: OnLowerEnd(i, m, p)) && forall m: int :: Inside(i, m, p) ==> Distance(i, m, p) > i.l * p
  }

  /** An interval without its lower end, and with it. */
  predicate OpenAndClosed(open: Interval, closed: Interval) {
    !open.low && closed == open.(low := true) && open.l > 0 && open.u > 0
  }

  lemma InsideClosed(open: Interval, closed: Interval, m: int, p: nat)
    requires OpenAndClosed(open, closed) && p > 0
    ensures Inside(closed, m, p) <==> Inside(open, m, p) || OnLowerEnd(open, m, p)
  {
    MulDist(open.v, open.l, p);
    MulDist(open.v, open.u, p);
    MulMono(1, open.l, p);
    MulMono(1, open.u, p);
  }

  lemma ScaledInside(i: Interval, m: int, p: nat, q: nat)
    requires Inside(i, m, p) && q > 0
    ensures Inside(i, m * q, p * q)
  {
    MulSwap(m, q, i.d);
    MulAssoc(i.v - i.l, p, q);
    MulAssoc(i.v + i.u, p, q);
    Larger((i.v - i.l) * p, m * i.d, q);
    Larger(m * i.d, (i.v + i.u) * p, q);
  }

  lemma Larger(a: int, b: int, q: int)
    requires q > 0
    ensures a < b ==> a * q < b * q
  {
    if a < b { MulMono(a + 1, b, q); MulDist(a, 1, q); }
  }

  /** Where a decimal lies inside, so do longer ones. */
  lemma NotMissedLater(i: Interval, m: int, k: nat, j: nat)
    requires Inside(i, m, Pow(10, k)) && k <= j
    ensures !Missed(i, Pow(10, j))
  {
    PowAdd(10, k, j - k);
    PowPos(10, j - k);
    ScaledInside(i, m, Pow(10, k), Pow(10, j - k));
  }

  /**
    A result that is the shortest without the lower end is the shortest with it if and only if the
    lower end is not itself shorter than everything inside.
  */
  lemma ShortestWithLowerEnd(open: Interval, closed: Interval, buf: seq<nat>)
    requires OpenAndClosed(open, closed) && buf != []
    requires Inside(open, Number(buf), Pow(10, |buf| - 1)) && NoneShorter(open, buf)
    ensures NoneShorter(closed, buf) <==> !exists j: nat :: LowerEndOnly(open, Pow(10, j))
  {
    if j: nat :| LowerEndOnly(open, Pow(10, j)) {
      if j >= |buf| - 1 { NotMissedLater(open, Number(buf), |buf| - 1, j); }
      var m: int :| OnLowerEnd(open, m, Pow(10, j));
      PowPos(10, j);
      InsideClosed(open, closed, m, Pow(10, j));
    } else {
      forall j: nat | j < |buf| - 1
        ensures Missed(closed, Pow(10, j))
      {
        forall m: int ensures !Inside(closed, m, Pow(10, j)) {
          PowPos(10, j);
          InsideClosed(open, closed, m, Pow(10, j));
          assert !LowerEndOnly(open, Pow(10, j));
        }
      }
    }
  }

  /** How far the lower end is from the value. */
  lemma LowerEndDistance(i: Interval, m: int, p: nat)
    requires OnLowerEnd(i, m, p)
    ensures Distance(i, m, p) == i.l * p
  {
    MulDist(i.v, i.l, p);
    MulMono(0, i.l, p);
  }

  lemma NearestWithLowerEnd(open: Interval, closed: Interval, n: int, p: nat)
    requires OpenAndClosed(open, closed) && p > 0 && Nearest(open, n, p)
    ensures Nearest(closed, n, p) <==> !LowerEndNearer(open, p)
    ensures open.u == open.l ==> Nearest(closed, n, p)
  {
    forall m: int ensures Inside(closed, m, p) <==> Inside(open, m, p) || OnLowerEnd(open, m, p) {
      InsideClosed(open, closed, m, p);
    }
    assert forall m: int :: Distance(closed, m, p) == Distance(open, m, p);
    forall m: int | OnLowerEnd(open, m, p) ensures Distance(open, m, p) == open.l * p {
      LowerEndDistance(open, m, p);
    }
    if open.u == open.l { InsideIsNear(open, n, p); }
  }

  lemma InsideIsNear(i: Interval, m: int, p: nat)
    requires Inside(i, m, p) && i.u == i.l
    ensures Distance(i, m, p) <= i.l * p
  {
    MulDist(i.v, i.l, p);
    MulDist(i.v, i.u, p);
  }

  /**
    The shortest form is passed over: the lower end belongs to the rounding interval, is not
    searched, and is shorter than everything inside.
  */
  ghost predicate PassedOver(f: nat, e: int, closer: bool, exp10: int) {
    && f % 2 == 0 && !LowerCounts(f, e, exp10)
    && exists j: nat :: LowerEndOnly(RoundingInterval(f, e, closer, exp10, false), Pow(10, j))
  }

  /** The nearest form of that length is passed over. */
  ghost predicate NearerPassedOver(f: nat, e: int, closer: bool, exp10: int, p: nat) {
    && f % 2 == 0 && !LowerCounts(f, e, exp10)
    && LowerEndNearer(RoundingInterval(f, e, closer, exp10, false), p)
  }

  lemma RoundingIntervals(f: nat, e: int, closer: bool, exp10: int)
    ensures var open := RoundingInterval(f, e, closer, exp10, false);
            && OpenAndClosed(open, RoundingInterval(f, e, closer, exp10, true))
            && (!closer ==> open.u == open.l)
  {
  }

  /** What is said of a result found without the lower end, of the interval with it. */
  ghost predicate WithLowerEnd(open: Interval, closed: Interval, buf: seq<nat>, p: nat) {
    && Inside(closed, Number(buf), p)
    && (NoneShorter(closed, buf) <==> !exists j: nat :: LowerEndOnly(open, Pow(10, j)))
    && (Nearest(closed, Number(buf), p) <==> !LowerEndNearer(open, p))
    && (open.u == open.l ==> Nearest(closed, Number(buf), p))
  }

  lemma ResultWithLowerEnd(open: Interval, closed: Interval, buf: seq<nat>, p: nat)
    requires OpenAndClosed(open, closed) && buf != [] && p == Pow(10, |buf| - 1)
    requires Nearest(open, Number(buf), p) && NoneShorter(open, buf)
    ensures WithLowerEnd(open, closed, buf, p)
  {
    PowPos(10, |buf| - 1);
    InsideClosed(open, closed, Number(buf), p);
    ShortestWithLowerEnd(open, closed, buf);
    NearestWithLowerEnd(open, closed, Number(buf), p);
  }

  /** What was found in the interval searched, said of the rounding interval itself. */
  lemma InRoundingInterval(f: nat, e: int, closer: bool, exp10: int, buf: seq<nat>, p: nat, i: Interval)
    requires buf != [] && p == Pow(10, |buf| - 1)
    requires i == RoundingInterval(f, e, closer, exp10, LowerCounts(f, e, exp10))
    requires Nearest(i, Number(buf), p) && NoneShorter(i, buf)
    ensures Rounded(f, e, closer, exp10, buf, p)
  {
    if f % 2 == 0 && !LowerCounts(f, e, exp10) {
      RoundingIntervals(f, e, closer, exp10);
      ResultWithLowerEnd(i, RoundingInterval(f, e, closer, exp10, true), buf, p);
    }
  }

  /**
    The result lies in the rounding interval; no shorter decimal does, and no nearer one of its length,
    unless the lower end is passed over.
  */
  ghost predicate Rounded(f: nat, e: int, closer: bool, exp10: int, buf: seq<nat>, p: nat) {
    var i := RoundingInterval(f, e, closer, exp10, f % 2 == 0);
    && Inside(i, Number(buf), p)
    && (NoneShorter(i, buf) <==> !PassedOver(f, e, closer, exp10))
    && (Nearest(i, Number(buf), p) <==> !NearerPassedOver(f, e, closer, exp10, p))
    && (!closer ==> Nearest(i, Number(buf), p))
  }

  // ---------------------------------------------------------------------------
  // What the rounding interval is

  /** The upper end is half-way to f + 1; the lower end half-way to f - 1, or to f - 1/2 where that is the neighbour. */
  predicate HalfWay(i: Interval, f: nat, e: int, closer: bool, exp10: int) {
    var a, b := Above(e, exp10), Below(e, exp10);
    && 2 * (i.v + i.u) * b == (2 * f + 1) * a * i.d
    && (!closer ==> 2 * (i.v - i.l) * b == (2 * f - 1) * a * i.d)
    && (closer ==> 4 * (i.v - i.l) * b == (4 * f - 1) * a * i.d)
  }

  lemma IntervalIsHalfWay(f: nat, e: int, closer: bool, exp10: int, low: bool)
    ensures HalfWay(RoundingInterval(f, e, closer, exp10, low), f, e, closer, exp10)
  {
    assert Pow(2, 1) == 2 && Pow(2, 2) == 4;
    if closer {
      CloserEnds(f, Above(e, exp10), Below(e, exp10));
    } else {
      UsualEnds(f, Above(e, exp10), Below(e, exp10));
    }
  }

  lemma UsualEnds(f: int, a: int, b: int)
    ensures 2 * (f * 2 * a + a) * b == (2 * f + 1) * a * (b * 2)
    ensures 2 * (f * 2 * a - a) * b == (2 * f - 1) * a * (b * 2)
  {
    MulDist(f * 2, 1, a);
    SameProduct(f * 2 + 1, a, b, 2, 2 * f + 1, 2);
    SameProduct(f * 2 - 1, a, b, 2, 2 * f - 1, 2);
  }

  lemma CloserEnds(f: int, a: int, b: int)
    ensures 2 * (f * 4 * a + 2 * a) * b == (2 * f + 1) * a * (b * 4)
    ensures 4 * (f * 4 * a - a) * b == (4 * f - 1) * a * (b * 4)
  {
    MulDist(f * 4, 2, a);
    MulDist(f * 4, 1, a);
    SameProduct(f * 4 + 2, a, b, 2, 2 * f + 1, 4);
    SameProduct(f * 4 - 1, a, b, 4, 4 * f - 1, 4);
  }

  lemma SameProduct(x: int, a: int, b: int, c: int, y: int, s: int)
    requires c * x == y * s
    ensures c * (x * a) * b == y * a * (b * s)
  {
    assert c * (x * a) * b == c * x * (a * b) by {
      MulAssoc(c, x, a);
      MulAssoc(c * x, a, b);
    }
    assert y * a * (b * s) == y * s * (a * b) by {
      MulAssoc(y * a, b, s);
      MulAssoc(y, a, b);
      MulSwap(y, a * b, s);
    }
  }

  /** The fraction set up for the digit generation has the same interval. */
  lemma FractionIsHalfWay(f: nat, e: int, closer: bool, exp10: int, n: Num, d: Num, low: Num, up: Num)
    requires Fraction(f, e, closer, exp10, n, d, low, up)
    ensures HalfWay(Interval(Val(n), Val(d), Val(low), Val(up), false, f % 2 == 0), f, e, closer, exp10)
  {
    var i := Interval(Val(n), Val(d), Val(low), Val(up), false, f % 2 == 0);
    var k := RoundingInterval(f, e, closer, exp10, false);
    FractionIsProportional(f, e, closer, exp10, n, d, low, up, false, f % 2 == 0);
    IntervalIsHalfWay(f, e, closer, exp10, false);
    MulDist(i.v, i.u, k.d);
    MulDist(k.v, k.u, i.d);
    MulDist(i.v, i.l, k.d);
    MulDist(k.v, k.l, i.d);
    var a, b := Above(e, exp10), Below(e, exp10);
    SameMidpoint(2, i.v + i.u, k.v + k.u, b, (2 * f + 1) * a, i.d, k.d);
    if closer {
      SameMidpoint(4, i.v - i.l, k.v - k.l, b, (4 * f - 1) * a, i.d, k.d);
    } else {
      SameMidpoint(2, i.v - i.l, k.v - k.l, b, (2 * f - 1) * a, i.d, k.d);
    }
  }

  lemma SameMidpoint(c: int, x: int, y: int, b: int, t: int, d: int, d': int)
    requires d > 0 && d' > 0 && x * d' == y * d && c * y * b == t * d'
    ensures c * x * b == t * d
  {
    assert c * x * b * d' == t * d * d' by {
      assert c * x * b * d' == c * b * (x * d') by {
        MulSwap(c, x, b);
        MulAssoc(c * b, x, d');
      }
      assert c * b * (y * d) == c * y * b * d by {
        MulSwap(c, b, y);
        MulAssoc(c * b, y, d);
      }
      MulSwap(t, d', d);
    }
    CancelFactor(c * x * b, t * d, d');
  }

  /**
    The number that is read when m / p times 10^exp10 is rounded to the nearest significand, ties to
    even: below f the significands are half as far apart where the lower neighbour is closer.
  */
  predicate Reads(f: nat, e: int, closer: bool, exp10: int, m: nat, p: nat) {
    ReadsAs(f, closer, m * Below(e, exp10), p * Above(e, exp10))
  }

  /** The same of x / y in units of 2^e. */
  predicate ReadsAs(f: nat, closer: bool, x: int, y: int) {
    var finer := if closer && x < f * y then 2 else 1;
    x >= 0 && y > 0 && RoundHalfEven(finer * x, y) == finer * f
  }

  /** `big` is f * y; the ends belong to what reads back as f exactly when f is even. */
  predicate Between(f: nat, closer: bool, x: int, y: int, big: int) {
    && (if f % 2 == 0 then 2 * x <= 2 * big + y else 2 * x < 2 * big + y)
    && (if closer then (if f % 2 == 0 then 4 * big - y <= 4 * x else 4 * big - y < 4 * x)
        else if f % 2 == 0 then 2 * big - y <= 2 * x else 2 * big - y < 2 * x)
  }

  lemma ReadsBetween(f: nat, closer: bool, x: int, y: int)
    requires x >= 0 && y > 0 && (closer ==> f % 2 == 0)
    ensures ReadsAs(f, closer, x, y) <==> Between(f, closer, x, y, f * y)
  {
    var finer := if closer && x < f * y then 2 else 1;
    MulAssoc(2, f, y);
    RoundsToBig(finer * x, y, finer * f, finer * (f * y));
  }

  lemma InsideBetween(f: nat, e: int, closer: bool, exp10: int, m: nat, p: nat)
    ensures var x, y := m * Below(e, exp10), p * Above(e, exp10);
            Inside(RoundingInterval(f, e, closer, exp10, f % 2 == 0), m, p) <==> Between(f, closer, x, y, f * y)
  {
    assert Pow(2, 1) == 2 && Pow(2, 2) == 4;
    EndsInUnits(f, Above(e, exp10), Below(e, exp10), if closer then 4 else 2, m, p);
  }

  /** The rounding interval is what reads back as f. */
  lemma InsideReadsBack(f: nat, e: int, closer: bool, exp10: int, m: nat, p: nat)
    requires p > 0 && (closer ==> f % 2 == 0)
    ensures Inside(RoundingInterval(f, e, closer, exp10, f % 2 == 0), m, p) <==> Reads(f, e, closer, exp10, m, p)
  {
    Positive(p, Above(e, exp10));
    ReadsBetween(f, closer, m * Below(e, exp10), p * Above(e, exp10));
    InsideBetween(f, e, closer, exp10, m, p);
  }

  lemma EndsInUnits(f: int, a: int, b: int, s: int, m: int, p: int)
    ensures m * (b * s) == s * (m * b)
    ensures (f * s * a - a) * p == s * (f * (p * a)) - p * a
    ensures (f * s * a + a) * p == s * (f * (p * a)) + p * a
    ensures (f * s * a + 2 * a) * p == s * (f * (p * a)) + 2 * (p * a)
  {
    MulAssoc(m, b, s);
    MulDist(f * s * a, a, p);
    MulDist(f * s * a, 2 * a, p);
    assert f * s * a * p == s * (f * (p * a)) by {
      MulAssoc(f * s, a, p);
      MulAssoc(f, s, a * p);
    }
    MulAssoc(2, a, p);
  }

  /**
    `format_dragon` with no digit count, for a value below 10^(exp10 + 1): the digits times 10^exp
    lie in the rounding interval; in the interval searched nothing shorter does and nothing of that
    length is nearer.  Both hold of the rounding interval unless its lower end is passed over.
  */
  method FormatShortest(f: nat, e: int, closer: bool, exp10: int) returns (buf: seq<nat>, exp: int)
    requires 0 < f && f * Pow(2, Shift(closer)) < U64
    requires e >= 0 ==> exp10 >= 0
    requires f * Above(e, exp10) < 10 * Below(e, exp10)
    ensures buf != [] && exp == exp10 - (|buf| - 1)
    ensures var i := RoundingInterval(f, e, closer, exp10, LowerCounts(f, e, exp10));
            && Nearest(i, Number(buf), Pow(10, |buf| - 1)) && NoneShorter(i, buf)
            && (Digits(buf) <==> !FirstSpills(i)) && (FirstSpills(i) ==> buf == [10])
    ensures Rounded(f, e, closer, exp10, buf, Pow(10, |buf| - 1))
    ensures (closer ==> f % 2 == 0) ==> Reads(f, e, closer, exp10, Number(buf), Pow(10, |buf| - 1))
  {
    var numerator, denominator, lower, upper := SetUp(f, e, closer, exp10);
    ghost var n, d := numerator.View(), denominator.View();
    ghost var x, y := f * Above(e, exp10), Below(e, exp10);
    FractionRatio(f, e, closer, exp10, n, d, lower.View(), upper.View());
    LeadPositive(d);
    BelowTen(Val(n), Val(d), x, y);
    ReadyAtFirst(n, d);
    ExponentOrder(f, e, closer, exp10);
    LowerIsBelow(f, closer, n, lower.View());
    ghost var i := Interval(Val(n), Val(d), Val(lower.View()), Val(upper.View()), LowerCounts(f, e, exp10), f % 2 == 0);
    ghost var k := RoundingInterval(f, e, closer, exp10, LowerCounts(f, e, exp10));
    FractionIsProportional(f, e, closer, exp10, n, d, lower.View(), upper.View(), i.low, i.high);
    buf := ShortestDigits(numerator, denominator, lower, upper, f % 2 == 0, i);
    exp := exp10 - (|buf| - 1);
    SameNearest(i, k, Number(buf), Pow(10, |buf| - 1));
    forall j: nat | j < |buf| - 1 ensures Missed(k, Pow(10, j)) {
      SameMissed(i, k, Pow(10, j));
    }
    SameSpill(i, k);
    InRoundingInterval(f, e, closer, exp10, buf, Pow(10, |buf| - 1), k);
    PowPos(10, |buf| - 1);
    if closer ==> f % 2 == 0 { InsideReadsBack(f, e, closer, exp10, Number(buf), Pow(10, |buf| - 1)); }
  }

  lemma LowerIsBelow(f: nat, closer: bool, n: Num, low: Num)
    requires f > 0 && Lead(low) && Val(n) == f * Pow(2, Shift(closer)) * Val(low)
    ensures Val(low) < Val(n)
  {
    LeadPositive(low);
    assert Pow(2, 1) == 2 && Pow(2, 2) == 4;
    var s := Pow(2, Shift(closer));
    MulMono(1, f, s);
    MulMono(2, f * s, Val(low));
  }

  lemma SameSpill(i: Interval, k: Interval)
    requires Proportional(i, k)
    ensures FirstSpills(i) <==> FirstSpills(k)
  {
    MulDist(i.v, i.u, k.d);
    MulDist(k.v, k.u, i.d);
    MulDist(i.v, i.l, k.d);
    MulDist(k.v, k.l, i.d);
    MulAssoc(2, i.v, k.d);
    MulAssoc(2, k.v, i.d);
    Cross(i.v, k.v, 9, 1, i.d, k.d);
    Cross(i.v + i.u, k.v + k.u, 10, 1, i.d, k.d);
    Cross(i.v - i.l, k.v - k.l, 9, 1, i.d, k.d);
    Cross(2 * i.v, 2 * k.v, 19, 1, i.d, k.d);
  }

  /** 2 * 2^-11 is 9.765625e-4: its only digit is rounded up to "ten", a character past '9'. */
  lemma TenIsWritten()
    ensures var f, e, exp10 := 2, -11, -4;
            && f * Pow(2, 1) < U64 && f * Above(e, exp10) < 10 * Below(e, exp10)
            && FirstSpills(RoundingInterval(f, e, false, exp10, LowerCounts(f, e, exp10)))
  {
    assert Pow(2, 1) == 2 && Pow(2, 0) == 1 && Pow(10, 0) == 1;
    assert Pow(10, 4) == 10_000;
    assert Pow(2, 5) == 32;
    PowAdd(2, 5, 6);
    assert Pow(2, 6) == 64;
    assert Above(-11, -4) == 10_000 && Below(-11, -4) == 2048;
  }

  /**
    The lower end is lost when the binary exponent has more whole bigits than the decimal one:
    f = (99 * 5^20 + 1) / 2 is even, and 51904512e20 lies exactly on the lower end of the
    interval of f * 2^40.  Both ends count, so eight digits would do, yet in the interval
    searched there is no decimal of eight digits or fewer.
  */
  lemma ShorterIsPassedOver()
    ensures var f, e, exp10 := 4720687866210938, 40, 27;
            && f % 2 == 0 && f * Pow(2, 1) < U64 && f * Above(e, exp10) < 10 * Below(e, exp10)
            && PassedOver(f, e, false, exp10)
            && Inside(RoundingInterval(f, e, false, exp10, true), 51904512, 10_000_000)
            && Missed(RoundingInterval(f, e, false, exp10, LowerCounts(f, e, exp10)), 10_000_000)
  {
    var f, e, exp10 := 4720687866210938, 40, 27;
    Pow32();
    PowAdd(2, 32, 8);
    PowAdd(2, 4, 4);
    assert Pow(2, 4) == 16;
    PowAdd(10, 9, 18);
    PowAdd(10, 9, 9);
    PowAdd(10, 4, 5);
    assert Pow(10, 4) == 10_000 && Pow(10, 5) == 100_000;
    assert Pow(2, 40) == 0x100_0000_0000;
    assert Pow(10, 27) == 1_000_000_000_000_000_000_000_000_000;
    assert Above(e, exp10) == 0x100_0000_0000;
    assert Below(e, exp10) == 1_000_000_000_000_000_000_000_000_000;
    assert Pow(2, 1) == 2;
    PowAdd(10, 3, 4);
    assert Pow(10, 3) == 1000;
    var open := RoundingInterval(f, e, false, exp10, false);
    assert OnLowerEnd(open, 51904512, Pow(10, 7));
    assert LowerEndOnly(open, Pow(10, 7));
  }
}
