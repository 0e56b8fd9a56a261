/**
  `format_dragon`: decimal digits of f * 2^e by the Steele-White (FPP)^2 algorithm on big
  integers.  `exp10` is the caller's estimate of the decimal exponent.
*/
module Dragon {
  import opened BignumMath
  import opened Bigints
  import opened Decimal

  function Up(x: int): nat { if x > 0 then x else 0 }
  function Down(x: int): nat { if x < 0 then -x else 0 }

  /** 2^e / 10^exp10 is Above / Below. */
  function Above(e: int, exp10: int): (r: nat)
    ensures r > 0
  {
    PowPos(2, Up(e));
    PowPos(10, Down(exp10));
    Positive(Pow(2, Up(e)), Pow(10, Down(exp10)));
    Pow(2, Up(e)) * Pow(10, Down(exp10))
  }

  function Below(e: int, exp10: int): (r: nat)
    ensures r > 0
  {
    PowPos(10, Up(exp10));
    PowPos(2, Down(e));
    Positive(Pow(10, Up(exp10)), Pow(2, Down(e)));
    Pow(10, Up(exp10)) * Pow(2, Down(e))
  }

  lemma Positive(a: int, b: int)
    requires a > 0 && b > 0
    ensures a * b > 0
  {
  }

  /** The ratio is 1 at zero, doubles with e and is a tenth with the next exp10: it is 2^e / 10^exp10. */
  lemma RatioOfPowers(e: int, exp10: int)
    ensures Above(0, 0) == Below(0, 0)
    ensures Above(e + 1, exp10) * Below(e, exp10) == 2 * (Above(e, exp10) * Below(e + 1, exp10))
    ensures 10 * (Above(e, exp10 + 1) * Below(e, exp10)) == Above(e, exp10) * Below(e, exp10 + 1)
  {
    assert Pow(2, 0) == 1 && Pow(10, 0) == 1;
    NextBinary(e, exp10);
    NextDecimal(e, exp10);
  }

  lemma NextBinary(e: int, exp10: int)
    ensures Above(e + 1, exp10) * Below(e, exp10) == 2 * (Above(e, exp10) * Below(e + 1, exp10))
  {
    var t, s := Pow(10, Down(exp10)), Pow(10, Up(exp10));
    if e >= 0 {
      assert Pow(2, e + 1) == 2 * Pow(2, e);
      MulAssoc(2, Pow(2, e), t);
      MulAssoc(2, Above(e, exp10), Below(e, exp10));
    } else {
      assert Pow(2, -e) == 2 * Pow(2, -e - 1);
      TwiceRight(s, Pow(2, -e - 1));
      TwiceRight(Above(e, exp10), Below(e + 1, exp10));
    }
  }

  lemma TwiceRight(x: int, y: int)
    ensures x * (2 * y) == 2 * (x * y)
  {
  }

  lemma TenTimesRight(x: int, y: int)
    ensures x * (10 * y) == 10 * (x * y) && 10 * x * y == 10 * (x * y)
  {
  }

  lemma NextDecimal(e: int, exp10: int)
    ensures 10 * (Above(e, exp10 + 1) * Below(e, exp10)) == Above(e, exp10) * Below(e, exp10 + 1)
  {
    var p, q := Pow(2, Up(e)), Pow(2, Down(e));
    if exp10 >= 0 {
      assert Pow(10, exp10 + 1) == 10 * Pow(10, exp10);
      TenTimesRight(Pow(10, exp10), q);
      TenTimesRight(Above(e, exp10), Below(e, exp10));
    } else {
      assert Pow(10, -exp10) == 10 * Pow(10, -exp10 - 1);
      TenTimesRight(p, Pow(10, -exp10 - 1));
      TenTimesRight(Above(e, exp10 + 1), Below(e, exp10));
    }
  }

  function Shift(closer: bool): nat { if closer then 2 else 1 }

  // ---------------------------------------------------------------------------
  // Numerator and denominator never meet with the wrong exponents

  /** However often it is multiplied by 10, `n` does not become `d`. */
  ghost predicate NeverHits(n: nat, d: nat) {
    forall j: nat :: n * Pow(10, j) != d
  }

  lemma {:induction false} FiveIsOdd(k: nat)
    ensures Pow(5, k) % 2 == 1
  {
    if k > 0 { FiveIsOdd(k - 1); }
  }

  lemma {:induction false} TwoIsNotFive(k: nat)
    ensures Pow(2, k) % 5 != 0
  {
    if k > 0 { TwoIsNotFive(k - 1); }
  }

  lemma {:induction false} TenToThe(k: nat)
    ensures Pow(10, k) == Pow(5, k) * Pow(2, k)
  {
    PowMul(5, 2, k);
  }

  /** f * 2^e is not a power of ten below 10^e. */
  lemma NoPowerOfTen(f: nat, e: nat, k: nat)
    requires f > 0 && k < e
    ensures f * Pow(2, e) != Pow(10, k)
  {
    TenToThe(k);
    FiveIsOdd(k);
    PowAdd(2, k, e - k);
    PowPos(2, k);
    EvenIsNotOdd(f, Pow(2, k), Pow(2, e - k - 1), Pow(5, k));
  }

  lemma EvenIsNotOdd(f: int, p: int, half: int, odd: int)
    requires p > 0 && odd % 2 == 1
    ensures f * (p * (2 * half)) != odd * p
  {
    var q := 2 * half;
    assert f * (p * q) == f * q * p by { MulAssoc(f, p, q); MulSwap(f, q, p); }
    MulAssoc(2, f, half);
    if f * q * p == odd * p { CancelFactor(f * q, odd, p); }
  }

  lemma CancelFactor(a: int, b: int, p: int)
    requires p > 0 && a * p == b * p
    ensures a == b
  {
    MulDist(a, b, p);
    if a - b >= 1 { MulMono(1, a - b, p); }
    if a - b <= -1 { MulMono(a - b, -1, p); }
  }

  lemma {:induction false} TenGrows(j: nat, k: nat)
    requires j < k
    ensures Pow(10, j) < Pow(10, k)
  {
    PowMono(10, j + 1, k);
    PowPos(10, j);
  }

  /** Nonnegative binary exponent: a numerator with the larger stored exponent never hits the denominator. */
  lemma NeverHitsUp(f: nat, e: nat, k: nat, s: nat)
    requires f > 0 && k < e
    ensures NeverHits(f * Pow(2, s) * Pow(2, e), Pow(10, k) * Pow(2, s))
  {
    forall j: nat
      ensures f * Pow(2, s) * Pow(2, e) * Pow(10, j) != Pow(10, k) * Pow(2, s)
    {
      NotATenth(f, e, k, j);
      PowPos(2, s);
      CommonFactor(f, Pow(2, s), Pow(2, e), Pow(10, j), Pow(10, k));
    }
  }

  lemma CommonFactor(f: int, p: int, q: int, t: int, u: int)
    requires p > 0 && f * q * t != u
    ensures f * p * q * t != u * p
  {
    assert f * p * q * t == f * q * t * p by {
      MulSwap(f, p, q);
      MulSwap(f * q, p, t);
    }
    if f * q * t * p == u * p { CancelFactor(f * q * t, u, p); }
  }

  /** f * 2^e times a power of ten is not a power of ten below 10^e. */
  lemma NotATenth(f: nat, e: nat, k: nat, j: nat)
    requires f > 0 && k < e
    ensures f * Pow(2, e) * Pow(10, j) != Pow(10, k)
  {
    var x := f * Pow(2, e);
    if j <= k {
      PowAdd(10, k - j, j);
      PowPos(10, j);
      NoPowerOfTen(f, e, k - j);
      if x * Pow(10, j) == Pow(10, k) { CancelFactor(x, Pow(10, k - j), Pow(10, j)); }
    } else {
      PowPos(2, e);
      Positive(f, Pow(2, e));
      MulMono(1, x, Pow(10, j));
      TenGrows(k, j);
    }
  }

  /** Negative decimal exponent: the numerator has a factor 5, the denominator is a power of two. */
  lemma NeverHitsDown(m: nat, sig: nat, t: nat)
    requires m > 0
    ensures NeverHits(Pow(10, m) * sig, Pow(2, t))
  {
    TwoIsNotFive(t);
    forall j: nat
      ensures Pow(10, m) * sig * Pow(10, j) != Pow(2, t)
    {
      var p := Pow(10, m - 1);
      assert Pow(10, m) * sig * Pow(10, j) == 5 * (2 * (p * sig * Pow(10, j))) by {
        MulAssoc(10, p, sig);
        MulAssoc(10, p * sig, Pow(10, j));
      }
    }
  }

  // ---------------------------------------------------------------------------
  // Setting up the fraction

  /**
    The numbers the digit generation works on: value / 10^exp10 is numerator / denominator,
    and `lower`, `upper` are its distances from the boundaries of its rounding interval.
  */
  ghost predicate Fraction(f: nat, e: int, closer: bool, exp10: int, n: Num, d: Num, low: Num, up: Num) {
    && Lead(n) && Lead(d) && Lead(low) && Lead(up)
    && Val(n) == f * Pow(2, Shift(closer)) * Val(low)
    && Val(up) == (if closer then 2 * Val(low) else Val(low))
    && Val(low) * (Below(e, exp10) * Pow(2, Shift(closer))) == Above(e, exp10) * Val(d)
    && n.exp == low.exp
    && (n.exp <= d.exp || NeverHits(Val(n), Val(d)))
  }

  /** Whole bigits in the stored exponents after the shifts of the set-up. */
  function LowerExp(e: int, exp10: int): int {
    if e >= 0 then e / 32 else if exp10 < 0 then -exp10 / 32 else 0
  }

  function BelowExp(e: int, closer: bool, exp10: int): int {
    if e >= 0 then exp10 / 32
    else if exp10 < 0 then (Shift(closer) - e) / 32
    else exp10 / 32 + (Shift(closer) - e) / 32
  }

  /** The first part of `format_dragon`: three cases by the signs of the exponents. */
  method SetUp(f: nat, e: int, closer: bool, exp10: int)
    returns (numerator: Bigint, denominator: Bigint, lower: Bigint, upper: Bigint)
    requires 0 < f && f * Pow(2, Shift(closer)) < U64
    requires e >= 0 ==> exp10 >= 0
    ensures fresh(numerator) && fresh(denominator) && fresh(lower) && fresh(upper)
    ensures Apart(closer, numerator, denominator, lower, upper)
    ensures Fraction(f, e, closer, exp10, numerator.View(), denominator.View(), lower.View(), upper.View())
    ensures lower.exp == LowerExp(e, exp10) && denominator.exp == BelowExp(e, closer, exp10)
  {
    numerator := new Bigint();
    denominator := new Bigint();
    lower := new Bigint();
    upper := lower;
    if closer { upper := new Bigint(); }
    if e >= 0 {
      SetUpLarge(f, e, closer, exp10, numerator, denominator, lower, upper);
    } else if exp10 < 0 {
      SetUpSmall(f, e, closer, exp10, numerator, denominator, lower, upper);
    } else {
      SetUpMiddle(f, e, closer, exp10, numerator, denominator, lower, upper);
    }
  }

  predicate Apart(closer: bool, numerator: Bigint, denominator: Bigint, lower: Bigint, upper: Bigint) {
    && numerator != denominator && numerator != lower && numerator != upper
    && denominator != lower && denominator != upper && (upper == lower <==> !closer)
  }

  method SetUpLarge(f: nat, e: nat, closer: bool, exp10: nat,
                    numerator: Bigint, denominator: Bigint, lower: Bigint, upper: Bigint)
    requires 0 < f && f * Pow(2, Shift(closer)) < U64 && Apart(closer, numerator, denominator, lower, upper)
    modifies numerator, denominator, lower, upper
    ensures Fraction(f, e, closer, exp10, numerator.View(), denominator.View(), lower.View(), upper.View())
    ensures lower.exp == LowerExp(e, exp10) && denominator.exp == BelowExp(e, closer, exp10)
  {
    var shift := Shift(closer);
    PowPos(2, shift);
    Positive(f, Pow(2, shift));
    numerator.AssignInt(f * Pow(2, shift));
    numerator.ShiftLeft(e);
    lower.AssignInt(1);
    lower.ShiftLeft(e);
    if closer {
      upper.AssignInt(1);
      upper.ShiftLeft(e + 1);
    }
    denominator.AssignPow10(exp10);
    denominator.ShiftLeft(shift);
    if numerator.exp > denominator.exp { NeverHitsUp(f, e, exp10, shift); }
    RatioUp(e, exp10, shift);
  }

  method SetUpSmall(f: nat, e: int, closer: bool, exp10: int,
                    numerator: Bigint, denominator: Bigint, lower: Bigint, upper: Bigint)
    requires 0 < f && f * Pow(2, Shift(closer)) < U64 && e < 0 && exp10 < 0
    requires Apart(closer, numerator, denominator, lower, upper)
    modifies numerator, denominator, lower, upper
    ensures Fraction(f, e, closer, exp10, numerator.View(), denominator.View(), lower.View(), upper.View())
    ensures lower.exp == LowerExp(e, exp10) && denominator.exp == BelowExp(e, closer, exp10)
  {
    var shift := Shift(closer);
    PowPos(2, shift);
    Positive(f, Pow(2, shift));
    numerator.AssignPow10(-exp10);
    lower.Assign(numerator);
    if closer {
      upper.Assign(numerator);
      upper.ShiftLeft(1);
      assert Pow(2, 1) == 2;
    }
    var significand := f * Pow(2, shift);
    ghost var ten := Pow(10, -exp10);
    numerator.Multiply64(significand);
    assert Val(numerator.View()) == ten * significand;
    denominator.AssignInt(1);
    denominator.ShiftLeft(shift - e);
    NeverHitsDown(-exp10, significand, shift - e);
    RatioDown(e, exp10, shift);
    MulSwap(1, ten, significand);
  }

  method SetUpMiddle(f: nat, e: int, closer: bool, exp10: nat,
                     numerator: Bigint, denominator: Bigint, lower: Bigint, upper: Bigint)
    requires 0 < f && f * Pow(2, Shift(closer)) < U64 && e < 0
    requires Apart(closer, numerator, denominator, lower, upper)
    modifies numerator, denominator, lower, upper
    ensures Fraction(f, e, closer, exp10, numerator.View(), denominator.View(), lower.View(), upper.View())
    ensures lower.exp == LowerExp(e, exp10) && denominator.exp == BelowExp(e, closer, exp10)
  {
    var shift := Shift(closer);
    PowPos(2, shift);
    Positive(f, Pow(2, shift));
    numerator.AssignInt(f * Pow(2, shift));
    denominator.AssignPow10(exp10);
    denominator.ShiftLeft(shift - e);
    lower.AssignInt(1);
    if closer { upper.AssignInt(2); }
    RatioMixed(e, exp10, shift);
  }

  lemma RatioUp(e: int, exp10: int, s: nat)
    requires e >= 0 && exp10 >= 0
    ensures Pow(2, e) * (Below(e, exp10) * Pow(2, s)) == Above(e, exp10) * (Pow(10, exp10) * Pow(2, s))
    ensures Pow(2, e + 1) == 2 * Pow(2, e)
  {
    assert Below(e, exp10) == Pow(10, exp10) && Above(e, exp10) == Pow(2, e);
  }

  lemma RatioDown(e: int, exp10: int, s: nat)
    requires e < 0 && exp10 < 0
    ensures Pow(10, -exp10) * (Below(e, exp10) * Pow(2, s)) == Above(e, exp10) * Pow(2, s - e)
  {
    assert Below(e, exp10) == Pow(2, -e) && Above(e, exp10) == Pow(10, -exp10);
    PowAdd(2, -e, s);
  }

  lemma RatioMixed(e: int, exp10: int, s: nat)
    requires e < 0 && exp10 >= 0
    ensures Below(e, exp10) * Pow(2, s) == Above(e, exp10) * (Pow(10, exp10) * Pow(2, s - e))
  {
    assert Above(e, exp10) == 1;
    PowAdd(2, -e, s);
    MulAssoc(Pow(10, exp10), Pow(2, -e), Pow(2, s));
  }

  // ---------------------------------------------------------------------------
  // One digit

  /** A numerator below ten times the denominator, fit for `divmod_assign`. */
  ghost predicate Ready(n: Num, d: Num) {
    && Lead(d) && Tidy(n)
    && Val(n) < 10 * Val(d)
    && NumBigits(n) <= NumBigits(d) + 1
    && (NumBigits(n) > NumBigits(d) ==> Lead(n))
    && (n.exp <= d.exp || NeverHits(Val(n), Val(d)))
  }

  /** What is left after a digit has been taken off. */
  ghost predicate Remains(n: Num, d: Num) {
    && Lead(d) && Tidy(n)
    && Val(n) < Val(d)
    && NumBigits(n) <= NumBigits(d)
    && (n.exp <= d.exp || NeverHits(Val(n), Val(d)))
  }

  lemma ReadyAtFirst(n: Num, d: Num)
    requires Lead(n) && Lead(d) && Val(n) < 10 * Val(d)
    requires n.exp <= d.exp || NeverHits(Val(n), Val(d))
    ensures Ready(n, d)
  {
    if NumBigits(n) > NumBigits(d) + 1 {
      ValLead(n);
      ValBound(d);
      PowMono(B, NumBigits(d) + 1, NumBigits(n) - 1);
      assert Pow(B, NumBigits(d) + 1) == B * Pow(B, NumBigits(d));
    }
  }

  method TakeDigit(numerator: Bigint, denominator: Bigint) returns (digit: nat)
    requires numerator != denominator && Ready(numerator.View(), denominator.View())
    modifies numerator
    ensures digit <= 9
    ensures old(Val(numerator.View())) == digit * Val(denominator.View()) + Val(numerator.View())
    ensures Remains(numerator.View(), denominator.View())
    ensures numerator.exp ==
            if digit > 0 && old(numerator.exp) > denominator.exp then denominator.exp else old(numerator.exp)
  {
    ghost var n, d := numerator.View(), denominator.View();
    if n.exp > d.exp { assert Val(n) * Pow(10, 0) != Val(d); }
    digit := numerator.DivmodAssign(denominator);
    if digit >= 10 { MulMono(10, digit, Val(d)); }
    if digit == 0 { assert Val(numerator.View()) == Val(n); }
  }

  method TimesTen(numerator: Bigint, denominator: Bigint)
    requires numerator != denominator && Remains(numerator.View(), denominator.View())
    modifies numerator
    ensures Val(numerator.View()) == 10 * old(Val(numerator.View()))
    ensures Ready(numerator.View(), denominator.View())
    ensures numerator.exp == old(numerator.exp)
  {
    ghost var n, d := numerator.View(), denominator.View();
    numerator.Multiply32(10);
    if n.exp > d.exp {
      forall j: nat
        ensures Val(numerator.View()) * Pow(10, j) != Val(d)
      {
        assert Val(n) * Pow(10, j + 1) != Val(d);
        MulAssoc(Val(n), 10, Pow(10, j));
      }
    }
  }

  // ---------------------------------------------------------------------------
  // A given number of digits

  /** `ds` are the digits generated so far and `v` the numerator for the next one. */
  predicate SoFar(v0: int, d: int, ds: seq<nat>, v: int) {
    v0 * Pow(10, |ds|) == 10 * (Number(ds) * d) + v
  }

  lemma SoFarStep(v0: int, d: int, ds: seq<nat>, v: int, digit: nat, r: int)
    requires SoFar(v0, d, ds, v) && v == digit * d + r
    ensures v0 * Pow(10, |ds|) == Number(ds + [digit]) * d + r
    ensures SoFar(v0, d, ds + [digit], 10 * r)
  {
    NumberSnoc(ds, digit);
    DigitArith(v0, Pow(10, |ds|), Number(ds), d, v, digit, r);
  }

  lemma DigitArith(v0: int, p: int, m: int, d: int, v: int, g: int, r: int)
    requires v0 * p == 10 * (m * d) + v && v == g * d + r
    ensures v0 * p == (10 * m + g) * d + r
    ensures v0 * (10 * p) == 10 * ((10 * m + g) * d) + 10 * r
  {
    MulDist(10 * m, g, d);
    MulAssoc(10, m, d);
    MulAssoc(v0, 10, p);
  }

  /** The loop for all digits but the last, then the last digit unrounded. */
  method GenerateDigits(numerator: Bigint, denominator: Bigint, numDigits: nat) returns (buf: seq<nat>)
    requires numDigits > 0 && numerator != denominator && Ready(numerator.View(), denominator.View())
    modifies numerator
    ensures |buf| == numDigits && Digits(buf)
    ensures old(Val(numerator.View())) * Pow(10, numDigits - 1) ==
              Number(buf) * Val(denominator.View()) + Val(numerator.View())
    ensures Remains(numerator.View(), denominator.View())
  {
    ghost var v0, d := Val(numerator.View()), denominator.View();
    buf := [];
    while |buf| < numDigits - 1
      invariant |buf| <= numDigits - 1 && Digits(buf)
      invariant denominator.View() == d && Ready(numerator.View(), d)
      invariant SoFar(v0, Val(d), buf, Val(numerator.View()))
      decreases numDigits - |buf|
    {
      ghost var v := Val(numerator.View());
      var digit := TakeDigit(numerator, denominator);
      SoFarStep(v0, Val(d), buf, v, digit, Val(numerator.View()));
      TimesTen(numerator, denominator);
      buf := buf + [digit];
    }
    ghost var v := Val(numerator.View());
    var digit := TakeDigit(numerator, denominator);
    SoFarStep(v0, Val(d), buf, v, digit, Val(numerator.View()));
    buf := buf + [digit];
  }

  /** Adds 1 to the number: the last digit, or the carry chain when it is 9; `bumped` says that it ran over the top. */
  method RoundUp(digits: seq<nat>) returns (buf: seq<nat>, bumped: bool)
    requires digits != [] && Digits(digits)
    ensures |buf| == |digits| && Digits(buf)
    ensures bumped <==> Number(digits) + 1 == Pow(10, |digits|)
    ensures Number(buf) == if bumped then Pow(10, |digits| - 1) else Number(digits) + 1
  {
    var n := |digits|;
    NumberUpdate(digits, n - 1, digits[n-1] + 1);
    assert Pow(10, 0) == 1;
    buf := digits[n - 1 := digits[n-1] + 1];
    if digits[n-1] == 9 {
      buf := PropagateCarry(buf);
    }
    bumped := buf[0] == 10;
    if bumped {
      OneAndZeros(buf);
      buf := buf[0 := 1];
    } else {
      NumberBound(buf);
    }
  }

  /** `overflow` digits move into the next place until none is left but possibly the first. */
  method PropagateCarry(digits: seq<nat>) returns (buf: seq<nat>)
    requires digits != [] && digits[|digits|-1] == 10 && Digits(digits[..|digits|-1])
    ensures |buf| == |digits| && Number(buf) == Number(digits)
    ensures forall k | 1 <= k < |buf| :: buf[k] <= 9
    ensures buf[0] <= 10 && (buf[0] == 10 ==> forall k | 1 <= k < |buf| :: buf[k] == 0)
  {
    buf := digits;
    var i := |buf| - 1;
    assert forall k | 0 <= k < i :: digits[..i][k] == buf[k];
    while i > 0 && buf[i] == 10
      invariant 0 <= i < |buf| == |digits|
      invariant forall k | 0 <= k < |buf| :: buf[k] <= if k == i then 10 else 9
      invariant forall k | i < k < |buf| :: buf[k] == 0
      invariant Number(buf) == Number(digits)
    {
      CarryKeeps(buf, i);
      buf := buf[i := 0][i - 1 := buf[i-1] + 1];
      i := i - 1;
    }
  }

  lemma OneAndZeros(buf: seq<nat>)
    requires buf != [] && buf[0] == 10 && forall k | 1 <= k < |buf| :: buf[k] == 0
    ensures Number(buf) == Pow(10, |buf|) && Number(buf[0 := 1]) == Pow(10, |buf| - 1)
  {
    NumberUpdate(buf, 0, 1);
    NumberUpdate(buf, 0, 0);
    NumberZeros(buf[0 := 0]);
  }

  lemma CarryKeeps(buf: seq<nat>, i: nat)
    requires 0 < i < |buf| && buf[i] == 10
    ensures Number(buf[i := 0][i - 1 := buf[i-1] + 1]) == Number(buf)
  {
    NumberUpdate(buf, i, 0);
    NumberUpdate(buf[i := 0], i - 1, buf[i-1] + 1);
    assert Pow(10, |buf| - i) == 10 * Pow(10, |buf| - 1 - i);
  }

  /** Rounding the last digit as the source does is rounding to the nearest even integer. */
  method FixedDigits(numerator: Bigint, denominator: Bigint, numDigits: nat) returns (buf: seq<nat>, bumped: bool)
    requires numDigits > 0 && numerator != denominator && Ready(numerator.View(), denominator.View())
    modifies numerator
    ensures |buf| == numDigits && Digits(buf) && Val(denominator.View()) > 0
    ensures Number(buf) * (if bumped then 10 else 1)
              == RoundHalfEven(old(Val(numerator.View())) * Pow(10, numDigits - 1), Val(denominator.View()))
    ensures bumped ==> Number(buf) == Pow(10, numDigits - 1)
  {
    LeadPositive(denominator.View());
    ghost var x := Val(numerator.View()) * Pow(10, numDigits - 1);
    buf := GenerateDigits(numerator, denominator, numDigits);
    QuotientIs(x, Val(denominator.View()), Number(buf), Val(numerator.View()));
    var result := AddCompare(numerator, numerator, denominator);
    bumped := false;
    LastDigitParity(buf);
    if result > 0 || (result == 0 && buf[numDigits-1] % 2 != 0) {
      ghost var q := Number(buf);
      buf, bumped := RoundUp(buf);
      assert Pow(10, numDigits) == 10 * Pow(10, numDigits - 1);
    }
  }

  lemma LastDigitParity(ds: seq<nat>)
    requires ds != []
    ensures Number(ds) % 2 == ds[|ds|-1] % 2
  {
  }

  // ---------------------------------------------------------------------------
  // The whole of format_dragon with a given number of digits

  lemma FractionRatio(f: nat, e: int, closer: bool, exp10: int, n: Num, d: Num, low: Num, up: Num)
    requires Fraction(f, e, closer, exp10, n, d, low, up)
    ensures Val(n) * Below(e, exp10) == f * Above(e, exp10) * Val(d)
  {
    RatioCancel(f, Pow(2, Shift(closer)), Val(low), Below(e, exp10), Above(e, exp10), Val(d));
  }

  lemma RatioCancel(f: int, s: int, l: int, b: int, a: int, d: int)
    requires l * (b * s) == a * d
    ensures f * s * l * b == f * a * d
  {
    assert f * s * l * b == f * (l * (b * s)) by {
      MulAssoc(f * s, l, b);
      MulAssoc(f, s, l * b);
      MulAssoc(s, l, b);
      MulSwap(l, b, s);
      MulAssoc(l, b, s);
    }
    MulAssoc(f, a, d);
  }

  lemma BelowTen(n: int, d: int, x: int, y: int)
    requires y > 0 && n * y == x * d && x < 10 * y && d > 0
    ensures n < 10 * d
  {
    MulMono(x + 1, 10 * y, d);
    MulDist(x, 1, d);
    if n >= 10 * d {
      MulMono(10 * d, n, y);
      MulAssoc(10, d, y);
      MulAssoc(10, y, d);
    }
  }

  /** Multiplying both terms by powers of ten keeps the ratio. */
  lemma RatioScaled(n: int, d: int, x: int, y: int, p: int)
    requires n * y == x * d
    ensures n * p * y == x * p * d && n * (10 * y) == x * (10 * d)
  {
    MulSwap(n, p, y);
    MulSwap(x, p, d);
    MulAssoc(n, 10, y);
    MulAssoc(x, 10, d);
  }

  /**
    `format_dragon` with `numDigits` >= 0, for a value below 10^(exp10 + 1): the digits times
    10^exp are f * 2^e rounded to that many digits, ties to even, carry and exponent bump included.
  */
  method FormatFixed(f: nat, e: int, closer: bool, numDigits: nat, exp10: int) returns (buf: seq<nat>, exp: int)
    requires 0 < f && f * Pow(2, Shift(closer)) < U64
    requires e >= 0 ==> exp10 >= 0
    requires f * Above(e, exp10) < 10 * Below(e, exp10)
    ensures Digits(buf) && |buf| == if numDigits == 0 then 1 else numDigits
    ensures numDigits == 0 ==>
              && exp == exp10 + 1
              && Number(buf) == RoundHalfEven(f * Above(e, exp10), 10 * Below(e, exp10))
    ensures numDigits > 0 ==>
              var unit := exp10 - (numDigits - 1);
              && unit <= exp <= unit + 1
              && Number(buf) * Pow(10, exp - unit) ==
                 RoundHalfEven(f * Above(e, exp10) * Pow(10, numDigits - 1), Below(e, exp10))
              && (exp == unit + 1 ==> Number(buf) == Pow(10, numDigits - 1))
  {
    var numerator, denominator, lower, upper := SetUp(f, e, closer, exp10);
    ghost var n, d, x, y := numerator.View(), denominator.View(), f * Above(e, exp10), Below(e, exp10);
    FractionRatio(f, e, closer, exp10, n, d, lower.View(), upper.View());
    LeadPositive(d);
    BelowTen(Val(n), Val(d), x, y);
    ReadyAtFirst(n, d);
    exp := exp10 - (numDigits - 1);
    if numDigits == 0 {
      buf := NoDigits(numerator, denominator, x, y);
    } else {
      var bumped;
      buf, bumped := SomeDigits(numerator, denominator, numDigits, x, y);
      if bumped { exp := exp + 1; }
      assert Pow(10, 0) == 1 && Pow(10, 1) == 10;
    }
  }

  /** With x / y for the value instead of the fraction set up for it. */
  method NoDigits(numerator: Bigint, denominator: Bigint, ghost x: nat, ghost y: nat) returns (buf: seq<nat>)
    requires numerator != denominator && Lead(numerator.View()) && Lead(denominator.View())
    requires Val(numerator.View()) < 10 * Val(denominator.View())
    requires y > 0 && Val(numerator.View()) * y == x * Val(denominator.View())
    modifies denominator
    ensures |buf| == 1 && Digits(buf) && Number(buf) == RoundHalfEven(x, 10 * y)
  {
    ghost var v, d := Val(numerator.View()), Val(denominator.View());
    var digit := LastResort(numerator, denominator);
    RatioScaled(v, d, x, y, 1);
    RoundRatio(v, 10 * d, x, 10 * y);
    buf := [digit];
    assert buf[..0] == [];
  }

  method SomeDigits(numerator: Bigint, denominator: Bigint, numDigits: nat, ghost x: nat, ghost y: nat)
    returns (buf: seq<nat>, bumped: bool)
    requires numDigits > 0 && numerator != denominator && Ready(numerator.View(), denominator.View())
    requires y > 0 && Val(numerator.View()) * y == x * Val(denominator.View())
    modifies numerator
    ensures |buf| == numDigits && Digits(buf)
    ensures Number(buf) * (if bumped then 10 else 1) == RoundHalfEven(x * Pow(10, numDigits - 1), y)
    ensures bumped ==> Number(buf) == Pow(10, numDigits - 1)
  {
    ghost var v, d := Val(numerator.View()), Val(denominator.View());
    LeadPositive(denominator.View());
    buf, bumped := FixedDigits(numerator, denominator, numDigits);
    ghost var p := Pow(10, numDigits - 1);
    RatioScaled(v, d, x, y, p);
    RoundRatio(v * p, d, x * p, y);
  }

  /** The branch for no digits at all: 1 if the value is more than half a unit, else 0. */
  method LastResort(numerator: Bigint, denominator: Bigint) returns (digit: nat)
    requires numerator != denominator && Lead(numerator.View()) && Lead(denominator.View())
    requires Val(numerator.View()) < 10 * Val(denominator.View())
    modifies denominator
    ensures digit <= 1 && old(Val(denominator.View())) > 0
    ensures digit == RoundHalfEven(Val(numerator.View()), 10 * old(Val(denominator.View())))
  {
    LeadPositive(denominator.View());
    ghost var v, d := Val(numerator.View()), Val(denominator.View());
    denominator.Multiply32(10);
    var result := AddCompare(numerator, numerator, denominator);
    QuotientIs(v, 10 * d, 0, v);
    return if result > 0 then 1 else 0;
  }
}
