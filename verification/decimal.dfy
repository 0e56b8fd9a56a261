/** Decimal digit strings and rounding to the nearest integer, ties to even. */
module Decimal {
  import opened BignumMath

  /** The number a digit string stands for; a digit may temporarily be 10. */
  function Number(ds: seq<nat>): nat {
    if ds == [] then 0 else 10 * Number(ds[..|ds|-1]) + ds[|ds|-1]
  }

  predicate Digits(ds: seq<nat>) {
    forall i | 0 <= i < |ds| :: ds[i] <= 9
  }

  lemma NumberSnoc(ds: seq<nat>, d: nat)
    ensures Number(ds + [d]) == 10 * Number(ds) + d
  {
    assert (ds + [d])[..|ds|] == ds;
  }

  lemma {:induction false} NumberBound(ds: seq<nat>)
    requires Digits(ds)
    ensures Number(ds) < Pow(10, |ds|)
  {
    if ds != [] { NumberBound(ds[..|ds|-1]); }
  }

  lemma {:induction false} NumberUpdate(ds: seq<nat>, i: nat, v: nat)
    requires i < |ds|
    ensures Number(ds[i := v]) == Number(ds) + (v - ds[i]) * Pow(10, |ds| - 1 - i)
    decreases |ds|
  {
    var n := |ds| - 1;
    if i == n {
      assert ds[i := v][..n] == ds[..n];
      assert Pow(10, 0) == 1;
    } else {
      assert ds[i := v][..n] == ds[..n][i := v];
      NumberUpdate(ds[..n], i, v);
      assert Pow(10, n - i) == 10 * Pow(10, n - 1 - i);
      MulAssoc(10, v - ds[i], Pow(10, n - 1 - i));
    }
  }

  lemma {:induction false} NumberZeros(ds: seq<nat>)
    requires forall i | 0 <= i < |ds| :: ds[i] == 0
    ensures Number(ds) == 0
  {
    if ds != [] { NumberZeros(ds[..|ds|-1]); }
  }

  /** The integer nearest to x / y; of two equally near the even one (IEEE 754-2008, section 4.3.1). */
  function RoundHalfEven(x: nat, y: nat): nat
    requires y > 0
  {
    var q, r := x / y, x % y;
    if 2 * r > y || (2 * r == y && q % 2 == 1) then q + 1 else q
  }

  /** No integer is nearer to x / y. */
  lemma RoundIsNearest(x: nat, y: nat, m: int)
    requires y > 0
    ensures var n := RoundHalfEven(x, y);
            var err := x - n * y;
            var err' := x - m * y;
            && 0 <= 2 * err + y && 2 * err <= y
            && (if err < 0 then -err else err) <= (if err' < 0 then -err' else err')
            && ((2 * err == y || 2 * err + y == 0) ==> n % 2 == 0)
  {
    var q, r, n := x / y, x % y, RoundHalfEven(x, y);
    DivModValue(x, y);
    MultiplesAway(q, y, m);
    MultiplesAway(q, y, n);
    NearestArith(x, y, q, r, n, m, q * y, n * y, m * y);
  }

  lemma DivModValue(x: nat, y: nat)
    requires y > 0
    ensures x == x / y * y + x % y && 0 <= x % y < y
  {
  }

  /** The comparison of distances, with the products `a`, `b`, `c` of q, n, m by y. */
  lemma NearestArith(x: int, y: int, q: int, r: int, n: int, m: int, a: int, b: int, c: int)
    requires y > 0 && x == a + r && 0 <= r < y
    requires n == (if 2 * r > y || (2 * r == y && q % 2 == 1) then q + 1 else q)
    requires n == q ==> b == a
    requires n == q + 1 ==> b == a + y
    requires (m < q ==> c <= a - y) && (m == q ==> c == a) && (m == q + 1 ==> c == a + y)
               && (m > q + 1 ==> c >= a + 2 * y)
    ensures 0 <= 2 * (x - b) + y && 2 * (x - b) <= y
    ensures (if x - b < 0 then b - x else x - b) <= (if x - c < 0 then c - x else x - c)
    ensures 2 * (x - b) == y || 2 * (x - b) + y == 0 ==> n % 2 == 0
  {
  }

  lemma MultiplesAway(q: int, y: int, m: int)
    requires y > 0
    ensures m < q ==> m * y <= q * y - y
    ensures m == q + 1 ==> m * y == q * y + y
    ensures m > q + 1 ==> m * y >= q * y + 2 * y
  {
    MulDist(q, 1, y);
    MulDist(q, 2, y);
    if m < q { MulMono(m, q - 1, y); }
    if m > q + 1 { MulMono(q + 2, m, y); }
  }

  lemma QuotientIs(x: nat, y: nat, q: int, r: int)
    requires y > 0 && x == q * y + r && 0 <= r < y
    ensures x / y == q && x % y == r
  {
    DivUnique(x, y, q, r);
  }

  /** Rounding depends only on the ratio. */
  lemma RoundRatio(x: nat, y: nat, x': nat, y': nat)
    requires y > 0 && y' > 0 && x * y' == x' * y
    ensures RoundHalfEven(x, y) == RoundHalfEven(x', y')
  {
    var q, r := x / y, x % y;
    var r' := x' - q * y';
    RatioArith(x, y, x', y', q, r, r');
    QuotientIs(x', y', q, r');
  }

  lemma RatioArith(x: int, y: int, x': int, y': int, q: int, r: int, r': int)
    requires y > 0 && y' > 0 && x * y' == x' * y
    requires x == q * y + r && 0 <= r < y && x' == q * y' + r'
    ensures 0 <= r' < y'
    ensures 2 * r > y <==> 2 * r' > y'
    ensures 2 * r == y <==> 2 * r' == y'
  {
    assert r * y' == r' * y by {
      MulDist(q * y, r, y');
      MulDist(q * y', r', y);
      MulSwap(q, y, y');
    }
    if r' < 0 { MulMono(r', -1, y); MulMono(0, r, y'); }
    if r' >= y' { MulMono(y', r', y); MulMono(r, y - 1, y'); MulDist(y, 1, y'); }
    HalfArith(r, y, r', y');
    HalfArith(r', y', r, y);
  }

  lemma HalfArith(r: int, y: int, r': int, y': int)
    requires y > 0 && y' > 0 && r * y' == r' * y
    ensures 2 * r > y ==> 2 * r' > y'
    ensures 2 * r == y ==> 2 * r' == y'
    ensures 2 * r < y ==> 2 * r' < y'
  {
    assert (2 * r - y) * y' == (2 * r' - y') * y by {
      MulDist(2 * r, y, y');
      MulDist(2 * r', y', y);
      MulAssoc(2, r, y');
      MulAssoc(2, r', y);
    }
    var a, b := 2 * r - y, 2 * r' - y';
    if a > 0 && b <= 0 { MulMono(b, 0, y); MulMono(1, a, y'); }
    if a < 0 && b >= 0 { MulMono(0, b, y); MulMono(a, -1, y'); }
    if a == 0 && b > 0 { MulMono(1, b, y); }
    if a == 0 && b < 0 { MulMono(b, -1, y); }
  }

  /** A number rounds to n exactly if it lies between n - 1/2 and n + 1/2, the ends included for an even n. */
  lemma RoundsTo(x: nat, y: nat, n: nat)
    requires y > 0
    ensures RoundHalfEven(x, y) == n <==>
            if n % 2 == 0 then (2 * n - 1) * y <= 2 * x <= (2 * n + 1) * y
            else (2 * n - 1) * y < 2 * x < (2 * n + 1) * y
  {
    RoundsToBig(x, y, n, n * y);
    MulDist(2 * n, 1, y);
    MulAssoc(2, n, y);
  }

  /** The same with `big` for n * y. */
  lemma RoundsToBig(x: nat, y: nat, n: nat, big: int)
    requires y > 0 && big == n * y
    ensures RoundHalfEven(x, y) == n <==>
            if n % 2 == 0 then 2 * big - y <= 2 * x <= 2 * big + y else 2 * big - y < 2 * x < 2 * big + y
  {
    var q, r := x / y, x % y;
    DivModValue(x, y);
    MultiplesAway(q, y, n);
    RoundsToArith(x, y, q, r, n, q * y, big);
  }

  lemma RoundsToArith(x: int, y: int, q: int, r: int, n: int, a: int, b: int)
    requires y > 0 && x == a + r && 0 <= r < y
    requires (n < q ==> b <= a - y) && (n == q ==> b == a) && (n == q + 1 ==> b == a + y)
               && (n > q + 1 ==> b >= a + 2 * y)
    ensures (if 2 * r > y || (2 * r == y && q % 2 == 1) then q + 1 else q) == n <==>
            if n % 2 == 0 then 2 * b - y <= 2 * x <= 2 * b + y else 2 * b - y < 2 * x < 2 * b + y
  {
  }
}
