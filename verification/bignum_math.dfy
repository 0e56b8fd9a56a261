/** Positional notation in base 2^32. */
module BignumMath {
  const B: int := 0x1_0000_0000

  type Bigit = x: int | 0 <= x < B

  function Pow(b: nat, e: nat): (r: nat) {
    if e == 0 then 1 else b * Pow(b, e - 1)
  }

  function Value(s: seq<Bigit>): (v: nat) {
    if s == [] then 0 else s[0] + B * Value(s[1..])
  }

  lemma {:induction false} PowPos(b: nat, e: nat)
    requires b >= 1
    ensures Pow(b, e) >= 1
  {
    if e > 0 {
      PowPos(b, e - 1);
      MulMono(1, b, Pow(b, e - 1));
    }
  }

  lemma {:induction false} PowAdd(b: nat, m: nat, n: nat)
    ensures Pow(b, m + n) == Pow(b, m) * Pow(b, n)
  {
    if m > 0 {
      PowAdd(b, m - 1, n);
      MulAssoc(b, Pow(b, m - 1), Pow(b, n));
    }
  }

  lemma {:induction false} PowMono(b: nat, m: nat, n: nat)
    requires b >= 1 && m <= n
    ensures Pow(b, m) <= Pow(b, n)
  {
    PowAdd(b, m, n - m);
    PowPos(b, n - m);
    MulMono(1, Pow(b, n - m), Pow(b, m));
  }

  lemma {:induction false} PowMul(a: nat, b: nat, n: nat)
    ensures Pow(a * b, n) == Pow(a, n) * Pow(b, n)
  {
    if n > 0 {
      PowMul(a, b, n - 1);
      var x, y := Pow(a, n - 1), Pow(b, n - 1);
      assert a * b * (x * y) == a * x * (b * y) by {
        MulAssoc(a, b, x * y);
        MulAssoc(a, x, b * y);
        MulAssoc(b, x, y);
        MulAssoc(x, b, y);
      }
    }
  }

  lemma {:induction false} PowPow(b: nat, m: nat, n: nat)
    ensures Pow(Pow(b, m), n) == Pow(b, m * n)
  {
    if n > 0 {
      PowPow(b, m, n - 1);
      PowAdd(b, m, m * (n - 1));
      assert m + m * (n - 1) == m * n;
    }
  }

  lemma MulMono(a: int, b: int, c: int)
    requires a <= b && c >= 0
    ensures a * c <= b * c
  {
  }

  lemma MulAssoc(a: int, b: int, c: int)
    ensures a * b * c == a * (b * c) == b * (a * c)
  {
  }

  lemma MulSwap(a: int, b: int, c: int)
    ensures a * b * c == a * c * b
  {
    MulAssoc(a, b, c);
    MulAssoc(a, c, b);
  }

  lemma MulDist(a: int, b: int, c: int)
    ensures (a + b) * c == a * c + b * c
    ensures (a - b) * c == a * c - b * c
  {
  }

  lemma {:induction false} ValueAppend(a: seq<Bigit>, b: seq<Bigit>)
    ensures Value(a + b) == Value(a) + Pow(B, |a|) * Value(b)
  {
    if a == [] {
      assert a + b == b;
    } else {
      assert (a + b)[1..] == a[1..] + b;
      ValueAppend(a[1..], b);
      MulAssoc(B, Pow(B, |a| - 1), Value(b));
    }
  }

  lemma ValueSnoc(a: seq<Bigit>, d: Bigit)
    ensures Value(a + [d]) == Value(a) + Pow(B, |a|) * d
  {
    ValueAppend(a, [d]);
    assert Value([d]) == d;
  }

  lemma {:induction false} ValueBound(s: seq<Bigit>)
    ensures Value(s) < Pow(B, |s|)
  {
    if s != [] {
      ValueBound(s[1..]);
      MulMono(Value(s[1..]) + 1, Pow(B, |s| - 1), B);
    }
  }

  lemma ValueSplit(s: seq<Bigit>, k: nat)
    requires k <= |s|
    ensures Value(s) == Value(s[..k]) + Pow(B, k) * Value(s[k..])
  {
    assert s == s[..k] + s[k..];
    ValueAppend(s[..k], s[k..]);
  }

  lemma ValueTop(s: seq<Bigit>)
    requires s != [] && s[|s|-1] != 0
    ensures Value(s) >= Pow(B, |s| - 1)
  {
    var k := |s| - 1;
    ValueSplit(s, k);
    assert s[k..] == [s[k]] && Value([s[k]]) == s[k];
    MulMono(1, s[k], Pow(B, k));
  }

  lemma TopFromValue(s: seq<Bigit>)
    requires s != [] && Value(s) >= Pow(B, |s| - 1)
    ensures s[|s|-1] != 0
  {
    var k := |s| - 1;
    ValueSplit(s, k);
    ValueBound(s[..k]);
    assert s[k..] == [s[k]] && Value([s[k]]) == s[k];
  }

  function Zeros(n: nat): (s: seq<Bigit>)
    ensures |s| == n && forall i | 0 <= i < n :: s[i] == 0
  {
    if n == 0 then [] else [0] + Zeros(n - 1)
  }

  lemma {:induction false} ValueZeros(n: nat)
    ensures Value(Zeros(n)) == 0
  {
    if n > 0 { ValueZeros(n - 1); assert Zeros(n)[1..] == Zeros(n - 1); }
  }

  // ---------------------------------------------------------------------------
  // A number as stored: bigits, least significant first, scaled by B^exp

  datatype Num = Num(bigits: seq<Bigit>, exp: nat)

  function Val(n: Num): nat {
    Value(n.bigits) * Pow(B, n.exp)
  }

  function NumBigits(n: Num): nat {
    |n.bigits| + n.exp
  }

  /** The top bigit is not zero. */
  predicate Lead(n: Num) {
    n.bigits != [] && n.bigits[|n.bigits|-1] != 0
  }

  /** As `remove_leading_zeros` leaves it: a single bigit, or no zero at the top. */
  predicate Tidy(n: Num) {
    |n.bigits| == 1 || Lead(n)
  }

  lemma ValBound(n: Num)
    ensures Val(n) < Pow(B, NumBigits(n))
  {
    ValueBound(n.bigits);
    PowPos(B, n.exp);
    PowAdd(B, |n.bigits|, n.exp);
    MulMono(Value(n.bigits) + 1, Pow(B, |n.bigits|), Pow(B, n.exp));
    MulDist(Value(n.bigits), 1, Pow(B, n.exp));
  }

  lemma ValLead(n: Num)
    requires Lead(n)
    ensures Val(n) >= Pow(B, NumBigits(n) - 1)
  {
    ValueTop(n.bigits);
    PowAdd(B, |n.bigits| - 1, n.exp);
    MulMono(Pow(B, |n.bigits| - 1), Value(n.bigits), Pow(B, n.exp));
  }

  /** The low `k` bigits and the rest. */
  lemma ValSplit(n: Num, k: nat)
    requires k <= |n.bigits|
    ensures Val(n) == Value(n.bigits[..k]) * Pow(B, n.exp) + Pow(B, k + n.exp) * Value(n.bigits[k..])
  {
    ValueSplit(n.bigits, k);
    PowAdd(B, k, n.exp);
    SplitArith(Value(n.bigits), Value(n.bigits[..k]), Pow(B, k), Value(n.bigits[k..]),
               Pow(B, n.exp), Pow(B, k + n.exp));
  }

  lemma SplitArith(v: int, low: int, p: int, high: int, q: int, pq: int)
    requires v == low + p * high && pq == p * q
    ensures v * q == low * q + pq * high
  {
    MulDist(low, p * high, q);
    MulSwap(p, high, q);
  }

  /** With more bigits and a nonzero top, a number is larger. */
  lemma LongerIsLarger(a: Num, b: Num)
    requires Lead(a) && NumBigits(a) > NumBigits(b)
    ensures Val(a) > Val(b)
  {
    ValLead(a);
    ValBound(b);
    PowMono(B, NumBigits(b), NumBigits(a) - 1);
  }

  function Sign(x: int): int {
    if x > 0 then 1 else if x < 0 then -1 else 0
  }

  lemma CarryArith(v: int, p: int, carry: int, product: int, r: int, low: int, high: int)
    requires v + p * carry == product && low + B * high == r + carry
    ensures v + p * low + B * p * high == product + p * r
  {
    MulAssoc(B, p, high);
    assert p * low + p * (B * high) == p * (low + B * high);
    assert p * (r + carry) == p * r + p * carry;
  }

  /** One step of a multiplication with carry. */
  lemma CarryStep(done: seq<Bigit>, carry: int, product: int, r: int, low: Bigit, high: int)
    requires Value(done) + Pow(B, |done|) * carry == product
    requires low + B * high == r + carry
    ensures Value(done + [low]) + Pow(B, |done| + 1) * high == product + Pow(B, |done|) * r
  {
    ValueSnoc(done, low);
    CarryArith(Value(done), Pow(B, |done|), carry, product, r, low, high);
  }

  /** The i-th step of multiplying `n` by `value`. */
  lemma MulStep(n: seq<Bigit>, value: int, done: seq<Bigit>, carry: int, low: Bigit, high: int)
    requires |done| < |n|
    requires Value(done) + Pow(B, |done|) * carry == Value(n[..|done|]) * value
    requires low + B * high == n[|done|] * value + carry
    ensures Value(done + [low]) + Pow(B, |done| + 1) * high == Value(n[..|done| + 1]) * value
  {
    ExtendProduct(n, |done|, value);
    CarryStep(done, carry, Value(n[..|done|]) * value, n[|done|] * value, low, high);
  }

  lemma ExtendProduct(n: seq<Bigit>, i: nat, value: int)
    requires i < |n|
    ensures Value(n[..i + 1]) * value == Value(n[..i]) * value + Pow(B, i) * (n[i] * value)
  {
    assert n[..i + 1] == n[..i] + [n[i]];
    ValueSnoc(n[..i], n[i]);
    ScaleTerm(Value(n[..i]), Pow(B, i), n[i], value);
  }

  lemma ScaleTerm(x: int, p: int, d: int, value: int)
    ensures (x + p * d) * value == x * value + p * (d * value)
  {
    MulDist(x, p * d, value);
    MulAssoc(p, d, value);
  }

  // ---------------------------------------------------------------------------
  // Shifts

  lemma Pow32()
    ensures Pow(2, 32) == B
  {
    assert Pow(2, 8) == 256 by { assert Pow(2, 4) == 16; PowAdd(2, 4, 4); }
    PowAdd(2, 8, 8);
    assert Pow(2, 16) == 65536;
    PowAdd(2, 16, 16);
  }

  /** Shifting by whole bigits and a rest is shifting. */
  lemma PowShift(shift: nat)
    ensures Pow(2, shift) == Pow(2, shift % 32) * Pow(B, shift / 32)
  {
    Pow32();
    PowPow(2, 32, shift / 32);
    PowAdd(2, shift % 32, 32 * (shift / 32));
  }

  /** The two halves of a shifted bigit: what stays and what is carried. */
  lemma ShiftBigit(b: Bigit, s: nat, carry: int)
    requires 1 <= s <= 31 && 0 <= carry < Pow(2, s)
    ensures Pow(2, 32 - s) > 0 && 0 <= b / Pow(2, 32 - s) < Pow(2, s)
    ensures 0 <= (b * Pow(2, s)) % B + carry < B
    ensures (b * Pow(2, s)) % B + carry + B * (b / Pow(2, 32 - s)) == b * Pow(2, s) + carry
  {
    PowAdd(2, s, 32 - s);
    Pow32();
    PowPos(2, 32 - s);
    PowPos(2, s);
    SplitShift(b, Pow(2, s), Pow(2, 32 - s));
  }

  lemma SplitShift(b: int, p: int, q: int)
    requires p * q == B && p >= 1 && q >= 1 && 0 <= b < B
    ensures 0 <= b / q < p
    ensures (b * p) % B == (b % q) * p <= B - p
    ensures (b * p) / B == b / q
  {
    var c, d := b / q, b % q;
    ShiftProduct(b, p, q, c, d);
    MulMono(d, q - 1, p);
    MulDist(q, 1, p);
    MulMono(0, d, p);
    DivUnique(b * p, B, c, d * p);
    if c >= p {
      MulMono(p, c, q);
      assert false;
    }
  }

  lemma ShiftProduct(b: int, p: int, q: int, c: int, d: int)
    requires b == q * c + d && p * q == B
    ensures b * p == B * c + d * p
  {
    MulDist(q * c, d, p);
    MulSwap(q, c, p);
  }

  lemma DivUnique(x: int, m: int, c: int, r: int)
    requires m > 0 && x == m * c + r && 0 <= r < m
    ensures x % m == r && x / m == c
  {
    var c', r' := x / m, x % m;
    assert m * (c - c') == r' - r;
    if c - c' >= 1 { MulMono(1, c - c', m); assert false; }
    if c - c' <= -1 { MulMono(c - c', -1, m); assert false; }
  }

  // ---------------------------------------------------------------------------
  // Comparison

  /** What `compare` can be asked: the one with more bigits has a nonzero top. */
  predicate Comparable(a: Num, b: Num) {
    && (NumBigits(a) > NumBigits(b) ==> Lead(a))
    && (NumBigits(b) > NumBigits(a) ==> Lead(b))
  }

  /** Equal high parts cancel. */
  lemma HighEqual(a: Num, b: Num, i: nat, j: nat)
    requires i <= |a.bigits| && j <= |b.bigits| && i + a.exp == j + b.exp
    requires a.bigits[i..] == b.bigits[j..]
    ensures Val(a) - Val(b) == Val(Num(a.bigits[..i], a.exp)) - Val(Num(b.bigits[..j], b.exp))
  {
    ValSplit(a, i);
    ValSplit(b, j);
  }

  lemma SplitTop(n: Num, i: nat)
    requires |n.bigits| == i + 1
    ensures Val(n) == Val(Num(n.bigits[..i], n.exp)) + Pow(B, i + n.exp) * n.bigits[i]
  {
    ValSplit(n, i);
    assert n.bigits[i..] == [n.bigits[i]];
    assert Value([n.bigits[i]]) == n.bigits[i];
  }

  /** A number lies between its top bigit and the next. */
  lemma TopBounds(n: Num, i: nat)
    requires |n.bigits| == i + 1
    ensures Pow(B, i + n.exp) * n.bigits[i] <= Val(n) < Pow(B, i + n.exp) * n.bigits[i] + Pow(B, i + n.exp)
  {
    SplitTop(n, i);
    ValBound(Num(n.bigits[..i], n.exp));
  }

  /** The highest differing bigit decides. */
  lemma BigitDecides(a: Num, b: Num, i: nat, j: nat)
    requires i < |a.bigits| && j < |b.bigits| && i + a.exp == j + b.exp
    requires a.bigits[i + 1..] == b.bigits[j + 1..] && a.bigits[i] > b.bigits[j]
    ensures Val(a) > Val(b)
  {
    HighEqual(a, b, i + 1, j + 1);
    TopBounds(Num(a.bigits[..i + 1], a.exp), i);
    TopBounds(Num(b.bigits[..j + 1], b.exp), j);
    BigitGap(Pow(B, i + a.exp), a.bigits[i], b.bigits[j]);
  }

  lemma BigitGap(p: int, x: int, y: int)
    requires p >= 0 && x > y
    ensures p * x >= p * y + p
  {
    MulMono(y + 1, x, p);
  }

  /** A number whose low part another lacks is not smaller. */
  lemma LowPart(a: Num, b: Num, i: nat)
    requires i <= |a.bigits| && i + a.exp == b.exp && a.bigits[i..] == b.bigits
    ensures Val(a) >= Val(b)
  {
    HighEqual(a, b, i, 0);
    assert b.bigits[..0] == [];
  }

  // ---------------------------------------------------------------------------
  // Subtraction

  /** Part of the difference: `nu` is what has been computed below position d + j, with a borrow. */
  predicate Differs(nu: seq<Bigit>, was: seq<Bigit>, other: seq<Bigit>, d: nat, borrow: int) {
    Value(nu) - Pow(B, |nu|) * borrow == Value(was) - Value(other) * Pow(B, d)
  }

  lemma BorrowArith(nv: int, ov: int, dv: int, p: int, q: int, dd: int, x: int, a: int, o: int, b: int, b': int)
    requires nv - p * b == ov - dv * dd && x - B * b' == a - o - b && p == dd * q
    ensures (nv + p * x) - B * p * b' == (ov + p * a) - (dv + q * o) * dd
  {
    assert p * x - p * (B * b') == p * (a - o - b);
    assert p * (a - o - b) == p * a - p * o - p * b;
    MulAssoc(B, p, b');
    assert (dv + q * o) * dd == dv * dd + p * o by {
      MulDist(dv, q * o, dd);
      MulAssoc(q, o, dd);
      MulAssoc(dd, q, o);
    }
  }

  lemma BorrowStep(nu: seq<Bigit>, was: seq<Bigit>, other: seq<Bigit>, d: nat, borrow: int, x: Bigit, a: Bigit,
                   o: Bigit, borrow': int)
    requires |nu| == |was| == d + |other| && Differs(nu, was, other, d, borrow)
    requires x - B * borrow' == a - o - borrow
    ensures Differs(nu + [x], was + [a], other + [o], d, borrow')
  {
    ValueSnoc(nu, x);
    ValueSnoc(was, a);
    ValueSnoc(other, o);
    PowAdd(B, d, |other|);
    BorrowArith(Value(nu), Value(was), Value(other), Pow(B, |nu|), Pow(B, |other|), Pow(B, d), x, a, o, borrow,
                borrow');
  }

  /** Borrowing from the bigit above. */
  lemma BorrowTop(nu: seq<Bigit>, was: seq<Bigit>, other: seq<Bigit>, d: nat, top: Bigit)
    requires |nu| == |was| && Differs(nu, was, other, d, 1) && top >= 1
    ensures Value(nu + [top - 1]) == Value(was + [top]) - Value(other) * Pow(B, d)
  {
    ValueSnoc(nu, top - 1);
    ValueSnoc(was, top);
    assert Pow(B, |nu|) * (top - 1) == Pow(B, |nu|) * top - Pow(B, |nu|);
  }

  // ---------------------------------------------------------------------------
  // Bigits by absolute position

  /** The bigit of weight B^i, zero outside the stored range. */
  function BigitAt(n: Num, i: nat): Bigit {
    if n.exp <= i < NumBigits(n) then n.bigits[i - n.exp] else 0
  }

  /** What the bigits of weight B^i and above make up, in units of B^i. */
  function High(n: Num, i: nat): nat {
    if i >= NumBigits(n) then 0
    else if i >= n.exp then Value(n.bigits[i - n.exp..])
    else Value(n.bigits) * Pow(B, n.exp - i)
  }

  lemma HighStep(n: Num, i: nat)
    ensures High(n, i) == BigitAt(n, i) + B * High(n, i + 1)
  {
    if i >= NumBigits(n) {
    } else if i >= n.exp {
      assert n.bigits[i - n.exp..][1..] == n.bigits[i + 1 - n.exp..];
      assert Value(n.bigits[i + 1 - n.exp..]) == High(n, i + 1);
    } else {
      assert Pow(B, n.exp - i) == B * Pow(B, n.exp - i - 1);
      MulAssoc(Value(n.bigits), B, Pow(B, n.exp - i - 1));
      assert n.bigits[0..] == n.bigits;
      assert n.bigits == [] ==> Value(n.bigits) == 0;
    }
  }

  /** What lies below weight B^i is less than B^i, and nothing if no bigit is stored there. */
  lemma HighLow(n: Num, i: nat) returns (low: nat)
    ensures Val(n) == Pow(B, i) * High(n, i) + low && low < Pow(B, i)
    ensures i <= n.exp ==> low == 0
  {
    PowPos(B, i);
    if i > n.exp {
      low := if i < NumBigits(n) then Val(Num(n.bigits[..i - n.exp], n.exp)) else Val(n);
      HighLowAbove(n, i);
    } else {
      low := 0;
      PowAdd(B, n.exp - i, i);
      MulAssoc(Value(n.bigits), Pow(B, n.exp - i), Pow(B, i));
      assert n.bigits[0..] == n.bigits;
      assert n.bigits == [] ==> Value(n.bigits) == 0;
    }
  }

  lemma HighLowAbove(n: Num, i: nat)
    requires i > n.exp
    ensures i < NumBigits(n) ==>
              var low := Val(Num(n.bigits[..i - n.exp], n.exp));
              Val(n) == Pow(B, i) * High(n, i) + low && low < Pow(B, i)
    ensures i >= NumBigits(n) ==> Val(n) < Pow(B, i)
  {
    if i < NumBigits(n) {
      ValSplit(n, i - n.exp);
      ValBound(Num(n.bigits[..i - n.exp], n.exp));
    } else {
      ValBound(n);
      PowMono(B, NumBigits(n), i);
    }
  }

  /** How far the bigits of `c` from weight B^i on exceed those of `a` and `b` together. */
  function Excess(a: Num, b: Num, c: Num, i: nat): int {
    High(c, i) - High(a, i) - High(b, i)
  }

  lemma ExcessArith(p: int, x: int, y: int, z: int, lx: int, ly: int, lz: int)
    requires 0 <= lx < p && 0 <= ly < p && 0 <= lz < p
    ensures z - x - y <= -1 ==> p * x + lx + (p * y + ly) > p * z + lz
    ensures z - x - y >= 2 ==> p * x + lx + (p * y + ly) < p * z + lz
  {
    assert p * (z - x - y) == p * z - p * x - p * y;
    if z - x - y <= -1 { MulMono(z - x - y, -1, p); }
    if z - x - y >= 2 { MulMono(2, z - x - y, p); }
  }

  /** A negative excess, or one above 1, cannot be made up for by lower bigits. */
  lemma ExcessDecides(a: Num, b: Num, c: Num, i: nat)
    ensures Excess(a, b, c, i) <= -1 ==> Val(a) + Val(b) > Val(c)
    ensures Excess(a, b, c, i) >= 2 ==> Val(a) + Val(b) < Val(c)
  {
    var la := HighLow(a, i);
    var lb := HighLow(b, i);
    var lc := HighLow(c, i);
    ExcessArith(Pow(B, i), High(a, i), High(b, i), High(c, i), la, lb, lc);
  }

  /** Below all stored bigits the excess is the difference. */
  lemma ExcessAtBottom(a: Num, b: Num, c: Num, i: nat)
    requires i <= a.exp && i <= b.exp && i <= c.exp
    ensures Sign(Val(a) + Val(b) - Val(c)) == -Sign(Excess(a, b, c, i))
  {
    var la := HighLow(a, i);
    var lb := HighLow(b, i);
    var lc := HighLow(c, i);
    PowPos(B, i);
    BottomArith(Pow(B, i), High(a, i), High(b, i), High(c, i));
  }

  lemma BottomArith(p: int, x: int, y: int, z: int)
    requires p >= 1
    ensures Sign(p * x + p * y - p * z) == -Sign(z - x - y)
  {
    assert p * (x + y - z) == p * x + p * y - p * z;
    if x + y - z >= 1 { MulMono(1, x + y - z, p); }
    if x + y - z <= -1 { MulMono(x + y - z, -1, p); }
  }

  // ---------------------------------------------------------------------------
  // Products by columns

  function Get(b: seq<Bigit>, t: int): Bigit {
    if 0 <= t < |b| then b[t] else 0
  }

  /** Sum of a[i'] * b[k - i'] over i' >= i: what column k of the long multiplication adds up to, from row i on. */
  function Column(a: seq<Bigit>, b: seq<Bigit>, k: int, i: nat): (c: int)
    requires i <= |a|
    decreases |a| - i
  {
    if i == |a| then 0 else a[i] * Get(b, k - i) + Column(a, b, k, i + 1)
  }

  lemma ProductBound(x: int, y: int)
    requires 0 <= x < B && 0 <= y < B
    ensures x * y <= (B - 1) * (B - 1)
  {
    MulMono(x, B - 1, y);
    MulMono(y, B - 1, B - 1);
  }

  lemma {:induction false} ColumnBound(a: seq<Bigit>, b: seq<Bigit>, k: int, i: nat)
    requires i <= |a|
    ensures Column(a, b, k, i) <= (|a| - i) * ((B - 1) * (B - 1))
    decreases |a| - i
  {
    if i < |a| {
      ColumnBound(a, b, k, i + 1);
      ProductBound(a[i], Get(b, k - i));
    }
  }

  /** The first k columns, weighted. */
  function Columns(a: seq<Bigit>, b: seq<Bigit>, i: nat, k: nat): int
    requires i <= |a|
  {
    if k == 0 then 0 else Columns(a, b, i, k - 1) + Pow(B, k - 1) * Column(a, b, k - 1, i)
  }

  /** The first k bigits of `b` moved up by i, weighted. */
  function Row(b: seq<Bigit>, i: nat, k: nat): int {
    if k == 0 then 0 else Row(b, i, k - 1) + Pow(B, k - 1) * Get(b, k - 1 - i)
  }

  lemma {:induction false} RowValue(b: seq<Bigit>, i: nat, k: nat)
    ensures Row(b, i, k) == if k <= i then 0 else Pow(B, i) * Value(b[..if k - i < |b| then k - i else |b|])
  {
    if k > 0 {
      RowValue(b, i, k - 1);
      if k > i {
        var t := k - 1 - i;
        if t < |b| {
          assert b[..t + 1] == b[..t] + [b[t]];
          ValueSnoc(b[..t], b[t]);
          PowAdd(B, i, t);
          RowArith(Pow(B, i), Value(b[..t]), Pow(B, t), b[t]);
        }
        assert t == 0 ==> b[..0] == [] && Value(b[..0]) == 0;
      }
    }
  }

  lemma RowArith(p: int, v: int, q: int, d: int)
    ensures p * v + p * q * d == p * (v + q * d)
  {
    MulAssoc(p, q, d);
  }

  lemma {:induction false} ColumnsRow(a: seq<Bigit>, b: seq<Bigit>, i: nat, k: nat)
    requires i < |a|
    ensures Columns(a, b, i, k) == a[i] * Row(b, i, k) + Columns(a, b, i + 1, k)
    decreases k
  {
    if k > 0 {
      ColumnsRow(a, b, i, k - 1);
      ColumnsArith(Pow(B, k - 1), a[i], Get(b, k - 1 - i), Column(a, b, k - 1, i + 1), Row(b, i, k - 1));
    }
  }

  lemma ColumnsArith(p: int, x: int, y: int, c: int, r: int)
    ensures x * r + p * (x * y + c) == x * (r + p * y) + p * c
  {
    MulAssoc(x, p, y);
  }

  lemma {:induction false} ColumnsEmpty(a: seq<Bigit>, b: seq<Bigit>, k: nat)
    ensures Columns(a, b, |a|, k) == 0
  {
    if k > 0 { ColumnsEmpty(a, b, k - 1); }
  }

  /** All columns together are the product. */
  lemma {:induction false} ColumnsTotal(a: seq<Bigit>, b: seq<Bigit>, i: nat, k: nat)
    requires i <= |a| && k >= |a| + |b|
    ensures Columns(a, b, i, k) == Pow(B, i) * Value(a[i..]) * Value(b)
    decreases |a| - i
  {
    if i == |a| {
      ColumnsEmpty(a, b, k);
    } else {
      ColumnsTotal(a, b, i + 1, k);
      ColumnsRow(a, b, i, k);
      RowValue(b, i, k);
      assert b[..|b|] == b;
      assert a[i..][1..] == a[i + 1..];
      TotalArith(Pow(B, i), a[i], Value(a[i + 1..]), Value(b));
    }
  }

  lemma TotalArith(p: int, x: int, v: int, w: int)
    ensures x * (p * w) + B * p * v * w == p * (x + B * v) * w
  {
    MulAssoc(x, p, w);
    MulSwap(B, p, v);
    assert B * p * v == p * (B * v);
    assert p * (x + B * v) == p * x + p * (B * v);
    MulDist(p * x, p * (B * v), w);
    MulAssoc(p, x, w);
  }

  /** Rows above k do not reach column k. */
  lemma {:induction false} ColumnAbove(a: seq<Bigit>, b: seq<Bigit>, k: nat, i: nat)
    requires k < i <= |a|
    ensures Column(a, b, k, i) == 0
    decreases |a| - i
  {
    if i < |a| { ColumnAbove(a, b, k, i + 1); }
  }

  /** Nor do the rows whose end lies below it. */
  lemma {:induction false} ColumnBelow(a: seq<Bigit>, b: seq<Bigit>, k: nat, i: nat, m: nat)
    requires i <= m <= |a| && m <= k - |b| + 1
    ensures Column(a, b, k, i) == Column(a, b, k, m)
    decreases m - i
  {
    if i < m { ColumnBelow(a, b, k, i + 1, m); }
  }

  lemma SquareBound(n: seq<Bigit>)
    ensures Value(n) * Value(n) < Pow(B, 2 * |n|)
  {
    ValueBound(n);
    PowAdd(B, |n|, |n|);
    SquareLess(Value(n), Pow(B, |n|));
  }

  lemma SquareLess(v: int, p: int)
    requires 0 <= v < p
    ensures v * v < p * p
  {
    MulMono(v, p, v);
    MulMono(v + 1, p, p);
    MulDist(v, 1, p);
  }

  lemma CarryGone(v: int, p: int, carry: int, product: int)
    requires v >= 0 && carry >= 0 && p >= 1 && v + p * carry == product < p
    ensures carry == 0
  {
    if carry >= 1 { MulMono(1, carry, p); }
  }
}
