/** fmt's `bigint`: the multi-precision integer of the Dragon digit generator. */
module Bigints {
  import opened BignumMath

  const U64: int := 0x1_0000_0000_0000_0000

  class Bigint {
    var bigits: seq<Bigit>
    var exp: nat

    function View(): Num
      reads this
    {
      Num(bigits, exp)
    }

    constructor ()
      ensures View() == Num([], 0)
    {
      bigits, exp := [], 0;
    }

    /** `assign(uint64_t)`. */
    method AssignInt(n: nat)
      requires n < U64
      modifies this
      ensures Val(View()) == n && exp == 0 && 1 <= |bigits| <= 2
      ensures n > 0 ==> Lead(View())
    {
      var left := n / B;
      bigits, exp := [n % B], 0;
      while left != 0
        invariant exp == 0
        invariant (bigits == [n % B] && left == n / B) || (bigits == [n % B, n / B] && left == 0 && n / B != 0)
        decreases left
      {
        bigits := bigits + [left % B];
        left := left / B;
      }
      assert Value([n / B]) == n / B;
      assert [n % B, n / B][1..] == [n / B];
    }

    /** `assign(const bigint&)`. */
    method Assign(other: Bigint)
      modifies this
      ensures View() == other.View()
    {
      bigits := other.bigits;
      exp := other.exp;
    }

    /** The 32-bit `multiply`: every product with carry fits in 64 bits, every carry in 32. */
    method Multiply32(value: nat)
      requires 0 < value < B
      modifies this`bigits
      ensures Val(View()) == old(Val(View())) * value
      ensures |old(bigits)| <= |bigits| <= |old(bigits)| + 1
      ensures old(Lead(View())) || |bigits| > |old(bigits)| ==> Lead(View())
      ensures old(Tidy(View())) ==> Tidy(View())
    {
      ghost var n := View();
      var carry := MultiplyLoop32(value);
      if carry != 0 {
        ValueSnoc(bigits, carry);
        bigits := bigits + [carry];
      }
      Multiplied(n, View(), value);
    }

    method MultiplyLoop32(value: nat) returns (carry: nat)
      requires 0 < value < B
      modifies this`bigits
      ensures |bigits| == |old(bigits)| && carry < B
      ensures Value(bigits) + Pow(B, |bigits|) * carry == Value(old(bigits)) * value
    {
      ghost var n := bigits;
      carry := 0;
      var i := 0;
      while i < |bigits|
        invariant 0 <= i <= |n| == |bigits| && carry < B
        invariant bigits[i..] == n[i..]
        invariant Value(bigits[..i]) + Pow(B, i) * carry == Value(n[..i]) * value
      {
        assert bigits[i] == n[i];
        var result := ProductPlus(bigits[i], value, carry);
        MulStep(n, value, bigits[..i], carry, result % B, result / B);
        assert bigits[i := result % B][..i + 1] == bigits[..i] + [result % B];
        bigits := bigits[i := result % B];
        carry := result / B;
        i := i + 1;
      }
      assert n[..|n|] == n && bigits[..|n|] == bigits;
    }

    /** The 64-bit `multiply`: no intermediate exceeds 64 bits. */
    method Multiply64(value: nat)
      requires 0 < value < U64
      modifies this`bigits
      ensures Val(View()) == old(Val(View())) * value
      ensures |old(bigits)| <= |bigits| <= |old(bigits)| + 2
      ensures old(Lead(View())) ==> Lead(View())
    {
      ghost var n := View();
      var carry := MultiplyLoop64(value);
      PushCarry(carry, Value(n.bigits) * value);
      Multiplied(n, View(), value);
    }

    method MultiplyLoop64(value: nat) returns (carry: nat)
      requires 0 < value < U64
      modifies this`bigits
      ensures |bigits| == |old(bigits)| && carry < U64
      ensures Value(bigits) + Pow(B, |bigits|) * carry == Value(old(bigits)) * value
    {
      ghost var n := bigits;
      var lower, upper := value % B, value / B;
      carry := 0;
      var i := 0;
      while i < |bigits|
        invariant 0 <= i <= |n| == |bigits| && carry < U64
        invariant bigits[i..] == n[i..]
        invariant Value(bigits[..i]) + Pow(B, i) * carry == Value(n[..i]) * value
      {
        assert bigits[i] == n[i];
        var result := ProductPlus(bigits[i], lower, carry % B);
        var next := CarrySum(bigits[i], upper, result / B, carry / B);
        SplitProduct(n[i], value, lower, upper);
        MulStep(n, value, bigits[..i], carry, result % B, next);
        assert bigits[i := result % B][..i + 1] == bigits[..i] + [result % B];
        bigits := bigits[i := result % B];
        carry := next;
        i := i + 1;
      }
      assert n[..|n|] == n && bigits[..|n|] == bigits;
    }

    /** `operator<<=`. */
    method ShiftLeft(shift: nat)
      modifies this
      ensures Val(View()) == old(Val(View())) * Pow(2, shift)
      ensures exp == old(exp) + shift / 32
      ensures |old(bigits)| <= |bigits| <= |old(bigits)| + 1
      ensures old(Lead(View())) ==> Lead(View())
    {
      ghost var n := View();
      exp := exp + shift / 32;
      WholeShift(n, shift);
      var s := shift % 32;
      if s == 0 { return; }
      var carry := ShiftLoop(s);
      if carry != 0 {
        ValueSnoc(bigits, carry);
        bigits := bigits + [carry];
      }
      PowPos(2, s);
      Multiplied(Num(n.bigits, exp), View(), Pow(2, s));
    }

    method ShiftLoop(s: nat) returns (carry: Bigit)
      requires 1 <= s <= 31
      modifies this`bigits
      ensures |bigits| == |old(bigits)|
      ensures Value(bigits) + Pow(B, |bigits|) * carry == Value(old(bigits)) * Pow(2, s)
    {
      ghost var n := bigits;
      PowMono(2, s, 32);
      Pow32();
      PowPos(2, s);
      carry := 0;
      var i := 0;
      while i < |bigits|
        invariant 0 <= i <= |n| == |bigits| && 0 <= carry < Pow(2, s)
        invariant bigits[i..] == n[i..]
        invariant Value(bigits[..i]) + Pow(B, i) * carry == Value(n[..i]) * Pow(2, s)
      {
        assert bigits[i] == n[i];
        ShiftBigit(bigits[i], s, carry);
        var c := bigits[i] / Pow(2, 32 - s);
        var low := (bigits[i] * Pow(2, s)) % B + carry;
        MulStep(n, Pow(2, s), bigits[..i], carry, low, c);
        assert bigits[i := low][..i + 1] == bigits[..i] + [low];
        bigits := bigits[i := low];
        carry := c;
        i := i + 1;
      }
      assert n[..|n|] == n && bigits[..|n|] == bigits;
    }

    method RemoveLeadingZeros()
      requires bigits != []
      modifies this`bigits
      ensures bigits != [] && bigits <= old(bigits)
      ensures Value(bigits) == Value(old(bigits))
      ensures |bigits| == 1 || bigits[|bigits|-1] != 0
    {
      var top := |bigits| - 1;
      assert bigits[..top + 1] == bigits;
      while top > 0 && bigits[top] == 0
        invariant bigits == old(bigits) && 0 <= top < |bigits|
        invariant Value(bigits[..top + 1]) == Value(bigits)
      {
        assert bigits[..top + 1] == bigits[..top] + [0];
        ValueSnoc(bigits[..top], 0);
        top := top - 1;
      }
      bigits := bigits[..top + 1];
    }

    /** `subtract_bigits`, in 64-bit arithmetic: the new borrow is the sign bit. */
    method SubtractBigits(index: nat, other: Bigit, borrow: Bigit) returns (borrow': Bigit)
      requires index < |bigits| && borrow <= 1
      modifies this`bigits
      ensures borrow' <= 1
      ensures |bigits| == |old(bigits)| && bigits == old(bigits)[index := bigits[index]]
      ensures bigits[index] - B * borrow' == old(bigits)[index] - other - borrow
    {
      var result := (bigits[index] - other - borrow) % U64;
      var x := result % B;
      bigits := bigits[index := x];
      borrow' := result / 0x8000_0000_0000_0000;
      SubtractWrap(old(bigits)[index] - other - borrow);
    }

    /** `subtract_aligned`: exact as long as this number has at most one bigit more than `other`. */
    method SubtractAligned(other: Bigint)
      requires this != other && exp <= other.exp && other.bigits != []
      requires Val(View()) >= Val(other.View())
      requires NumBigits(other.View()) <= NumBigits(View()) <= NumBigits(other.View()) + 1
      requires NumBigits(View()) == NumBigits(other.View()) + 1 ==> Lead(View())
      modifies this`bigits
      ensures Val(View()) == old(Val(View())) - Val(other.View())
      ensures bigits != [] && NumBigits(View()) <= old(NumBigits(View()))
      ensures Tidy(View())
    {
      ghost var n, o := View(), other.View();
      AlignedValue(n, o);
      var borrow := SubtractLoop(other);
      PropagateBorrow(other.exp - exp + |other.bigits|, borrow, n.bigits, o.bigits, o.exp - n.exp);
      Subtracted(n, o, View());
      RemoveLeadingZeros();
    }

    lemma SubtractOne(before: seq<Bigit>, was: seq<Bigit>, o: seq<Bigit>, d: nat, b: int, x: Bigit, j: nat, b': int)
      requires j < |o| && d + j < |was| == |before| && before[d + j] == was[d + j]
      requires Differs(before[..d + j], was[..d + j], o[..j], d, b) && x - B * b' == was[d + j] - o[j] - b
      ensures Differs(before[d + j := x][..d + j + 1], was[..d + j + 1], o[..j + 1], d, b')
    {
      var i := d + j;
      BorrowStep(before[..i], was[..i], o[..j], d, b, x, was[i], o[j], b');
      assert before[i := x][..i + 1] == before[..i] + [x];
      assert was[..i + 1] == was[..i] + [was[i]];
      assert o[..j + 1] == o[..j] + [o[j]];
    }

    method SubtractLoop(other: Bigint) returns (borrow: Bigit)
      requires this != other && exp <= other.exp && other.exp - exp + |other.bigits| <= |bigits|
      modifies this`bigits
      ensures |bigits| == |old(bigits)| && borrow <= 1
      ensures var i := other.exp - exp + |other.bigits|;
              && bigits[i..] == old(bigits)[i..]
              && Differs(bigits[..i], old(bigits)[..i], other.bigits, other.exp - exp, borrow)
    {
      ghost var was, o, d := bigits, other.bigits, other.exp - exp;
      borrow := 0;
      var i := other.exp - exp;
      var j := 0;
      while j < |other.bigits|
        invariant 0 <= j <= |o| && i == d + j && |bigits| == |was| && borrow <= 1
        invariant bigits[i..] == was[i..]
        invariant Differs(bigits[..i], was[..i], o[..j], d, borrow)
      {
        ghost var before, b := bigits, borrow;
        borrow := SubtractBigits(i, other.bigits[j], borrow);
        assert before[i..][0] == was[i..][0];
        SubtractOne(before, was, o, d, b, bigits[i], j, borrow);
        i, j := i + 1, j + 1;
      }
      assert o[..|o|] == o;
    }

    /** The loop that propagates the final borrow without moving on. */
    method PropagateBorrow(i: nat, b: Bigit, ghost was: seq<Bigit>, ghost o: seq<Bigit>, ghost d: nat)
      requires i <= |bigits| <= i + 1 && |was| == |bigits| && b <= 1
      requires bigits[i..] == was[i..] && Differs(bigits[..i], was[..i], o, d, b)
      requires Value(was) >= Value(o) * Pow(B, d)
      requires |was| == i + 1 ==> was[i] != 0
      modifies this`bigits
      ensures |bigits| == |was| && Value(bigits) == Value(was) - Value(o) * Pow(B, d)
    {
      var borrow := b;
      ghost var low := bigits;
      if borrow > 0 { BorrowAbove(low, was, o, d, i); } else { NoBorrow(low, was, o, d, i); }
      while borrow > 0
        invariant |bigits| == |was| && borrow <= 1
        invariant borrow > 0 ==> bigits == low && |was| == i + 1 && b == 1
        invariant borrow == 0 ==> Value(bigits) == Value(was) - Value(o) * Pow(B, d)
        decreases borrow
      {
        borrow := SubtractBigits(i, 0, borrow);
        assert low[i] == was[i];
        BorrowTop(low[..i], was[..i], o, d, was[i]);
        assert bigits == low[..i] + [was[i] - 1];
        assert was == was[..i] + [was[i]];
      }
    }

    /** `align`: trailing zeros bring the exponent down to that of `other`. */
    method Align(other: Bigint)
      modifies this
      ensures Val(View()) == old(Val(View())) && NumBigits(View()) == old(NumBigits(View()))
      ensures exp == if old(exp) > other.exp then other.exp else old(exp)
      ensures old(Lead(View())) ==> Lead(View())
      ensures old(bigits) != [] ==> bigits != []
    {
      if exp <= other.exp { return; }
      ghost var n := View();
      var d := exp - other.exp;
      MoveUp(d);
      ClearLow(d, n.bigits);
      assert bigits == Zeros(d) + n.bigits;
      exp := exp - d;
      Aligned(n, d, View());
    }

    /** The copy loop of `align`, from the top down. */
    method MoveUp(d: nat)
      modifies this`bigits
      ensures |bigits| == |old(bigits)| + d && bigits[d..] == old(bigits)
    {
      var was, size := bigits, |bigits|;
      bigits := bigits + Zeros(d);
      var i, j := size - 1, size - 1 + d;
      while i >= 0
        invariant -1 <= i < size && j == i + d && |bigits| == size + d
        invariant forall k | 0 <= k <= i :: bigits[k] == was[k]
        invariant forall k | i + d < k < size + d :: bigits[k] == was[k - d]
      {
        bigits := bigits[j := bigits[i]];
        i, j := i - 1, j - 1;
      }
    }

    /** The fill of the freed bigits. */
    method ClearLow(d: nat, ghost was: seq<Bigit>)
      requires d <= |bigits| && bigits[d..] == was
      modifies this`bigits
      ensures bigits == Zeros(d) + was
    {
      var k := 0;
      while k < d
        invariant 0 <= k <= d <= |bigits| && bigits[d..] == was
        invariant forall m | 0 <= m < k :: bigits[m] == 0
      {
        bigits := bigits[k := 0];
        k := k + 1;
      }
      assert bigits == bigits[..d] + bigits[d..];
      assert bigits[..d] == Zeros(d);
    }

    /**
      `divmod_assign`: repeated subtraction.  The remainder is below the divisor except when
      an equal number is stored with the larger exponent, which `compare` takes for smaller.
    */
    method DivmodAssign(divisor: Bigint) returns (quotient: nat)
      requires this != divisor && bigits != [] && Lead(divisor.View())
      requires NumBigits(View()) <= NumBigits(divisor.View()) + 1
      requires NumBigits(View()) > NumBigits(divisor.View()) ==> Lead(View())
      modifies this
      ensures old(Val(View())) == quotient * Val(divisor.View()) + Val(View())
      ensures Val(View()) < Val(divisor.View()) <==>
                !(old(Val(View())) == Val(divisor.View()) && old(exp) > divisor.exp)
      ensures exp == if quotient > 0 && old(exp) > divisor.exp then divisor.exp else old(exp)
      ensures bigits != [] && NumBigits(View()) <= NumBigits(divisor.View())
      ensures old(Tidy(View())) ==> Tidy(View())
    {
      var c := Compare(this, divisor);
      if c < 0 {
        if NumBigits(View()) > NumBigits(divisor.View()) { LongerIsLarger(View(), divisor.View()); }
        return 0;
      }
      Align(divisor);
      quotient := SubtractWhile(divisor);
    }

    /** The do-while loop of `divmod_assign`. */
    method SubtractWhile(divisor: Bigint) returns (quotient: nat)
      requires this != divisor && bigits != [] && Lead(divisor.View())
      requires exp <= divisor.exp && Val(View()) >= Val(divisor.View())
      requires NumBigits(View()) <= NumBigits(divisor.View()) + 1
      requires NumBigits(View()) > NumBigits(divisor.View()) ==> Lead(View())
      modifies this`bigits
      ensures old(Val(View())) == quotient * Val(divisor.View()) + Val(View())
      ensures Val(View()) < Val(divisor.View()) && quotient > 0 && bigits != [] && Tidy(View())
      ensures NumBigits(View()) <= NumBigits(divisor.View())
    {
      ghost var v, d := Val(View()), divisor.View();
      quotient := 0;
      var c := 0;
      while c >= 0
        invariant bigits != []
        invariant NumBigits(View()) <= NumBigits(d) + 1
        invariant NumBigits(View()) > NumBigits(d) ==> Lead(View())
        invariant v == quotient * Val(d) + Val(View())
        invariant c >= 0 <==> Val(View()) >= Val(d)
        invariant quotient > 0 || c >= 0
        invariant quotient > 0 ==> Tidy(View())
        decreases Val(View())
      {
        if NumBigits(View()) < NumBigits(d) { LongerIsLarger(d, View()); }
        LeadPositive(d);
        SubtractAligned(divisor);
        MulDist(quotient, 1, Val(d));
        quotient := quotient + 1;
        c := Compare(this, divisor);
      }
      if NumBigits(View()) > NumBigits(d) { LongerIsLarger(View(), d); }
    }

    /** `square`, column by column with a wide accumulator. */
    method Square()
      requires bigits != []
      modifies this
      ensures Val(View()) == old(Val(View())) * old(Val(View()))
      ensures exp == 2 * old(exp) && bigits != []
      ensures old(Lead(View())) ==> Lead(View())
    {
      ghost var was := View();
      var n := bigits;
      var size := |n|;
      bigits := Zeros(2 * size);
      var sum := 0;
      var k := 0;
      while k < size
        invariant 0 <= k <= size && |bigits| == 2 * size && 0 <= sum <= size * B && exp == was.exp
        invariant Value(bigits[..k]) + Pow(B, k) * sum == Columns(n, n, 0, k)
      {
        var column := LowColumn(n, k);
        sum := StoreColumn(n, k, sum, column);
        k := k + 1;
      }
      while k < 2 * size
        invariant size <= k <= 2 * size && |bigits| == 2 * size && 0 <= sum <= size * B && exp == was.exp
        invariant Value(bigits[..k]) + Pow(B, k) * sum == Columns(n, n, 0, k)
      {
        var column := HighColumn(n, k);
        sum := StoreColumn(n, k, sum, column);
        k := k + 1;
      }
      assert bigits[..2 * size] == bigits;
      SquareValue(n, bigits, sum);
      RemoveLeadingZeros();
      exp := exp * 2;
      Squared(was, View());
    }

    /** One bigit of the result; with at most 2^31 bigits the accumulator stays far below 2^128. */
    method StoreColumn(ghost n: seq<Bigit>, k: nat, sum: int, column: int) returns (carry: int)
      requires k < |bigits| && 0 <= sum <= |n| * B && column >= 0 && column == Column(n, n, k, 0)
      requires Value(bigits[..k]) + Pow(B, k) * sum == Columns(n, n, 0, k)
      modifies this`bigits
      ensures |bigits| == |old(bigits)| && 0 <= carry <= |n| * B
      ensures |n| <= 0x8000_0000 ==> sum + column < U64 * U64
      ensures Value(bigits[..k + 1]) + Pow(B, k + 1) * carry == Columns(n, n, 0, k + 1)
    {
      var total := sum + column;
      ColumnBound(n, n, k, 0);
      CarryStep(bigits[..k], sum, Columns(n, n, 0, k), column, total % B, total / B);
      assert bigits[k := total % B][..k + 1] == bigits[..k] + [total % B];
      bigits := bigits[k := total % B];
      carry := total / B;
    }

    /** `assign_pow10`: 5^exp by repeated squaring, then a shift. */
    method AssignPow10(e: nat)
      modifies this
      ensures Val(View()) == Pow(10, e)
      ensures Lead(View()) && exp == e / 32
    {
      if e == 0 {
        AssignInt(1);
        return;
      }
      AssignPow5(e);
      ShiftLeft(e);
      PowMul(5, 2, e);
    }

    method AssignPow5(e: nat)
      requires e > 0
      modifies this
      ensures Val(View()) == Pow(5, e) && Lead(View()) && exp == 0
    {
      ghost var t;
      var bitmask;
      bitmask, t := TopBit(e);
      AssignInt(5);
      FirstBit(e, t, bitmask);
      bitmask := bitmask / 2;
      assert Pow(5, 1) == 5;
      ghost var q := 1;
      while bitmask != 0
        invariant UpTo(e, t, bitmask, q)
        invariant Val(View()) == Pow(5, q)
        invariant Lead(View()) && exp == 0
        decreases bitmask
      {
        OneBitDown(e, t, bitmask, q);
        SquareStep((e / bitmask) % 2 != 0, q);
        q := e / bitmask;
        t := t - 1;
        bitmask := bitmask / 2;
      }
    }

    method SquareStep(bit: bool, ghost q: nat)
      requires Val(View()) == Pow(5, q) && Lead(View()) && exp == 0
      modifies this
      ensures Val(View()) == Pow(5, 2 * q + if bit then 1 else 0) && Lead(View()) && exp == 0
    {
      Square();
      PowAdd(5, q, q);
      if bit { Multiply32(5); }
    }

    /** The closing loop of the 64-bit `multiply`. */
    method PushCarry(c: nat, ghost product: nat)
      requires c < U64 && Value(bigits) + Pow(B, |bigits|) * c == product
      modifies this`bigits
      ensures Value(bigits) == product
      ensures |old(bigits)| <= |bigits| <= |old(bigits)| + 2
      ensures |bigits| > |old(bigits)| ==> bigits[|bigits|-1] != 0
      ensures |bigits| == |old(bigits)| ==> bigits == old(bigits)
    {
      var carry := c;
      ghost var n := |bigits|;
      while carry != 0
        invariant 0 <= carry < U64
        invariant Value(bigits) + Pow(B, |bigits|) * carry == product
        invariant |bigits| == n ==> carry == c && bigits == old(bigits)
        invariant |bigits| == n + 1 ==> carry < B
        invariant n <= |bigits| <= n + 2 && (|bigits| == n + 2 ==> carry == 0)
        invariant |bigits| > n && carry == 0 ==> bigits[|bigits|-1] != 0
        decreases carry
      {
        CarryStep(bigits, carry, product, 0, carry % B, carry / B);
        bigits := bigits + [carry % B];
        carry := carry / B;
      }
    }
  }

  /** `compare`: wrong exactly for equal numbers stored with different exponents. */
  method Compare(lhs: Bigint, rhs: Bigint) returns (r: int)
    requires Comparable(lhs.View(), rhs.View())
    ensures r == Sign(Val(lhs.View()) - Val(rhs.View())) <==> Val(lhs.View()) != Val(rhs.View()) || lhs.exp == rhs.exp
    ensures Val(lhs.View()) == Val(rhs.View()) && lhs.exp != rhs.exp ==> r == if lhs.exp < rhs.exp then 1 else -1
  {
    ghost var a, b := lhs.View(), rhs.View();
    var numLhs, numRhs := |lhs.bigits| + lhs.exp, |rhs.bigits| + rhs.exp;
    if numLhs != numRhs {
      if numLhs > numRhs { LongerIsLarger(a, b); return 1; }
      LongerIsLarger(b, a);
      return -1;
    }
    ghost var i, j;
    r, i, j := CompareBigits(lhs, rhs);
    Decided(a, b, i, j, r);
  }

  /** What the loop has found decides the comparison. */
  lemma Decided(a: Num, b: Num, i: int, j: int, r: int)
    requires -1 <= i < |a.bigits| && -1 <= j < |b.bigits| && i + a.exp == j + b.exp
    requires a.bigits[i + 1..] == b.bigits[j + 1..]
    requires i >= 0 && j >= 0 ==> a.bigits[i] != b.bigits[j] && r == if a.bigits[i] > b.bigits[j] then 1 else -1
    requires i < 0 || j < 0 ==> r == Sign(i - j)
    ensures r == Sign(Val(a) - Val(b)) <==> Val(a) != Val(b) || a.exp == b.exp
    ensures Val(a) == Val(b) && a.exp != b.exp ==> r == if a.exp < b.exp then 1 else -1
  {
    if i >= 0 && j >= 0 { ByBigit(a, b, i, j, r); } else { ByLength(a, b, i, j, r); }
  }

  lemma ByBigit(a: Num, b: Num, i: nat, j: nat, r: int)
    requires i < |a.bigits| && j < |b.bigits| && i + a.exp == j + b.exp
    requires a.bigits[i + 1..] == b.bigits[j + 1..]
    requires a.bigits[i] != b.bigits[j] && r == if a.bigits[i] > b.bigits[j] then 1 else -1
    ensures r == Sign(Val(a) - Val(b)) && Val(a) != Val(b)
  {
    if a.bigits[i] > b.bigits[j] { BigitDecides(a, b, i, j); } else { BigitDecides(b, a, j, i); }
  }

  lemma ByLength(a: Num, b: Num, i: int, j: int, r: int)
    requires -1 <= i < |a.bigits| && -1 <= j < |b.bigits| && i + a.exp == j + b.exp && (i < 0 || j < 0)
    requires a.bigits[i + 1..] == b.bigits[j + 1..] && r == Sign(i - j)
    ensures r == Sign(Val(a) - Val(b)) <==> Val(a) != Val(b) || a.exp == b.exp
    ensures Val(a) == Val(b) && a.exp != b.exp ==> r == if a.exp < b.exp then 1 else -1
  {
    OneRunsOut(a, b, i, j);
    LengthArith(Val(a), Val(b), a.exp, b.exp, i, j, r);
  }

  /** The number with bigits left is not the smaller one. */
  lemma OneRunsOut(a: Num, b: Num, i: int, j: int)
    requires -1 <= i < |a.bigits| && -1 <= j < |b.bigits| && i + a.exp == j + b.exp && (i < 0 || j < 0)
    requires a.bigits[i + 1..] == b.bigits[j + 1..]
    ensures i > j ==> Val(a) >= Val(b)
    ensures i < j ==> Val(a) <= Val(b)
    ensures i == j ==> Val(a) == Val(b)
  {
    if j < 0 { WholeTail(b.bigits, j + 1); }
    if i < 0 { WholeTail(a.bigits, i + 1); }
    if i > j {
      LowPart(a, b, i + 1);
    } else if i < j {
      LowPart(b, a, j + 1);
    } else {
      assert a == b;
    }
  }

  lemma WholeTail(s: seq<Bigit>, k: int)
    requires k == 0
    ensures s[k..] == s
  {
  }

  lemma LengthArith(x: int, y: int, ea: int, eb: int, i: int, j: int, r: int)
    requires i + ea == j + eb && r == Sign(i - j)
    requires (i > j ==> x >= y) && (i < j ==> x <= y) && (i == j ==> x == y)
    ensures r == Sign(x - y) <==> x != y || ea == eb
    ensures x == y && ea != eb ==> r == if ea < eb then 1 else -1
  {
  }

  /** The loop: it stops at the first bigits that differ, or where one number has no more. */
  method CompareBigits(lhs: Bigint, rhs: Bigint) returns (r: int, ghost at: int, ghost at': int)
    requires NumBigits(lhs.View()) == NumBigits(rhs.View())
    ensures -1 <= at < |lhs.bigits| && -1 <= at' < |rhs.bigits| && at + lhs.exp == at' + rhs.exp
    ensures lhs.bigits[at + 1..] == rhs.bigits[at' + 1..]
    ensures at >= 0 && at' >= 0 ==> r == if lhs.bigits[at] > rhs.bigits[at'] then 1 else -1
    ensures at >= 0 && at' >= 0 ==> lhs.bigits[at] != rhs.bigits[at']
    ensures at < 0 || at' < 0 ==> r == Sign(at - at')
  {
    ghost var a, b := lhs.bigits, rhs.bigits;
    var i, j := |lhs.bigits| - 1, |rhs.bigits| - 1;
    var end := if i - j < 0 then 0 else i - j;
    while i >= end
      invariant end - 1 <= i < |a| && -1 <= j < |b|
      invariant i + lhs.exp == j + rhs.exp
      invariant a[i + 1..] == b[j + 1..]
    {
      if lhs.bigits[i] != rhs.bigits[j] { return if lhs.bigits[i] > rhs.bigits[j] then 1 else -1, i, j; }
      assert a[i..] == [a[i]] + a[i + 1..];
      assert b[j..] == [b[j]] + b[j + 1..];
      i, j := i - 1, j - 1;
    }
    return if i != j then (if i > j then 1 else -1) else 0, i, j;
  }

  /**
    `add_compare`: the sign of lhs1 + lhs2 - rhs, although it may stop on the lengths or on the
    first borrow above 1.
  */
  method AddCompare(lhs1: Bigint, lhs2: Bigint, rhs: Bigint) returns (r: int)
    requires Lead(rhs.View())
    requires NumBigits(lhs1.View()) > NumBigits(rhs.View()) ==> Lead(lhs1.View())
    requires NumBigits(lhs2.View()) > NumBigits(rhs.View()) ==> Lead(lhs2.View())
    ensures r == Sign(Val(lhs1.View()) + Val(lhs2.View()) - Val(rhs.View()))
  {
    ghost var a, b, c := lhs1.View(), lhs2.View(), rhs.View();
    var n1, n2, numRhs := |lhs1.bigits| + lhs1.exp, |lhs2.bigits| + lhs2.exp, |rhs.bigits| + rhs.exp;
    var maxLhs := if n1 > n2 then n1 else n2;
    if maxLhs + 1 < numRhs { MuchShorter(a, b, c); return -1; }
    if maxLhs > numRhs {
      if n1 > n2 { LongerIsLarger(a, c); } else { LongerIsLarger(b, c); }
      return 1;
    }
    ghost var i;
    r, i := AddCompareBigits(lhs1, lhs2, rhs, numRhs);
    ExcessDecides(a, b, c, i);
    if i <= a.exp && i <= b.exp && i <= c.exp { ExcessAtBottom(a, b, c, i); }
  }

  /** The loop: it stops where the excess has decided, or at the bottom. */
  method AddCompareBigits(lhs1: Bigint, lhs2: Bigint, rhs: Bigint, numRhs: nat) returns (r: int, ghost at: nat)
    requires Excess(lhs1.View(), lhs2.View(), rhs.View(), numRhs) == 0
    ensures var x := Excess(lhs1.View(), lhs2.View(), rhs.View(), at);
            && (r == 1 || r == 0 || r == -1) && (r == 1 ==> x <= -1)
            && (r == -1 ==> x >= 2 || (x == 1 && AtBottom(lhs1.View(), lhs2.View(), rhs.View(), at)))
            && (r == 0 ==> x == 0 && AtBottom(lhs1.View(), lhs2.View(), rhs.View(), at))
  {
    ghost var a, b, c := lhs1.View(), lhs2.View(), rhs.View();
    var borrow := 0;
    var minExp := Lowest(lhs1.exp, Lowest(lhs2.exp, rhs.exp));
    var i := numRhs - 1;
    at := numRhs;
    while i >= minExp
      invariant i < numRhs && at == i + 1 >= 0
      invariant borrow == B * Excess(a, b, c, at) && 0 <= Excess(a, b, c, at) <= 1
    {
      var sum := BigitAt(lhs1.View(), i) + BigitAt(lhs2.View(), i);
      var rhsBigit := BigitAt(rhs.View(), i);
      ExcessStep(a, b, c, i);
      at := i;
      if sum > rhsBigit + borrow { return 1, at; }
      borrow := rhsBigit + borrow - sum;
      if borrow > 1 { return -1, at; }
      borrow := borrow * B;
      i := i - 1;
    }
    r := if borrow != 0 then -1 else 0;
  }

  predicate AtBottom(a: Num, b: Num, c: Num, i: nat) {
    i <= a.exp && i <= b.exp && i <= c.exp
  }

  lemma ExcessStep(a: Num, b: Num, c: Num, i: nat)
    ensures Excess(a, b, c, i) == BigitAt(c, i) + B * Excess(a, b, c, i + 1) - BigitAt(a, i) - BigitAt(b, i)
  {
    HighStep(a, i);
    HighStep(b, i);
    HighStep(c, i);
  }

  function Lowest(a: nat, b: nat): nat { if a < b then a else b }

  lemma MuchShorter(a: Num, b: Num, c: Num)
    requires Lead(c) && NumBigits(a) + 1 < NumBigits(c) && NumBigits(b) + 1 < NumBigits(c)
    ensures Val(a) + Val(b) < Val(c)
  {
    var n := NumBigits(c) - 2;
    ValBound(a);
    ValBound(b);
    ValLead(c);
    PowMono(B, NumBigits(a), n);
    PowMono(B, NumBigits(b), n);
    assert Pow(B, n + 1) == B * Pow(B, n);
  }

  /** The inner loop of `square` for the low half: i from 0, j from k down. */
  method LowColumn(n: seq<Bigit>, k: nat) returns (sum: int)
    requires k < |n|
    ensures sum >= 0 && sum == Column(n, n, k, 0)
  {
    sum := 0;
    var i, j := 0, k;
    while j >= 0
      invariant 0 <= i <= k + 1 && j == k - i && sum >= 0
      invariant sum + Column(n, n, k, i) == Column(n, n, k, 0)
    {
      MulMono(0, n[i], n[j]);
      var x: int, y: int := n[i], n[j];
      sum := sum + x * y;
      i, j := i + 1, j - 1;
    }
    ColumnAbove(n, n, k, i);
  }

  /** The inner loop for the high half: j from the top, i upwards. */
  method HighColumn(n: seq<Bigit>, k: nat) returns (sum: int)
    requires |n| <= k < 2 * |n|
    ensures sum >= 0 && sum == Column(n, n, k, 0)
  {
    sum := 0;
    var j := |n| - 1;
    var i := k - j;
    ColumnBelow(n, n, k, 0, i);
    while i < |n|
      invariant k - |n| + 1 <= i <= |n| && j == k - i && sum >= 0
      invariant sum + Column(n, n, k, i) == Column(n, n, k, 0)
    {
      MulMono(0, n[i], n[j]);
      var x: int, y: int := n[i], n[j];
      sum := sum + x * y;
      i, j := i + 1, j - 1;
    }
  }

  /** The highest power of two not above e. */
  method TopBit(e: nat) returns (bitmask: nat, ghost t: nat)
    requires e > 0
    ensures bitmask == Pow(2, t) && bitmask > 0 && e / bitmask == 1
  {
    bitmask := 1;
    t := 0;
    while e >= bitmask
      invariant bitmask == Pow(2, t) && bitmask > 0 && (t == 0 || Pow(2, t - 1) <= e)
      decreases e - bitmask
    {
      bitmask := bitmask * 2;
      t := t + 1;
    }
    HalfOfPower(t);
    bitmask := bitmask / 2;
    t := t - 1;
    DivUnique(e, bitmask, 1, e - bitmask);
  }

  lemma HalfOfPower(t: nat)
    requires t > 0
    ensures Pow(2, t) / 2 == Pow(2, t - 1) > 0 && Pow(2, t) == 2 * Pow(2, t - 1)
  {
    PowPos(2, t - 1);
  }

  lemma ProductMax(a: int, b: int)
    requires 0 <= a < B && 0 <= b < B
    ensures 0 <= a * b <= 0xffff_fffe_0000_0001
  {
    MulMono(a, B - 1, b);
    assert (B - 1) * b <= (B - 1) * (B - 1);
    MulMono(0, a, b);
  }

  /** bigit * value + carry in 64-bit arithmetic; it does not wrap. */
  function ProductPlus(a: nat, b: nat, c: nat): (r: nat)
    requires a < B && b < B && c < B
    ensures r < U64 && r / B < B
  {
    ProductMax(a, b);
    a * b + c
  }

  /** bigit * upper + result / 2^32 + carry / 2^32 in 64-bit arithmetic; the largest value is exactly 2^64 - 1. */
  function CarrySum(a: nat, b: nat, c: nat, d: nat): (r: nat)
    requires a < B && b < B && c < B && d < B
    ensures r < U64
  {
    ProductMax(a, b);
    a * b + c + d
  }

  lemma SplitProduct(a: int, value: int, lower: int, upper: int)
    requires value == lower + B * upper
    ensures a * value == a * lower + B * (a * upper)
  {
  }

  /** Once the bigits have been multiplied, so has the number, and its top is not zero if it was not. */
  lemma Multiplied(n: Num, n': Num, value: nat)
    requires n'.exp == n.exp && Value(n'.bigits) == Value(n.bigits) * value && value > 0
    requires |n'.bigits| >= |n.bigits|
    requires |n'.bigits| > |n.bigits| ==> Lead(n')
    ensures Val(n') == Val(n) * value
    ensures Lead(n) ==> Lead(n')
  {
    MulSwap(Value(n.bigits), value, Pow(B, n.exp));
    if Lead(n) && |n'.bigits| == |n.bigits| {
      ValueTop(n.bigits);
      MulMono(1, value, Value(n.bigits));
      TopFromValue(n'.bigits);
    }
  }

  lemma WholeShift(n: Num, shift: nat)
    ensures Val(Num(n.bigits, n.exp + shift / 32)) * Pow(2, shift % 32) == Val(n) * Pow(2, shift)
    ensures shift % 32 == 0 ==> Val(Num(n.bigits, n.exp + shift / 32)) == Val(n) * Pow(2, shift)
  {
    PowShift(shift);
    PowAdd(B, n.exp, shift / 32);
    var v, p, q, r := Value(n.bigits), Pow(B, n.exp), Pow(B, shift / 32), Pow(2, shift % 32);
    assert v * (p * q) * r == v * p * (r * q) by { Regroup(v, p, q, r); }
  }

  lemma Regroup(v: int, p: int, q: int, r: int)
    ensures v * (p * q) * r == v * p * (r * q)
  {
    MulAssoc(v, p * q, r);
    MulAssoc(p, q, r);
    MulAssoc(v, p, r * q);
  }

  lemma SubtractWrap(x: int)
    requires -B <= x < B
    ensures var r := x % U64;
            (r % B) - B * (r / 0x8000_0000_0000_0000) == x && 0 <= r / 0x8000_0000_0000_0000 <= 1
  {
    if x < 0 { assert x % U64 == x + U64; }
  }

  /** Aligned numbers compare and subtract as their bigits do. */
  lemma AlignedValue(a: Num, b: Num)
    requires a.exp <= b.exp
    ensures Val(b) == Value(b.bigits) * Pow(B, b.exp - a.exp) * Pow(B, a.exp)
    ensures Val(a) >= Val(b) ==> Value(a.bigits) >= Value(b.bigits) * Pow(B, b.exp - a.exp)
  {
    PowAdd(B, b.exp - a.exp, a.exp);
    MulAssoc(Value(b.bigits), Pow(B, b.exp - a.exp), Pow(B, a.exp));
    PowPos(B, a.exp);
    var x, y := Value(a.bigits), Value(b.bigits) * Pow(B, b.exp - a.exp);
    if x < y { MulMono(x + 1, y, Pow(B, a.exp)); MulDist(x, 1, Pow(B, a.exp)); }
  }

  lemma BorrowAbove(low: seq<Bigit>, was: seq<Bigit>, o: seq<Bigit>, d: nat, i: nat)
    requires i <= |was| <= i + 1 && |low| == |was| && low[i..] == was[i..]
    requires Differs(low[..i], was[..i], o, d, 1) && Value(was) >= Value(o) * Pow(B, d)
    ensures |was| == i + 1
  {
    if |was| == i {
      assert low[..i] == low && was[..i] == was;
      ValueBound(low);
    }
  }

  lemma NoBorrow(low: seq<Bigit>, was: seq<Bigit>, o: seq<Bigit>, d: nat, i: nat)
    requires i <= |was| && |low| == |was| && low[i..] == was[i..]
    requires Differs(low[..i], was[..i], o, d, 0)
    ensures Value(low) == Value(was) - Value(o) * Pow(B, d)
  {
    ValueSplit(low, i);
    ValueSplit(was, i);
  }

  lemma Subtracted(n: Num, o: Num, n': Num)
    requires n.exp <= o.exp && n'.exp == n.exp
    requires Value(n'.bigits) == Value(n.bigits) - Value(o.bigits) * Pow(B, o.exp - n.exp)
    ensures Val(n') == Val(n) - Val(o)
  {
    AlignedValue(n, o);
    MulDist(Value(n.bigits), Value(o.bigits) * Pow(B, o.exp - n.exp), Pow(B, n.exp));
  }

  lemma LeadPositive(n: Num)
    requires Lead(n)
    ensures Val(n) > 0
  {
    ValLead(n);
    PowPos(B, NumBigits(n) - 1);
  }

  lemma Aligned(n: Num, d: nat, n': Num)
    requires d <= n.exp && n'.exp == n.exp - d && n'.bigits == Zeros(d) + n.bigits
    ensures Val(n') == Val(n)
  {
    ValueAppend(Zeros(d), n.bigits);
    ValueZeros(d);
    PowAdd(B, d, n.exp - d);
    AlignArith(Value(n.bigits), Pow(B, d), Pow(B, n.exp - d));
  }

  lemma AlignArith(x: int, p: int, q: int)
    ensures (0 + p * x) * q == x * (p * q)
  {
    MulAssoc(x, p, q);
  }

  lemma SquareValue(n: seq<Bigit>, s: seq<Bigit>, carry: int)
    requires |s| == 2 * |n| && carry >= 0
    requires Value(s) + Pow(B, |s|) * carry == Columns(n, n, 0, 2 * |n|)
    ensures Value(s) == Value(n) * Value(n)
  {
    ColumnsTotal(n, n, 0, 2 * |n|);
    assert n[0..] == n;
    SquareBound(n);
    PowPos(B, |s|);
    CarryGone(Value(s), Pow(B, |s|), carry, Value(n) * Value(n));
  }

  lemma Squared(n: Num, n': Num)
    requires n'.exp == 2 * n.exp && Value(n'.bigits) == Value(n.bigits) * Value(n.bigits)
    requires n.bigits != [] && n'.bigits != [] && (|n'.bigits| == 1 || n'.bigits[|n'.bigits|-1] != 0)
    ensures Val(n') == Val(n) * Val(n)
    ensures Lead(n) ==> Lead(n')
  {
    PowAdd(B, n.exp, n.exp);
    SquareArith(Value(n.bigits), Pow(B, n.exp));
    if Lead(n) && |n'.bigits| == 1 {
      ValueTop(n.bigits);
      PowPos(B, |n.bigits| - 1);
      MulMono(1, Value(n.bigits), Value(n.bigits));
      TopFromValue(n'.bigits);
    }
  }

  lemma SquareArith(v: int, p: int)
    ensures v * v * (p * p) == v * p * (v * p)
  {
    MulAssoc(v * v, p, p);
    MulAssoc(v, v, p);
    MulAssoc(v * p, v, p);
    MulSwap(v, v, p);
  }

  /** The bits of e from t on make q, and `bitmask` is the next bit below, or 0 when there is none. */
  ghost predicate UpTo(e: nat, t: int, bitmask: int, q: int) {
    && t >= 0 && Pow(2, t) > 0 && q == e / Pow(2, t)
    && (if t == 0 then bitmask == 0 else bitmask == Pow(2, t - 1))
  }

  lemma FirstBit(e: nat, t: nat, bitmask: nat)
    requires bitmask == Pow(2, t) && bitmask > 0 && e / bitmask == 1
    ensures UpTo(e, t, bitmask / 2, 1)
  {
    if t > 0 { HalfOfPower(t); } else { assert Pow(2, 0) == 1; }
  }

  lemma OneBitDown(e: nat, t: int, bitmask: int, q: int)
    requires UpTo(e, t, bitmask, q) && bitmask != 0
    ensures t > 0 && UpTo(e, t - 1, bitmask / 2, e / bitmask)
    ensures e / bitmask == 2 * q + if (e / bitmask) % 2 != 0 then 1 else 0
  {
    PowPos(2, t - 1);
    NextBit(e, t);
    if t == 1 { assert Pow(2, 0) == 1; }
  }

  /** Going down one bit doubles the quotient and adds the bit. */
  lemma NextBit(e: nat, t: nat)
    requires t > 0 && Pow(2, t - 1) > 0
    ensures Pow(2, t) > 0 && Pow(2, t) / 2 == Pow(2, t - 1)
    ensures e / Pow(2, t - 1) == 2 * (e / Pow(2, t)) + (e / Pow(2, t - 1)) % 2
    ensures t > 1 ==> Pow(2, t - 1) / 2 == Pow(2, t - 2)
  {
    var p := Pow(2, t - 1);
    assert Pow(2, t) == 2 * p;
    HalfQuotient(e, p);
  }

  lemma HalfQuotient(e: int, p: int)
    requires p > 0 && e >= 0
    ensures (e / p) / 2 == e / (2 * p)
  {
    var q := e / p;
    assert e == p * q + e % p;
    var h, b := q / 2, q % 2;
    assert p * q == 2 * p * h + p * b by { assert q == 2 * h + b; MulAssoc(2, p, h); }
    assert 0 <= p * b <= p;
    DivUnique(e, 2 * p, h, p * b + e % p);
  }
}
