/** Two's complement words: wrap-around, C division, and bitwise operators on
    mathematical integers.  Every value of the code generator's INT and LONG
    nodes is an integer in the signed range of its width. */
module Word {

  const HALF16 := 0x8000
  const FULL16 := 0x1_0000
  const HALF32 := 0x8000_0000
  const FULL32 := 0x1_0000_0000

  predicate In16(x: int) { -HALF16 <= x < HALF16 }
  predicate In32(x: int) { -HALF32 <= x < HALF32 }

  /** The signed 16-bit value congruent to x. */
  function Wrap16(x: int): (r: int)
    ensures In16(r)
  {
    (x + HALF16) % FULL16 - HALF16
  }

  /** The signed 32-bit value congruent to x. */
  function Wrap32(x: int): (r: int)
    ensures In32(r)
  {
    (x + HALF32) % FULL32 - HALF32
  }

  lemma MulAtLeast(d: int, m: nat)
    requires d >= 1
    ensures d * m >= m
  {
    assert d * m == (d - 1) * m + m;
  }

  lemma MulMono(x: nat, y: nat, x': nat, y': nat)
    requires x' <= x && y' <= y
    ensures x' * y' <= x * y
  {
    assert x * y == x' * y' + x' * (y - y') + (x - x') * y;
  }

  lemma {:induction false} DivModUnique(x: int, m: int, q: int, r: int)
    requires 0 <= r < m && x == q * m + r
    ensures x / m == q && x % m == r
  {
    var q0, r0 := x / m, x % m;
    var d := q0 - q;
    assert d * m == r - r0 by {
      assert x == m * q0 + r0;
      assert d * m == q0 * m - q * m;
    }
    if d >= 1 {
      MulAtLeast(d, m);
    } else if d < 0 {
      assert (-d) * m == -(d * m);
      MulAtLeast(-d, m);
    }
  }

  /** A signed word of half-range h is determined by its congruence class. */
  lemma {:induction false} Wrap16Shift(x: int, k: int)
    ensures Wrap16(x + k * FULL16) == Wrap16(x)
  {
    var y := x + HALF16;
    DivModUnique(y + k * FULL16, FULL16, y / FULL16 + k, y % FULL16);
  }

  lemma {:induction false} Wrap32Shift(x: int, k: int)
    ensures Wrap32(x + k * FULL32) == Wrap32(x)
  {
    var y := x + HALF32;
    DivModUnique(y + k * FULL32, FULL32, y / FULL32 + k, y % FULL32);
  }

  lemma Wrap16Congruent(x: int) returns (k: int)
    ensures Wrap16(x) == x + k * FULL16
  {
    k := -((x + HALF16) / FULL16);
  }

  lemma Wrap32Congruent(x: int) returns (k: int)
    ensures Wrap32(x) == x + k * FULL32
  {
    k := -((x + HALF32) / FULL32);
  }

  lemma Wrap16Id(x: int)
    requires In16(x)
    ensures Wrap16(x) == x
  {
  }

  lemma Wrap32Id(x: int)
    requires In32(x)
    ensures Wrap32(x) == x
  {
  }

  lemma {:induction false} Wrap16Add(x: int, y: int)
    ensures Wrap16(Wrap16(x) + y) == Wrap16(x + y)
  {
    var k := Wrap16Congruent(x);
    Wrap16Shift(x + y, k);
  }

  lemma {:induction false} Wrap32Add(x: int, y: int)
    ensures Wrap32(Wrap32(x) + y) == Wrap32(x + y)
  {
    var k := Wrap32Congruent(x);
    Wrap32Shift(x + y, k);
  }

  lemma {:induction false} Wrap16Mul(x: int, y: int)
    ensures Wrap16(Wrap16(x) * y) == Wrap16(x * y)
  {
    var k := Wrap16Congruent(x);
    assert (x + k * FULL16) * y == x * y + (k * y) * FULL16;
    Wrap16Shift(x * y, k * y);
  }

  lemma {:induction false} Wrap32Mul(x: int, y: int)
    ensures Wrap32(Wrap32(x) * y) == Wrap32(x * y)
  {
    var k := Wrap32Congruent(x);
    assert (x + k * FULL32) * y == x * y + (k * y) * FULL32;
    Wrap32Shift(x * y, k * y);
  }

  lemma {:induction false} Wrap16Of32(x: int)
    ensures Wrap16(Wrap32(x)) == Wrap16(x)
  {
    var k := Wrap32Congruent(x);
    assert x + k * FULL32 == x + (k * FULL16) * FULL16;
    Wrap16Shift(x, k * FULL16);
  }

  lemma {:induction false} Wrap16Neg(x: int)
    ensures Wrap16(-Wrap16(x)) == Wrap16(-x)
  {
    var k := Wrap16Congruent(x);
    Wrap16Shift(-x, -k);
  }

  lemma {:induction false} Wrap32Neg(x: int)
    ensures Wrap32(-Wrap32(x)) == Wrap32(-x)
  {
    var k := Wrap32Congruent(x);
    Wrap32Shift(-x, -k);
  }

  /** C's division truncates toward zero. */
  function Tdiv(a: int, b: int): int
    requires b != 0
  {
    if a >= 0 then (if b > 0 then a / b else -(a / -b))
    else (if b > 0 then -(-a / b) else -a / -b)
  }

  function Tmod(a: int, b: int): int
    requires b != 0
  {
    a - b * Tdiv(a, b)
  }

  function Times(a: int, b: int): int { a * b }

  /** Quotient and remainder, 0 for the zero divisor C leaves undefined. */
  function Quotient(a: int, b: int): int { if b == 0 then 0 else Tdiv(a, b) }

  function Remainder(a: int, b: int): int { if b == 0 then 0 else Tmod(a, b) }

  /** Shifts by a negative count, undefined in C, give 0. */
  function ShiftLeft(a: int, n: int): int { if n < 0 then 0 else a * Pow2(n) }

  function ShiftRight(a: int, n: int): int { if n < 0 then 0 else a / Pow2(n) }

  function Pow2(n: nat): (r: nat)
    ensures r >= 1
  {
    if n == 0 then 1 else 2 * Pow2(n - 1)
  }

  lemma {:induction false} Pow2Add(m: nat, n: nat)
    ensures Pow2(m + n) == Pow2(m) * Pow2(n)
  {
    if m > 0 {
      Pow2Add(m - 1, n);
    }
  }

  // ---- bitwise operators ----

  datatype Bits = BAnd | BOr | BXor

  predicate Bit1(op: Bits, p: bool, q: bool) {
    match op
    case BAnd => p && q
    case BOr => p || q
    case BXor => p != q
  }

  function BitVal(p: bool): int { if p then 1 else 0 }

  /** The bitwise operator on the two's complement representations of a and b,
      where bit n and all above it are copies of the sign. */
  function BitOp(op: Bits, n: nat, a: int, b: int): int {
    if n == 0 then
      (if Bit1(op, a < 0, b < 0) then -1 else 0)
    else
      BitVal(Bit1(op, a % 2 == 1, b % 2 == 1)) + 2 * BitOp(op, n - 1, a / 2, b / 2)
  }

  predicate Fits(n: nat, x: int) { -(Pow2(n) as int) <= x < Pow2(n) }

  lemma {:induction false} BitOpFits(op: Bits, n: nat, a: int, b: int)
    requires Fits(n, a) && Fits(n, b)
    ensures Fits(n, BitOp(op, n, a, b))
  {
    if n > 0 {
      BitOpFits(op, n - 1, a / 2, b / 2);
    }
  }

  lemma {:induction false} BitOpComm(op: Bits, n: nat, a: int, b: int)
    ensures BitOp(op, n, a, b) == BitOp(op, n, b, a)
  {
    if n > 0 {
      BitOpComm(op, n - 1, a / 2, b / 2);
    }
  }

  lemma {:induction false} BitOpAssoc(op: Bits, n: nat, a: int, b: int, c: int)
    ensures BitOp(op, n, BitOp(op, n, a, b), c) == BitOp(op, n, a, BitOp(op, n, b, c))
  {
    if n > 0 {
      BitOpAssoc(op, n - 1, a / 2, b / 2, c / 2);
      var ab, bc := BitOp(op, n, a, b), BitOp(op, n, b, c);
      assert ab / 2 == BitOp(op, n - 1, a / 2, b / 2);
      assert bc / 2 == BitOp(op, n - 1, b / 2, c / 2);
    }
  }

  /** -1 is the unit of AND and absorbing for OR; 0 is the unit of OR and XOR;
      XOR with -1 complements. */
  lemma {:induction false} BitOpUnits(n: nat, a: int)
    requires Fits(n, a)
    ensures BitOp(BAnd, n, a, -1) == a
    ensures BitOp(BOr, n, a, -1) == -1
    ensures BitOp(BOr, n, a, 0) == a
    ensures BitOp(BXor, n, a, 0) == a
    ensures BitOp(BXor, n, a, -1) == -a - 1
    ensures BitOp(BAnd, n, a, 0) == 0
  {
    if n > 0 {
      BitOpUnits(n - 1, a / 2);
    }
  }

  lemma {:induction false} HalfRemainder(a: int, p: int)
    requires p >= 1
    ensures a % (2 * p) == 2 * ((a / 2) % p) + a % 2
  {
    var h := a / 2;
    var q, r := h / p, h % p;
    assert h == p * q + r;
    assert q * (2 * p) == 2 * (p * q);
    DivModUnique(a, 2 * p, q, 2 * r + a % 2);
  }

  lemma FitsHalf(n: nat, a: int)
    requires n > 0 && Fits(n, a)
    ensures Fits(n - 1, a / 2)
  {
  }

  lemma AndOdd(n: nat, a: int, m: int)
    requires n > 0
    ensures BitOp(BAnd, n, a, 2 * m + 1) == 2 * BitOp(BAnd, n - 1, a / 2, m) + a % 2
  {
    assert (2 * m + 1) / 2 == m;
  }

  lemma MaskStep(n: nat, a: int, p: int)
    requires n > 0 && p >= 1 && BitOp(BAnd, n - 1, a / 2, p - 1) == (a / 2) % p
    ensures BitOp(BAnd, n, a, 2 * p - 1) == a % (2 * p)
  {
    AndOdd(n, a, p - 1);
    HalfRemainder(a, p);
    assert 2 * (p - 1) + 1 == 2 * p - 1;
  }

  /** Masking with the low k ones is the remainder modulo 2^k. */
  lemma {:induction false} MaskIsRemainder(n: nat, a: int, k: nat)
    requires Fits(n, a) && k <= n
    ensures BitOp(BAnd, n, a, Pow2(k) - 1) == a % Pow2(k)
  {
    if k == 0 {
      BitOpUnits(n, a);
    } else {
      FitsHalf(n, a);
      MaskIsRemainder(n - 1, a / 2, k - 1);
      MaskStep(n, a, Pow2(k - 1));
    }
  }

  /** Masking with one bit gives that bit or nothing. */
  lemma {:induction false} MaskOneBit(n: nat, a: int, k: nat)
    requires Fits(n, a) && k < n
    ensures BitOp(BAnd, n, a, Pow2(k)) == Pow2(k) || BitOp(BAnd, n, a, Pow2(k)) == 0
  {
    if k == 0 {
      BitOpUnits(n - 1, a / 2);
    } else {
      MaskOneBit(n - 1, a / 2, k - 1);
      assert Pow2(k) % 2 == 0 && Pow2(k) / 2 == Pow2(k - 1);
    }
  }

  lemma {:induction false} MaskSignBit(n: nat, a: int)
    requires Fits(n, a)
    ensures BitOp(BAnd, n, a, -(Pow2(n) as int)) == (if a < 0 then -(Pow2(n) as int) else 0)
  {
    if n > 0 {
      MaskSignBit(n - 1, a / 2);
      assert -(Pow2(n) as int) == 2 * -(Pow2(n - 1) as int);
    }
  }

  // ---- powers of two ----

  /** The exponent k when v == 2^k, else -1; v is taken as a positive integer. */
  function Log2(v: int): (r: int)
    ensures r >= 0 ==> v == Pow2(r)
    ensures r >= -1
  {
    if v <= 0 then -1
    else if v == 1 then 0
    else if v % 2 == 1 then -1
    else var r := Log2(v / 2); if r < 0 then -1 else r + 1
  }

  lemma Log2Double(v: int)
    requires v > 0
    ensures Log2(2 * v) == (if Log2(v) < 0 then -1 else Log2(v) + 1)
  {
    assert (2 * v) % 2 == 0 && (2 * v) / 2 == v;
  }

  lemma {:induction false} Log2OfPow2(k: nat)
    ensures Log2(Pow2(k)) == k
  {
    if k > 0 {
      Log2OfPow2(k - 1);
      assert Pow2(k) / 2 == Pow2(k - 1) && Pow2(k) % 2 == 0;
    }
  }

  lemma Pow2Values()
    ensures Pow2(15) == HALF16 && Pow2(16) == FULL16 && Pow2(31) == HALF32
  {
    assert Pow2(8) == 0x100;
    assert Pow2(15) == HALF16 by { Pow2Add(8, 7); assert Pow2(7) == 0x80; }
    assert Pow2(16) == FULL16 by { Pow2Add(8, 8); }
    assert Pow2(31) == HALF32 by { Pow2Add(16, 15); }
  }

  // ---- bits ----

  predicate BitAt(x: int, i: nat)
    decreases i
  {
    if i == 0 then x % 2 == 1 else BitAt(x / 2, i - 1)
  }

  lemma {:induction false} BitOpAt(op: Bits, n: nat, a: int, b: int, i: nat)
    requires Fits(n, a) && Fits(n, b)
    ensures BitAt(BitOp(op, n, a, b), i) == Bit1(op, BitAt(a, i), BitAt(b, i))
    decreases i
  {
    if n == 0 {
      SignBits(a, i);
      SignBits(b, i);
      SignBits(BitOp(op, 0, a, b), i);
    } else if i > 0 {
      BitOpAt(op, n - 1, a / 2, b / 2, i - 1);
    }
  }

  lemma {:induction false} SignBits(x: int, i: nat)
    requires x == 0 || x == -1
    ensures BitAt(x, i) <==> x == -1
    decreases i
  {
    if i > 0 {
      SignBits(x, i - 1);
    }
  }

  lemma {:induction false} ComplementAt(x: int, i: nat)
    ensures BitAt(-x - 1, i) == !BitAt(x, i)
    decreases i
  {
    if i > 0 {
      assert (-x - 1) / 2 == -(x / 2) - 1;
      ComplementAt(x / 2, i - 1);
    }
  }

  lemma {:induction false} ShiftAt(x: int, k: nat, i: nat)
    ensures BitAt(x * Pow2(k), i) <==> i >= k && BitAt(x, i - k)
    decreases k
  {
    if k > 0 {
      var y := x * Pow2(k - 1);
      assert Pow2(k) == 2 * Pow2(k - 1) && x * (2 * Pow2(k - 1)) == 2 * y;
      if i > 0 {
        ShiftAt(x, k - 1, i - 1);
      }
    }
  }

  lemma {:induction false} MaskAt(len: nat, i: nat)
    ensures BitAt(Pow2(len) - 1, i) <==> i < len
    decreases i
  {
    if len == 0 {
      SignBits(0, i);
    } else if i > 0 {
      assert (Pow2(len) - 1) / 2 == Pow2(len - 1) - 1;
      MaskAt(len - 1, i - 1);
    }
  }

  /** Bits below k depend on the value modulo 2^k only. */
  lemma {:induction false} CongruentAt(x: int, m: int, k: nat, i: nat)
    requires i < k
    ensures BitAt(x + m * Pow2(k), i) == BitAt(x, i)
    decreases k
  {
    var y := m * Pow2(k - 1);
    assert Pow2(k) == 2 * Pow2(k - 1) && m * (2 * Pow2(k - 1)) == 2 * y;
    if i > 0 {
      assert (x + 2 * y) / 2 == x / 2 + y;
      CongruentAt(x / 2, m, k - 1, i - 1);
    }
  }

  lemma WrapAt(x: int, i: nat)
    requires i < 16
    ensures BitAt(Wrap16(x), i) == BitAt(x, i)
  {
    var k := Wrap16Congruent(x);
    Pow2Values();
    CongruentAt(x, k, 16, i);
  }

  lemma {:induction false} DropAt(x: int, k: nat, i: nat)
    ensures BitAt(x / Pow2(k), i) == BitAt(x, i + k)
    decreases k
  {
    if k > 0 {
      HalfQuotient(x, Pow2(k - 1));
      DropAt(x / 2, k - 1, i);
    }
  }

  lemma HalfQuotient(x: int, p: nat)
    requires p >= 1
    ensures x / (2 * p) == (x / 2) / p
  {
    var h := x / 2;
    var q, r := h / p, h % p;
    assert h == p * q + r;
    assert q * (2 * p) == 2 * (p * q);
    DivModUnique(x, 2 * p, q, 2 * r + x % 2);
  }

  /** Two values with the same low bits are congruent. */
  lemma {:induction false} SameLowBits(x: int, y: int, k: nat)
    requires forall i :: 0 <= i < k ==> BitAt(x, i) == BitAt(y, i)
    ensures x % Pow2(k) == y % Pow2(k)
    decreases k
  {
    if k > 0 {
      forall i | 0 <= i < k - 1 ensures BitAt(x / 2, i) == BitAt(y / 2, i) {
        assert BitAt(x, i + 1) == BitAt(y, i + 1);
      }
      SameLowBits(x / 2, y / 2, k - 1);
      HalfRemainder(x, Pow2(k - 1));
      HalfRemainder(y, Pow2(k - 1));
      assert BitAt(x, 0) == BitAt(y, 0);
    }
  }

  // ---- what C's operators compute ----

  /** v and x are the same word of so many values. */
  predicate SameModulo(v: int, x: int, full: int)
    requires full != 0
  {
    (v - x) % full == 0
  }

  lemma Wraps(x: int)
    ensures SameModulo(Wrap16(x), x, FULL16) && SameModulo(Wrap32(x), x, FULL32)
  {
    var i := Wrap16Congruent(x);
    var j := Wrap32Congruent(x);
    DivModUnique(i * FULL16, FULL16, i, 0);
    DivModUnique(j * FULL32, FULL32, j, 0);
  }

  /** q and r are quotient and remainder of a by b, truncated toward zero. */
  predicate Divides(a: int, b: int, q: int, r: int) {
    && a == q * b + r
    && (if b > 0 then -b < r < b else b < r < -b)
    && (r > 0 ==> a > 0) && (r < 0 ==> a < 0)
  }

  lemma DivNat(x: nat, y: int) returns (q: int)
    requires y > 0
    ensures q == x / y && 0 <= x - y * q < y
  {
    q := x / y;
    assert x == y * q + x % y;
  }

  lemma Signs(b: int, q: int)
    ensures b * -q == -(b * q) && -b * q == -(b * q) && q * b == b * q && -q * b == -(b * q)
  {
  }

  lemma Truncates(a: int, b: int)
    requires b != 0
    ensures Divides(a, b, Quotient(a, b), Remainder(a, b))
  {
    var q := DivNat(if a >= 0 then a else -a, if b > 0 then b else -b);
    var p := if (a >= 0) == (b > 0) then q else -q;
    Signs(b, q);
    assert Tdiv(a, b) == p;
    QuotientDivides(a, b, p, a - b * p);
  }

  lemma QuotientDivides(a: int, b: int, p: int, r: int)
    requires b != 0 && r == a - b * p && Tdiv(a, b) == p
    requires if a > 0 then 0 <= r else if a < 0 then r <= 0 else r == 0
    requires if b > 0 then -b < r < b else b < r < -b
    ensures Divides(a, b, Quotient(a, b), Remainder(a, b))
  {
    hide Tdiv;
    assert b * p == p * b;
  }

  /** x, n bits to the right: the greatest word whose 2^n-fold is at most x. */
  predicate Floors(v: int, x: int, n: nat) { v * Pow2(n) <= x < (v + 1) * Pow2(n) }

  lemma ShiftsRight(x: int, n: nat)
    ensures Floors(ShiftRight(x, n), x, n)
  {
    var p, q := Pow2(n), x / Pow2(n);
    assert x == p * q + x % p;
    assert (q + 1) * p == q * p + p;
  }

  /** The i-th bit of v comes from those of a and b, for the bits of a word. */
  predicate BitwiseAnd(v: int, a: int, b: int) {
    forall i: nat :: i < 32 ==> BitAt(v, i) == (BitAt(a, i) && BitAt(b, i))
  }

  predicate BitwiseOr(v: int, a: int, b: int) {
    forall i: nat :: i < 32 ==> BitAt(v, i) == (BitAt(a, i) || BitAt(b, i))
  }

  predicate BitwiseXor(v: int, a: int, b: int) {
    forall i: nat :: i < 32 ==> BitAt(v, i) == (BitAt(a, i) != BitAt(b, i))
  }

  lemma Bitwise(n: nat, a: int, b: int)
    requires Fits(n, a) && Fits(n, b)
    ensures BitwiseAnd(BitOp(BAnd, n, a, b), a, b)
    ensures BitwiseOr(BitOp(BOr, n, a, b), a, b)
    ensures BitwiseXor(BitOp(BXor, n, a, b), a, b)
  {
    forall i: nat
      ensures BitAt(BitOp(BAnd, n, a, b), i) == (BitAt(a, i) && BitAt(b, i))
      ensures BitAt(BitOp(BOr, n, a, b), i) == (BitAt(a, i) || BitAt(b, i))
      ensures BitAt(BitOp(BXor, n, a, b), i) == (BitAt(a, i) != BitAt(b, i))
    {
      BitOpAt(BAnd, n, a, b, i);
      BitOpAt(BOr, n, a, b, i);
      BitOpAt(BXor, n, a, b, i);
    }
  }

  // ---- on words of 32 bits ----

  /** v is the quotient as one of so many words; 0 for the zero divisor C leaves undefined. */
  ghost predicate IsQuotient(v: int, a: int, b: int, full: int)
    requires full != 0
  {
    if b == 0 then v == 0 else exists q: int, r: int :: Divides(a, b, q, r) && SameModulo(v, q, full)
  }

  ghost predicate IsRemainder(v: int, a: int, b: int) {
    if b == 0 then v == 0 else exists q: int :: Divides(a, b, q, v)
  }

  /** v is a shifted by n places; 0 for the negative count C leaves undefined. */
  predicate IsLeftShift(v: int, a: int, n: int, full: int)
    requires full != 0
  {
    if n < 0 then v == 0 else SameModulo(v, a * Pow2(n), full)
  }

  predicate IsRightShift(v: int, a: int, n: int) { if n < 0 then v == 0 else Floors(v, a, n) }

  lemma RemainderFits(a: int, b: int, q: int, r: int)
    requires Divides(a, b, q, r)
    ensures In16(b) ==> In16(r)
    ensures In32(b) ==> In32(r)
  {
  }

  lemma QuotientWord(a: int, b: int, v: int, w: int, full: int)
    requires full != 0 && SameModulo(v, Quotient(a, b), full) && w == Remainder(a, b) && (b == 0 ==> v == 0 && w == 0)
    ensures IsQuotient(v, a, b, full) && IsRemainder(w, a, b)
  {
    if b != 0 {
      Truncates(a, b);
      assert Divides(a, b, Quotient(a, b), Remainder(a, b));
    }
  }

  lemma RemainderIn(a: int, b: int)
    ensures In16(b) ==> In16(Remainder(a, b))
    ensures In32(b) ==> In32(Remainder(a, b))
  {
    if b != 0 {
      Truncates(a, b);
      RemainderFits(a, b, Quotient(a, b), Remainder(a, b));
    }
  }

  lemma Quotients32(a: int, b: int)
    requires In32(b)
    ensures IsQuotient(Wrap32(Quotient(a, b)), a, b, FULL32) && IsRemainder(Wrap32(Remainder(a, b)), a, b)
  {
    hide Tdiv, SameModulo, IsQuotient, IsRemainder, Remainder;
    Wraps(Quotient(a, b));
    RemainderIn(a, b);
    Wrap32Id(Remainder(a, b));
    ZeroDivisor(a, b);
    QuotientWord(a, b, Wrap32(Quotient(a, b)), Remainder(a, b), FULL32);
  }

  lemma Quotients16(a: int, b: int)
    requires In16(b)
    ensures IsQuotient(Wrap16(Quotient(a, b)), a, b, FULL16) && IsRemainder(Wrap16(Remainder(a, b)), a, b)
  {
    hide Tdiv, SameModulo, IsQuotient, IsRemainder, Remainder;
    Wraps(Quotient(a, b));
    RemainderIn(a, b);
    Wrap16Id(Remainder(a, b));
    ZeroDivisor(a, b);
    QuotientWord(a, b, Wrap16(Quotient(a, b)), Remainder(a, b), FULL16);
  }

  lemma ZeroDivisor(a: int, b: int)
    ensures b == 0 ==> Quotient(a, b) == 0 && Remainder(a, b) == 0 && Wrap16(0) == 0 && Wrap32(0) == 0
  {
  }

  lemma FloorFits(v: int, a: int, n: nat)
    requires Floors(v, a, n)
    ensures In16(a) ==> In16(v)
    ensures In32(a) ==> In32(v)
  {
    var p := Pow2(n);
    if v >= 0 {
      MulAtLeast(p, v);
    } else {
      MulAtLeast(p, -v - 1);
      assert (v + 1) * p == -(p * (-v - 1));
    }
  }

  lemma Shifts32(a: int, n: int)
    requires In32(a)
    ensures IsLeftShift(Wrap32(ShiftLeft(a, n)), a, n, FULL32) && IsRightShift(Wrap32(ShiftRight(a, n)), a, n)
  {
    hide Floors, SameModulo;
    if n >= 0 {
      Wraps(a * Pow2(n));
      ShiftsRight(a, n);
      FloorFits(ShiftRight(a, n), a, n);
      Wrap32Id(ShiftRight(a, n));
    }
  }

  lemma Shifts16(a: int, n: int)
    requires In16(a)
    ensures IsLeftShift(Wrap16(ShiftLeft(a, n)), a, n, FULL16) && IsRightShift(Wrap16(ShiftRight(a, n)), a, n)
  {
    hide Floors, SameModulo;
    if n >= 0 {
      Wraps(a * Pow2(n));
      ShiftsRight(a, n);
      FloorFits(ShiftRight(a, n), a, n);
      Wrap16Id(ShiftRight(a, n));
    }
  }

  lemma Bits32(op: Bits, a: int, b: int)
    requires In32(a) && In32(b)
    ensures var v := BitOp(op, 31, a, b);
      && In32(v) && (op == BAnd ==> BitwiseAnd(v, a, b)) && (op == BOr ==> BitwiseOr(v, a, b))
      && (op == BXor ==> BitwiseXor(v, a, b))
  {
    hide BitwiseAnd, BitwiseOr, BitwiseXor, BitOp;
    Pow2Values();
    Bitwise(31, a, b);
    BitOpFits(op, 31, a, b);
  }
}
