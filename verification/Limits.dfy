/** Where the canonicalizer's rewrites change a value or a type, with the exact
    condition under which they do not; and the unsigned powers of two. */
module Limits {
  import opened Word
  import opened Icode
  import opened Fold
  import opened Rules

  /** A comparison of constants folds to a node of its own type, INT, exactly
      when neither constant is long. */
  lemma ComparisonWidth(op: Bop, l: Tree, r: Tree, su: int)
    requires RelOp(op) && Folds2(op) && IsConst(l) && IsConst(r)
    ensures var t := Bin(op, INT, l, r, su);
      TypeOf(Ccexpr(t).tree) == TypeOf(t) <==> Norm(l).Cint? && Norm(r).Cint?
  {
  }

  function DividendTree(op: Bop, v: int, su: int): Tree {
    Bin(op, LONG, Clong(v, su), Sym(0, LONG, false, su), su)
  }

  lemma DividendTurn(op: Bop, v: int, su: int)
    requires op in {DIV, MOD} && Wrap16(v) == 0
    ensures Turn(DividendTree(op, v, su)) == Cont(Clong(v, su))
  {
  }

  lemma DividendValue(op: Bop, v: int, su: int, y: int)
    requires op in {DIV, MOD} && In32(y)
    ensures Eval(DividendTree(op, v, su), [y]) == Meaning2(op, LONG, v, y)
  {
    Wrap32Id(y);
  }

  lemma ZeroOver(op: Bop, y: int)
    requires op in {DIV, MOD} && y != 0
    ensures Meaning2(op, LONG, 0, y) == 0
  {
    var q := Tdiv(0, y);
    assert q == 0;
  }

  lemma DividendLost(op: Bop, v: int)
    requires op in {DIV, MOD} && In32(v) && v != 0
    ensures Meaning2(op, LONG, v, if op == DIV then 2 else 1) != v
  {
  }

  /** 0 / x and 0 % x fold to their dividend when it looks like zero; for a long
      constant dividend over a long variable only its low half is looked at.
      The fold is right for every divisor exactly when the dividend is 0. */
  lemma LongDividend(op: Bop, v: int, su: int)
    requires op in {DIV, MOD} && In32(v) && Wrap16(v) == 0
    ensures var t := DividendTree(op, v, su);
      (forall y :: In32(y) && y != 0 ==> Eval(Turn(t).tree, [y]) == Eval(t, [y])) <==> v == 0
  {
    var t := DividendTree(op, v, su);
    DividendTurn(op, v, su);
    if v == 0 {
      forall y | In32(y) && y != 0 ensures Eval(Turn(t).tree, [y]) == Eval(t, [y]) {
        DividendValue(op, v, su, y);
        ZeroOver(op, y);
      }
    } else {
      var y := if op == DIV then 2 else 1;
      DividendValue(op, v, su, y);
      DividendLost(op, v);
      assert In32(y) && y != 0 && Eval(Turn(t).tree, [y]) != Eval(t, [y]);
    }
  }

  /** The condition under which moving both - and ~ below a widening is right. */
  lemma ChainBelowWidening(x: int)
    requires In16(x)
    ensures Meaning1(UMINUS, INT, Meaning1(COMPL, INT, x)) == Meaning1(UMINUS, LONG, Meaning1(COMPL, LONG, x))
      <==> x != HALF16 - 1
  {
  }

  // ---- unsigned division by powers of two ----

  lemma DivModNat(x: nat, p: nat)
    requires p >= 1
    ensures Quotient(x, p) == x / p && Remainder(x, p) == x % p
    ensures 0 <= x / p <= x && 0 <= x % p <= x
  {
    var q, r := x / p, x % p;
    assert x == p * q + r;
    MulAtLeast(p, q);
  }

  lemma Log2IsPow2(v: int)
    requires 0 < v < HALF32 && OneBit(v) >= 0
    ensures OneBit(v) == Log2(v) && v == Pow2(Log2(v))
  {
  }

  lemma MaskLow(x: int, k: nat)
    requires 0 <= x < FULL16 && k <= 15
    ensures BitOp(BAnd, 16, x, Wrap16(Pow2(k) - 1)) == x % Pow2(k)
  {
    Pow2Values();
    Pow2Mono(k, 15);
    Wrap16Id(Pow2(k) - 1);
    MaskIsRemainder(16, x, k);
  }

  lemma MaskAll(x: int, n: nat, p: int)
    requires 0 <= x < FULL16 && n >= 1 && p == n * FULL16
    ensures BitOp(BAnd, 16, x, Wrap16(p - 1)) == x == x % p
  {
    assert Wrap16(p - 1) == -1 by {
      Wrap16Shift(-1, n);
    }
    assert BitOp(BAnd, 16, x, -1) == x by {
      Pow2Values();
      BitOpUnits(16, x);
    }
    DivModUnique(x, p, 0, x);
  }

  /** The low bits of an unsigned word, for a mask cut to 16 bits. */
  lemma MaskUnsigned(x: int, k: nat)
    requires 0 <= x < FULL16
    ensures BitOp(BAnd, 16, x, Wrap16(Pow2(k) - 1)) == x % Pow2(k)
  {
    if k <= 15 {
      MaskLow(x, k);
    } else {
      Pow2Values();
      Pow2Add(k - 16, 16);
      MaskAll(x, Pow2(k - 16), Pow2(k));
    }
  }

  lemma RemainderMeaning(x: int, p: nat)
    requires 0 <= x < FULL16 && p >= 1
    ensures Meaning2(MOD, UNSIGNED, x, p) == x % p
  {
    DivModNat(x, p);
    var r := Remainder(x, p);
    assert 0 <= r < FULL16 && r % FULL16 == r;
  }

  lemma ShiftIsDivision(x: int, k: nat)
    requires 0 <= x < FULL16
    ensures Meaning2(RSH, UNSIGNED, x, k) == Meaning2(DIV, UNSIGNED, x, Pow2(k))
  {
    DivModNat(x, Pow2(k));
  }

  lemma MaskIsModulus(x: int, k: nat)
    requires 0 <= x < FULL16
    ensures Meaning2(AND, UNSIGNED, x, Wrap16(Pow2(k) - 1)) == Meaning2(MOD, UNSIGNED, x, Pow2(k))
  {
    var p := Pow2(k);
    RemainderMeaning(x, p);
    MaskUnsigned(x, k);
  }

  lemma ConstValue(t: Tree, env: Env)
    requires IsConst(t)
    ensures Eval(t, env) == ConstVal(t)
  {
    if t.Un? {
      assert Eval(t.arg, env) == t.arg.val;
    }
  }

  /** Dividing an unsigned word by a constant power of two is the shift, and the
      remainder the mask, that the optimizer puts in its place. */
  lemma UnsignedPower2(t: Tree, env: Env)
    requires t.Bin? && t.op in {DIV, MOD} && t.ty == UNSIGNED && TypeOf(t.left) == UNSIGNED
    requires 0 <= Eval(t.left, env) < FULL16
    requires IsConst(t.right) && 0 < ConstVal(t.right) < HALF32 && OneBit(ConstVal(t.right)) >= 0
    ensures Power2(t).Cont? && Eval(Power2(t).tree, env) == Eval(t, env)
    ensures Power2(t).tree.op == (if t.op == DIV then RSH else AND)
  {
    var x, c := Eval(t.left, env), ConstVal(t.right);
    var k := Log2(c);
    Log2IsPow2(c);
    ConstValue(t.right, env);
    ShiftIsDivision(x, k);
    MaskIsModulus(x, k);
    assert Eval(t, env) == Meaning2(t.op, UNSIGNED, x, c);
  }
}
