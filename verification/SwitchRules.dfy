/** The cases of the optimizer's switch, one lemma for what they compute and one
    for the form they leave. */
module SwitchRules {
  import opened Word
  import opened Icode
  import opened Fold
  import opened Rules

  /** The facts every case starts from. */
  lemma Operands(t: Tree, env: Env)
    requires t.Bin? && Top(t)
    ensures Eval(Norm(t.left), env) == Eval(t.left, env)
    ensures Eval(Norm(t.right), env) == Eval(t.right, env)
    ensures IsConst(t.left) ==> Eval(t.left, env) == ConstVal(t.left)
    ensures IsConst(t.right) ==> Eval(t.right, env) == ConstVal(t.right)
    ensures InKind(A(t.left).kind, Eval(t.left, env)) && InKind(A(t.right).kind, Eval(t.right, env))
  {
    NormOk(t.left, env);
    NormOk(t.right, env);
    EvalInKind(t.left, DONE, env);
    EvalInKind(t.right, DONE, env);
  }

  /** The left operand is as safe as the node where it may take its place. */
  lemma SafeLeft(t: Tree, env: Env, lim: Lim, wide: bool)
    requires t.Bin? && Top(t) && Safe(t, env, lim, wide) && LeavesLeft(t.op, A(t.right))
    requires Tighter(lim, FREE) && A(t.left).kind == TyKind(t.ty)
    ensures Safe(t.left, env, lim, wide)
  {
    var lim0, wide0 := LimLeft(t.op, lim, A(t.right)), wide && ThruLeft(t.op, t.ty, A(t.right));
    if t.ty == LONG {
      KindType(t.left, DONE);
      LongWide(t.left, env, lim0, wide0, wide);
      SafeMono(t.left, env, lim0, wide, lim, wide);
    } else {
      SafeMono(t.left, env, lim0, wide0, lim, wide);
    }
  }

  lemma NormedSame(t: Tree, env: Env, lim: Lim, wide: bool)
    requires t.Bin? && Pre(t, env, lim, wide)
    ensures Eval(Normed(t), env) == Eval(t, env) && Safe(Normed(t), env, lim, wide)
    ensures Eval(NormedRight(t), env) == Eval(t, env) && Safe(NormedRight(t), env, lim, wide)
  {
    NormedBinSame(t, Norm(t.left), Norm(t.right), env, lim, wide);
    NormedBinSame(t, t.left, Norm(t.right), env, lim, wide);
  }

  /** Operations that the units 0, 1 and -1 leave as they are. */
  predicate IsUnit(op: Bop, c: int) {
    match op
    case ADD => c == 0
    case SUB => c == 0
    case OR => c == 0
    case XOR => c == 0
    case LSH => c == 0
    case RSH => c == 0
    case AND => c == -1
    case MULT => c == 1
    case DIV => c == 1
    case _ => false
  }

  lemma OnesValue(ty: Ty, x: int)
    requires ty != UNSIGNED && InKind(TyKind(ty), x)
    ensures BitOp(BXor, Msb(ty), x, -1) == Meaning1(COMPL, ty, x)
    ensures BitOp(BOr, Msb(ty), x, -1) == -1
    ensures BitOp(BAnd, Msb(ty), x, -1) == x
    ensures BitOp(BOr, Msb(ty), x, 0) == x && BitOp(BXor, Msb(ty), x, 0) == x
  {
    KindFits(ty, x);
    BitOpUnits(Msb(ty), x);
    assert -x - 1 == Wrap(ty, -x - 1);
  }

  lemma OnesMeaning(op: Bop, ty: Ty, x: int)
    requires op in {OR, XOR} && ty != UNSIGNED && InKind(TyKind(ty), x)
    ensures Meaning2(op, ty, x, -1) == if op == OR then -1 else Meaning1(COMPL, ty, x)
  {
    OnesValue(ty, x);
  }

  lemma UnitValue(op: Bop, ty: Ty, x: int, c: int)
    requires IsUnit(op, c) && ty != UNSIGNED && InKind(TyKind(ty), x)
    ensures Meaning2(op, ty, x, c) == x
  {
    if op in {AND, OR, XOR} {
      OnesValue(ty, x);
    } else {
      assert Pow2(0) == 1;
      assert Wrap(ty, x) == x;
    }
  }

  lemma UnitZero(t: Tree, c: int)
    requires t.Bin? && RightIs(t, c) && IsUnit(t.op, c)
    ensures LeavesLeft(t.op, A(t.right))
  {
    NormOk(t.right, []);
    ConstZero(t.right);
  }

  /** x op unit becomes x. */
  lemma UnitSame(t: Tree, c: int, env: Env, lim: Lim, wide: bool)
    requires t.Bin? && Top(t) && Pre(t, env, lim, wide) && RightIs(t, c) && IsUnit(t.op, c)
    requires A(t.left).kind == TyKind(t.ty)
    ensures Eval(t.left, env) == Eval(t, env) && Safe(t.left, env, lim, wide)
  {
    Operands(t, env);
    NormOk(t.right, env);
    UnitZero(t, c);
    SafeLeft(t, env, lim, wide);
    UnitValue(t.op, t.ty, Eval(t.left, env), c);
  }

  lemma SubIsAdd(ty: Ty, x: int, y: int)
    requires ty != UNSIGNED
    ensures Meaning2(ADD, ty, x, Wrap(ty, -y)) == Meaning2(SUB, ty, x, y)
  {
    if ty == INT {
      Wrap16Add(-y, x);
    } else {
      Wrap32Add(-y, x);
    }
  }

  lemma NegatedConst(r: Tree, ty: Ty, env: Env)
    requires (r.Cint? && ty == INT) || (r.Clong? && ty == LONG)
    ensures Eval(WithVal(r, -r.val), env) == Wrap(ty, -r.val)
    ensures WellTyped(WithVal(r, -r.val), DONE) && A(WithVal(r, -r.val)).kind == TyKind(ty)
    ensures Leaf(WithVal(r, -r.val))
  {
  }

  /** A constant operand of a sum is as wide as the sum. */
  lemma ConstWidth(t: Tree)
    requires t.Bin? && t.op in {ADD, SUB} && Top(t) && IsConst(t.right)
    ensures WidthIs(Norm(t.right), t.ty)
  {
    NormOk(t.right, []);
  }

  predicate WidthIs(r: Tree, ty: Ty) { (r.Cint? && ty == INT) || (r.Clong? && ty == LONG) }

  /** x - c is x + (-c). */
  lemma SubConstSame(t: Tree, r: Tree, env: Env, lim: Lim, wide: bool)
    requires t.Bin? && t.op == SUB && WidthIs(r, t.ty) && Eval(t.right, env) == r.val
    requires A(t.right).fold && Safe(t, env, lim, wide)
    ensures var u := Bin(ADD, t.ty, t.left, WithVal(r, -r.val), t.su);
      Eval(u, env) == Eval(t, env) && Safe(u, env, lim, wide)
  {
    SubOfConst(t.ty, t.left, t.right, r, t.su, env);
    SubSafe(t.ty, t.left, t.right, r, t.su, env, lim, wide);
    assert t == Bin(SUB, t.ty, t.left, t.right, t.su);
  }

  lemma SubOfConst(ty: Ty, l: Tree, x: Tree, r: Tree, su: int, env: Env)
    requires WidthIs(r, ty) && Eval(x, env) == r.val
    ensures Eval(Bin(ADD, ty, l, WithVal(r, -r.val), su), env) == Eval(Bin(SUB, ty, l, x, su), env)
  {
    NegatedConst(r, ty, env);
    SubIsAdd(ty, Eval(l, env), r.val);
  }

  lemma SubSafe(ty: Ty, l: Tree, x: Tree, r: Tree, su: int, env: Env, lim: Lim, wide: bool)
    requires WidthIs(r, ty) && A(x).fold && Safe(Bin(SUB, ty, l, x, su), env, lim, wide)
    ensures Safe(Bin(ADD, ty, l, WithVal(r, -r.val), su), env, lim, wide)
  {
    var v := WithVal(r, -r.val);
    assert A(v).fold && Leaf(v);
    assert LimLeft(ADD, lim, A(v)) == LimLeft(SUB, lim, A(x));
  }

  lemma ZeroMinusSame(t: Tree, env: Env, lim: Lim, wide: bool)
    requires t.Bin? && t.op == SUB && Top(t) && Pre(t, env, lim, wide) && LeftIs(t, 0)
    ensures var u := Un(UMINUS, t.ty, Norm(t.right), t.su); Eval(u, env) == Eval(t, env) && Safe(u, env, lim, wide)
  {
    Operands(t, env);
    NormOk(t.right, env);
    PreOperands(t.op, t.ty, t.left, t.right, t.su, env, lim, wide);
    NormOk(t.left, env);
    var wide0, wide' := wide && ThruRight(SUB, t.ty, A(t.left)), Wide1(UMINUS, t.ty, wide);
    SameAt(t.right, Norm(t.right), env, NegLim(lim), wide0, NegLim(lim), wide');
  }


  lemma NormFold(t: Tree, env: Env)
    requires IsConst(t)
    ensures A(t).fold && Eval(t, env) == Norm(t).val
  {
    NormOk(t, env);
  }

  lemma SubCase(t: Tree, r: Tree)
    requires t.Bin? && t.op == SUB && IsConst(t.right) && !RightIs(t, 0) && r == Norm(t.right)
    ensures SumCase(t).tree == Bin(ADD, t.ty, t.left, WithVal(r, -r.val), t.su)
  {
  }

  lemma SubCaseSame(t: Tree, r: Tree, env: Env, lim: Lim, wide: bool)
    requires t.Bin? && t.op == SUB && r == Norm(t.right) && WidthIs(r, t.ty) && Safe(t, env, lim, wide)
    requires IsConst(t.right) && !RightIs(t, 0)
    ensures var u := SumCase(t).tree; Eval(u, env) == Eval(t, env) && Safe(u, env, lim, wide)
  {
    SubCase(t, r);
    NormFold(t.right, env);
    SubConstSame(t, r, env, lim, wide);
  }

  lemma SumSame(t: Tree, env: Env, lim: Lim, wide: bool)
    requires t.Bin? && t.op in {ADD, SUB} && Top(t) && Pre(t, env, lim, wide)
    ensures var u := SumCase(t).tree; Eval(u, env) == Eval(t, env) && Safe(u, env, lim, wide)
  {
    if RightIs(t, 0) {
      UnitSame(t, 0, env, lim, wide);
    } else if t.op == SUB && IsConst(t.right) {
      ConstWidth(t);
      SubCaseSame(t, Norm(t.right), env, lim, wide);
    } else if t.op == SUB && LeftIs(t, 0) {
      ZeroMinusSame(t, env, lim, wide);
    } else {
      NormedSame(t, env, lim, wide);
    }
  }

  lemma XorOnesSafe(ty: Ty, l: Tree, r: Tree, su: int, env: Env, lim: Lim, wide: bool)
    requires Safe(Bin(XOR, ty, l, r, su), env, lim, wide) && Tighter(lim, FREE) && A(r).fold
    ensures Safe(Un(COMPL, ty, l, su), env, lim, wide)
  {
    SafeMono(l, env, LimLeft(XOR, lim, A(r)), wide && ThruLeft(XOR, ty, A(r)), NotLim(lim), Wide1(COMPL, ty, wide));
  }

  lemma XorOnesSame(t: Tree, env: Env)
    requires t.Bin? && t.op == XOR && Top(t) && RightIs(t, -1)
    ensures Eval(Un(COMPL, t.ty, t.left, t.su), env) == Eval(t, env)
  {
    Operands(t, env);
    OnesMeaning(XOR, t.ty, Eval(t.left, env));
  }

  lemma OrOnesSame(t: Tree, env: Env, lim: Lim, wide: bool)
    requires t.Bin? && t.op == OR && Top(t) && Pre(t, env, lim, wide) && RightIs(t, -1)
    ensures Eval(Norm(t.right), env) == Eval(t, env)
  {
    Operands(t, env);
    assert Eval(t.right, env) == -1 && A(t.left).kind == TyKind(t.ty);
    OnesMeaning(OR, t.ty, Eval(t.left, env));
  }

  lemma BitsSame(t: Tree, env: Env, lim: Lim, wide: bool)
    requires t.Bin? && t.op in {AND, OR, XOR} && Top(t) && Pre(t, env, lim, wide)
    ensures var u := BitsCase(t).tree; Eval(u, env) == Eval(t, env) && Safe(u, env, lim, wide)
  {
    var c := if t.op == AND then -1 else 0;
    if RightIs(t, c) {
      UnitSame(t, c, env, lim, wide);
    } else if t.op == OR && RightIs(t, -1) {
      OrOnesSame(t, env, lim, wide);
    } else if t.op == XOR && RightIs(t, -1) {
      NormOk(t.right, env);
      XorOnesSafe(t.ty, t.left, t.right, t.su, env, lim, wide);
      XorOnesSame(t, env);
    } else {
      NormedSame(t, env, lim, wide);
    }
  }

  lemma ShiftSame(t: Tree, env: Env, lim: Lim, wide: bool)
    requires t.Bin? && t.op in {LSH, RSH} && Top(t) && Pre(t, env, lim, wide)
    ensures var u := ShiftCase(t).tree; Eval(u, env) == Eval(t, env) && Safe(u, env, lim, wide)
  {
    CountSigned(t);
    if RightIs(t, 0) {
      UnitSame(t, 0, env, lim, wide);
    } else {
      NormedSame(t, env, lim, wide);
    }
  }

  /** The count of a long shift is never a widened unsigned word here. */
  lemma CountSigned(t: Tree)
    requires t.Bin? && t.op in {LSH, RSH} && Top(t)
    ensures ShiftCase(t) == if RightIs(t, 0) then Cont(t.left) else Brk(NormedRight(t))
    ensures A(t.left).kind == TyKind(t.ty)
  {
    if t.right.Un? {
      NotUnsigned(t.right.arg);
    }
  }

  lemma NotUnsigned(t: Tree)
    requires WellTyped(t, DONE)
    ensures TypeOf(t) != UNSIGNED
  {
  }

  // ---- products and quotients ----

  lemma MinusOneSame(t: Tree, env: Env, lim: Lim, wide: bool)
    requires t.Bin? && t.op in {MULT, DIV} && Top(t) && Pre(t, env, lim, wide) && RightIs(t, -1)
    ensures var u := Un(UMINUS, t.ty, t.left, t.su); Eval(u, env) == Eval(t, env) && Safe(u, env, lim, wide)
  {
    MinusOneValue(t, env);
    MinusSafe(t.op, t.ty, t.left, t.right, t.su, env, lim, wide);
    assert t == Bin(t.op, t.ty, t.left, t.right, t.su);
  }

  lemma MinusOneValue(t: Tree, env: Env)
    requires t.Bin? && t.op in {MULT, DIV} && Top(t) && RightIs(t, -1)
    ensures Eval(Un(UMINUS, t.ty, t.left, t.su), env) == Eval(t, env)
  {
    Operands(t, env);
  }

  lemma MinusSafe(op: Bop, ty: Ty, l: Tree, r: Tree, su: int, env: Env, lim: Lim, wide: bool)
    requires op in {MULT, DIV} && Safe(Bin(op, ty, l, r, su), env, lim, wide) && A(r).fold
    ensures Safe(Un(UMINUS, ty, l, su), env, lim, wide)
  {
    assert Tighter(LimLeft(op, lim, A(r)), NegLim(lim));
    SafeMono(l, env, LimLeft(op, lim, A(r)), wide && ThruLeft(op, ty, A(r)), NegLim(lim), Wide1(UMINUS, ty, wide));
  }

  lemma TwoPowerProduct(ty: Ty, x: int, c: int)
    requires ty != UNSIGNED && OneBit(c) >= 0
    ensures Wrap(ty, x * c) == Wrap(ty, x * Pow2(OneBit(c)))
  {
    Pow2Values();
    if c == -HALF32 {
      assert x * c == x * Pow2(31) + (-x) * FULL32;
      assert x * c == x * Pow2(31) + (-x * FULL16) * FULL16;
      Wrap32Shift(x * Pow2(31), -x);
      Wrap16Shift(x * Pow2(31), -x * FULL16);
    }
  }

  lemma {:induction false} OneBitBound(v: int, bits: nat)
    requires OneBit(v) >= 0 && v != -HALF32 && v < Pow2(bits)
    ensures OneBit(v) < bits
  {
    if OneBit(v) >= bits {
      Pow2Mono(bits, OneBit(v));
    }
  }

  lemma ShiftCount(ty: Ty, c: int)
    requires ty != UNSIGNED && InKind(TyKind(ty), c) && OneBit(c) >= 0
    ensures OneBit(c) < Width(ty)
  {
    Pow2Values();
    if c != -HALF32 {
      OneBitBound(c, if ty == INT then 15 else 31);
    }
  }

  lemma ShiftedProductSame(t: Tree, env: Env, lim: Lim, wide: bool)
    requires t.Bin? && t.op == MULT && Top(t) && Pre(t, env, lim, wide)
    requires IsConst(t.right) && OneBit(ConstVal(t.right)) >= 0
    ensures var u := Bin(LSH, t.ty, t.left, Cint(OneBit(ConstVal(t.right)), Norm(t.right).su), t.su);
      Eval(u, env) == Eval(t, env) && Safe(u, env, lim, wide)
  {
    Operands(t, env);
    NormOk(t.right, env);
    var x, c := Eval(t.left, env), ConstVal(t.right);
    assert InKind(TyKind(t.ty), c);
    TwoPowerProduct(t.ty, x, c);
    ShiftCount(t.ty, c);
    ShiftedSafe(t, OneBit(c), Norm(t.right).su, env, lim, wide);
    assert Meaning2(MULT, t.ty, x, c) == Meaning2(LSH, t.ty, x, OneBit(c));
  }

  lemma ShiftedSafe(t: Tree, k: nat, su: int, env: Env, lim: Lim, wide: bool)
    requires t.Bin? && t.op == MULT && Safe(t, env, lim, wide) && Tighter(lim, FREE)
    requires A(t.right).fold && k < Width(t.ty)
    ensures Safe(Bin(LSH, t.ty, t.left, Cint(k, su), t.su), env, lim, wide)
  {
    SafeMono(t.left, env, LimLeft(MULT, lim, A(t.right)), wide && ThruLeft(MULT, t.ty, A(t.right)),
             lim, wide && ThruLeft(LSH, t.ty, A(Cint(k, su))));
  }

  lemma LibrarySafe(op: Bop, op': Bop, ty: Ty, l: Tree, r: Tree, su: int, env: Env, lim: Lim, wide: bool)
    requires (op == MULT && op' == LMULT) || (op == DIV && op' == LDIV) || (op == MOD && op' == LMOD)
    requires Safe(Bin(op, ty, l, r, su), env, lim, wide) && Tighter(lim, FREE)
    ensures Safe(Bin(op', ty, l, r, su), env, lim, wide)
  {
    hide A, Eval;
    LimFree(op, lim, A(l));
    LimFree(op, lim, A(r));
    SafeMono(l, env, LimLeft(op, lim, A(r)), wide && ThruLeft(op, ty, A(r)), FREE, false);
    SafeMono(r, env, LimRight(op, lim, A(l)), wide && ThruRight(op, ty, A(l)), FREE, false);
  }

  lemma HardLongSame(t: Tree, env: Env, lim: Lim, wide: bool)
    requires t.Bin? && t.op in {MULT, DIV, MOD} && Safe(t, env, lim, wide) && Tighter(lim, FREE)
    ensures Eval(HardLong(t), env) == Eval(t, env) && Safe(HardLong(t), env, lim, wide)
  {
    var op' := if t.op == MULT then LMULT else if t.op == DIV then LDIV else LMOD;
    LibrarySafe(t.op, op', t.ty, t.left, t.right, t.su, env, lim, wide);
    assert t == Bin(t.op, t.ty, t.left, t.right, t.su);
  }

  lemma MultSame(t: Tree, env: Env, lim: Lim, wide: bool)
    requires t.Bin? && t.op == MULT && Top(t) && Pre(t, env, lim, wide)
    ensures var u := MultCase(t).tree; Eval(u, env) == Eval(t, env) && Safe(u, env, lim, wide)
  {
    if RightIs(t, 1) {
      assert A(t.left).kind == TyKind(t.ty) by { NormOk(t.right, env); }
      UnitSame(t, 1, env, lim, wide);
    } else if RightIs(t, -1) {
      MinusOneSame(t, env, lim, wide);
    } else {
      NormedSame(t, env, lim, wide);
      var n := NormedRight(t);
      assert Norm(n.right) == n.right;
      if IsConst(t.right) && OneBit(ConstVal(t.right)) >= 0 {
        ShiftedProductSame(t, env, lim, wide);
      } else {
        HardLongSame(n, env, lim, wide);
      }
    }
  }

  /** A constant dividend that looks zero is zero: a long one cannot be constant here. */
  lemma ZeroDividendSame(t: Tree, env: Env)
    requires t.Bin? && t.op in {DIV, MOD} && Top(t) && IsConst(t.left)
    requires LooksZero(IsConst(t.right) && Norm(t.right).Clong?, ConstVal(t.left))
    ensures Eval(Norm(t.left), env) == Eval(t, env)
  {
    NormOk(t.left, env);
    assert t.ty == INT;
    EvalInKind(t.left, DONE, env);
    Wrap16Id(ConstVal(t.left));
    ZeroDividend(t.op, t.ty, Eval(t.right, env));
  }

  lemma DivPower2(t: Tree)
    requires t.Bin? && t.op in {DIV, MOD} && Top(t)
    ensures Multop(Normed(t)) == Brk(HardLong(Normed(t)))
  {
    NormTwice(t.right);
    NormOk(t.left, []);
    NotUnsigned(Norm(t.left));
  }

  lemma DivSame(t: Tree, env: Env, lim: Lim, wide: bool)
    requires t.Bin? && t.op in {DIV, MOD} && Top(t) && Pre(t, env, lim, wide)
    ensures var u := DivCase(t).tree; Eval(u, env) == Eval(t, env) && Safe(u, env, lim, wide)
  {
    if RightIs(t, 0) {
      Operands(t, env);
    } else if RightIs(t, 1) {
      if t.op == DIV {
        UnitSame(t, 1, env, lim, wide);
      } else {
        Operands(t, env);
      }
    } else if t.op == DIV && RightIs(t, -1) {
      MinusOneSame(t, env, lim, wide);
    } else if IsConst(t.left) && LooksZero(IsConst(t.right) && Norm(t.right).Clong?, ConstVal(t.left)) {
      ZeroDividendSame(t, env);
    } else {
      NormedSame(t, env, lim, wide);
      DivPower2(t);
      HardLongSame(Normed(t), env, lim, wide);
    }
  }

  lemma ZeroDividend(op: Bop, ty: Ty, y: int)
    requires op in {DIV, MOD} && ty != UNSIGNED
    ensures Meaning2(op, ty, 0, y) == 0
  {
  }

  lemma NormTwice(t: Tree)
    ensures Norm(Norm(t)) == Norm(t)
  {
  }

  lemma {:induction false} OneBitInjective(v: int, w: int)
    requires In32(v) && In32(w) && OneBit(v) == OneBit(w) >= 0
    ensures v == w
  {
    Pow2Values();
  }

  /** Masked with one bit c, a word is c or 0. */
  lemma MaskWithBit(ty: Ty, x: int, c: int)
    requires ty != UNSIGNED && InKind(TyKind(ty), x) && InKind(TyKind(ty), c) && OneBit(c) >= 0
    ensures Meaning2(AND, ty, x, c) == c || Meaning2(AND, ty, x, c) == 0
    ensures c != 0
  {
    Pow2Values();
    if c == -HALF32 {
      MaskSignBit(31, x);
    } else {
      OneBitBound(c, if ty == INT then 15 else 31);
      MaskOneBit(Msb(ty), x, OneBit(c));
    }
  }

  predicate TestsBit(t: Tree)
    requires t.Bin?
  {
    && (t.right.Cint? || t.right.Clong?) && OneBit(t.right.val) >= 0
    && t.left.Bin? && t.left.op == AND
  }

  lemma BitValue(op: Bop, m: int, c: int)
    requires op in {EQUALS, NEQUALS} && c != 0 && (m == c || m == 0)
    ensures Meaning2(Inverse(op), INT, m, 0) == Meaning2(op, INT, m, c)
  {
  }

  lemma PlainRel(op: Bop, ty: Ty, l: Tree, r: Tree, su: int, env: Env, lim: Lim, wide: bool)
    requires RelOp(op)
    ensures Eval(Bin(op, ty, l, r, su), env) == Meaning2(op, INT, Eval(l, env), Eval(r, env))
    ensures Safe(Bin(op, ty, l, r, su), env, lim, wide) <==> Safe(l, env, FREE, false) && Safe(r, env, FREE, false)
  {
    RelSafe(op, ty, l, r, su, env, lim, wide);
  }

  lemma RelSafe(op: Bop, ty: Ty, l: Tree, r: Tree, su: int, env: Env, lim: Lim, wide: bool)
    requires RelOp(op)
    ensures Safe(Bin(op, ty, l, r, su), env, lim, wide) <==> Safe(l, env, FREE, false) && Safe(r, env, FREE, false)
  {
    assert LimLeft(op, lim, A(r)) == LimRight(op, lim, A(l)) == FREE;
    assert !ThruLeft(op, ty, A(r)) && !ThruRight(op, ty, A(l));
  }

  lemma BitTestSame(t: Tree, env: Env, lim: Lim, wide: bool)
    requires t.Bin? && t.op in {EQUALS, NEQUALS} && Top(t) && Pre(t, env, lim, wide)
    ensures var u := BitTest(t).tree; Eval(u, env) == Eval(t, env) && Safe(u, env, lim, wide)
  {
    if TestsBit(t) {
      var l, r := t.left, t.right;
      assert WellTyped(l, DONE) && Top(l);
      PlainRel(t.op, t.ty, l, r, t.su, env, lim, wide);
      NormedSame(l, env, FREE, false);
      PlainRel(t.op, t.ty, NormedRight(l), r, t.su, env, lim, wide);
      if IsConst(l.right) && OneBit(r.val) == OneBit(ConstVal(l.right)) {
        Operands(l, env);
        OneBitInjective(r.val, ConstVal(l.right));
        MaskWithBit(l.ty, Eval(l.left, env), ConstVal(l.right));
        var z := Cint(0, r.su);
        PlainRel(Inverse(t.op), t.ty, NormedRight(l), z, t.su, env, lim, wide);
        BitValue(t.op, Eval(l, env), r.val);
      }
    }
  }

  lemma RelSame(t: Tree, env: Env, lim: Lim, wide: bool)
    requires t.Bin? && RelOp(t.op) && Top(t) && Pre(t, env, lim, wide)
    ensures var u := RelCase(t).tree; Eval(u, env) == Eval(t, env) && Safe(u, env, lim, wide)
  {
    NormedSame(t, env, lim, wide);
    NotUnsigned(t.left);
    if t.op in {EQUALS, NEQUALS} {
      NormedTop(t, t.left, Norm(t.right));
      NormOk(t.right, env);
      BitTestSame(NormedRight(t), env, lim, wide);
    }
  }

  lemma Switch2Same(t: Tree, env: Env, lim: Lim, wide: bool)
    requires t.Bin? && Top(t) && Pre(t, env, lim, wide)
    ensures var u := Switch2(t).tree; Eval(u, env) == Eval(t, env) && Safe(u, env, lim, wide)
  {
    if t.op in {ADD, SUB} {
      SumSame(t, env, lim, wide);
    } else if t.op in {DIV, MOD} {
      DivSame(t, env, lim, wide);
    } else if t.op == MULT {
      MultSame(t, env, lim, wide);
    } else if t.op in {AND, OR, XOR} {
      BitsSame(t, env, lim, wide);
    } else if t.op in {LSH, RSH} {
      ShiftSame(t, env, lim, wide);
    } else if RelOp(t.op) {
      RelSame(t, env, lim, wide);
    } else {
      NormedSame(t, env, lim, wide);
    }
  }

  // ---- unary operators ----

  /** Widening a product is sound exactly when the product fits in 16 bits. */
  lemma WidenExactly(x: int, y: int)
    requires In16(x) && In16(y)
    ensures Meaning2(MULT, LONG, x, y) == Meaning1(INT2L, LONG, Meaning2(MULT, INT, x, y)) <==> In16(x * y)
  {
    ProductFits32(x, y);
    WrapsExactly(Times(x, y));
  }

  lemma WrapsExactly(p: int)
    requires In32(p)
    ensures Wrap32(p) == Wrap16(p) <==> In16(p)
  {
  }

  lemma ProductFits32(x: int, y: int)
    requires In16(x) && In16(y)
    ensures In32(x * y)
  {
    var a, b := if x < 0 then -x else x, if y < 0 then -y else y;
    MulMono(HALF16, HALF16, a, b);
    assert x * y == a * b || x * y == -(a * b);
  }

  /** Moving a negation or complement below a conversion. */
  lemma BelowConversion(op: Uop, x: int)
    requires op in {UMINUS, COMPL}
    ensures Meaning1(LONG2I, INT, Meaning1(op, LONG, x)) == Meaning1(op, INT, Meaning1(LONG2I, INT, x))
  {
    if op == UMINUS {
      Wrap16Of32(-x);
      Wrap16Neg(x);
    } else {
      Wrap16Of32(-x - 1);
      var k := Wrap16Congruent(x);
      Wrap16Shift(-x - 1, -k);
    }
  }

  /** Below INT2L the move is sound for ~ always, for - exactly unless x is -32768. */
  lemma BelowWidening(op: Uop, x: int)
    requires op in {UMINUS, COMPL} && In16(x)
    ensures Meaning1(INT2L, LONG, Meaning1(op, INT, x)) == Meaning1(op, LONG, Meaning1(INT2L, LONG, x))
      <==> op == COMPL || x != -HALF16
  {
  }

  lemma Twice(op: Uop, ty: Ty, x: int)
    requires op in {UMINUS, COMPL} && ty != UNSIGNED && InKind(TyKind(ty), x)
    ensures Meaning1(op, ty, Meaning1(op, ty, x)) == x
  {
    if op == UMINUS {
      NegTwice(ty, x);
    }
  }

  lemma NegTwice(ty: Ty, x: int)
    requires ty != UNSIGNED && InKind(TyKind(ty), x)
    ensures Wrap(ty, -Wrap(ty, -x)) == x
  {
    if ty == INT {
      Wrap16Neg(-x);
    } else {
      Wrap32Neg(-x);
    }
  }

  lemma TwiceSafe(t: Tree, env: Env, lim: Lim, wide: bool)
    requires t.Un? && t.uop in {UMINUS, COMPL} && Top(t) && Pre(t, env, lim, wide)
    requires t.arg.Un? && t.arg.uop == t.uop
    ensures Safe(t.arg.arg, env, lim, wide)
  {
    var a := t.arg;
    var lim2, wide2 := Lim1(t.uop, Lim1(t.uop, lim)), Wide1(t.uop, a.ty, Wide1(t.uop, t.ty, wide));
    assert Safe(a, env, Lim1(t.uop, lim), Wide1(t.uop, t.ty, wide));
    KindType(a, DONE);
    KindType(a.arg, DONE);
    if t.ty == LONG {
      LongWide(a.arg, env, lim2, wide2, wide);
      SafeMono(a.arg, env, lim2, wide, lim, wide);
    } else {
      SafeMono(a.arg, env, lim2, wide2, lim, wide);
    }
  }

  lemma NegatedSame(t: Tree, env: Env, lim: Lim, wide: bool)
    requires t.Un? && t.uop in {UMINUS, COMPL} && Top(t) && Pre(t, env, lim, wide)
    requires t.arg.Un? && (t.arg.uop == t.uop || t.arg.uop in {INT2L, LONG2I}) && !IsConst(t.arg)
    ensures var u := Switch1(t).tree; Eval(u, env) == Eval(t, env) && Safe(u, env, lim, wide)
  {
    var a := t.arg;
    EvalInKind(a.arg, DONE, env);
    var x := Eval(a.arg, env);
    if a.uop == t.uop {
      Twice(t.uop, t.ty, x);
      TwiceSafe(t, env, lim, wide);
    } else if a.uop == INT2L {
      NegatedWide(t, env, lim, wide);
    } else {
      BelowConversion(t.uop, x);
      NegatedNarrow(t.uop, t.ty, a.ty, a.arg, a.su, t.su, env, lim, wide);
      assert a == Un(LONG2I, a.ty, a.arg, a.su);
      assert Switch1(t).tree == Un(LONG2I, t.ty, Un(t.uop, LONG, a.arg, a.su), t.su);
    }
  }

  lemma NegatedNarrow(op: Uop, ty: Ty, ty': Ty, x: Tree, su: int, su': int, env: Env, lim: Lim, wide: bool)
    requires op in {UMINUS, COMPL} && Safe(Un(op, ty, Un(LONG2I, ty', x, su), su'), env, lim, wide)
    ensures Safe(Un(LONG2I, ty, Un(op, LONG, x, su), su'), env, lim, wide)
  {
    var a, n := Un(LONG2I, ty', x, su), Un(op, LONG, x, su);
    assert Safe(a, env, Lim1(op, lim), Wide1(op, ty, wide));
    assert Lim1(LONG2I, Lim1(op, lim)) == Lim1(op, Lim1(LONG2I, lim));
    assert Safe(x, env, Lim1(op, Lim1(LONG2I, lim)), false);
    assert Safe(n, env, Lim1(LONG2I, lim), false);
  }

  lemma NegatedWide(t: Tree, env: Env, lim: Lim, wide: bool)
    requires t.Un? && t.uop in {UMINUS, COMPL} && Top(t) && Pre(t, env, lim, wide)
    requires t.arg.Un? && t.arg.uop == INT2L && !IsConst(t.arg)
    ensures var u := Switch1(t).tree; Eval(u, env) == Eval(t, env) && Safe(u, env, lim, wide)
  {
    var a := t.arg;
    EvalInKind(a.arg, DONE, env);
    var x := Eval(a.arg, env);
    BelowWidening(t.uop, x);
    var lim0 := Lim1(t.uop, lim);
    assert Safe(a, env, lim0, Wide1(t.uop, t.ty, wide));
    assert Within(lim0, x);
    Wrap16Id(if t.uop == UMINUS then -x else -x - 1);
  }

  lemma WidenedSafe(ty: Ty, l: Tree, r: Tree, su: int, env: Env, lim: Lim, wide: bool)
    requires Safe(Bin(MULT, ty, l, r, su), env, lim, true)
    ensures Safe(Bin(MULT, LONG, l, r, su), env, lim, wide)
  {
    SafeMono(l, env, LimLeft(MULT, lim, A(r)), ThruLeft(MULT, ty, A(r)), LimLeft(MULT, lim, A(r)), false);
    SafeMono(r, env, LimRight(MULT, lim, A(l)), ThruRight(MULT, ty, A(l)), LimRight(MULT, lim, A(l)), false);
  }

  lemma WidenedSame(t: Tree, env: Env, lim: Lim, wide: bool)
    requires t.Un? && t.uop == INT2L && Top(t) && Pre(t, env, lim, wide)
    requires t.arg.Bin? && t.arg.op == MULT
    ensures var u := Switch1(t).tree; Eval(u, env) == Eval(t, env) && Safe(u, env, lim, wide)
  {
    var a := t.arg;
    EvalInKind(a.left, DONE, env);
    EvalInKind(a.right, DONE, env);
    WidenExactly(Eval(a.left, env), Eval(a.right, env));
    assert a == Bin(MULT, a.ty, a.left, a.right, a.su);
    WidenedSafe(a.ty, a.left, a.right, a.su, env, lim, wide);
    assert Switch1(t).tree == Bin(MULT, LONG, a.left, a.right, a.su);
  }

  lemma InverseValue(op: Bop, x: int, y: int)
    requires RelOp(op)
    ensures Meaning2(Inverse(op), INT, x, y) == Meaning1(NOT, INT, Meaning2(op, INT, x, y))
  {
  }

  lemma NotRelSame(t: Tree, env: Env, lim: Lim, wide: bool)
    requires t.Un? && t.uop == NOT && Safe(t, env, lim, wide)
    requires t.arg.Bin? && RelOp(t.arg.op)
    ensures var u := Switch1(t).tree; Eval(u, env) == Eval(t, env) && Safe(u, env, lim, wide)
  {
    var a := t.arg;
    PlainRel(a.op, a.ty, a.left, a.right, a.su, env, lim, wide);
    PlainRel(Inverse(a.op), a.ty, a.left, a.right, a.su, env, lim, wide);
    InverseValue(a.op, Eval(a.left, env), Eval(a.right, env));
  }

  lemma NormedArgSame(t: Tree, env: Env, lim: Lim, wide: bool)
    requires t.Un? && Top(t) && Pre(t, env, lim, wide)
    ensures var u := Un(t.uop, t.ty, Norm(t.arg), t.su); Eval(u, env) == Eval(t, env) && Safe(u, env, lim, wide)
  {
    NormOk(t.arg, env);
    UnSame(t.uop, t.ty, t.arg, Norm(t.arg), t.su, env, lim, wide);
  }

  lemma Switch1Same(t: Tree, env: Env, lim: Lim, wide: bool)
    requires t.Un? && Top(t) && Pre(t, env, lim, wide)
    ensures var u := Switch1(t).tree; Eval(u, env) == Eval(t, env) && Safe(u, env, lim, wide)
  {
    if t.uop in {UMINUS, COMPL} && t.arg.Un? && (t.arg.uop == t.uop || t.arg.uop in {INT2L, LONG2I}) &&
      !IsConst(t.arg) {
      NegatedSame(t, env, lim, wide);
    } else if t.uop == INT2L && t.arg.Bin? && t.arg.op == MULT {
      WidenedSame(t, env, lim, wide);
    } else if t.uop == NOT && t.arg.Bin? && RelOp(t.arg.op) {
      NotRelSame(t, env, lim, wide);
    } else {
      NormedArgSame(t, env, lim, wide);
      assert Switch1(t).tree == Un(t.uop, t.ty, Norm(t.arg), t.su);
    }
  }

  lemma TurnSame(t: Tree, env: Env, lim: Lim, wide: bool)
    requires Top(t) && Pre(t, env, lim, wide) && Top(Switch(t).tree) && Leq(A(Switch(t).tree), A(t))
    ensures var u := Turn(t).tree; Eval(u, env) == Eval(t, env) && Safe(u, env, lim, wide)
  {
    if t.Bin? {
      Switch2Same(t, env, lim, wide);
    } else if t.Un? {
      Switch1Same(t, env, lim, wide);
    }
    if Switch(t).Brk? {
      CcexprSame(Switch(t).tree, env, lim, wide);
    }
  }
}
