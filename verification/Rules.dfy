/** Each turn of the optimizer's loop keeps the tree's value, its type and its
    good form, and a counted turn makes it lighter. */
module Rules {
  import opened Word
  import opened Icode
  import opened Fold

  /** A node whose subtrees are already optimized. */
  predicate Top(t: Tree) {
    match t
    case Un(op, ty, a, _) => WellTyped(a, DONE) && NodeOk1(op, ty, a, DONE)
    case Bin(op, ty, l, r, _) =>
      && WellTyped(l, DONE) && WellTyped(r, DONE)
      && NodeOk(op, ty, A(l), A(r))
    case _ => WellTyped(t, DONE)
  }

  lemma NormOk(t: Tree, env: Env)
    ensures Leq(A(Norm(t)), A(t))
    ensures Eval(Norm(t), env) == Eval(t, env)
    ensures IsConst(t) ==> A(t).fold && Eval(t, env) == ConstVal(t)
    ensures forall m :: WellTyped(t, m) ==> WellTyped(Norm(t), m)
    ensures Same(t, Norm(t)) && A(Norm(t)).caps == A(t).caps
  {
    if t.Un? && IsConst(t) {
      assert forall e :: Eval(t, e) == Meaning1(t.uop, t.ty, Eval(t.arg, e));
    }
  }

  lemma KindType(t: Tree, m: Mode)
    requires WellTyped(t, m)
    ensures A(t).kind == LongK ==> TypeOf(t) == LONG
    ensures A(t).kind == IntK ==> TypeOf(t) == INT
  {
  }

  /** A wider word holds the same bits. */
  lemma {:induction false} BitOpWiden(op: Bits, n: nat, k: nat, a: int, b: int)
    requires Fits(n, a) && Fits(n, b)
    ensures BitOp(op, n + k, a, b) == BitOp(op, n, a, b)
  {
    if n == 0 {
      if k > 0 {
        BitOpWiden(op, 0, k - 1, a, b);
        assert a / 2 == a && b / 2 == b;
      }
    } else {
      BitOpWiden(op, n - 1, k, a / 2, b / 2);
    }
  }

  lemma BitOp31(op: Bits, a: int, b: int)
    requires In16(a) && In16(b)
    ensures BitOp(op, 31, a, b) == BitOp(op, 15, a, b)
  {
    Pow2Values();
    BitOpWiden(op, 15, 16, a, b);
  }

  // ---- constant folding ----

  lemma FoldVal(op: Bop, ty: Ty, x: int, y: int)
    requires Folds2(op) && !RelOp(op) && ty != UNSIGNED
    requires InKind(TyKind(ty), x) && (op == LSH || op == RSH || InKind(TyKind(ty), y))
    ensures Wrap(ty, FoldVal2(op, x, y)) == Meaning2(op, ty, x, y)
  {
    match op
    case AND => FoldBits(BAnd, ty, x, y);
    case OR => FoldBits(BOr, ty, x, y);
    case XOR => FoldBits(BXor, ty, x, y);
    case LSH =>
    case RSH =>
    case DIV =>
    case MOD =>
    case _ =>
  }

  lemma FoldBits(op: Bits, ty: Ty, x: int, y: int)
    requires ty != UNSIGNED && InKind(TyKind(ty), x) && InKind(TyKind(ty), y)
    ensures Wrap(ty, BitOp(op, 31, x, y)) == BitOp(op, Msb(ty), x, y)
  {
    BitwiseInKind(op, ty, x, y);
    if ty == INT {
      BitOp31(op, x, y);
    }
  }

  lemma RelVal(op: Bop, ty: Ty, x: int, y: int)
    requires Folds2(op) && RelOp(op)
    ensures FoldVal2(op, x, y) == Meaning2(op, ty, x, y)
    ensures Wrap16(FoldVal2(op, x, y)) == Wrap32(FoldVal2(op, x, y)) == FoldVal2(op, x, y)
  {
  }

  /** The operands' kinds decide whether the folded constant is long. */
  lemma FoldedWidth(t: Tree)
    requires t.Bin? && Top(t) && IsConst(t.left) && IsConst(t.right) && Folds2(t.op) && !RelOp(t.op)
    ensures t.ty != UNSIGNED && (t.ty == LONG <==> Norm(t.left).Clong? || Norm(t.right).Clong?)
    ensures A(t.left).kind == TyKind(t.ty)
    ensures t.op == LSH || t.op == RSH || A(t.right).kind == TyKind(t.ty)
  {
    NormOk(t.left, []);
    NormOk(t.right, []);
  }

  lemma FoldedSame(t: Tree, env: Env)
    requires t.Bin? && Top(t) && IsConst(t.left) && IsConst(t.right) && Folds2(t.op)
    ensures Eval(Ccexpr(t).tree, env) == Eval(t, env)
  {
    var l, r := t.left, t.right;
    NormOk(l, env);
    NormOk(r, env);
    var x, y := Eval(l, env), Eval(r, env);
    if RelOp(t.op) {
      RelVal(t.op, t.ty, x, y);
    } else {
      FoldedWidth(t);
      EvalInKind(l, DONE, env);
      EvalInKind(r, DONE, env);
      FoldVal(t.op, t.ty, x, y);
    }
  }

  /** Replacing constant operands by their normal form keeps a node's value. */
  lemma NormedBinSame(t: Tree, l: Tree, r: Tree, env: Env, lim: Lim, wide: bool)
    requires t.Bin? && Pre(t, env, lim, wide)
    requires (l == t.left || l == Norm(t.left)) && (r == t.right || r == Norm(t.right))
    ensures Eval(Bin(t.op, t.ty, l, r, t.su), env) == Eval(t, env)
    ensures Safe(Bin(t.op, t.ty, l, r, t.su), env, lim, wide)
  {
    NormOk(t.left, env);
    NormOk(t.right, env);
    SameRefl(t.left);
    SameRefl(t.right);
    BinSame(t.op, t.ty, t.left, t.right, l, r, t.su, env, lim, wide);
  }

  lemma Ccexpr1Same(t: Tree, env: Env, lim: Lim, wide: bool)
    requires t.Un? && Top(t) && Pre(t, env, lim, wide)
    ensures Eval(Ccexpr(t).tree, env) == Eval(t, env)
    ensures Safe(Ccexpr(t).tree, env, lim, wide)
  {
    NormOk(t.arg, env);
    EvalInKind(t.arg, DONE, env);
    if IsConst(t.arg) && !Folds1(t.uop) {
      UnSame(t.uop, t.ty, t.arg, Norm(t.arg), t.su, env, lim, wide);
    }
  }

  lemma CcexprSame(t: Tree, env: Env, lim: Lim, wide: bool)
    requires Top(t) && Pre(t, env, lim, wide)
    ensures Eval(Ccexpr(t).tree, env) == Eval(t, env)
    ensures Safe(Ccexpr(t).tree, env, lim, wide)
  {
    match t
    case Un(_, _, _, _) =>
      Ccexpr1Same(t, env, lim, wide);
    case Bin(op, _, l, r, _) =>
      if IsConst(l) && IsConst(r) && Folds2(op) {
        FoldedSame(t, env);
      } else if IsConst(l) {
        NormedBinSame(t, Norm(l), if IsConst(r) then Norm(r) else r, env, lim, wide);
      }
    case Qmark(ty, c, l, r, su) =>
      NormOk(c, env);
      SameRefl(l);
      SameRefl(r);
      QmarkSame(ty, c, l, r, Norm(c), l, r, su, env, lim, wide);
    case _ =>
  }

  lemma ReplaceTop(op: Bop, ty: Ty, l: Tree, r: Tree, l': Tree, r': Tree, su: int)
    requires Top(Bin(op, ty, l, r, su)) && WellTyped(l', DONE) && WellTyped(r', DONE)
    requires Leq(A(l'), A(l)) && Leq(A(r'), A(r))
    ensures Top(Bin(op, ty, l', r', su))
    ensures Leq(Attr2(op, ty, A(l'), A(r')), Attr2(op, ty, A(l), A(r)))
  {
    AttrBounds(l);
    AttrBounds(r);
    ReplaceNode(op, ty, A(l), A(r), A(l'), A(r'));
    Leq2(op, ty, A(l), A(r), A(l'), A(r'));
  }

  predicate NodeOk(op: Bop, ty: Ty, l: Attr, r: Attr) {
    NodeOk2(op, ty, l, r, true) || NodeOk2(op, ty, l, r, false)
  }

  lemma ReplaceNode(op: Bop, ty: Ty, l: Attr, r: Attr, l': Attr, r': Attr)
    requires NodeOk(op, ty, l, r) && Leq(l', l) && Leq(r', r)
    ensures NodeOk(op, ty, l', r')
  {
    if NodeOk2(op, ty, l, r, true) {
      NodeOkMono(op, ty, l, r, l', r', true);
    } else {
      NodeOkMono(op, ty, l, r, l', r', false);
    }
  }

  lemma LeqRefl(t: Tree)
    ensures Leq(A(t), A(t))
  {
    AttrBounds(t);
  }

  lemma NormedTop(t: Tree, l: Tree, r: Tree)
    requires t.Bin? && Top(t)
    requires (l == t.left || l == Norm(t.left)) && (r == t.right || r == Norm(t.right))
    ensures Top(Bin(t.op, t.ty, l, r, t.su))
    ensures Leq(A(Bin(t.op, t.ty, l, r, t.su)), A(t))
  {
    NormOk(t.left, []);
    NormOk(t.right, []);
    LeqRefl(t.left);
    LeqRefl(t.right);
    ReplaceTop(t.op, t.ty, t.left, t.right, l, r, t.su);
  }

  /** Constants may stand for whatever folds to them. */
  lemma ConstLeq(c: Attr, t: Attr)
    requires c.lit.Lit? && c.fold && (c.zero ==> t.zero) && c.nest == 0 && c.caps <= 1 && c.weight <= 4 &&
      c.okMul && c.sorted
    requires t.fold && t.caps >= 1 && t.weight > 4 && t.lit.NoLit? && KindLeq(c.kind, t.kind)
    ensures Leq(c, t)
  {
  }

  lemma Weight2AtLeast(op: Bop, l: nat, r: nat)
    requires l >= 3 && r >= 3
    ensures Weight2(op, l, r) >= 6
  {
    ProductAtLeast(l, r);
  }

  /** A or B has no bit in the low half only if neither has. */
  lemma {:induction false} OrLow(n: nat, k: nat, a: int, b: int)
    requires k <= n && BitOp(BOr, n, a, b) % Pow2(k) == 0
    ensures a % Pow2(k) == 0 && b % Pow2(k) == 0
  {
    if k > 0 {
      var u := BitOp(BOr, n, a, b);
      HalfRemainder(u, Pow2(k - 1));
      HalfRemainder(a, Pow2(k - 1));
      HalfRemainder(b, Pow2(k - 1));
      assert u / 2 == BitOp(BOr, n - 1, a / 2, b / 2);
      OrLow(n - 1, k - 1, a / 2, b / 2);
    }
  }

  lemma LowZeroIs(v: int)
    ensures LowZero(v) <==> v % FULL16 == 0
  {
  }

  lemma OrZero(x: int, y: int)
    requires LowZero(BitOp(BOr, 31, x, y))
    ensures LowZero(x) && LowZero(y)
  {
    Pow2Values();
    LowZeroIs(BitOp(BOr, 31, x, y));
    LowZeroIs(x);
    LowZeroIs(y);
    OrLow(31, 16, x, y);
  }

  lemma LowZeroCut(v: int)
    ensures LowZero(Wrap32(v)) == LowZero(v) && LowZero(Wrap16(v)) == LowZero(v)
  {
    Wrap16Of32(v);
    Wrap16Id(Wrap16(v));
  }

  lemma FoldedZero(t: Tree)
    requires t.Bin? && t.op == OR && IsConst(t.left) && IsConst(t.right)
    ensures A(Ccexpr(t).tree).zero ==> A(t).zero
  {
    var x, y := ConstVal(t.left), ConstVal(t.right);
    var v := BitOp(BOr, 31, x, y);
    LowZeroCut(v);
    ConstZero(t.left);
    ConstZero(t.right);
    if LowZero(v) {
      OrZero(x, y);
    }
  }

  lemma ConstZero(t: Tree)
    requires IsConst(t)
    ensures LowZero(ConstVal(t)) ==> A(t).zero
  {
  }

  lemma FoldedTop(t: Tree)
    requires t.Bin? && Top(t) && IsConst(t.left) && IsConst(t.right) && Folds2(t.op)
    ensures var u := Ccexpr(t).tree; Top(u) && Leq(A(u), A(t)) && A(u).weight < A(t).weight
  {
    var l, r := t.left, t.right;
    NormOk(l, []);
    NormOk(r, []);
    AttrBounds(l);
    AttrBounds(r);
    Weight2AtLeast(t.op, A(l).weight, A(r).weight);
    var u := Ccexpr(t).tree;
    FoldedKind(t);
    if t.op == OR {
      FoldedZero(t);
    }
    ConstLeq(A(u), A(t));
  }

  lemma FoldedKind(t: Tree)
    requires t.Bin? && Top(t) && IsConst(t.left) && IsConst(t.right) && Folds2(t.op)
    ensures KindLeq(A(Ccexpr(t).tree).kind, A(t).kind)
  {
    NormOk(t.left, []);
    NormOk(t.right, []);
    if !RelOp(t.op) {
      FoldedWidth(t);
    }
  }

  /** Replacing operands by better ones keeps a node well typed. */
  lemma NodeOkMono(op: Bop, ty: Ty, l: Attr, r: Attr, l': Attr, r': Attr, low: bool)
    requires NodeOk2(op, ty, l, r, low) && Leq(l', l) && Leq(r', r)
    ensures NodeOk2(op, ty, l', r', low)
  {
  }

  lemma Ccexpr1Ok(t: Tree)
    requires t.Un? && Top(t)
    ensures var u := Ccexpr(t); Top(u.tree) && Leq(A(u.tree), A(t)) && (u.Cont? ==> A(u.tree).weight < A(t).weight)
  {
    NormOk(t.arg, []);
    AttrBounds(t.arg);
    EvalInKind(t.arg, DONE, []);
    Leq1(t.uop, t.ty, A(t.arg), A(Norm(t.arg)));
  }

  lemma Ccexpr3Ok(t: Tree)
    requires t.Qmark? && Top(t)
    ensures var u := Ccexpr(t); Top(u.tree) && Leq(A(u.tree), A(t)) && (u.Cont? ==> A(u.tree).weight < A(t).weight)
  {
    NormOk(t.cond, []);
    AttrBounds(t.cond);
    AttrBounds(t.thn);
    AttrBounds(t.els);
    assert WellTyped(Norm(t.cond), DONE) && WellTyped(t.thn, DONE) && WellTyped(t.els, DONE);
  }

  lemma CcexprOk(t: Tree)
    requires Top(t)
    ensures var u := Ccexpr(t); Top(u.tree) && Leq(A(u.tree), A(t)) && (u.Cont? ==> A(u.tree).weight < A(t).weight)
  {
    match t
    case Un(_, _, _, _) =>
      Ccexpr1Ok(t);
    case Bin(op, _, l, r, _) =>
      if IsConst(l) && IsConst(r) && Folds2(op) {
        FoldedTop(t);
      } else if IsConst(l) {
        NormedTop(t, Norm(l), if IsConst(r) then Norm(r) else r);
      } else {
        LeqRefl(t);
      }
    case Qmark(_, _, _, _, _) =>
      Ccexpr3Ok(t);
    case _ =>
      AttrBounds(t);
  }
}
