/** What the turns of the loop leave: well-typed trees, never heavier, and
    lighter whenever a change is counted. */
module FormRules {
  import opened Word
  import opened Icode
  import opened Fold
  import opened Rules
  import opened SwitchRules

  /** A subtree, or a smaller thing made of subtrees, in place of t. */
  ghost predicate Better(u: Tree, t: Tree) {
    Top(u) && Leq(A(u), A(t)) && A(u).weight < A(t).weight
  }

  /** No long product or quotient is left to lower. */
  predicate Lowered(t: Tree) {
    t.Bin? ==> NodeOk2(t.op, t.ty, A(t.left), A(t.right), true)
  }

  lemma WellTop(t: Tree)
    requires WellTyped(t, DONE)
    ensures Top(t) && Lowered(t)
  {
  }

  lemma LeftAttr(op: Bop, ty: Ty, l: Attr, r: Attr)
    requires LeavesLeft(op, r) && l.kind == TyKind(ty) && (l.zero ==> l.fold) && r.fold
    requires l.kind == LongK ==> l.nest == 0 && l.okMul && l.sorted
    requires (l.lit.Lit? ==> l.fold) && l.nest <= 2 && (l.fold ==> l.caps >= 1)
    requires l.weight <= Weight2(op, l.weight, r.weight)
    ensures Leq(l, Attr2(op, ty, l, r))
  {
  }

  /** The left operand alone is better than the whole, when the right one is a unit. */
  lemma LeftBetter(t: Tree, c: int)
    requires t.Bin? && Top(t) && RightIs(t, c) && IsUnit(t.op, c) && A(t.left).kind == TyKind(t.ty)
    ensures Better(t.left, t)
  {
    AttrBounds(t.left);
    AttrBounds(t.right);
    UnitZero(t, c);
    ProductAtLeast(A(t.left).weight, A(t.right).weight);
    LeftAttr(t.op, t.ty, A(t.left), A(t.right));
    WellTop(t.left);
  }

  /** So is a constant for a foldable node. */
  lemma ConstBetter(t: Tree, c: Tree)
    requires t.Bin? && Top(t) && A(t).fold && (c.Cint? || c.Clong?) && WellTyped(c, DONE)
    requires KindLeq(A(c).kind, A(t).kind) && (t.op == OR ==> c.val == -1)
    ensures Better(c, t)
  {
    AttrBounds(t);
    AttrBounds(t.left);
    AttrBounds(t.right);
    Weight2AtLeast(t.op, A(t.left).weight, A(t.right).weight);
    ConstLeq(A(c), A(t));
  }

  /** And a negation or complement of the left operand. */
  lemma NegationBetter(t: Tree, op: Uop)
    requires t.Bin? && Top(t) && IsConst(t.right) && A(t.left).kind == TyKind(t.ty) && t.ty != UNSIGNED
    requires (op == UMINUS && t.op in {MULT, DIV}) || (op == COMPL && t.op == XOR)
    ensures Better(Un(op, t.ty, t.left, t.su), t)
  {
    AttrBounds(t.left);
    AttrBounds(t.right);
    NormOk(t.right, []);
    ProductAtLeast(A(t.left).weight, A(t.right).weight);
  }

  lemma SubIsHeavier(ty: Ty, l: Attr, r: Attr, r': Attr)
    requires l.weight >= 3 && r.weight >= 4 && r'.weight == 4
    requires r.fold && r.lit.Lit? ==> r.lit.v != 0
    requires r'.fold && r'.nest == 0 && r'.caps == 1 && r'.okMul && r'.sorted && (r.fold ==> r.caps >= 1)
    ensures r.fold ==> Leq(Attr2(ADD, ty, l, r'), Attr2(SUB, ty, l, r))
    ensures Attr2(ADD, ty, l, r').weight < Attr2(SUB, ty, l, r).weight
  {
  }

  lemma AddedForm(t: Tree, r: Tree)
    requires t.Bin? && t.op == SUB && Top(t) && A(t.left).weight >= 3 && A(t.right).weight >= 4 && A(t.right).fold
    requires A(t.right).caps >= 1 && (r.Cint? || r.Clong?) && r.val != 0
    requires WellTyped(r, DONE) && A(r).kind == TyKind(t.ty)
    ensures Better(Bin(ADD, t.ty, t.left, r, t.su), t)
  {
    SubIsHeavier(t.ty, A(t.left), A(t.right), A(r));
  }

  lemma NonzeroConst(r: Tree)
    requires IsConst(r) && ConstVal(r) != 0
    ensures A(r).weight >= 4 && A(r).fold
  {
    NormOk(r, []);
  }

  lemma NegatedLit(r: Tree, ty: Ty)
    requires WidthIs(r, ty) && r.val != 0 && WellTyped(r, DONE)
    ensures var v := WithVal(r, -r.val); (v.Cint? || v.Clong?) && v.val != 0 && A(v).kind == TyKind(ty)
  {
  }

  lemma SubConstForm(t: Tree, r: Tree)
    requires t.Bin? && t.op == SUB && Top(t) && A(t.right).fold && A(t.right).weight >= 4
    requires WidthIs(r, t.ty) && r.val != 0 && WellTyped(r, DONE)
    ensures Better(Bin(ADD, t.ty, t.left, WithVal(r, -r.val), t.su), t)
  {
    NegatedConst(r, t.ty, []);
    NegatedLit(r, t.ty);
    AttrBounds(t.left);
    AttrBounds(t.right);
    AddedForm(t, WithVal(r, -r.val));
  }

  lemma SubForm(t: Tree, r: Tree)
    requires t.Bin? && t.op == SUB && Top(t) && IsConst(t.right) && !RightIs(t, 0) && r == Norm(t.right)
    ensures Better(SumCase(t).tree, t)
  {
    SubCase(t, r);
    ConstWidth(t);
    NormOk(t.right, []);
    NonzeroConst(t.right);
    SubConstForm(t, r);
  }

  lemma ZeroMinusAttr(ty: Ty, l: Attr, r: Attr, r': Attr)
    requires Leq(r', r) && l.fold && l.weight >= 3
    ensures Leq(Attr1(UMINUS, ty, r'), Attr2(SUB, ty, l, r))
    ensures Attr1(UMINUS, ty, r').weight < Attr2(SUB, ty, l, r).weight
  {
  }

  lemma ZeroMinusForm(t: Tree)
    requires t.Bin? && t.op == SUB && Top(t) && LeftIs(t, 0)
    ensures Better(Un(UMINUS, t.ty, Norm(t.right), t.su), t)
  {
    AttrBounds(t.left);
    NormOk(t.left, []);
    NormOk(t.right, []);
    ZeroMinusAttr(t.ty, A(t.left), A(t.right), A(Norm(t.right)));
  }

  lemma SumForm(t: Tree)
    requires t.Bin? && t.op in {ADD, SUB} && Top(t)
    ensures var u := SumCase(t); if u.Cont? then Better(u.tree, t) else u.tree == NormedRight(t) || u.tree == Normed(t)
  {
    if RightIs(t, 0) {
      LeftBetter(t, 0);
    } else if t.op == SUB && IsConst(t.right) {
      SubForm(t, Norm(t.right));
    } else if t.op == SUB && LeftIs(t, 0) {
      ZeroMinusForm(t);
    }
  }

  lemma BitsForm(t: Tree)
    requires t.Bin? && t.op in {AND, OR, XOR} && Top(t)
    ensures var u := BitsCase(t); if u.Cont? then Better(u.tree, t) else u.tree == NormedRight(t)
  {
    var c := if t.op == AND then -1 else 0;
    if RightIs(t, c) {
      LeftBetter(t, c);
    } else if t.op == OR && RightIs(t, -1) {
      NormOk(t.right, []);
      ConstBetter(t, Norm(t.right));
    } else if t.op == XOR && RightIs(t, -1) {
      NegationBetter(t, COMPL);
    }
  }

  lemma ShiftForm(t: Tree)
    requires t.Bin? && t.op in {LSH, RSH} && Top(t)
    ensures var u := ShiftCase(t); if u.Cont? then Better(u.tree, t) else u.tree == NormedRight(t)
  {
    CountSigned(t);
    if RightIs(t, 0) {
      LeftBetter(t, 0);
    }
  }

  /** Multiplication by a power of two: a shift weighs less than a product. */
  lemma ShiftedForm(t: Tree)
    requires t.Bin? && t.op == MULT && Top(t) && IsConst(t.right) && OneBit(ConstVal(t.right)) >= 0
    ensures A(t.left).kind == TyKind(t.ty)
    ensures Better(Bin(LSH, t.ty, t.left, Cint(OneBit(ConstVal(t.right)), Norm(t.right).su), t.su), t)
  {
    NormOk(t.right, []);
    AttrBounds(t.left);
    AttrBounds(t.right);
    EvalInKind(t.right, DONE, []);
    ShiftCount(if Norm(t.right).Clong? then LONG else INT, ConstVal(t.right));
    LightShift(A(t.left).weight, A(t.right).weight);
    ShiftAttr(t.ty, A(t.left), A(t.right), OneBit(ConstVal(t.right)));
  }

  lemma ShiftAttr(ty: Ty, l: Attr, r: Attr, k: nat)
    requires r.fold && r.caps >= 1 && (l.lit.Lit? ==> l.fold) && l.nest <= 2 && l.weight + 4 < l.weight * r.weight
    ensures var c := LitAttr(IntK, k);
      Leq(Attr2(LSH, ty, l, c), Attr2(MULT, ty, l, r)) && Attr2(LSH, ty, l, c).weight < Attr2(MULT, ty, l, r).weight
  {
  }

  lemma LightShift(x: nat, y: nat)
    requires x >= 3 && y >= 3
    ensures x + 4 < x * y
  {
    ProductAtLeast(x, y);
  }

  lemma IntIsShort(t: Tree)
    requires WellTyped(t, DONE)
    ensures A(t).kind == IntK ==> !ChkLong(t)
    ensures A(t).kind == LongK ==> ChkLong(t) && TypeOf(t) == LONG
  {
    KindType(t, DONE);
  }

  /** What remains of a product or quotient when nothing applied to it. */
  lemma HardForm(t: Tree)
    requires t.Bin? && t.op in {MULT, DIV, MOD} && Top(t)
    ensures Top(HardLong(t)) && Lowered(HardLong(t)) && Leq(A(HardLong(t)), A(t))
    ensures HardLong(t).Bin? && (HardLong(t) == t || HardLong(t).op in {LMULT, LDIV, LMOD})
  {
    IntIsShort(t.left);
    IntIsShort(t.right);
    LeqRefl(t);
    if t.ty == LONG && A(t.left).kind == LongK {
      HardLongForm(t);
    } else {
      assert HardLong(t) == t;
    }
  }

  function LibraryOp(op: Bop): Bop {
    if op == MULT then LMULT else if op == DIV then LDIV else LMOD
  }

  lemma LibraryAttr(op: Bop, l: Attr, r: Attr)
    requires op in {MULT, DIV, MOD}
    ensures Leq(Attr2(LibraryOp(op), LONG, l, r), Attr2(op, LONG, l, r))
  {
    var x, y := Attr2(LibraryOp(op), LONG, l, r), Attr2(op, LONG, l, r);
    assert x.weight == l.weight * r.weight == y.weight;
  }

  lemma HardLongForm(t: Tree)
    requires t.Bin? && t.op in {MULT, DIV, MOD} && Top(t) && t.ty == LONG
    requires A(t.left).kind == A(t.right).kind == LongK
    requires ChkLong(t.left) && TypeOf(t.right) == LONG
    ensures var u := HardLong(t); Top(u) && Lowered(u) && Leq(A(u), A(t)) && u.Bin? && u.op in {LMULT, LDIV, LMOD}
  {
    var r := if t.op != MULT && t.right.Clong? then Dclong(t.right.val, t.right.su) else t.right;
    assert A(r) == A(t.right) && WellTyped(r, DONE);
    assert HardLong(t) == Bin(LibraryOp(t.op), LONG, t.left, r, t.su);
    LibraryAttr(t.op, A(t.left), A(t.right));
  }

  lemma MultForm(t: Tree)
    requires t.Bin? && t.op == MULT && Top(t)
    ensures var u := MultCase(t);
      if u.Cont? then Better(u.tree, t) else u.tree == HardLong(NormedRight(t)) && !RightSpecial(t)
  {
    NormOk(t.right, []);
    NormTwice(t.right);
    var r := Norm(t.right);
    if RightSpecial(t) {
      SpecialNotWide(t);
      if RightIs(t, 1) {
        LeftBetter(t, 1);
      } else if RightIs(t, -1) {
        NegationBetter(t, UMINUS);
      } else {
        ShiftedForm(t);
      }
    }
  }

  predicate RightSpecial(t: Tree)
    requires t.Bin?
  {
    IsConst(t.right) && !PlainFactor(ConstVal(t.right))
  }

  /** A widened product has no such factor. */
  lemma SpecialNotWide(t: Tree)
    requires t.Bin? && t.op == MULT && Top(t) && RightSpecial(t)
    ensures A(t.left).kind == TyKind(t.ty) && t.ty != UNSIGNED
  {
    NormOk(t.right, []);
    AttrBounds(t.right);
  }

  predicate DivUnit(t: Tree)
    requires t.Bin?
  {
    RightIs(t, 0) || RightIs(t, 1) || (t.op == DIV && RightIs(t, -1))
  }

  lemma DivRightForm(t: Tree)
    requires t.Bin? && t.op in {DIV, MOD} && Top(t) && DivUnit(t)
    ensures DivCase(t).Cont? && Better(DivCase(t).tree, t)
  {
    NormOk(t.right, []);
    AttrBounds(t.right);
    if RightIs(t, 0) {
      ConstBetter(t, Norm(t.right));
    } else if RightIs(t, 1) {
      if t.op == DIV {
        LeftBetter(t, 1);
      } else {
        ConstBetter(t, WithVal(Norm(t.right), 0));
      }
    } else {
      NegationBetter(t, UMINUS);
    }
  }

  lemma DivLeftForm(t: Tree)
    requires t.Bin? && t.op in {DIV, MOD} && Top(t) && IsConst(t.left)
    requires LooksZero(IsConst(t.right) && Norm(t.right).Clong?, ConstVal(t.left))
    ensures Better(Norm(t.left), t)
  {
    NormOk(t.left, []);
    ConstZero(t.left);
    ConstBetter(t, Norm(t.left));
  }

  lemma DivForm(t: Tree)
    requires t.Bin? && t.op in {DIV, MOD} && Top(t)
    ensures var u := DivCase(t);
      if u.Cont? then Better(u.tree, t) else u.tree == HardLong(Normed(t))
  {
    if DivUnit(t) {
      DivRightForm(t);
    } else if IsConst(t.left) && LooksZero(IsConst(t.right) && Norm(t.right).Clong?, ConstVal(t.left)) {
      DivLeftForm(t);
    } else {
      DivPower2(t);
    }
  }

  lemma LighterRel(op: Bop, op': Bop, l: Attr, r: Attr, l': Attr, r': Attr)
    requires op in {EQUALS, NEQUALS} && op' in {EQUALS, NEQUALS}
    requires Leq(l', l) && r.fold && r'.fold && r'.kind == IntK && r'.nest == 0
    requires r'.okMul && r'.sorted && r'.weight < r.weight
    ensures Leq(Attr2(op', INT, l', r'), Attr2(op, INT, l, r))
    ensures Attr2(op', INT, l', r').weight < Attr2(op, INT, l, r).weight
  {
  }

  lemma RelTop(t: Tree)
    requires t.Bin? && RelOp(t.op) && t.ty == INT && WellTyped(t.left, DONE) && WellTyped(t.right, DONE)
    ensures Top(t)
  {
  }

  lemma LighterTest(t: Tree, l': Tree)
    requires t.Bin? && t.op in {EQUALS, NEQUALS} && Top(t) && TestsBit(t)
    requires WellTyped(l', DONE) && Leq(A(l'), A(t.left))
    ensures Better(Bin(Inverse(t.op), t.ty, l', Cint(0, t.right.su), t.su), t)
  {
    var u := Bin(Inverse(t.op), t.ty, l', Cint(0, t.right.su), t.su);
    assert A(t.right).weight == 4 && A(u.right) == LitAttr(IntK, 0);
    LighterRel(t.op, u.op, A(t.left), A(t.right), A(l'), A(u.right));
    RelTop(u);
  }

  /** The masked operand with its constant in normal form. */
  lemma MaskNormed(t: Tree)
    requires t.Bin? && t.op in {EQUALS, NEQUALS} && Top(t) && TestsBit(t)
    ensures var l := t.left; WellTyped(NormedRight(l), DONE) && Leq(A(NormedRight(l)), A(l))
  {
    var l := t.left;
    WellTop(l);
    NormedTop(l, l.left, Norm(l.right));
    NormOk(l.right, []);
  }

  /** A single-bit test is left alone or replaced by a lighter one against 0. */
  lemma BitTestForm(t: Tree)
    requires t.Bin? && t.op in {EQUALS, NEQUALS} && Top(t) && TestsBit(t)
    ensures var u := BitTest(t); if u.Cont? then Better(u.tree, t)
      else Top(u.tree) && Lowered(u.tree) && Leq(A(u.tree), A(t))
  {
    MaskNormed(t);
    var l' := NormedRight(t.left);
    if BitTest(t).Cont? {
      LighterTest(t, l');
    } else {
      MaskKept(t, l');
    }
  }

  lemma MaskKept(t: Tree, l: Tree)
    requires t.Bin? && t.op in {EQUALS, NEQUALS} && Top(t) && WellTyped(l, DONE) && Leq(A(l), A(t.left))
    ensures var u := Bin(t.op, t.ty, l, t.right, t.su); Top(u) && Lowered(u) && Leq(A(u), A(t))
  {
    LeqRefl(t.right);
    ReplaceTop(t.op, t.ty, t.left, t.right, l, t.right, t.su);
  }

  lemma RelForm(t: Tree)
    requires t.Bin? && RelOp(t.op) && Top(t)
    ensures var u := RelCase(t); if u.Cont? then Better(u.tree, t)
      else Top(u.tree) && Lowered(u.tree) && Leq(A(u.tree), A(t))
  {
    NormedTop(t, t.left, Norm(t.right));
    NotUnsigned(t.left);
    var n := NormedRight(t);
    if t.op in {EQUALS, NEQUALS} && TestsBit(n) {
      hide A;
      BitTestForm(n);
    }
  }

  /** What a turn that falls out of the switch has done. */
  ghost predicate Kept(u: Tree, t: Tree) {
    Top(u) && Lowered(u) && Leq(A(u), A(t))
  }

  lemma NormedKept(t: Tree)
    requires t.Bin? && Top(t) && (t.op !in {MULT, DIV, MOD})
    ensures Kept(NormedRight(t), t) && Kept(Normed(t), t)
  {
    NormedTop(t, t.left, Norm(t.right));
    NormedTop(t, Norm(t.left), Norm(t.right));
  }

  lemma Switch2Form(t: Tree)
    requires t.Bin? && Top(t)
    ensures var u := Switch2(t); if u.Cont? then Better(u.tree, t) else Kept(u.tree, t)
  {
    if t.op in {ADD, SUB} {
      NormedKept(t);
      SumForm(t);
    } else if t.op in {DIV, MOD} {
      DivForm(t);
      NormedTop(t, Norm(t.left), Norm(t.right));
      HardForm(Normed(t));
    } else if t.op == MULT {
      MultForm(t);
      NormedTop(t, t.left, Norm(t.right));
      HardForm(NormedRight(t));
    } else if t.op in {AND, OR, XOR} {
      NormedKept(t);
      BitsForm(t);
    } else if t.op in {LSH, RSH} {
      NormedKept(t);
      ShiftForm(t);
    } else if RelOp(t.op) {
      RelForm(t);
    } else {
      NormedKept(t);
    }
  }

  lemma TwiceForm(t: Tree)
    requires t.Un? && t.uop in {UMINUS, COMPL} && Top(t) && t.arg.Un? && t.arg.uop == t.uop
    ensures Better(t.arg.arg, t)
  {
    AttrBounds(t.arg.arg);
    WellTop(t.arg.arg);
  }

  /** - and ~ sink below a conversion and lose weight on the way. */
  lemma SunkForm(t: Tree)
    requires t.Un? && t.uop in {UMINUS, COMPL} && Top(t) && t.arg.Un? && t.arg.uop in {INT2L, LONG2I}
    ensures var a := t.arg; var ty := if a.uop == INT2L then INT else LONG;
      Better(Un(a.uop, t.ty, Un(t.uop, ty, a.arg, a.su), t.su), t)
  {
    AttrBounds(t.arg.arg);
    assert WellTyped(t.arg.arg, DONE) && NodeOk1(t.arg.uop, t.arg.ty, t.arg.arg, DONE);
  }

  lemma WidenedForm(t: Tree)
    requires t.Un? && t.uop == INT2L && Top(t) && t.arg.Bin? && t.arg.op == MULT
    ensures Better(Switch1(t).tree, t)
  {
    var a := t.arg;
    AttrBounds(a.left);
    AttrBounds(a.right);
    assert Settled(a) && A(a).okMul;
    assert WideFactor(A(a.left)) && WideFactor(A(a.right));
  }

  lemma NotRelForm(t: Tree)
    requires t.Un? && t.uop == NOT && Top(t) && t.arg.Bin? && RelOp(t.arg.op)
    ensures Better(Switch1(t).tree, t)
  {
    var a := t.arg;
    WellTop(a);
    LeqRefl(a);
    assert RelOp(Inverse(a.op)) && Norm(a) == a;
    assert Switch1(t).tree == Bin(Inverse(a.op), a.ty, a.left, a.right, a.su);
    assert A(Switch1(t).tree) == A(a);
  }

  lemma NormedArgKept(t: Tree)
    requires t.Un? && Top(t)
    ensures Kept(Un(t.uop, t.ty, Norm(t.arg), t.su), t)
  {
    NormOk(t.arg, []);
    Leq1(t.uop, t.ty, A(t.arg), A(Norm(t.arg)));
  }

  lemma Switch1Form(t: Tree)
    requires t.Un? && Top(t)
    ensures var u := Switch1(t); if u.Cont? then Better(u.tree, t) else Kept(u.tree, t)
  {
    if t.uop in {UMINUS, COMPL} && t.arg.Un? && (t.arg.uop == t.uop || t.arg.uop in {INT2L, LONG2I}) &&
      !IsConst(t.arg) {
      if t.arg.uop == t.uop {
        TwiceForm(t);
      } else {
        SunkForm(t);
      }
    } else if t.uop == INT2L && t.arg.Bin? && t.arg.op == MULT {
      WidenedForm(t);
    } else if t.uop == NOT && t.arg.Bin? && RelOp(t.arg.op) {
      NotRelForm(t);
    } else {
      NormedArgKept(t);
    }
  }

  lemma LeqTrans(u: Attr, t: Attr, s: Attr)
    requires Leq(u, t) && Leq(t, s)
    ensures Leq(u, s)
  {
  }

  lemma CcexprLowered(t: Tree)
    requires Top(t) && Lowered(t) && Ccexpr(t).Brk?
    ensures WellTyped(Ccexpr(t).tree, DONE)
  {
    CcexprOk(t);
    if t.Bin? {
      NormOk(t.left, []);
      NormOk(t.right, []);
      LeqRefl(t.left);
      LeqRefl(t.right);
      var u := Ccexpr(t).tree;
      NodeOkMono(t.op, t.ty, A(t.left), A(t.right), A(u.left), A(u.right), true);
    }
  }

  /** One turn: lighter and good for another turn, or a finished node. */
  lemma TurnForm(t: Tree)
    requires Top(t)
    ensures var u := Turn(t);
      && Leq(A(u.tree), A(t)) && Top(u.tree)
      && (u.Cont? ==> A(u.tree).weight < A(t).weight)
      && (u.Brk? ==> WellTyped(u.tree, DONE))
    ensures Top(Switch(t).tree) && Leq(A(Switch(t).tree), A(t))
  {
    var s := Switch(t);
    if t.Bin? {
      Switch2Form(t);
    } else if t.Un? {
      Switch1Form(t);
    } else {
      LeqRefl(t);
    }
    if s.Brk? {
      CcexprOk(s.tree);
      LeqTrans(A(Ccexpr(s.tree).tree), A(s.tree), A(t));
      if Turn(t).Brk? {
        CcexprLowered(s.tree);
      }
    }
  }

  lemma BrkShape(t: Tree)
    requires Turn(t).Brk?
    ensures Turn(t).tree.Bin? <==> t.Bin?
    ensures t.Bin? && t.op != MULT ==> Turn(t).tree.op != MULT
  {
  }

  /** Of a finished product's factors one at most is constant, and a plain one. */
  lemma ProductSettled(t: Tree, m: Tree)
    requires Top(t) && t.Bin? && t.op == MULT && t.ty == INT && A(t).okMul && A(t).sorted
    requires m == NormedRight(t) && !RightSpecial(t) && Ccexpr(m).Brk?
    ensures Settled(Ccexpr(m).tree)
  {
    NormOk(t.left, []);
    NormOk(t.right, []);
    AttrBounds(t.left);
    AttrBounds(t.right);
    var u := Ccexpr(m).tree;
    AttrBounds(u.left);
    AttrBounds(u.right);
  }

  /** A finished product has plain factors only, one literal at most. */
  lemma TurnSettled(t: Tree)
    requires Top(t) && Turn(t).Brk? && A(t).okMul && A(t).sorted
    ensures A(t).kind == IntK ==> Settled(Turn(t).tree)
  {
    BrkShape(t);
    if t.Bin? && t.op == MULT && t.ty == INT {
      MultForm(t);
      IntIsShort(t.left);
      NormOk(t.right, []);
      NormedTop(t, t.left, Norm(t.right));
      IntIsShort(Norm(t.right));
      ProductSettled(t, NormedRight(t));
    }
  }
}
