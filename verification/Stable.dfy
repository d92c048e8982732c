/** A node the loop has left is a fixed point of it: no rewrite applies. */
module Stable {
  import opened Word
  import opened Icode
  import opened Fold
  import opened Rules
  import opened SwitchRules

  predicate Fixed(t: Tree) { Turn(t) == Brk(t) }

  /** No rewrite and no constant fold applies anywhere in t. */
  predicate AllFixed(t: Tree) {
    match t
    case Un(_, _, a, _) => Fixed(t) && AllFixed(a)
    case Bin(_, _, l, r, _) => Fixed(t) && AllFixed(l) && AllFixed(r)
    case Qmark(_, c, l, r, _) => Fixed(t) && AllFixed(c) && AllFixed(l) && AllFixed(r)
    case _ => true
  }

  lemma NormFixed(t: Tree)
    requires AllFixed(t)
    ensures AllFixed(Norm(t)) && Norm(Norm(t)) == Norm(t)
  {
  }

  lemma CcexprFixed(t: Tree)
    requires Ccexpr(t).Brk? && t.Bin?
    ensures var u := Ccexpr(t).tree;
      && u.Bin? && u.op == t.op && u.ty == t.ty && Ccexpr(u) == Brk(u)
      && u.left == (if IsConst(t.left) then Norm(t.left) else t.left)
      && u.right == (if IsConst(t.left) && IsConst(t.right) then Norm(t.right) else t.right)
  {
  }

  lemma SumFixed(t: Tree)
    requires t.Bin? && t.op in {ADD, SUB} && Turn(t).Brk?
    ensures Fixed(Turn(t).tree)
  {
    CcexprFixed(SumCase(t).tree);
  }

  lemma BitsFixed(t: Tree)
    requires t.Bin? && t.op in {AND, OR, XOR} && Turn(t).Brk?
    ensures Fixed(Turn(t).tree)
  {
    CcexprFixed(BitsCase(t).tree);
  }

  lemma ShiftFixed(t: Tree)
    requires t.Bin? && t.op in {LSH, RSH} && Turn(t).Brk?
    ensures Fixed(Turn(t).tree)
  {
    CcexprFixed(ShiftCase(t).tree);
  }

  lemma OtherFixed(t: Tree)
    requires t.Bin? && Turn(t).Brk? && Switch2(t) == Brk(NormedRight(t))
    requires t.op in {LMULT, LDIV, LMOD, LAND, LOR, COMMA}
    ensures Fixed(Turn(t).tree)
  {
    CcexprFixed(NormedRight(t));
  }

  /** Converting a constant keeps its width. */
  lemma NormChk(t: Tree)
    requires WellTyped(t, DONE)
    ensures ChkLong(Norm(t)) == ChkLong(t)
  {
  }

  lemma MultFixed(t: Tree)
    requires t.Bin? && t.op == MULT && Turn(t).Brk? && ChkLong(Norm(t.left)) == ChkLong(t.left)
    ensures Fixed(Turn(t).tree)
  {
    CcexprFixed(MultCase(t).tree);
  }

  lemma DivFixed(t: Tree)
    requires t.Bin? && t.op in {DIV, MOD} && Turn(t).Brk?
    ensures Fixed(Turn(t).tree)
  {
    CcexprFixed(DivCase(t).tree);
  }

  lemma RelFixed(t: Tree)
    requires t.Bin? && RelOp(t.op) && Turn(t).Brk? && AllFixed(t.left)
    ensures Fixed(Turn(t).tree) && RelCase(t).tree == NormedRight(t)
  {
    var l := t.left;
    if l.Bin? && l.op == AND {
      assert Turn(l) == Brk(l);
      assert Norm(l.right) == l.right;
    }
    CcexprFixed(RelCase(t).tree);
  }

  lemma BinFixed(t: Tree)
    requires t.Bin? && Top(t) && Turn(t).Brk? && AllFixed(t.left)
    ensures Fixed(Turn(t).tree)
  {
    if t.op in {ADD, SUB} {
      SumFixed(t);
    } else if t.op in {DIV, MOD} {
      DivFixed(t);
    } else if t.op == MULT {
      NormChk(t.left);
      MultFixed(t);
    } else if t.op in {AND, OR, XOR} {
      BitsFixed(t);
    } else if t.op in {LSH, RSH} {
      ShiftFixed(t);
    } else if RelOp(t.op) {
      RelFixed(t);
    } else {
      OtherFixed(t);
    }
  }

  lemma SwitchOperands(t: Tree)
    requires t.Bin? && Turn(t).Brk? && AllFixed(t.left) && AllFixed(t.right)
    ensures var u := Switch2(t).tree; u.Bin? && AllFixed(u.left) && AllFixed(u.right)
  {
    if RelOp(t.op) {
      NormFixed(t.right);
      RelFixed(t);
    } else {
      PlainOperands(t);
    }
  }

  lemma PlainOperands(t: Tree)
    requires t.Bin? && !RelOp(t.op) && Turn(t).Brk? && AllFixed(t.left) && AllFixed(t.right)
    ensures var u := Switch2(t).tree; u.Bin? && AllFixed(u.left) && AllFixed(u.right)
  {
    NormFixed(t.left);
    NormFixed(t.right);
  }

  /** A node whose turn ends the loop has fixed operands, if it had before. */
  lemma BinOperandsFixed(t: Tree)
    requires t.Bin? && Turn(t).Brk? && AllFixed(t.left) && AllFixed(t.right)
    ensures var u := Turn(t).tree; u.Bin? && AllFixed(u.left) && AllFixed(u.right)
  {
    SwitchOperands(t);
    var u := Switch2(t).tree;
    NormFixed(u.left);
    NormFixed(u.right);
    CcexprFixed(u);
  }

  lemma UnFixed(t: Tree)
    requires t.Un? && Turn(t).Brk? && AllFixed(t.arg)
    ensures AllFixed(Turn(t).tree)
  {
    NormFixed(t.arg);
  }

  lemma QmarkFixed(t: Tree)
    requires t.Qmark? && Turn(t).Brk? && AllFixed(t.cond) && AllFixed(t.thn) && AllFixed(t.els)
    ensures AllFixed(Turn(t).tree)
  {
    NormFixed(t.cond);
  }

  predicate BelowFixed(t: Tree) {
    match t
    case Un(_, _, a, _) => AllFixed(a)
    case Bin(_, _, l, r, _) => AllFixed(l) && AllFixed(r)
    case Qmark(_, c, l, r, _) => AllFixed(c) && AllFixed(l) && AllFixed(r)
    case _ => true
  }

  lemma TurnFixed(t: Tree)
    requires Top(t) && Turn(t).Brk? && BelowFixed(t)
    ensures AllFixed(Turn(t).tree)
  {
    if t.Bin? {
      BinFixed(t);
      BinOperandsFixed(t);
    } else if t.Un? {
      UnFixed(t);
    } else if t.Qmark? {
      QmarkFixed(t);
    }
  }
}
