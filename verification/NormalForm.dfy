/** The normal form of optimized trees, on their shape alone: which trees no rewrite
    and no constant fold applies to. */
module NormalForm {
  import opened Word
  import opened Icode
  import opened Fold
  import opened Rules
  import opened Stable

  predicate Literal(t: Tree) { t.Cint? || t.Clong? }

  /** A literal widened or narrowed by a conversion that is still there. */
  predicate Converted(t: Tree) { t.Un? && t.uop in {INT2L, LONG2I} && Literal(t.arg) }

  /** The 32-bit values with a single bit set. */
  const BITS: seq<int> := [
    0x1, 0x2, 0x4, 0x8, 0x10, 0x20, 0x40, 0x80,
    0x100, 0x200, 0x400, 0x800, 0x1000, 0x2000, 0x4000, 0x8000,
    0x1_0000, 0x2_0000, 0x4_0000, 0x8_0000, 0x10_0000, 0x20_0000, 0x40_0000, 0x80_0000,
    0x100_0000, 0x200_0000, 0x400_0000, 0x800_0000, 0x1000_0000, 0x2000_0000, 0x4000_0000, -0x8000_0000]

  /** Literals that never stand right of the operator. */
  predicate Useless(op: Bop, v: int) {
    match op
    case ADD => v == 0
    case SUB => true
    case MULT => v == -1 || v in BITS
    case DIV => v == 0 || v == 1 || v == -1
    case MOD => v == 0 || v == 1
    case AND => v == -1
    case OR => v == 0 || v == -1
    case XOR => v == 0 || v == -1
    case LSH => v == 0
    case RSH => v == 0
    case _ => false
  }

  /** (x & bit) compared with the bit itself. */
  predicate TestsBit(l: Tree, r: Tree) {
    && Literal(r) && r.val in BITS
    && l.Bin? && l.op == AND && Literal(l.right) && l.right.val == r.val
  }

  predicate Normal2(op: Bop, l: Tree, r: Tree) {
    && !Converted(l) && !Converted(r)
    && (op in {ADD, SUB, MULT, DIV, MOD, RSH, LSH, XOR, OR, AND, GREAT, GREATEQ, LESS, LESSEQ} ==>
          !(Literal(l) && Literal(r)))
    && (Literal(r) ==> !Useless(op, r.val))
    && (op in {SUB, DIV, MOD} ==> !(Literal(l) && l.val == 0))
    && (op == MULT ==> TypeOf(l) != LONG && TypeOf(r) != LONG)
    && (op in {EQUALS, NEQUALS} ==> !TestsBit(l, r))
  }

  predicate Normal1(op: Uop, a: Tree) {
    && !Converted(a)
    && (op in {UMINUS, COMPL, NOT} ==> !Literal(a))
    && (op in {UMINUS, COMPL} ==> !(a.Un? && a.uop in {op, INT2L, LONG2I}))
    && (op == NOT ==> !(a.Bin? && a.op in {EQUALS, NEQUALS, GREAT, GREATEQ, LESS, LESSEQ}))
    && (op == INT2L ==> !(a.Bin? && a.op == MULT))
  }

  predicate Normal(t: Tree) {
    match t
    case Un(op, _, a, _) => Normal(a) && Normal1(op, a)
    case Bin(op, _, l, r, _) => Normal(l) && Normal(r) && Normal2(op, l, r)
    case Qmark(_, c, l, r, _) =>
      && Normal(c) && Normal(l) && Normal(r)
      && !Converted(c) && !(Literal(c) && l.Cint? && r.Cint?)
    case _ => true
  }

  // ---- single bits ----

  lemma BitTable()
    ensures forall k: nat :: k < 31 ==> BITS[k] == Pow2(k)
    ensures BITS[31] == -HALF32
  {
    assert Pow2(4) == 0x10 && Pow2(8) == 0x100 && Pow2(12) == 0x1000 && Pow2(16) == 0x1_0000;
    assert Pow2(20) == 0x10_0000 && Pow2(24) == 0x100_0000 && Pow2(28) == 0x1000_0000;
    assert Pow2(0) == 1 && Pow2(1) == 2 && Pow2(2) == 4 && Pow2(3) == 8;
    forall k: nat | k < 31 ensures BITS[k] == Pow2(k) {
      var q, r := 4 * (k / 4), k % 4;
      Pow2Add(q, r);
    }
  }

  lemma BitsOf(v: int)
    requires In32(v)
    ensures OneBit(v) >= 0 <==> v in BITS
  {
    BitTable();
    Pow2Values();
    if OneBit(v) >= 0 {
      if OneBit(v) >= 31 {
        Pow2Mono(31, OneBit(v));
      }
      assert BITS[OneBit(v)] == v;
    }
    if v in BITS {
      var k :| 0 <= k < |BITS| && v == BITS[k];
      if k < 31 {
        Log2OfPow2(k);
      }
    }
  }

  lemma SameBit(v: int, w: int)
    requires In32(v) && In32(w) && OneBit(v) >= 0
    ensures OneBit(v) == OneBit(w) <==> v == w
  {
    Pow2Values();
  }

  // ---- the normal form is what no turn changes ----

  lemma SignedType(t: Tree)
    requires WellTyped(t, DONE)
    ensures TypeOf(t) != UNSIGNED
  {
  }

  lemma ConstNorm(t: Tree)
    ensures IsConst(t) <==> Literal(t) || Converted(t)
    ensures Literal(t) ==> Norm(t) == t && ConstVal(t) == t.val
    ensures Norm(t) == t <==> !Converted(t)
  {
  }

  lemma LiteralFits(t: Tree)
    requires WellTyped(t, DONE) && Literal(t)
    ensures In32(t.val)
  {
  }

  lemma SumIff(t: Tree)
    requires t.Bin? && t.op in {ADD, SUB}
    ensures Fixed(t) <==> Normal2(t.op, t.left, t.right)
  {
    ConstNorm(t.left);
    ConstNorm(t.right);
  }

  lemma BitsIff(t: Tree)
    requires t.Bin? && t.op in {AND, OR, XOR}
    ensures Fixed(t) <==> Normal2(t.op, t.left, t.right)
  {
    ConstNorm(t.left);
    ConstNorm(t.right);
  }

  lemma ShiftIff(t: Tree)
    requires t.Bin? && t.op in {LSH, RSH} && WellTyped(t, DONE)
    ensures Fixed(t) <==> Normal2(t.op, t.left, t.right)
  {
    ConstNorm(t.left);
    ConstNorm(t.right);
    if t.right.Un? && t.right.uop == INT2L {
      SignedType(t.right.arg);
    }
  }

  lemma MultIff(t: Tree)
    requires t.Bin? && t.op == MULT && WellTyped(t, DONE)
    ensures Fixed(t) <==> Normal2(t.op, t.left, t.right)
  {
    ConstNorm(t.left);
    ConstNorm(t.right);
    if Literal(t.right) {
      BitsOf(t.right.val);
      assert 1 == BITS[0];
    }
  }

  lemma DivIff(t: Tree)
    requires t.Bin? && t.op in {DIV, MOD} && WellTyped(t, DONE)
    ensures Fixed(t) <==> Normal2(t.op, t.left, t.right)
  {
    ConstNorm(t.left);
    ConstNorm(t.right);
    SignedType(t.left);
    KindType(t.left, DONE);
    KindType(t.right, DONE);
  }

  lemma MaskOperand(l: Tree)
    requires l.Bin? && l.op == AND && WellTyped(l, DONE) && AllFixed(l)
    ensures Norm(l.right) == l.right && (IsConst(l.right) <==> Literal(l.right))
    ensures Literal(l.right) ==> In32(l.right.val)
  {
    BitsIff(l);
    ConstNorm(l.right);
  }

  lemma BitTestIff(t: Tree)
    requires t.Bin? && WellTyped(t, DONE) && AllFixed(t.left)
    ensures BitTest(t) == Brk(t) <==> !TestsBit(t.left, t.right)
  {
    var l, r := t.left, t.right;
    if Literal(r) {
      BitsOf(r.val);
    }
    if l.Bin? && l.op == AND {
      MaskOperand(l);
      assert Bin(AND, l.ty, l.left, Norm(l.right), l.su) == l;
      if Literal(r) && Literal(l.right) && OneBit(r.val) >= 0 {
        SameBit(r.val, l.right.val);
      }
    }
  }

  lemma EqualIff(t: Tree)
    requires t.Bin? && t.op in {EQUALS, NEQUALS} && WellTyped(t, DONE) && AllFixed(t.left)
    ensures Fixed(t) <==> Normal2(t.op, t.left, t.right)
  {
    ConstNorm(t.left);
    ConstNorm(t.right);
    if Norm(t.right) == t.right {
      assert NormedRight(t) == t;
      BitTestIff(t);
    }
  }

  lemma OrderIff(t: Tree)
    requires t.Bin? && t.op in {GREAT, GREATEQ, LESS, LESSEQ} && WellTyped(t, DONE)
    ensures Fixed(t) <==> Normal2(t.op, t.left, t.right)
  {
    ConstNorm(t.left);
    ConstNorm(t.right);
    SignedType(t.left);
  }

  lemma PlainIff(t: Tree)
    requires t.Bin? && t.op in {LMULT, LDIV, LMOD, LAND, LOR, COMMA}
    ensures Fixed(t) <==> Normal2(t.op, t.left, t.right)
  {
    ConstNorm(t.left);
    ConstNorm(t.right);
  }

  lemma BinIff(t: Tree)
    requires t.Bin? && WellTyped(t, DONE) && AllFixed(t.left)
    ensures Fixed(t) <==> Normal2(t.op, t.left, t.right)
  {
    match t.op
    case ADD => SumIff(t);
    case SUB => SumIff(t);
    case MULT => MultIff(t);
    case DIV => DivIff(t);
    case MOD => DivIff(t);
    case AND => BitsIff(t);
    case OR => BitsIff(t);
    case XOR => BitsIff(t);
    case LSH => ShiftIff(t);
    case RSH => ShiftIff(t);
    case EQUALS => EqualIff(t);
    case NEQUALS => EqualIff(t);
    case GREAT => OrderIff(t);
    case GREATEQ => OrderIff(t);
    case LESS => OrderIff(t);
    case LESSEQ => OrderIff(t);
    case _ => PlainIff(t);
  }

  lemma UnIff(t: Tree)
    requires t.Un? && WellTyped(t, DONE)
    ensures Fixed(t) <==> Normal1(t.uop, t.arg)
  {
    ConstNorm(t.arg);
  }

  lemma QmarkIff(t: Tree)
    requires t.Qmark?
    ensures Fixed(t) <==> !Converted(t.cond) && !(Literal(t.cond) && t.thn.Cint? && t.els.Cint?)
  {
    ConstNorm(t.cond);
  }

  /** The optimizer's loop changes nothing anywhere in a tree exactly when the tree
      has the normal form. */
  lemma {:induction false} FixedIff(t: Tree)
    requires WellTyped(t, DONE)
    ensures AllFixed(t) <==> Normal(t)
  {
    match t
    case Un(_, _, a, _) =>
      FixedIff(a);
      UnIff(t);
    case Bin(_, _, l, r, _) =>
      FixedIff(l);
      FixedIff(r);
      if AllFixed(l) {
        BinIff(t);
      }
    case Qmark(_, c, l, r, _) =>
      FixedIff(c);
      FixedIff(l);
      FixedIff(r);
      QmarkIff(t);
    case _ =>
  }
}
