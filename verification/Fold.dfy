/** Constant folding and the local rewrites of the optimizer: one turn of its
    loop at one node. */
module Fold {
  import opened Word
  import opened Icode

  /** `constant` also converts INT2L and LONG2I of a constant in place. */
  function Norm(t: Tree): Tree {
    if t.Un? && (t.arg.Cint? || t.arg.Clong?) then
      if t.uop == INT2L then Clong(t.arg.val, t.su)
      else if t.uop == LONG2I then Cint(Wrap16(t.arg.val), t.su)
      else t
    else t
  }

  predicate IsConst(t: Tree) { Norm(t).Cint? || Norm(t).Clong? }

  function ConstVal(t: Tree): int
    requires IsConst(t)
  {
    Norm(t).val
  }

  predicate Folds1(op: Uop) { op in {UMINUS, COMPL, NOT} }

  predicate Folds2(op: Bop) {
    op in {ADD, SUB, MULT, DIV, MOD, RSH, LSH, XOR, OR, AND, GREAT, GREATEQ, LESS, LESSEQ}
  }

  function FoldVal1(op: Uop, a: int): int {
    match op
    case UMINUS => -a
    case COMPL => -a - 1
    case _ => Truth(a == 0)
  }

  /** The host's 32-bit arithmetic; shift counts are taken as in range. */
  function FoldVal2(op: Bop, a: int, b: int): int {
    match op
    case ADD => a + b
    case SUB => a - b
    case MULT => Times(a, b)
    case DIV => Quotient(a, b)
    case MOD => Remainder(a, b)
    case RSH => ShiftRight(a, b)
    case LSH => ShiftLeft(a, b)
    case XOR => BitOp(BXor, 31, a, b)
    case OR => BitOp(BOr, 31, a, b)
    case AND => BitOp(BAnd, 31, a, b)
    case _ => Truth(Holds(op, a, b))
  }

  /** The folded constant: long when an operand was long, otherwise the left
      (or only) operand's node with the value truncated to 16 bits. */
  function Folded(anyLong: bool, v: int, su: int): Tree {
    if anyLong then Clong(Wrap32(v), 0) else Cint(Wrap16(v), su)
  }

  datatype Res = Cont(tree: Tree) | Brk(tree: Tree)

  function Ccexpr(t: Tree): Res {
    match t
    case Un(op, ty, a, su) =>
      if !IsConst(a) then Brk(t)
      else if Folds1(op) then Cont(Folded(Norm(a).Clong?, FoldVal1(op, ConstVal(a)), Norm(a).su))
      else Brk(Un(op, ty, Norm(a), su))
    case Bin(op, _, l, r, _) =>
      if !IsConst(l) then Brk(t)
      else if !IsConst(r) then Brk(t.(left := Norm(l)))
      else if Folds2(op) then
        Cont(Folded(Norm(l).Clong? || Norm(r).Clong?, FoldVal2(op, ConstVal(l), ConstVal(r)), Norm(l).su))
      else Brk(t.(left := Norm(l), right := Norm(r)))
    case Qmark(ty, c, l, r, su) =>
      if IsConst(c) && l.Cint? && r.Cint? then
        Cont(Cint(if ConstVal(c) != 0 then l.val else r.val, l.su))
      else Brk(Qmark(ty, Norm(c), l, r, su))
    case _ => Brk(t)
  }

  /** The bit number of a 32-bit value with one bit set, else -1. */
  function OneBit(v: int): int {
    if v == -HALF32 then 31 else Log2(v)
  }

  method Onebit(val: int) returns (i: int)
    requires In32(val)
    ensures i == OneBit(val)
  {
    i := 31;
    var v := if val < 0 then val + FULL32 else val;
    ghost var u := v;
    while v != 0
      invariant -1 <= i <= 31 && 0 <= v < FULL32
      invariant v == 0 <==> u == 0
      invariant u != 0 ==> i >= 0 && v >= Pow2(31 - i)
      invariant u != 0 ==> Log2(v) == (if Log2(u) < 0 then -1 else Log2(u) + 31 - i)
      decreases i
    {
      if v >= HALF32 {
        break;
      }
      TopNotReached(v, i);
      Log2Double(v);
      v, i := 2 * v, i - 1;
    }
    if v != 0 {
      TopBit(v);
      if val < 0 {
        TopBit(u);
      }
    }
    if v != HALF32 {
      i := -1;
    }
  }

  lemma TopNotReached(v: int, i: int)
    requires 0 <= i <= 31 && Pow2(31 - i) <= v < HALF32
    ensures i > 0
  {
    Pow2Values();
  }

  /** With bit 31 set, only that bit alone is a power of two. */
  lemma TopBit(v: int)
    requires HALF32 <= v < FULL32
    ensures Log2(v) == (if v == HALF32 then 31 else -1)
  {
    if Log2(v) >= 0 {
      Pow2Ends(Log2(v));
    }
    Pow2Values();
    Log2OfPow2(31);
  }

  lemma {:induction false} Pow2Ends(n: nat)
    requires HALF32 <= Pow2(n) < FULL32
    ensures Pow2(n) == HALF32
  {
    Pow2Values();
    if n < 31 {
      Pow2Mono(n + 1, 31);
    } else if n > 31 {
      Pow2Mono(32, n);
    }
  }

  lemma {:induction false} Pow2Mono(m: nat, n: nat)
    requires m <= n
    ensures Pow2(m) <= Pow2(n)
  {
    if m < n {
      Pow2Mono(m, n - 1);
    }
  }

  predicate ChkLong(t: Tree) { t.Clong? || TypeOf(t) == LONG }

  /** Multiplication by a power of two becomes a shift; division and remainder
      only when the left operand is unsigned. */
  function Power2(t: Tree): Res
    requires t.Bin?
  {
    var r := Norm(t.right);
    if !IsConst(t.right) || OneBit(r.val) < 0 then Brk(t.(right := r))
    else if t.op == MULT then Cont(t.(op := LSH, right := Cint(OneBit(r.val), r.su)))
    else if TypeOf(t.left) == UNSIGNED && t.op == DIV then
      Cont(t.(op := RSH, right := Cint(OneBit(r.val), r.su)))
    else if TypeOf(t.left) == UNSIGNED && t.op == MOD then
      Cont(t.(op := AND, right := Cint(Wrap16(r.val - 1), r.su)))
    else Brk(t.(right := r))
  }

  /** Long products and quotients become library operators, uncounted. */
  function HardLong(t: Tree): Tree
    requires t.Bin?
  {
    if !ChkLong(t.right) && !ChkLong(t.left) then t
    else if t.op == MULT then t.(op := LMULT)
    else if t.op in {DIV, MOD} && ChkLong(t.left) && TypeOf(t.right) != INT then
      t.(op := if t.op == DIV then LDIV else LMOD,
         right := if t.right.Clong? then Dclong(t.right.val, t.right.su) else t.right)
    else t
  }

  function Multop(t: Tree): Res
    requires t.Bin?
  {
    match Power2(t)
    case Cont(u) => Cont(u)
    case Brk(u) => if u.Bin? then Brk(HardLong(u)) else Brk(u)
  }

  function Inverse(op: Bop): Bop {
    match op
    case EQUALS => NEQUALS
    case NEQUALS => EQUALS
    case GREAT => LESSEQ
    case GREATEQ => LESS
    case LESS => GREATEQ
    case LESSEQ => GREAT
    case _ => op
  }

  /** The test `CONSTZERO(lconst, p)` on a constant left operand p uses the
      right operand's width flag: only the low half of a long is looked at
      unless the right operand is a long constant. */
  predicate LooksZero(longRight: bool, v: int) {
    if longRight then v == 0 else Wrap16(v) == 0
  }

  function WithVal(t: Tree, v: int): Tree
    requires t.Cint? || t.Clong?
  {
    if t.Clong? then Clong(Wrap32(v), t.su) else Cint(Wrap16(v), t.su)
  }

  /** The right operand is the constant c. */
  predicate RightIs(t: Tree, c: int)
    requires t.Bin?
  {
    IsConst(t.right) && ConstVal(t.right) == c
  }

  predicate LeftIs(t: Tree, c: int)
    requires t.Bin?
  {
    IsConst(t.left) && ConstVal(t.left) == c
  }

  /** t with its operands as `constant` leaves them. */
  function Normed(t: Tree): Tree
    requires t.Bin?
  {
    Bin(t.op, t.ty, Norm(t.left), Norm(t.right), t.su)
  }

  function NormedRight(t: Tree): Tree
    requires t.Bin?
  {
    Bin(t.op, t.ty, t.left, Norm(t.right), t.su)
  }

  function SumCase(t: Tree): Res
    requires t.Bin? && t.op in {ADD, SUB}
  {
    var r := Norm(t.right);
    if RightIs(t, 0) then Cont(t.left)
    else if t.op == ADD then Brk(NormedRight(t))
    else if IsConst(t.right) then Cont(Bin(ADD, t.ty, t.left, WithVal(r, -r.val), t.su))
    else if LeftIs(t, 0) then Cont(Un(UMINUS, t.ty, r, t.su))
    else Brk(Normed(t))
  }

  function DivCase(t: Tree): Res
    requires t.Bin? && t.op in {DIV, MOD}
  {
    var r := Norm(t.right);
    if RightIs(t, 0) then Cont(r)
    else if RightIs(t, 1) then Cont(if t.op == DIV then t.left else WithVal(r, 0))
    else if t.op == DIV && RightIs(t, -1) then Cont(Un(UMINUS, t.ty, t.left, t.su))
    else if IsConst(t.left) && LooksZero(IsConst(t.right) && r.Clong?, ConstVal(t.left)) then Cont(Norm(t.left))
    else Multop(Normed(t))
  }

  function MultCase(t: Tree): Res
    requires t.Bin? && t.op == MULT
  {
    if RightIs(t, 1) then Cont(t.left)
    else if RightIs(t, -1) then Cont(Un(UMINUS, t.ty, t.left, t.su))
    else Multop(NormedRight(t))
  }

  function BitsCase(t: Tree): Res
    requires t.Bin? && t.op in {AND, OR, XOR}
  {
    if RightIs(t, if t.op == AND then -1 else 0) then Cont(t.left)
    else if t.op == OR && RightIs(t, -1) then Cont(Norm(t.right))
    else if t.op == XOR && RightIs(t, -1) then Cont(Un(COMPL, t.ty, t.left, t.su))
    else Brk(NormedRight(t))
  }

  function ShiftCase(t: Tree): Res
    requires t.Bin? && t.op in {LSH, RSH}
  {
    var r := Norm(t.right);
    if t.op == LSH && t.ty == LONG && r.Un? && r.uop == INT2L && TypeOf(r.arg) == UNSIGNED then
      Cont(Bin(t.op, t.ty, t.left, r.arg, t.su))
    else if RightIs(t, 0) then Cont(t.left)
    else Brk(NormedRight(t))
  }

  /** Unsigned comparisons with zero; tests of a single bit. */
  function RelCase(t: Tree): Res
    requires t.Bin? && RelOp(t.op)
  {
    var r := Norm(t.right);
    if t.op in {EQUALS, NEQUALS} then BitTest(NormedRight(t))
    else if t.op == GREATEQ && RightIs(t, 0) && TypeOf(t.left) == UNSIGNED then Cont(WithVal(r, 1))
    else if t.op == LESS && RightIs(t, 0) && TypeOf(t.left) == UNSIGNED then Cont(r)
    else Brk(NormedRight(t))
  }

  /** The optimizer's switch for binary operators.  Cont: go round the loop with
      this tree; Brk: fall out of the switch. */
  function Switch2(t: Tree): Res
    requires t.Bin?
  {
    if t.op in {ADD, SUB} then SumCase(t)
    else if t.op in {DIV, MOD} then DivCase(t)
    else if t.op == MULT then MultCase(t)
    else if t.op in {AND, OR, XOR} then BitsCase(t)
    else if t.op in {LSH, RSH} then ShiftCase(t)
    else if RelOp(t.op) then RelCase(t)
    else Brk(NormedRight(t))
  }

  /** (x & 2^i) == 2^i becomes (x & 2^i) != 0, and != becomes ==. */
  function BitTest(t: Tree): Res
    requires t.Bin?
  {
    var l, r := t.left, t.right;
    if (r.Cint? || r.Clong?) && OneBit(r.val) >= 0 && l.Bin? && l.op == AND then
      var l' := Bin(AND, l.ty, l.left, Norm(l.right), l.su);
      if IsConst(l.right) && OneBit(r.val) == OneBit(ConstVal(l.right)) then
        Cont(Bin(Inverse(t.op), t.ty, l', Cint(0, r.su), t.su))
      else Brk(Bin(t.op, t.ty, l', r, t.su))
    else Brk(t)
  }

  function Switch1(t: Tree): Res
    requires t.Un?
  {
    var a := Norm(t.arg);
    var t' := Un(t.uop, t.ty, a, t.su);
    match t.uop
    case NOT =>
      if a.Bin? && RelOp(a.op) then Cont(Bin(Inverse(a.op), a.ty, a.left, a.right, a.su)) else Brk(t')
    case INT2L =>
      if a.Bin? && a.op == MULT then Cont(Bin(MULT, LONG, a.left, a.right, a.su)) else Brk(t')
    case LONG2I => Brk(t')
    case _ =>
      if a.Un? && a.uop == t.uop then Cont(a.arg)
      else if a.Un? && a.uop == INT2L then Cont(Un(INT2L, t.ty, Un(t.uop, INT, a.arg, a.su), t.su))
      else if a.Un? && a.uop == LONG2I then Cont(Un(LONG2I, t.ty, Un(t.uop, LONG, a.arg, a.su), t.su))
      else Brk(t')
  }

  function Switch(t: Tree): Res {
    if t.Bin? then Switch2(t)
    else if t.Un? then Switch1(t)
    else Brk(t)
  }

  /** One turn of the loop: the switch, then constant folding. */
  function Turn(t: Tree): Res {
    match Switch(t)
    case Cont(u) => Cont(u)
    case Brk(u) => Ccexpr(u)
  }
}
