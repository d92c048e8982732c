/** Relocatable expressions of the Z8000 assembler: a value and the number of
    the section or external whose base the linker adds to it. */
module Reloc {
  import opened Word

  type Long = x: int | In32(x)

  datatype Opr = Mul | Div | Mod | Shl | Shr | Add | Sub | Xor | And | Or | Eq | Ne | Lt | Gt | Le | Ge

  datatype Sign = Plus | Minus | Complement

  datatype Kind = Undefined | Keyword | Section | Label | Variable

  /** A symbol: its type, value and relocation, and whether pass 2 has met its definition. */
  datatype Symbol = Symbol(kind: Kind, val: Long, rel: nat, defined2: bool)

  datatype Tree =
    | Const(v: Long)
    | Sym(s: Symbol)
    | Here
    | Paren(e: Tree)
    | Un(sign: Sign, e: Tree)
    | Bin(op: Opr, l: Tree, r: Tree)

  /** The pass, and the location of the line. */
  datatype Context = Context(pass2: bool, curloc: Long, cursec: nat)

  const RBUND := 255

  predicate Relop(op: Opr) { op in {Eq, Ne, Lt, Gt, Le, Ge} }

  function Flag(b: bool): Long { if b then -1 else 0 }

  function Holds(op: Opr, a: int, b: int): bool {
    match op
    case Eq => a == b
    case Ne => a != b
    case Lt => a < b
    case Gt => a > b
    case Le => a <= b
    case Ge => a >= b
    case _ => false
  }

  /** The operator on two words. */
  function Apply(op: Opr, a: Long, b: Long): Long {
    match op
    case Mul => Wrap32(Times(a, b))
    case Div => Wrap32(Quotient(a, b))
    case Mod => Wrap32(Remainder(a, b))
    case Shl => Wrap32(ShiftLeft(a, b))
    case Shr => Wrap32(ShiftRight(a, b))
    case Add => Wrap32(a + b)
    case Sub => Wrap32(a - b)
    case Xor => Wrap32(BitOp(BXor, 31, a, b))
    case And => Wrap32(BitOp(BAnd, 31, a, b))
    case Or => Wrap32(BitOp(BOr, 31, a, b))
    case _ => Flag(Holds(op, a, b))
  }

  function Apply1(sign: Sign, a: Long): Long {
    match sign
    case Plus => a
    case Minus => Wrap32(0 - a)
    case Complement => Wrap32(-1 - a)
  }

  // ---- at assembly: a value and a relocation ----

  datatype Operand = Operand(val: Long, rel: nat, err: bool)

  const ERROR := Operand(0, 0, true)

  function SignResult(sign: Sign, v: Long, r: nat): Operand {
    if sign == Plus then Operand(v, r, false) else if r != 0 then ERROR else Operand(Apply1(sign, v), 0, false)
  }

  function Result(op: Opr, lv: Long, lr: nat, rv: Long, rr: nat): Operand {
    match op
    case Add => if lr != 0 && rr != 0 then ERROR else Operand(Wrap32(lv + rv), if lr != 0 then lr else rr, false)
    case Sub =>
      if lr == rr then Operand(Wrap32(lv - rv), 0, false)
      else if rr != 0 then ERROR else Operand(Wrap32(lv - rv), lr, false)
    case Eq => Operand(Flag(lr == rr && lv == rv), 0, false)
    case Ne => Operand(Flag(lr != rr || lv != rv), 0, false)
    case _ =>
      if Relop(op) then (if lr != rr then ERROR else Operand(Apply(op, lv, rv), 0, false))
      else if lr != 0 || rr != 0 then ERROR else Operand(Apply(op, lv, rv), 0, false)
  }

  predicate Undef(s: Symbol, c: Context) {
    s.kind == Undefined || s.rel == RBUND || (s.kind == Variable && c.pass2 && !s.defined2)
  }

  function LeafResult(t: Tree, c: Context): Operand
    requires t.Const? || t.Sym? || t.Here?
  {
    match t
    case Const(v) => Operand(v, 0, false)
    case Sym(s) =>
      if s.kind == Section then ERROR
      else if Undef(s, c) then Operand(0, 0, false)
      else Operand(s.val, s.rel, false)
    case Here => Operand(c.curloc, c.cursec, false)
  }

  /** What the semantic routines leave for the whole expression. */
  function Assembled(t: Tree, c: Context): Operand {
    match t
    case Paren(e) => Assembled(e, c)
    case Un(sign, e) =>
      var a := Assembled(e, c);
      var o := SignResult(sign, a.val, a.rel);
      o.(err := a.err || o.err)
    case Bin(op, l, r) =>
      var a, b := Assembled(l, c), Assembled(r, c);
      var o := Result(op, a.val, a.rel, b.val, b.rel);
      o.(err := a.err || b.err || o.err)
    case _ => LeafResult(t, c)
  }

  /** Some symbol is undefined. */
  predicate HasUndef(t: Tree, c: Context) {
    match t
    case Sym(s) => s.kind != Section && Undef(s, c)
    case Paren(e) => HasUndef(e, c)
    case Un(_, e) => HasUndef(e, c)
    case Bin(_, l, r) => HasUndef(l, c) || HasUndef(r, c)
    case _ => false
  }

  /** Some symbol is not defined yet in this pass. */
  predicate Forward(t: Tree, c: Context) {
    match t
    case Sym(s) => Undef(s, c) || (c.pass2 && !s.defined2)
    case Paren(e) => Forward(e, c)
    case Un(_, e) => Forward(e, c)
    case Bin(_, l, r) => Forward(l, c) || Forward(r, c)
    case _ => false
  }

  // ---- at run time: every leaf has its address ----

  /** The bases the linker chooses; absolute values stay. */
  type Bases = b: nat -> int | b(0) == 0 witness (n => 0)

  function Place(v: int, r: nat, base: Bases): Long { Wrap32(v + base(r)) }

  function Linked(t: Tree, c: Context, base: Bases): Long {
    match t
    case Const(v) => v
    case Sym(s) => Place(s.val, s.rel, base)
    case Here => Place(c.curloc, c.cursec, base)
    case Paren(e) => Linked(e, c, base)
    case Un(sign, e) => Apply1(sign, Linked(e, c, base))
    case Bin(op, l, r) => Apply(op, Linked(l, c, base), Linked(r, c, base))
  }

  /** How many times 2^32 the placed value is short of the sum. */
  function Carry(v: int, r: nat, base: Bases): int { (v + base(r) + HALF32) / FULL32 }

  /** The comparison does not depend on the bases: unequal bases keep the values
      apart, and one base carries both operands past the end of memory or none. */
  predicate Settled(op: Opr, lv: int, lr: nat, rv: int, rr: nat, base: Bases) {
    if !Relop(op) then true
    else if op == Eq || op == Ne then lr == rr || Place(lv, lr, base) != Place(rv, rr, base)
    else lv == rv || Carry(lv, lr, base) == Carry(rv, rr, base)
  }

  predicate AllSettled(t: Tree, c: Context, base: Bases) {
    match t
    case Paren(e) => AllSettled(e, c, base)
    case Un(_, e) => AllSettled(e, c, base)
    case Bin(op, l, r) =>
      var a, b := Assembled(l, c), Assembled(r, c);
      AllSettled(l, c, base) && AllSettled(r, c, base) && Settled(op, a.val, a.rel, b.val, b.rel, base)
    case _ => true
  }

  // ---- one operator ----

  lemma PlaceAbs(v: Long, base: Bases)
    ensures Place(v, 0, base) == v
  {
    Wrap32Id(v);
  }

  lemma PlacedSum(a: int, b: int, x: int, y: int)
    ensures Wrap32(Wrap32(a + x) + Wrap32(b + y)) == Wrap32(Wrap32(a + b) + (x + y))
  {
    Wrap32Add(a + x, Wrap32(b + y));
    Wrap32Add(b + y, a + x);
    Wrap32Add(a + b, x + y);
  }

  lemma PlacedDifference(a: int, b: int, x: int, y: int)
    ensures Wrap32(Wrap32(a + x) - Wrap32(b + y)) == Wrap32(Wrap32(a - b) + (x - y))
  {
    Wrap32Add(a + x, -Wrap32(b + y));
    var k := Wrap32Congruent(b + y);
    Wrap32Shift(a + x - (b + y), -k);
    Wrap32Add(a - b, x - y);
  }

  lemma CarryPlace(v: int, r: nat, base: Bases)
    ensures r == 0 && In32(v) ==> Carry(v, r, base) == 0
    ensures v + base(r) == FULL32 * Carry(v, r, base) + Place(v, r, base)
  {
  }

  lemma OrderOf(a: int, b: int, pa: int, pb: int, d: int)
    requires In32(a) && In32(b) && In32(pa) && In32(pb)
    requires a - b == FULL32 * d + (pa - pb)
    ensures d == 0 ==> a - b == pa - pb
    ensures d > 0 ==> a > b && pa < pb
    ensures d < 0 ==> a < b && pa > pb
  {
    if d > 0 {
      assert FULL32 * d >= FULL32;
    }
    if d < 0 {
      assert FULL32 * d <= -FULL32;
    }
  }

  /** Placing with one base is one to one, and keeps the order of two values
      exactly when they carry alike. */
  lemma PlacedOrder(a: Long, b: Long, r: nat, base: Bases)
    ensures Place(a, r, base) == Place(b, r, base) <==> a == b
    ensures a != b ==> ((a < b <==> Place(a, r, base) < Place(b, r, base)) <==> Carry(a, r, base) == Carry(b, r, base))
  {
    var pa: int, pb: int, d := Place(a, r, base), Place(b, r, base), Carry(a, r, base) - Carry(b, r, base);
    CarryPlace(a, r, base);
    CarryPlace(b, r, base);
    OrderOf(a, b, pa, pb, d);
  }

  lemma ComparisonPlaced(op: Opr, lv: Long, lr: nat, rv: Long, rr: nat, base: Bases)
    requires Relop(op) && !Result(op, lv, lr, rv, rr).err
    ensures Apply(op, Place(lv, lr, base), Place(rv, rr, base)) == Result(op, lv, lr, rv, rr).val <==>
            Settled(op, lv, lr, rv, rr, base)
  {
    if lr == rr {
      PlacedOrder(lv, rv, lr, base);
    }
  }

  /** The result of one operator, placed, is the operator on the placed operands:
      always, except for a comparison, for which it is so exactly when settled. */
  lemma OperatorPlaced(op: Opr, lv: Long, lr: nat, rv: Long, rr: nat, base: Bases)
    requires !Result(op, lv, lr, rv, rr).err
    ensures var o := Result(op, lv, lr, rv, rr);
      Apply(op, Place(lv, lr, base), Place(rv, rr, base)) == Place(o.val, o.rel, base) <==>
        Settled(op, lv, lr, rv, rr, base)
  {
    var o := Result(op, lv, lr, rv, rr);
    if op == Add {
      PlacedSum(lv, rv, base(lr), base(rr));
    } else if op == Sub {
      PlacedDifference(lv, rv, base(lr), base(rr));
    } else if Relop(op) {
      ComparisonPlaced(op, lv, lr, rv, rr, base);
      PlaceAbs(o.val, base);
    } else {
      PlaceAbs(lv, base);
      PlaceAbs(rv, base);
      PlaceAbs(o.val, base);
    }
  }

  /** Assembling and then placing is placing and then evaluating. */
  lemma {:induction false} Relocates(t: Tree, c: Context, base: Bases)
    requires !Assembled(t, c).err && !HasUndef(t, c) && AllSettled(t, c, base)
    ensures Linked(t, c, base) == Place(Assembled(t, c).val, Assembled(t, c).rel, base)
  {
    match t
    case Const(v) => PlaceAbs(v, base);
    case Sym(s) =>
    case Here =>
    case Paren(e) => Relocates(e, c, base);
    case Un(sign, e) =>
      Relocates(e, c, base);
      var a := Assembled(e, c);
      if sign != Plus {
        PlaceAbs(a.val, base);
        PlaceAbs(Apply1(sign, a.val), base);
      }
    case Bin(op, l, r) =>
      Relocates(l, c, base);
      Relocates(r, c, base);
      var a, b := Assembled(l, c), Assembled(r, c);
      OperatorPlaced(op, a.val, a.rel, b.val, b.rel, base);
  }

  // ---- what holds for every choice of bases ----

  /** All other bases 0. */
  function Only(r: nat, x: int): Bases
    requires r != 0
  {
    (n: nat) => if n == r then x else 0
  }

  const ZERO: Bases := (n: nat) => 0

  /** v relative to r is the sum or difference of the operands, wherever they are placed. */
  ghost predicate Represents(v: int, r: nat, op: Opr, lv: Long, lr: nat, rv: Long, rr: nat) {
    forall base: Bases :: Apply(op, Place(lv, lr, base), Place(rv, rr, base)) == Place(v, r, base)
  }

  /** Congruent words whose sums with small numbers are congruent. */
  lemma SameShift(v: int, w: int, z: int, d: int, i: int, j: int)
    requires w == v + i * FULL32 && w + d == v + z + j * FULL32 && -100 < z - d < 100
    ensures z == d
  {
    assert z - d == (i - j) * FULL32;
  }

  lemma SumApart(lv: Long, rv: Long, x: int, y: int, v: int, z: int)
    requires Wrap32(Wrap32(lv) + Wrap32(rv)) == Wrap32(v)
    requires Wrap32(Wrap32(lv + x) + Wrap32(rv + y)) == Wrap32(v + z)
    requires -4 < x < 4 && -4 < y < 4 && -4 < z < 4
    ensures z == x + y
  {
    var i := Congruent2(lv, rv, v);
    var j := Congruent2(lv + x, rv + y, v + z);
    SameShift(v, lv + rv, z, x + y, i, j);
  }

  lemma Congruent2(a: int, b: int, v: int) returns (i: int)
    requires Wrap32(Wrap32(a) + Wrap32(b)) == Wrap32(v)
    ensures a + b == v + i * FULL32
  {
    var p := Wrap32Congruent(a);
    var q := Wrap32Congruent(b);
    var m := Wrap32Congruent(Wrap32(a) + Wrap32(b));
    var n := Wrap32Congruent(v);
    i := n - m - p - q;
  }

  lemma DifferenceApart(lv: Long, rv: Long, x: int, y: int, v: int, z: int)
    requires Wrap32(Wrap32(lv) - Wrap32(rv)) == Wrap32(v)
    requires Wrap32(Wrap32(lv + x) - Wrap32(rv + y)) == Wrap32(v + z)
    requires -4 < x < 4 && -4 < y < 4 && -4 < z < 4
    ensures z == x - y
  {
    var i := Congruent3(lv, rv, v);
    var j := Congruent3(lv + x, rv + y, v + z);
    SameShift(v, lv - rv, z, x - y, i, j);
  }

  lemma Congruent3(a: int, b: int, v: int) returns (i: int)
    requires Wrap32(Wrap32(a) - Wrap32(b)) == Wrap32(v)
    ensures a - b == v + i * FULL32
  {
    var p := Wrap32Congruent(a);
    var q := Wrap32Congruent(b);
    var m := Wrap32Congruent(Wrap32(a) - Wrap32(b));
    var n := Wrap32Congruent(v);
    i := n - m - p + q;
  }

  lemma RepresentsAt(v: int, r: nat, op: Opr, lv: Long, lr: nat, rv: Long, rr: nat, b: nat, x: int)
    requires (op == Add || op == Sub) && Represents(v, r, op, lv, lr, rv, rr) && b != 0 && -2 < x < 2
    ensures var base := Only(b, x); base(r) == (if op == Add then base(lr) + base(rr) else base(lr) - base(rr))
  {
    var base := Only(b, x);
    assert Apply(op, Place(lv, lr, base), Place(rv, rr, base)) == Place(v, r, base);
    assert Apply(op, Wrap32(lv), Wrap32(rv)) == Wrap32(v) by {
      assert Apply(op, Place(lv, lr, ZERO), Place(rv, rr, ZERO)) == Place(v, r, ZERO);
    }
    if op == Add {
      SumApart(lv, rv, base(lr), base(rr), v, base(r));
    } else {
      DifferenceApart(lv, rv, base(lr), base(rr), v, base(r));
    }
  }

  /** A sum or difference is refused exactly when no value relative to a single
      base is it for all bases. */
  lemma {:induction false} RefusedExactly(op: Opr, lv: Long, lr: nat, rv: Long, rr: nat)
    requires op == Add || op == Sub
    ensures Result(op, lv, lr, rv, rr).err <==> !exists v: Long, r: nat :: Represents(v, r, op, lv, lr, rv, rr)
  {
    var o := Result(op, lv, lr, rv, rr);
    if !o.err {
      forall base: Bases ensures Apply(op, Place(lv, lr, base), Place(rv, rr, base)) == Place(o.val, o.rel, base) {
        OperatorPlaced(op, lv, lr, rv, rr, base);
      }
      assert Represents(o.val, o.rel, op, lv, lr, rv, rr);
    } else {
      forall v: Long, r: nat ensures !Represents(v, r, op, lv, lr, rv, rr) {
        if Represents(v, r, op, lv, lr, rv, rr) {
          RepresentsAt(v, r, op, lv, lr, rv, rr, rr, 1);
          if lr != 0 {
            RepresentsAt(v, r, op, lv, lr, rv, rr, lr, 1);
          }
        }
      }
    }
  }

  predicate ForAllBases(op: Opr, lv: Long, lr: nat, rv: Long, rr: nat) {
    if op == Eq || op == Ne then lr == rr else lr == 0 || lv == rv
  }

  /** A comparison that is not refused is right for all bases exactly for these:
      = and <> of values relative to one base, the others of absolute values. */
  lemma {:induction false} ComparesForAllBases(op: Opr, lv: Long, lr: nat, rv: Long, rr: nat)
    requires Relop(op) && !Result(op, lv, lr, rv, rr).err
    ensures ForAllBases(op, lv, lr, rv, rr) <==>
      forall base: Bases :: Apply(op, Place(lv, lr, base), Place(rv, rr, base)) == Result(op, lv, lr, rv, rr).val
  {
    var o := Result(op, lv, lr, rv, rr);
    if ForAllBases(op, lv, lr, rv, rr) {
      forall base: Bases ensures Apply(op, Place(lv, lr, base), Place(rv, rr, base)) == o.val {
        ComparedAt(op, lv, lr, rv, rr, base);
      }
    } else {
      var base := Unsettling(op, lv, lr, rv, rr);
      ComparedAt(op, lv, lr, rv, rr, base);
      assert Apply(op, Place(lv, lr, base), Place(rv, rr, base)) != o.val;
    }
  }

  lemma ComparedAt(op: Opr, lv: Long, lr: nat, rv: Long, rr: nat, base: Bases)
    requires Relop(op) && !Result(op, lv, lr, rv, rr).err
    ensures Apply(op, Place(lv, lr, base), Place(rv, rr, base)) == Result(op, lv, lr, rv, rr).val <==>
            Settled(op, lv, lr, rv, rr, base)
    ensures ForAllBases(op, lv, lr, rv, rr) ==> Settled(op, lv, lr, rv, rr, base)
  {
    ComparisonPlaced(op, lv, lr, rv, rr, base);
    CarryPlace(lv, lr, base);
    CarryPlace(rv, rr, base);
  }

  /** Bases that make a comparison wrong. */
  lemma Unsettling(op: Opr, lv: Long, lr: nat, rv: Long, rr: nat) returns (base: Bases)
    requires Relop(op) && !Result(op, lv, lr, rv, rr).err && !ForAllBases(op, lv, lr, rv, rr)
    ensures !Settled(op, lv, lr, rv, rr, base)
  {
    if op == Eq || op == Ne {
      if lr != 0 {
        base := Only(lr, rv - lv);
      } else {
        base := Only(rr, lv - rv);
      }
    } else {
      base := Only(lr, HALF32 - (if lv < rv then rv else lv));
    }
  }

  /** Every comparison is one that no base can change. */
  predicate Steady(t: Tree, c: Context) {
    match t
    case Paren(e) => Steady(e, c)
    case Un(_, e) => Steady(e, c)
    case Bin(op, l, r) =>
      var a, b := Assembled(l, c), Assembled(r, c);
      Steady(l, c) && Steady(r, c) && (Relop(op) ==> ForAllBases(op, a.val, a.rel, b.val, b.rel))
    case _ => true
  }

  lemma {:induction false} SteadySettled(t: Tree, c: Context, base: Bases)
    requires Steady(t, c) && !Assembled(t, c).err
    ensures AllSettled(t, c, base)
  {
    match t
    case Paren(e) => SteadySettled(e, c, base);
    case Un(_, e) => SteadySettled(e, c, base);
    case Bin(op, l, r) =>
      SteadySettled(l, c, base);
      SteadySettled(r, c, base);
      if Relop(op) {
        var a, b := Assembled(l, c), Assembled(r, c);
        ComparedAt(op, a.val, a.rel, b.val, b.rel, base);
      }
    case _ =>
  }

  /** An expression without errors, undefined symbols or comparisons of addresses
      is its value placed at its base, for every choice of bases. */
  lemma RelocatesForAllBases(t: Tree, c: Context)
    requires !Assembled(t, c).err && !HasUndef(t, c) && Steady(t, c)
    ensures forall base: Bases :: Linked(t, c, base) == Place(Assembled(t, c).val, Assembled(t, c).rel, base)
  {
    forall base: Bases ensures Linked(t, c, base) == Place(Assembled(t, c).val, Assembled(t, c).rel, base) {
      SteadySettled(t, c, base);
      Relocates(t, c, base);
    }
  }

  // ---- what an operand means ----

  /** v is the operator's value on two words, in C's terms; a zero divisor and a
      negative shift count, undefined there, give 0. */
  ghost predicate Computes(op: Opr, a: Long, b: Long, v: Long) {
    match op
    case Add => SameModulo(v, a + b, 0x1_0000_0000)
    case Sub => SameModulo(v, a - b, 0x1_0000_0000)
    case Mul => SameModulo(v, a * b, 0x1_0000_0000)
    case Div => IsQuotient(v, a, b, 0x1_0000_0000)
    case Mod => IsRemainder(v, a, b)
    case Shl => IsLeftShift(v, a, b, 0x1_0000_0000)
    case Shr => IsRightShift(v, a, b)
    case And => BitwiseAnd(v, a, b)
    case Or => BitwiseOr(v, a, b)
    case Xor => BitwiseXor(v, a, b)
    case Eq => v == if a == b then -1 else 0
    case Ne => v == if a != b then -1 else 0
    case Lt => v == if a < b then -1 else 0
    case Gt => v == if a > b then -1 else 0
    case Le => v == if a <= b then -1 else 0
    case Ge => v == if a >= b then -1 else 0
  }

  lemma ApplyComputes(op: Opr, a: Long, b: Long)
    ensures Computes(op, a, b, Apply(op, a, b))
  {
    hide SameModulo, IsQuotient, IsRemainder, IsLeftShift, IsRightShift, BitwiseAnd, BitwiseOr, BitwiseXor, BitOp;
    assert In32(a) && In32(b);
    match op
    case Add => Wraps(a + b);
    case Sub => Wraps(a - b);
    case Mul => Wraps(a * b);
    case Div => Quotients32(a, b);
    case Mod => Quotients32(a, b);
    case Shl => Shifts32(a, b);
    case Shr => Shifts32(a, b);
    case And => Bits32(BAnd, a, b); Wrap32Id(BitOp(BAnd, 31, a, b));
    case Or => Bits32(BOr, a, b); Wrap32Id(BitOp(BOr, 31, a, b));
    case Xor => Bits32(BXor, a, b); Wrap32Id(BitOp(BXor, 31, a, b));
    case _ =>
  }

  // ---- no other value is meant ----

  lemma SameLong(v: Long, w: Long, x: int)
    requires SameModulo(v, x, FULL32) && SameModulo(w, x, FULL32)
    ensures v == w
  {
    assert In32(v) && In32(w);
    var i, j := (v - x) / FULL32, (w - x) / FULL32;
    assert v - x == FULL32 * i && w - x == FULL32 * j;
    assert v - w == FULL32 * (i - j);
  }

  lemma QuotientOnce(a: int, b: int, q: int, r: int, q': int, r': int)
    requires b != 0 && Divides(a, b, q, r) && Divides(a, b, q', r')
    ensures q' == q && r' == r
  {
    var d, m := if q > q' then q - q' else q' - q, if b > 0 then b else -b;
    assert (q - q') * b == q * b - q' * b == r' - r;
    assert d * m == r' - r || d * m == r - r';
    if d > 0 {
      MulAtLeast(d, m);
    }
  }

  lemma FloorBelow(v: int, w: int, x: int, p: nat)
    requires x < (v + 1) * p && w * p <= x && p >= 1
    ensures w <= v
  {
    assert p * (w - v - 1) == w * p - (v + 1) * p;
    if w > v {
      MulAtLeast(p, w - v - 1);
    }
  }

  lemma FloorOnce(v: int, w: int, x: int, n: nat)
    requires Floors(v, x, n) && Floors(w, x, n)
    ensures v == w
  {
    FloorBelow(v, w, x, Pow2(n));
    FloorBelow(w, v, x, Pow2(n));
  }

  lemma BitsOnce(v: Long, w: Long)
    requires forall i: nat :: i < 32 ==> BitAt(v, i) == BitAt(w, i)
    ensures v == w
  {
    assert In32(v) && In32(w);
    SameLowBits(v, w, 32);
    Pow2Values();
    assert Pow2(32) == FULL32;
  }

  lemma DivisionOnce(op: Opr, a: Long, b: Long, v: Long, w: Long)
    requires (op == Div || op == Mod) && b != 0 && Computes(op, a, b, v) && Computes(op, a, b, w)
    ensures v == w
  {
    if op == Div {
      var q: int, r: int :| Divides(a, b, q, r) && SameModulo(v, q, FULL32);
      var q': int, r': int :| Divides(a, b, q', r') && SameModulo(w, q', FULL32);
      QuotientOnce(a, b, q, r, q', r');
      SameLong(v, w, q);
    } else {
      var q: int :| Divides(a, b, q, v);
      var q': int :| Divides(a, b, q', w);
      QuotientOnce(a, b, q, v, q', w);
    }
  }

  lemma ComputesOnce(op: Opr, a: Long, b: Long, v: Long, w: Long)
    requires Computes(op, a, b, v) && Computes(op, a, b, w)
    ensures v == w
  {
    hide SameModulo, Divides, Floors, BitAt;
    match op
    case Add => SameLong(v, w, a + b);
    case Sub => SameLong(v, w, a - b);
    case Mul => SameLong(v, w, a * b);
    case Div => if b != 0 { DivisionOnce(op, a, b, v, w); }
    case Mod => if b != 0 { DivisionOnce(op, a, b, v, w); }
    case Shl => if b >= 0 { SameLong(v, w, a * Pow2(b)); }
    case Shr => if b >= 0 { FloorOnce(v, w, a, b); }
    case And => BitsOnce(v, w);
    case Or => BitsOnce(v, w);
    case Xor => BitsOnce(v, w);
    case _ =>
  }

  // ---- what an expression means ----

  /** The operator on two relocatable words: which bases may meet, and what is left. */
  ghost predicate Combines(op: Opr, a: Long, ra: nat, b: Long, rb: nat, v: Long, r: nat) {
    match op
    case Add => Computes(op, a, b, v) && (ra == 0 || rb == 0) && r == ra + rb
    case Sub => Computes(op, a, b, v) && (if ra == rb then r == 0 else rb == 0 && r == ra)
    case Eq => r == 0 && v == if a == b && ra == rb then -1 else 0
    case Ne => r == 0 && v == if a == b && ra == rb then 0 else -1
    case _ => Computes(op, a, b, v) && r == 0 && (if op in {Lt, Gt, Le, Ge} then ra == rb else ra == 0 && rb == 0)
  }

  ghost predicate Signed(sign: Sign, a: Long, ra: nat, v: Long, r: nat) {
    match sign
    case Plus => v == a && r == ra
    case Minus => SameModulo(v, 0 - a, 0x1_0000_0000) && ra == 0 && r == 0
    case Complement => v as int + a as int == -1 && ra == 0 && r == 0
  }

  /** The expression has this value relative to that base; undefined symbols are 0. */
  ghost predicate Denotes(t: Tree, c: Context, v: Long, r: nat) {
    match t
    case Const(x) => v == x && r == 0
    case Sym(s) =>
      s.kind != Section &&
      (if s.kind == Undefined || s.rel == 255 || (s.kind == Variable && c.pass2 && !s.defined2) then v == 0 && r == 0
       else v == s.val && r == s.rel)
    case Here => v == c.curloc && r == c.cursec
    case Paren(e) => Denotes(e, c, v, r)
    case Un(sign, e) => exists a: Long, ra: nat :: Denotes(e, c, a, ra) && Signed(sign, a, ra, v, r)
    case Bin(op, l, r') =>
      exists a: Long, ra: nat, b: Long, rb: nat ::
        Denotes(l, c, a, ra) && Denotes(r', c, b, rb) && Combines(op, a, ra, b, rb, v, r)
  }

  lemma ResultCombines(op: Opr, a: Long, ra: nat, b: Long, rb: nat, v: Long, r: nat)
    ensures Combines(op, a, ra, b, rb, v, r) <==> Result(op, a, ra, b, rb) == Operand(v, r, false)
  {
    hide Computes;
    ApplyComputes(op, a, b);
    if Computes(op, a, b, v) {
      ComputesOnce(op, a, b, v, Apply(op, a, b));
    }
  }

  lemma SignSigned(sign: Sign, a: Long, ra: nat, v: Long, r: nat)
    ensures Signed(sign, a, ra, v, r) <==> SignResult(sign, a, ra) == Operand(v, r, false)
  {
    Wraps(0 - a);
    assert In32(a);
    Wrap32Id(-1 - (a as int));
    if SameModulo(v, 0 - a, FULL32) {
      SameLong(v, Wrap32(0 - a), 0 - a);
    }
  }

  /** The semantic routines leave the value and base that the expression means, and
      refuse exactly the expressions that mean none. */
  lemma {:induction false} AssembledDenotes(t: Tree, c: Context, v: Long, r: nat)
    ensures Denotes(t, c, v, r) <==> Assembled(t, c) == Operand(v, r, false)
    decreases t
  {
    match t
    case Paren(e) => AssembledDenotes(e, c, v, r);
    case Un(sign, e) =>
      forall a: Long, ra: nat ensures Denotes(e, c, a, ra) <==> Assembled(e, c) == Operand(a, ra, false) {
        AssembledDenotes(e, c, a, ra);
      }
      SignSigned(sign, Assembled(e, c).val, Assembled(e, c).rel, v, r);
    case Bin(op, x, y) =>
      forall a: Long, ra: nat ensures Denotes(x, c, a, ra) <==> Assembled(x, c) == Operand(a, ra, false) {
        AssembledDenotes(x, c, a, ra);
      }
      forall a: Long, ra: nat ensures Denotes(y, c, a, ra) <==> Assembled(y, c) == Operand(a, ra, false) {
        AssembledDenotes(y, c, a, ra);
      }
      ResultCombines(op, Assembled(x, c).val, Assembled(x, c).rel, Assembled(y, c).val, Assembled(y, c).rel, v, r);
    case _ =>
  }

  lemma AllDenotes(t: Tree, c: Context)
    ensures forall v: Long, r: nat :: Denotes(t, c, v, r) <==> Assembled(t, c) == Operand(v, r, false)
  {
    forall v: Long, r: nat ensures Denotes(t, c, v, r) <==> Assembled(t, c) == Operand(v, r, false) {
      AssembledDenotes(t, c, v, r);
    }
  }

  /** At run time every operator computes on what its operands are then. */
  lemma LinkedComputes(op: Opr, l: Tree, r: Tree, c: Context, base: Bases)
    ensures Computes(op, Linked(l, c, base), Linked(r, c, base), Linked(Bin(op, l, r), c, base))
  {
    ApplyComputes(op, Linked(l, c, base), Linked(r, c, base));
  }

  // ---- the semantic routines ----

  /** A frame of the parse stack: a value, a relocation or operator code, the
      forward reference flag. */
  datatype Frame = Frame(val0: Long, val1: nat, flg: bool)

  /** The code of an operator token, distinct within its precedence class. */
  function Code(op: Opr): nat {
    match op
    case Mul => 1
    case Div => 2
    case Mod => 3
    case Shl => 4
    case Shr => 5
    case Add => 1
    case Sub => 2
    case Eq => 1
    case Ne => 2
    case Lt => 3
    case Gt => 4
    case Le => 5
    case Ge => 6
    case _ => 0
  }

  /** The semantic number of the production an operator belongs to. */
  function Production(op: Opr): nat {
    match op
    case Xor => 4
    case And => 7
    case Or => 8
    case Add => 6
    case Sub => 6
    case _ => if Relop(op) then 9 else 5
  }

  /** The frames an expression needs. */
  function Depth(t: Tree): nat {
    match t
    case Paren(e) => if Depth(e) < 2 then 3 else 1 + Depth(e)
    case Un(_, e) => 1 + Depth(e)
    case Bin(_, l, r) => if Depth(l) > 2 + Depth(r) then Depth(l) else 2 + Depth(r)
    case _ => 1
  }

  class Parser {
    /** The stack grows toward lower frames. */
    const iips: array<Frame>
    var iipsp: nat
    var eflg: bool
    var uflg: bool
    const c: Context

    var curop: Frame

    constructor (size: nat, c: Context)
      ensures iips.Length == size && iipsp == size && this.c == c && fresh(iips)
    {
      iips := new Frame[size](i => Frame(0, 0, false));
      iipsp, this.c, curop := size, c, Frame(0, 0, false);
    }

    /** A token: the frame keeps the flag it had. */
    method Push(val0: Long, val1: nat)
      requires 0 < iipsp <= iips.Length
      modifies `iipsp, iips
      ensures iipsp == old(iipsp) - 1
      ensures iips[iipsp].val0 == val0 && iips[iipsp].val1 == val1
      ensures forall i :: old(iipsp) <= i < iips.Length ==> iips[i] == old(iips[i])
    {
      iipsp := iipsp - 1;
      iips[iipsp] := Frame(val0, val1, iips[iipsp].flg);
    }

    /** Frame pl is left with this operand, or with 0 after an error. */
    ghost predicate Leaves(pl: nat, o: Operand, flg: bool)
      requires pl < iips.Length
      reads iips
    {
      iips[pl].val0 == o.val && iips[pl].val1 == o.rel && (!o.err ==> iips[pl].flg == flg)
    }

    method Experr(pl: nat)
      requires pl < iips.Length
      modifies `eflg, iips
      ensures eflg && Leaves(pl, ERROR, false)
      ensures forall i :: pl < i < iips.Length ==> iips[i] == old(iips[i])
    {
      eflg := true;
      iips[pl] := Frame(0, 0, iips[pl].flg);
    }

    method SemUnary(sem: nat, ghost sign: Sign)
      requires iipsp + 1 < iips.Length
      requires sem == if sign == Complement then 3 else 2
      requires sem == 2 ==> iips[iipsp + 1].val1 == if sign == Plus then Code(Add) else Code(Sub)
      modifies `iipsp, `eflg, iips
      ensures iipsp == old(iipsp) + 1
      ensures var p := old(iips[iipsp]); var o := SignResult(sign, p.val0, p.val1);
        Leaves(iipsp, o, p.flg) && eflg == (old(eflg) || o.err)
      ensures forall i :: iipsp < i < iips.Length ==> iips[i] == old(iips[i])
    {
      var p, pl := iips[iipsp], iipsp + 1;
      if sem == 2 && iips[pl].val1 == Code(Add) {
        iips[pl] := Frame(p.val0, p.val1, p.flg);
      } else if p.val1 != 0 {
        Experr(pl);
      } else {
        iips[pl] := Frame(if sem == 2 then Wrap32(0 - p.val0) else Wrap32(-1 - p.val0), 0, p.flg);
      }
      iipsp := pl;
    }

    /** Productions 4, 5, 7 and 8: both operands are absolute. */
    method SemAbsolute(sem: nat, ghost op: Opr)
      requires iipsp + 2 < iips.Length && !Relop(op) && sem == Production(op) != 6 && iips[iipsp + 1].val1 == Code(op)
      modifies `iipsp, `eflg, iips
      ensures iipsp == old(iipsp) + 2
      ensures var p, pl := old(iips[iipsp]), old(iips[iipsp + 2]);
        var o := Result(op, pl.val0, pl.val1, p.val0, p.val1);
        Leaves(iipsp, o, pl.flg || p.flg) && eflg == (old(eflg) || o.err)
      ensures forall i :: iipsp < i < iips.Length ==> iips[i] == old(iips[i])
    {
      var p, q, pl := iips[iipsp], iips[iipsp + 1].val1, iips[iipsp + 2];
      if pl.val1 != 0 || p.val1 != 0 {
        Experr(iipsp + 2);
      } else {
        var v :=
          if sem == 4 then Apply(Xor, pl.val0, p.val0)
          else if sem == 7 then Apply(And, pl.val0, p.val0)
          else if sem == 8 then Apply(Or, pl.val0, p.val0)
          else if q == 1 then Apply(Mul, pl.val0, p.val0)
          else if q == 2 then Apply(Div, pl.val0, p.val0)
          else if q == 3 then Apply(Mod, pl.val0, p.val0)
          else if q == 4 then Apply(Shl, pl.val0, p.val0)
          else Apply(Shr, pl.val0, p.val0);
        iips[iipsp + 2] := Frame(v, 0, pl.flg || p.flg);
      }
      iipsp := iipsp + 2;
    }

    /** Production 6: sums and differences. */
    method SemAdd(ghost op: Opr)
      requires iipsp + 2 < iips.Length && (op == Add || op == Sub) && iips[iipsp + 1].val1 == Code(op)
      modifies `iipsp, `eflg, iips
      ensures iipsp == old(iipsp) + 2
      ensures var p, pl := old(iips[iipsp]), old(iips[iipsp + 2]);
        var o := Result(op, pl.val0, pl.val1, p.val0, p.val1);
        Leaves(iipsp, o, pl.flg || p.flg) && eflg == (old(eflg) || o.err)
      ensures forall i :: iipsp < i < iips.Length ==> iips[i] == old(iips[i])
    {
      var p, k := iips[iipsp], iipsp + 2;
      var ok := true;
      if iips[iipsp + 1].val1 == Code(Add) {
        iips[k] := iips[k].(val0 := Wrap32(iips[k].val0 + p.val0));
        if iips[k].val1 != 0 {
          ok := p.val1 == 0;
        } else {
          iips[k] := iips[k].(val1 := p.val1);
        }
      } else {
        iips[k] := iips[k].(val0 := Wrap32(iips[k].val0 - p.val0));
        if iips[k].val1 == p.val1 {
          iips[k] := iips[k].(val1 := 0);
        } else {
          ok := p.val1 == 0;
        }
      }
      if ok {
        iips[k] := iips[k].(flg := iips[k].flg || p.flg);
      } else {
        Experr(k);
      }
      iipsp := k;
    }

    /** Production 9: true is -1. */
    method SemCompare(ghost op: Opr)
      requires iipsp + 2 < iips.Length && Relop(op) && iips[iipsp + 1].val1 == Code(op)
      modifies `iipsp, `eflg, iips
      ensures iipsp == old(iipsp) + 2
      ensures var p, pl := old(iips[iipsp]), old(iips[iipsp + 2]);
        var o := Result(op, pl.val0, pl.val1, p.val0, p.val1);
        Leaves(iipsp, o, pl.flg || p.flg) && eflg == (old(eflg) || o.err)
      ensures forall i :: iipsp < i < iips.Length ==> iips[i] == old(iips[i])
    {
      var p, q, pl := iips[iipsp], iips[iipsp + 1].val1, iips[iipsp + 2];
      var b := false;
      if q == 1 {
        b := pl.val1 == p.val1 && pl.val0 == p.val0;
      } else if q == 2 {
        b := pl.val1 != p.val1 || pl.val0 != p.val0;
      } else if pl.val1 == p.val1 {
        b := if q == 3 then pl.val0 < p.val0 else if q == 4 then pl.val0 > p.val0
             else if q == 5 then pl.val0 <= p.val0 else pl.val0 >= p.val0;
      }
      if q >= 3 && pl.val1 != p.val1 {
        Experr(iipsp + 2);
      } else {
        iips[iipsp + 2] := Frame(if b then -1 else 0, 0, pl.flg || p.flg);
      }
      iipsp := iipsp + 2;
    }

    method SemBinary(sem: nat, ghost op: Opr)
      requires iipsp + 2 < iips.Length && sem == Production(op) && iips[iipsp + 1].val1 == Code(op)
      modifies `iipsp, `eflg, iips
      ensures iipsp == old(iipsp) + 2
      ensures var p, pl := old(iips[iipsp]), old(iips[iipsp + 2]);
        var o := Result(op, pl.val0, pl.val1, p.val0, p.val1);
        Leaves(iipsp, o, pl.flg || p.flg) && eflg == (old(eflg) || o.err)
      ensures forall i :: iipsp < i < iips.Length ==> iips[i] == old(iips[i])
    {
      if sem == 6 {
        SemAdd(op);
      } else if sem == 9 {
        SemCompare(op);
      } else {
        SemAbsolute(sem, op);
      }
    }

    /** A token that is an operand by itself. */
    method SemLeaf(t: Tree)
      requires iipsp < iips.Length && (t.Const? || t.Sym? || t.Here?)
      requires t.Const? ==> iips[iipsp].val0 == t.v
      modifies `eflg, `uflg, iips
      ensures var o := LeafResult(t, c);
        Leaves(iipsp, o, Forward(t, c)) && eflg == (old(eflg) || o.err) && uflg == (old(uflg) || HasUndef(t, c))
      ensures forall i :: iipsp < i < iips.Length ==> iips[i] == old(iips[i])
    {
      match t
      case Const(_) =>
        iips[iipsp] := Frame(iips[iipsp].val0, 0, false);
      case Sym(s) =>
        if s.kind == Section {
          Experr(iipsp);
        } else if s.kind == Undefined || s.rel == RBUND || (s.kind == Variable && c.pass2 && !s.defined2) {
          uflg := true;
          iips[iipsp] := Frame(0, 0, true);
        } else {
          iips[iipsp] := Frame(s.val, s.rel, c.pass2 && !s.defined2);
        }
      case Here =>
        iips[iipsp] := Frame(c.curloc, c.cursec, false);
    }

    /** Production 10: the frame between the parentheses. */
    method SemParen()
      requires iipsp + 2 < iips.Length
      modifies `iipsp, iips
      ensures iipsp == old(iipsp) + 2 && iips[iipsp] == old(iips[iipsp + 1])
      ensures forall i :: iipsp < i < iips.Length ==> iips[i] == old(iips[i])
    {
      iips[iipsp + 2] := iips[iipsp + 1];
      iipsp := iipsp + 2;
    }

    /** The productions of an expression, in the order the parser reduces them. */
    method Expr(t: Tree)
      requires Depth(t) <= iipsp <= iips.Length
      modifies `iipsp, `eflg, `uflg, iips
      ensures iipsp == old(iipsp) - 1
      ensures eflg == (old(eflg) || Assembled(t, c).err) && uflg == (old(uflg) || HasUndef(t, c))
      ensures Leaves(iipsp, Assembled(t, c), Forward(t, c))
      ensures Assembled(t, c).err || Denotes(t, c, iips[iipsp].val0, iips[iipsp].val1)
      ensures forall i :: iipsp < i < iips.Length ==> iips[i] == old(iips[i])
      decreases t, 1
    {
      AllDenotes(t, c);
      match t
      case Paren(e) =>
        Push(0, 0);
        Expr(e);
        Push(0, 0);
        SemParen();
      case Un(sign, e) =>
        Push(0, if sign == Plus then Code(Add) else Code(Sub));
        Expr(e);
        SemUnary(if sign == Complement then 3 else 2, sign);
      case Bin(op, l, r) =>
        ExprBin(op, l, r);
      case Const(v) =>
        Push(v, 0);
        SemLeaf(t);
      case _ =>
        Push(0, 0);
        SemLeaf(t);
    }

    method ExprBin(op: Opr, l: Tree, r: Tree)
      requires Depth(Bin(op, l, r)) <= iipsp <= iips.Length
      modifies `iipsp, `eflg, `uflg, iips
      ensures var t := Bin(op, l, r);
        && iipsp == old(iipsp) - 1
        && eflg == (old(eflg) || Assembled(t, c).err) && uflg == (old(uflg) || HasUndef(t, c))
        && Leaves(iipsp, Assembled(t, c), Forward(t, c))
      ensures forall i :: iipsp < i < iips.Length ==> iips[i] == old(iips[i])
      decreases Bin(op, l, r), 0
    {
      Expr(l);
      ghost var left := iips[iipsp];
      Push(0, Code(op));
      Expr(r);
      assert iips[iipsp + 1].val1 == Code(op) && iips[iipsp + 2] == left;
      SemBinary(Production(op), op);
    }

    /** An operand: after an error it is 0. */
    method Operand(t: Tree)
      requires Depth(t) <= iipsp <= iips.Length
      modifies this, iips
      ensures eflg == Assembled(t, c).err && uflg == HasUndef(t, c)
      ensures eflg ==> curop == Frame(0, 0, false)
      ensures !eflg ==> curop == Frame(Assembled(t, c).val, Assembled(t, c).rel, Forward(t, c))
      ensures !eflg ==> Denotes(t, c, curop.val0, curop.val1)
      ensures eflg ==> !exists v: Long, r: nat :: Denotes(t, c, v, r)
    {
      AllDenotes(t, c);
      eflg, uflg := false, false;
      Expr(t);
      curop := if eflg then Frame(0, 0, false) else iips[iipsp];
    }
  }

  /** The operand the parser leaves in curop, placed by the linker. */
  method PlacedOperand(parser: Parser, t: Tree, ghost base: Bases)
    requires Depth(t) <= parser.iipsp <= parser.iips.Length
    modifies parser, parser.iips
    ensures !parser.eflg && !parser.uflg && AllSettled(t, parser.c, base) ==>
      Linked(t, parser.c, base) == Place(parser.curop.val0, parser.curop.val1, base)
  {
    parser.Operand(t);
    if !parser.eflg && !parser.uflg {
      if AllSettled(t, parser.c, base) {
        Relocates(t, parser.c, base);
      }
    }
  }

  // ---- comparing strings ----

  /** s comes before t in the order of their characters. */
  predicate Before(s: seq<int>, t: seq<int>) {
    exists k :: 0 <= k <= |s| && SplitsAt(s, t, k)
  }

  predicate SplitsAt(s: seq<int>, t: seq<int>, k: nat)
    requires k <= |s|
  {
    k < |t| && s[..k] == t[..k] && (k == |s| || s[k] < t[k])
  }

  /** The first difference, else that of the lengths. */
  function Difference(s: seq<int>, t: seq<int>): int {
    if |s| == 0 || |t| == 0 then |s| - |t|
    else if s[0] != t[0] then s[0] - t[0]
    else Difference(s[1..], t[1..])
  }

  /** What the comparison leaves in a variable that held c0. */
  function Outcome(s: seq<int>, t: seq<int>, c0: int): int {
    if (|s| == 0 || |t| == 0) && c0 != 0 then c0 else Difference(s, t)
  }

  method CompareStrings(s: seq<int>, t: seq<int>, c0: int) returns (c: int)
    ensures c == Outcome(s, t, c0)
  {
    c := c0;
    var k := 0;
    while k < |s| && k < |t|
      invariant k <= |s| && k <= |t|
      invariant k > 0 ==> c == 0
      invariant k == 0 ==> c == c0
      invariant Difference(s[k..], t[k..]) == Difference(s, t)
    {
      c := s[k] - t[k];
      if c != 0 {
        break;
      }
      assert s[k..][1..] == s[k + 1..] && t[k..][1..] == t[k + 1..];
      k := k + 1;
    }
    if c == 0 {
      c := (|s| - k) - (|t| - k);
    }
  }

  lemma {:induction false} DifferenceOrders(s: seq<int>, t: seq<int>)
    ensures Difference(s, t) == 0 <==> s == t
    ensures Difference(s, t) < 0 <==> Before(s, t)
  {
    if |s| == 0 || |t| == 0 {
      if |t| > 0 {
        assert SplitsAt(s, t, 0);
      }
    } else if s[0] != t[0] {
      if s[0] < t[0] {
        assert SplitsAt(s, t, 0);
      }
      forall k | 0 < k <= |s| ensures !SplitsAt(s, t, k) {
        assert k <= |t| ==> s[..k][0] != t[..k][0];
      }
    } else {
      DifferenceOrders(s[1..], t[1..]);
      assert s == t <==> s[1..] == t[1..] by {
        assert s == [s[0]] + s[1..] && t == [t[0]] + t[1..];
      }
      BeforeTail(s, t);
    }
  }

  lemma BeforeTail(s: seq<int>, t: seq<int>)
    requires |s| > 0 && |t| > 0 && s[0] == t[0]
    ensures Before(s, t) <==> Before(s[1..], t[1..])
  {
    if Before(s, t) {
      var k :| 0 <= k <= |s| && SplitsAt(s, t, k);
      assert k > 0;
      assert s[1..][..k - 1] == s[..k][1..] && t[1..][..k - 1] == t[..k][1..];
      assert SplitsAt(s[1..], t[1..], k - 1);
    }
    if Before(s[1..], t[1..]) {
      var k :| 0 <= k <= |s[1..]| && SplitsAt(s[1..], t[1..], k);
      assert s[..k + 1] == [s[0]] + s[1..][..k] && t[..k + 1] == [t[0]] + t[1..][..k];
      assert SplitsAt(s, t, k + 1);
    }
  }

  /** The outcome orders the strings whatever the variable held exactly when
      neither is empty: the loop that sets it does not run for an empty one. */
  lemma {:induction false} OrdersUnlessEmpty(s: seq<int>, t: seq<int>)
    ensures |s| > 0 && |t| > 0 <==>
      forall c0 :: (Outcome(s, t, c0) == 0 <==> s == t) && (Outcome(s, t, c0) < 0 <==> Before(s, t))
  {
    DifferenceOrders(s, t);
    if |s| == 0 || |t| == 0 {
      assert Outcome(s, t, 1) == 1 && Outcome(s, t, -1) == -1;
    }
  }
}
