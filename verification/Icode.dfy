/** The code generator's expression trees (side-effect-free part): their
    machine meaning, their static attributes, and when a tree is well formed. */
module Icode {
  import opened Word

  datatype Ty = INT | LONG | UNSIGNED

  datatype Uop = NOT | UMINUS | COMPL | INT2L | LONG2I

  datatype Bop =
    | ADD | SUB | MULT | DIV | MOD | RSH | LSH | AND | OR | XOR
    | EQUALS | NEQUALS | GREAT | GREATEQ | LESS | LESSEQ
    | LMULT | LDIV | LMOD | LAND | LOR | COMMA

  /** Every node carries the Sethi-Ullman number last computed for it. */
  datatype Tree =
    | Cint(val: int, su: int)
    | Clong(val: int, su: int)
    | Dclong(val: int, su: int)
    | Sym(id: nat, ty: Ty, isReg: bool, su: int)
    | Un(uop: Uop, ty: Ty, arg: Tree, su: int)
    | Bin(op: Bop, ty: Ty, left: Tree, right: Tree, su: int)
    | Qmark(ty: Ty, cond: Tree, thn: Tree, els: Tree, su: int)

  predicate RelOp(op: Bop) {
    op in {EQUALS, NEQUALS, GREAT, GREATEQ, LESS, LESSEQ}
  }

  predicate CommOp(op: Bop) {
    op in {ADD, MULT, AND, OR, XOR}
  }

  /** The type stored in the node. */
  function TypeOf(t: Tree): Ty {
    match t
    case Cint(_, _) => INT
    case Clong(_, _) => LONG
    case Dclong(_, _) => LONG
    case Sym(_, ty, _, _) => ty
    case Un(_, ty, _, _) => ty
    case Bin(_, ty, _, _, _) => ty
    case Qmark(ty, _, _, _, _) => ty
  }

  predicate Leaf(t: Tree) { t.Cint? || t.Clong? || t.Dclong? || t.Sym? }

  function Size(t: Tree): (n: nat)
    ensures n >= 1
  {
    match t
    case Un(_, _, a, _) => 1 + Size(a)
    case Bin(_, _, l, r, _) => 1 + Size(l) + Size(r)
    case Qmark(_, c, l, r, _) => 1 + Size(c) + Size(l) + Size(r)
    case _ => 1
  }

  // ---- meaning ----

  /** The values of the variables; a variable beyond the end is 0. */
  type Env = seq<int>

  function Wrap(ty: Ty, x: int): (r: int)
    ensures ty == INT ==> In16(r)
    ensures ty == LONG ==> In32(r)
  {
    match ty
    case INT => Wrap16(x)
    case LONG => Wrap32(x)
    case UNSIGNED => x % FULL16
  }

  /** The number of bits below the sign bit (an unsigned word has no sign bit). */
  function Msb(ty: Ty): nat {
    match ty
    case INT => 15
    case LONG => 31
    case UNSIGNED => 16
  }

  function Width(ty: Ty): nat { if ty == LONG then 32 else 16 }

  function Truth(b: bool): int { if b then 1 else 0 }

  function Holds(op: Bop, a: int, b: int): bool {
    match op
    case EQUALS => a == b
    case NEQUALS => a != b
    case GREAT => a > b
    case GREATEQ => a >= b
    case LESS => a < b
    case LESSEQ => a <= b
    case _ => false
  }

  function Meaning1(op: Uop, ty: Ty, a: int): int {
    match op
    case NOT => Truth(a == 0)
    case UMINUS => Wrap(ty, -a)
    case COMPL => Wrap(ty, -a - 1)
    case INT2L => a
    case LONG2I => Wrap16(a)
  }

  function Meaning2(op: Bop, ty: Ty, a: int, b: int): int {
    match op
    case ADD => Wrap(ty, a + b)
    case SUB => Wrap(ty, a - b)
    case MULT => Wrap(ty, Times(a, b))
    case LMULT => Wrap(ty, Times(a, b))
    case DIV => Wrap(ty, Quotient(a, b))
    case LDIV => Wrap(ty, Quotient(a, b))
    case MOD => Wrap(ty, Remainder(a, b))
    case LMOD => Wrap(ty, Remainder(a, b))
    case LSH => Wrap(ty, ShiftLeft(a, b))
    case RSH => Wrap(ty, ShiftRight(a, b))
    case AND => BitOp(BAnd, Msb(ty), a, b)
    case OR => BitOp(BOr, Msb(ty), a, b)
    case XOR => BitOp(BXor, Msb(ty), a, b)
    case LAND => Truth(a != 0 && b != 0)
    case LOR => Truth(a != 0 || b != 0)
    case COMMA => b
    case _ => Truth(Holds(op, a, b))
  }

  /** The value of a tree: each operator wraps at the width of its own node. */
  function Eval(t: Tree, env: Env): int {
    match t
    case Cint(v, _) => v
    case Clong(v, _) => v
    case Dclong(v, _) => v
    case Sym(i, ty, _, _) => if i < |env| then Wrap(ty, env[i]) else 0
    case Un(op, ty, a, _) => Meaning1(op, ty, Eval(a, env))
    case Bin(op, ty, l, r, _) => Meaning2(op, ty, Eval(l, env), Eval(r, env))
    case Qmark(_, c, l, r, _) => if Eval(c, env) != 0 then Eval(l, env) else Eval(r, env)
  }

  /** v is what C's operator gives on two operands, at the width of the node; a zero
      divisor and a negative count, undefined there, give 0. */
  ghost predicate Computes(op: Bop, ty: Ty, a: int, b: int, v: int) {
    var full := if ty == LONG then 0x1_0000_0000 else 0x1_0000;
    match op
    case ADD => SameModulo(v, a + b, full)
    case SUB => SameModulo(v, a - b, full)
    case MULT => SameModulo(v, a * b, full)
    case LMULT => SameModulo(v, a * b, full)
    case DIV => IsQuotient(v, a, b, full)
    case LDIV => IsQuotient(v, a, b, full)
    case MOD => IsRemainder(v, a, b)
    case LMOD => IsRemainder(v, a, b)
    case LSH => IsLeftShift(v, a, b, full)
    case RSH => IsRightShift(v, a, b)
    case AND => BitwiseAnd(v, a, b)
    case OR => BitwiseOr(v, a, b)
    case XOR => BitwiseXor(v, a, b)
    case EQUALS => v == if a == b then 1 else 0
    case NEQUALS => v == if a != b then 1 else 0
    case GREAT => v == if a > b then 1 else 0
    case GREATEQ => v == if a >= b then 1 else 0
    case LESS => v == if a < b then 1 else 0
    case LESSEQ => v == if a <= b then 1 else 0
    case LAND => v == if a != 0 && b != 0 then 1 else 0
    case LOR => v == if a != 0 || b != 0 then 1 else 0
    case COMMA => v == b
  }

  /** An operand as wide as its node. */
  predicate OfType(ty: Ty, x: int) { if ty == LONG then In32(x) else In16(x) }

  lemma MeaningComputes(op: Bop, ty: Ty, a: int, b: int)
    requires ty != UNSIGNED && OfType(ty, a) && OfType(ty, b)
    ensures Computes(op, ty, a, b, Meaning2(op, ty, a, b))
  {
    hide SameModulo, IsQuotient, IsRemainder, IsLeftShift, IsRightShift, BitwiseAnd, BitwiseOr, BitwiseXor, BitOp;
    match op
    case AND => BitsCompute(ty, a, b);
    case OR => BitsCompute(ty, a, b);
    case XOR => BitsCompute(ty, a, b);
    case ADD => Wraps(a + b);
    case SUB => Wraps(a - b);
    case MULT => Wraps(a * b);
    case LMULT => Wraps(a * b);
    case LSH => ShiftsCompute(ty, a, b);
    case RSH => ShiftsCompute(ty, a, b);
    case DIV => QuotientsCompute(ty, a, b);
    case LDIV => QuotientsCompute(ty, a, b);
    case MOD => QuotientsCompute(ty, a, b);
    case LMOD => QuotientsCompute(ty, a, b);
    case _ =>
  }

  /** Prefix operators and conversions: negation and complement at the node's width,
      1 for a zero under !, and the low 16 bits for a narrowing. */
  lemma PrefixComputes(op: Uop, ty: Ty, a: int)
    requires ty != UNSIGNED && In32(a) && (op in {UMINUS, COMPL} ==> OfType(ty, a))
    ensures var v := Meaning1(op, ty, a);
      && (op == UMINUS ==> OfType(ty, v) && SameModulo(v, -a, if ty == LONG then 0x1_0000_0000 else 0x1_0000))
      && (op == COMPL ==> v == -1 - a) && (op == NOT ==> v == if a == 0 then 1 else 0)
      && (op == INT2L ==> v == a) && (op == LONG2I ==> In16(v) && SameModulo(v, a, 0x1_0000))
  {
    hide SameModulo;
    Wraps(-a);
    Wraps(a);
  }

  lemma BitsCompute(ty: Ty, a: int, b: int)
    requires ty != UNSIGNED && OfType(ty, a) && OfType(ty, b)
    ensures BitwiseAnd(Meaning2(AND, ty, a, b), a, b) && BitwiseOr(Meaning2(OR, ty, a, b), a, b)
    ensures BitwiseXor(Meaning2(XOR, ty, a, b), a, b)
  {
    hide BitwiseAnd, BitwiseOr, BitwiseXor, BitOp;
    Pow2Values();
    Bitwise(Msb(ty), a, b);
  }

  lemma QuotientsCompute(ty: Ty, a: int, b: int)
    requires ty != UNSIGNED && OfType(ty, a) && OfType(ty, b)
    ensures IsQuotient(Meaning2(DIV, ty, a, b), a, b, if ty == LONG then FULL32 else FULL16)
    ensures IsRemainder(Meaning2(MOD, ty, a, b), a, b)
  {
    hide IsQuotient, IsRemainder, Quotient, Remainder;
    if ty == LONG { Quotients32(a, b); } else { Quotients16(a, b); }
  }

  lemma ShiftsCompute(ty: Ty, a: int, b: int)
    requires ty != UNSIGNED && OfType(ty, a)
    ensures IsLeftShift(Meaning2(LSH, ty, a, b), a, b, if ty == LONG then FULL32 else FULL16)
    ensures IsRightShift(Meaning2(RSH, ty, a, b), a, b)
  {
    hide IsLeftShift, IsRightShift, ShiftLeft, ShiftRight;
    if ty == LONG { Shifts32(a, b); } else { Shifts16(a, b); }
  }

  // ---- static attributes ----

  /** What width a node's value may have.  Comparing (or negating) longs can be
      folded to a long constant, so such a result is good only where any width
      is: AnyK. */
  datatype Kind = IntK | LongK | AnyK

  datatype Lit = NoLit | Lit(v: int)

  /** fold: may become a constant by rewriting; zero: one whose low half is 0.
      nest: whether rewriting may uncover an INT product here: 0 not, 1 one of which
      no factor is a product, else 2.  caps: how many factors of a product that may be
      uncovered may become constants.  weight: what every counted rewrite lowers.
      okMul: no factor of a product that may be uncovered becomes a constant only
      later; sorted: a literal left factor of it has a literal right factor. */
  datatype Attr = Attr(kind: Kind, fold: bool, zero: bool, nest: nat, caps: nat, weight: nat,
                       lit: Lit, okMul: bool, sorted: bool)

  function TyKind(ty: Ty): Kind { if ty == LONG then LongK else IntK }

  function Max(a: nat, b: nat): nat { if a > b then a else b }

  predicate LowZero(v: int) { Wrap16(v) == 0 }

  function LitAttr(kind: Kind, v: int): Attr {
    Attr(kind, true, LowZero(v), 0, 1, if v == 0 then 3 else 4, Lit(v), true, true)
  }

  /** Two of these in a row may vanish from an INT node. */
  predicate Peels(op: Uop, ty: Ty) { ty != LONG && (op == UMINUS || op == COMPL) }

  function One(b: bool): nat { if b then 1 else 0 }

  function Attr1(op: Uop, ty: Ty, a: Attr): Attr {
    var kind := match op
      case NOT => if a.kind == IntK || !a.fold then IntK else AnyK
      case INT2L => LongK
      case LONG2I => IntK
      case _ => TyKind(ty);
    var weight := match op
      case NOT => a.weight + 2
      case INT2L => a.weight + 1
      case LONG2I => a.weight + 1
      case _ => 2 * a.weight;
    var caps := if op == NOT || op == LONG2I then One(a.fold) else a.caps;
    Attr(kind, a.fold, a.fold, if Peels(op, ty) then a.nest else 0, caps, weight,
         NoLit, Peels(op, ty) ==> a.okMul, Peels(op, ty) ==> a.sorted)
  }

  /** A right operand on which a division or remainder may collapse. */
  predicate MayBe01(r: Attr) {
    r.fold && (r.lit.Lit? ==> r.lit.v == 0 || r.lit.v == 1)
  }

  function Fold2(op: Bop, l: Attr, r: Attr): bool {
    match op
    case DIV => l.zero || MayBe01(r) || (l.fold && r.fold)
    case MOD => l.zero || MayBe01(r) || (l.fold && r.fold)
    case OR => l.fold || r.fold
    case LMULT => false
    case LDIV => false
    case LMOD => false
    case LAND => false
    case LOR => false
    case COMMA => false
    case _ => l.fold && r.fold
  }

  function Zero2(op: Bop, l: Attr, r: Attr): bool {
    if op == OR then l.zero && r.zero else Fold2(op, l, r)
  }

  predicate ProductOp(op: Bop) {
    op in {MULT, XOR, DIV, MOD, LMULT, LDIV, LMOD}
  }

  function Kind2(op: Bop, ty: Ty, l: Attr, r: Attr): Kind {
    if RelOp(op) then (if (l.kind == IntK && r.kind == IntK) || !(l.fold && r.fold) then IntK else AnyK)
    else if op == LAND || op == LOR then IntK
    else if op == COMMA then (if r.kind == TyKind(ty) then r.kind else AnyK)
    else TyKind(ty)
  }

  /** The operand may turn out to be a unit of the operator, which leaves the other one. */
  predicate Vanishes(op: Bop, a: Attr) { if op == OR then a.zero else a.fold }

  predicate LeavesLeft(op: Bop, r: Attr) {
    op in {ADD, SUB, MULT, DIV, AND, OR, XOR, LSH, RSH} && Vanishes(op, r)
  }

  predicate LeavesRight(op: Bop, l: Attr) {
    op in {ADD, SUB, MULT, AND, OR, XOR} && Vanishes(op, l)
  }

  /** An INT node may be replaced by its left, or right, operand. */
  predicate ThruLeft(op: Bop, ty: Ty, r: Attr) { ty != LONG && LeavesLeft(op, r) }

  predicate ThruRight(op: Bop, ty: Ty, l: Attr) { ty != LONG && LeavesRight(op, l) }

  predicate IntProduct(op: Bop, ty: Ty) { op == MULT && ty == INT }

  function Nest2(op: Bop, ty: Ty, l: Attr, r: Attr): nat {
    if IntProduct(op, ty) then (if l.nest == 0 && r.nest == 0 then 1 else 2)
    else Max(if ThruLeft(op, ty, r) then l.nest else 0, if ThruRight(op, ty, l) then r.nest else 0)
  }

  function Caps2(op: Bop, l: Attr, r: Attr): nat {
    if op == MULT then l.caps + r.caps
    else
      Max(One(Fold2(op, l, r)), Max(if LeavesLeft(op, r) then l.caps else 0, if LeavesRight(op, l) then r.caps else 0))
  }

  function Weight2(op: Bop, l: nat, r: nat): nat {
    if ProductOp(op) then Times(l, r)
    else if op == SUB then l + 2 * r
    else l + r
  }

  predicate OkMul2(op: Bop, ty: Ty, l: Attr, r: Attr) {
    && (ThruLeft(op, ty, r) ==> l.okMul) && (ThruRight(op, ty, l) ==> r.okMul)
    && (IntProduct(op, ty) ==> (l.lit.Lit? || !l.fold) && (r.lit.Lit? || !r.fold))
  }

  predicate Sorted2(op: Bop, ty: Ty, l: Attr, r: Attr) {
    && (ThruLeft(op, ty, r) ==> l.sorted) && (ThruRight(op, ty, l) ==> r.sorted)
    && (IntProduct(op, ty) && l.lit.Lit? ==> r.lit.Lit?)
  }

  function Attr2(op: Bop, ty: Ty, l: Attr, r: Attr): Attr {
    Attr(Kind2(op, ty, l, r), Fold2(op, l, r), Zero2(op, l, r), Nest2(op, ty, l, r),
         Caps2(op, l, r), Weight2(op, l.weight, r.weight), NoLit,
         OkMul2(op, ty, l, r), Sorted2(op, ty, l, r))
  }

  function Attr3(ty: Ty, c: Attr, l: Attr, r: Attr): Attr {
    var fold := c.fold && l.fold && r.fold;
    Attr(if l.kind == r.kind == TyKind(ty) then l.kind else AnyK, fold, fold, 0,
         One(fold), c.weight + l.weight + r.weight, NoLit, true, true)
  }

  function A(t: Tree): Attr {
    match t
    case Cint(v, _) => LitAttr(IntK, v)
    case Clong(v, _) => LitAttr(LongK, v)
    case Dclong(v, _) => LitAttr(LongK, v)
    case Sym(_, ty, _, _) => Attr(TyKind(ty), false, false, 0, 0, 3, NoLit, true, true)
    case Un(op, ty, a, _) => Attr1(op, ty, A(a))
    case Bin(op, ty, l, r, _) => Attr2(op, ty, A(l), A(r))
    case Qmark(ty, c, l, r, _) => Attr3(ty, A(c), A(l), A(r))
  }

  lemma {:induction false} AttrBounds(t: Tree)
    ensures A(t).weight >= 3 && A(t).nest <= 2
    ensures A(t).zero ==> A(t).fold
    ensures A(t).fold ==> A(t).caps >= 1
    ensures A(t).lit.Lit? ==> A(t).fold && Leaf(t) && !t.Sym? && t.val == A(t).lit.v
    ensures Leaf(t) && !t.Sym? ==> A(t).lit.Lit?
    ensures A(t).kind == LongK ==> A(t).nest == 0 && A(t).okMul && A(t).sorted
  {
    match t
    case Un(_, _, a, _) =>
      AttrBounds(a);
    case Bin(op, _, l, r, _) =>
      AttrBounds(l);
      AttrBounds(r);
      if ProductOp(op) {
        ProductAtLeast(A(l).weight, A(r).weight);
      }
    case Qmark(_, c, l, r, _) =>
      AttrBounds(c);
      AttrBounds(l);
      AttrBounds(r);
    case _ =>
  }

  lemma ProductAtLeast(x: nat, y: nat)
    requires x >= 3 && y >= 3
    ensures x * y >= 3 * x && x * y >= 3 * y && x * y >= x + y + 3
  {
    assert x * y == 3 * y + (x - 3) * y;
    assert x * y == 3 * x + x * (y - 3);
    assert x * y == 3 * x + 3 * y - 9 + (x - 3) * (y - 3);
  }

  /** u may stand wherever t stood. */
  predicate KindLeq(u: Kind, t: Kind) { t == AnyK || u == t }

  predicate Leq(u: Attr, t: Attr) {
    && KindLeq(u.kind, t.kind)
    && (u.fold ==> t.fold) && (u.zero ==> t.zero)
    && u.nest <= t.nest
    && u.caps <= t.caps
    && u.weight <= t.weight
    && (t.lit.Lit? ==> u.lit == t.lit)
    && (u.lit.Lit? ==> u.fold)
    && (t.okMul && t.nest <= 1 ==> u.okMul && (t.sorted ==> u.sorted))
  }

  lemma Leq1(op: Uop, ty: Ty, a: Attr, a': Attr)
    requires Leq(a', a)
    ensures Leq(Attr1(op, ty, a'), Attr1(op, ty, a))
  {
  }

  lemma WeightStrict(x: nat, y: nat, x': nat, y': nat)
    requires x' <= x && y' <= y && x' >= 1 && y' >= 1 && (x' < x || y' < y)
    ensures x' * y' < x * y
  {
    assert x * y == x' * y' + x' * (y - y') + (x - x') * y;
  }

  lemma ThruMono(op: Bop, ty: Ty, a: Attr, a': Attr)
    requires Leq(a', a)
    ensures ThruLeft(op, ty, a') ==> ThruLeft(op, ty, a)
    ensures ThruRight(op, ty, a') ==> ThruRight(op, ty, a)
  {
  }

  lemma NestMono(op: Bop, ty: Ty, l: Attr, r: Attr, l': Attr, r': Attr)
    requires Leq(l', l) && Leq(r', r)
    ensures Nest2(op, ty, l', r') <= Nest2(op, ty, l, r)
  {
    ThruMono(op, ty, l, l');
    ThruMono(op, ty, r, r');
  }

  lemma KindMono(op: Bop, ty: Ty, l: Attr, r: Attr, l': Attr, r': Attr)
    requires Leq(l', l) && Leq(r', r)
    ensures KindLeq(Kind2(op, ty, l', r'), Kind2(op, ty, l, r))
  {
  }

  lemma FoldMono(op: Bop, l: Attr, r: Attr, l': Attr, r': Attr)
    requires Leq(l', l) && Leq(r', r)
    ensures Fold2(op, l', r') ==> Fold2(op, l, r)
    ensures Zero2(op, l', r') ==> Zero2(op, l, r)
  {
  }

  lemma CapsMono(op: Bop, l: Attr, r: Attr, l': Attr, r': Attr)
    requires Leq(l', l) && Leq(r', r)
    ensures Caps2(op, l', r') <= Caps2(op, l, r)
  {
    FoldMono(op, l, r, l', r');
    ThruMono(op, INT, l, l');
    ThruMono(op, INT, r, r');
  }

  lemma SurfaceMono(op: Bop, ty: Ty, l: Attr, r: Attr, l': Attr, r': Attr)
    requires Leq(l', l) && Leq(r', r) && (l.lit.Lit? ==> l.fold) && (r.lit.Lit? ==> r.fold)
    ensures OkMul2(op, ty, l, r) && Nest2(op, ty, l, r) <= 1 ==>
      OkMul2(op, ty, l', r') && (Sorted2(op, ty, l, r) ==> Sorted2(op, ty, l', r'))
  {
    ThruMono(op, ty, l, l');
    ThruMono(op, ty, r, r');
  }

  lemma Leq2(op: Bop, ty: Ty, l: Attr, r: Attr, l': Attr, r': Attr)
    requires Leq(l', l) && Leq(r', r)
    requires l.lit.Lit? ==> l.fold
    requires r.lit.Lit? ==> r.fold
    ensures Leq(Attr2(op, ty, l', r'), Attr2(op, ty, l, r))
  {
    MulMono(l.weight, r.weight, l'.weight, r'.weight);
    NestMono(op, ty, l, r, l', r');
    KindMono(op, ty, l, r, l', r');
    FoldMono(op, l, r, l', r');
    CapsMono(op, l, r, l', r');
    SurfaceMono(op, ty, l, r, l', r');
  }

  lemma Leq3(ty: Ty, c: Attr, l: Attr, r: Attr, c': Attr, l': Attr, r': Attr)
    requires Leq(c', c) && Leq(l', l) && Leq(r', r)
    ensures Leq(Attr3(ty, c', l', r'), Attr3(ty, c, l, r))
  {
  }

  // ---- well-formed trees ----

  /** low: long products and quotients are already library operators, so a LONG
      MULT is one widened from INT operands.  sorted: commuting has put literals
      right.  settled: no further rewrite applies to a product below INT2L. */
  datatype Mode = Mode(low: bool, sorted: bool, settled: bool)

  const SOURCE := Mode(false, false, false)
  const LOWERED := Mode(true, false, false)
  const DONE := Mode(true, true, true)

  predicate TwoPower(v: int) {
    Log2(v) >= 0 || v == -HALF32
  }

  /** A factor the optimizer does nothing with: not 1, -1 or a power of two. */
  predicate PlainFactor(v: int) { v != -1 && !TwoPower(v) }

  predicate Settled(t: Tree) {
    t.Bin? && t.op == MULT ==>
      && (A(t.left).lit.Lit? ==> PlainFactor(A(t.left).lit.v) && !A(t.right).lit.Lit?)
      && (A(t.right).lit.Lit? ==> PlainFactor(A(t.right).lit.v))
  }

  /** An INT operand of a product that was widened to LONG. */
  predicate WideFactor(a: Attr) {
    a.kind == IntK && a.nest == 0 && (if a.lit.Lit? then PlainFactor(a.lit.v) else !a.fold)
  }

  predicate NodeOk1(op: Uop, ty: Ty, a: Tree, m: Mode) {
    match op
    case NOT => ty == INT
    case INT2L =>
      && ty == LONG && A(a).kind == IntK && A(a).nest <= 1 && A(a).okMul
      && (m.sorted ==> A(a).sorted) && (m.settled ==> Settled(a))
    case LONG2I => ty == INT && A(a).kind == LongK
    case _ => ty != UNSIGNED && A(a).kind == TyKind(ty)
  }

  /** A shift count is an INT, or as wide as what is shifted. */
  predicate CountKind(ty: Ty, k: Kind) { k == IntK || k == TyKind(ty) }

  predicate NodeOk2(op: Bop, ty: Ty, l: Attr, r: Attr, low: bool) {
    match op
    case MULT =>
      if ty == LONG && low then
        WideFactor(l) && WideFactor(r) && !(l.lit.Lit? && r.lit.Lit?)
      else ty != UNSIGNED && l.kind == r.kind == TyKind(ty)
    case DIV =>
      && ty != UNSIGNED && l.kind == r.kind == TyKind(ty) && (ty == LONG ==> !low && !l.zero)
    case MOD =>
      && ty != UNSIGNED && l.kind == r.kind == TyKind(ty) && (ty == LONG ==> !low && !l.zero)
    case LMULT => low && ty == LONG && l.kind == r.kind == LongK
    case LDIV => low && ty == LONG && l.kind == r.kind == LongK
    case LMOD => low && ty == LONG && l.kind == r.kind == LongK
    case LSH => ty != UNSIGNED && l.kind == TyKind(ty) && CountKind(ty, r.kind)
    case RSH => ty != UNSIGNED && l.kind == TyKind(ty) && CountKind(ty, r.kind)
    case COMMA => ty != UNSIGNED
    case _ =>
      if RelOp(op) || op == LAND || op == LOR then ty == INT
      else ty != UNSIGNED && l.kind == r.kind == TyKind(ty)
  }

  /** A well-typed signed INT/LONG tree. */
  predicate WellTyped(t: Tree, m: Mode) {
    match t
    case Cint(v, _) => In16(v)
    case Clong(v, _) => In32(v)
    case Dclong(v, _) => In32(v)
    case Sym(_, ty, _, _) => ty != UNSIGNED
    case Un(op, ty, a, _) => WellTyped(a, m) && NodeOk1(op, ty, a, m)
    case Bin(op, ty, l, r, _) => WellTyped(l, m) && WellTyped(r, m) && NodeOk2(op, ty, A(l), A(r), m.low)
    case Qmark(ty, c, l, r, _) => ty != UNSIGNED && WellTyped(c, m) && WellTyped(l, m) && WellTyped(r, m)
  }

  predicate InKind(k: Kind, v: int) { In32(v) && (k == IntK ==> In16(v)) }

  lemma KindFits(ty: Ty, x: int)
    requires ty != UNSIGNED
    ensures InKind(TyKind(ty), x) <==> Fits(Msb(ty), x)
  {
    Pow2Values();
  }

  lemma BitwiseInKind(op: Bits, ty: Ty, x: int, y: int)
    requires ty != UNSIGNED && InKind(TyKind(ty), x) && InKind(TyKind(ty), y)
    ensures InKind(TyKind(ty), BitOp(op, Msb(ty), x, y))
  {
    KindFits(ty, x);
    KindFits(ty, y);
    BitOpFits(op, Msb(ty), x, y);
    KindFits(ty, BitOp(op, Msb(ty), x, y));
  }

  lemma Meaning2InKind(op: Bop, ty: Ty, l: Attr, r: Attr, low: bool, x: int, y: int)
    requires NodeOk2(op, ty, l, r, low) && InKind(l.kind, x) && InKind(r.kind, y)
    ensures InKind(Kind2(op, ty, l, r), Meaning2(op, ty, x, y))
  {
    match op
    case AND => BitwiseInKind(BAnd, ty, x, y);
    case OR => BitwiseInKind(BOr, ty, x, y);
    case XOR => BitwiseInKind(BXor, ty, x, y);
    case _ =>
  }

  lemma {:induction false} EvalInKind(t: Tree, m: Mode, env: Env)
    requires WellTyped(t, m)
    ensures InKind(A(t).kind, Eval(t, env))
  {
    match t
    case Un(_, _, a, _) =>
      EvalInKind(a, m, env);
    case Bin(op, ty, l, r, _) =>
      EvalInKind(l, m, env);
      EvalInKind(r, m, env);
      Meaning2InKind(op, ty, A(l), A(r), m.low, Eval(l, env), Eval(r, env));
    case Qmark(_, c, l, r, _) =>
      EvalInKind(l, m, env);
      EvalInKind(r, m, env);
    case _ =>
  }

  // ---- when a tree's value is meant to survive ----

  predicate DivOp(op: Bop) { op in {DIV, MOD, LDIV, LMOD} }

  /** && and || evaluate their right operand only sometimes. */
  predicate Skips(op: Bop, x: int) {
    (op == LAND && x == 0) || (op == LOR && x != 0)
  }

  /** Between which bounds a widened value may lie: any word, or, below a negation
      or where one may be put, a word that stays one, there and where - or ~ carry
      it.  mul: the tree is a factor of a product that has, or may come to have, a
      factor that becomes a constant. */
  datatype Lim = Lim(lo: int, hi: int, mul: bool)

  const FREE := Lim(-HALF16, HALF16 - 1, false)

  predicate Tighter(a: Lim, b: Lim) { b.lo <= a.lo && a.hi <= b.hi && (b.mul ==> a.mul) }

  predicate Within(a: Lim, v: int) { a.lo <= v <= a.hi }

  function Meet(a: Lim, b: Lim): Lim {
    Lim(if a.lo < b.lo then b.lo else a.lo, if a.hi > b.hi then b.hi else a.hi, a.mul || b.mul)
  }

  /** What may be negated, or complemented, into a. */
  function NegLim(a: Lim): Lim { Meet(Lim(0 - a.hi, 0 - a.lo, a.mul), Lim(1 - HALF16, HALF16 - 1, a.mul)) }

  function NotLim(a: Lim): Lim { Lim(-a.hi - 1, -a.lo - 1, a.mul) }

  function EitherSign(a: Lim): Lim { Meet(a, NegLim(a)) }

  function EitherBits(a: Lim): Lim { Meet(a, NotLim(a)) }

  /** Beside a factor, or factors, of which so many may become constants; van: all may. */
  function FactorLim(lim: Lim, van: bool, caps: int): Lim {
    var mul := lim.mul || caps > 0;
    (if van then EitherSign(lim) else if mul then EitherSign(FREE) else FREE).(mul := mul)
  }

  function Lim1(op: Uop, lim: Lim): Lim {
    match op
    case UMINUS => NegLim(lim)
    case COMPL => NotLim(lim)
    case NOT => FREE
    case INT2L => lim
    case LONG2I => lim.(mul := false)
  }

  function LimLeft(op: Bop, lim: Lim, r: Attr): Lim {
    if op == MULT then FactorLim(lim, r.fold, r.caps)
    else if !LeavesLeft(op, r) then FREE
    else if op == DIV then EitherSign(lim)
    else if op == XOR then EitherBits(lim)
    else lim
  }

  function LimRight(op: Bop, lim: Lim, l: Attr): Lim {
    if op == MULT then FactorLim(lim, l.fold, l.caps)
    else if !LeavesRight(op, l) then FREE
    else if op == SUB then NegLim(lim)
    else if op == XOR then EitherBits(lim)
    else lim
  }

  predicate Wide1(op: Uop, ty: Ty, wide: bool) { op == INT2L || (wide && Peels(op, ty)) }

  predicate Defined(op: Bop, ty: Ty, x: int, y: int, wide: bool) {
    && (DivOp(op) ==> y != 0)
    && (op == LSH || op == RSH ==> 0 <= y < Width(ty))
    && (wide && op == MULT && ty == INT ==> In16(Times(x, y)))
  }

  /** The evaluation is one the C program may perform: no zero divisor, shift
      counts inside the word, no 16-bit overflow of a product that may come to
      stand below a widening (wide), and widened values within lim. */
  predicate Safe(t: Tree, env: Env, lim: Lim, wide: bool) {
    match t
    case Un(op, ty, a, _) =>
      && Safe(a, env, Lim1(op, lim), Wide1(op, ty, wide))
      && (op == INT2L ==> Within(lim, Eval(a, env)))
    case Bin(op, ty, l, r, _) =>
      && Safe(l, env, LimLeft(op, lim, A(r)), wide && ThruLeft(op, ty, A(r)))
      && (Skips(op, Eval(l, env)) || Safe(r, env, LimRight(op, lim, A(l)), wide && ThruRight(op, ty, A(l))))
      && Defined(op, ty, Eval(l, env), Eval(r, env), wide)
    case Qmark(_, c, l, r, _) =>
      Safe(c, env, FREE, false) &&
      (if Eval(c, env) != 0 then Safe(l, env, FREE, false) else Safe(r, env, FREE, false))
    case _ => true
  }

  lemma LimMono(op: Bop, lim: Lim, lim': Lim, a: Attr)
    requires Tighter(lim, lim')
    ensures Tighter(LimLeft(op, lim, a), LimLeft(op, lim', a))
    ensures Tighter(LimRight(op, lim, a), LimRight(op, lim', a))
  {
  }

  lemma Lim1Mono(op: Uop, lim: Lim, lim': Lim)
    requires Tighter(lim, lim')
    ensures Tighter(Lim1(op, lim), Lim1(op, lim'))
  {
  }

  lemma {:induction false} SafeMono(t: Tree, env: Env, lim: Lim, wide: bool, lim': Lim, wide': bool)
    requires Safe(t, env, lim, wide) && Tighter(lim, lim') && (wide' ==> wide)
    ensures Safe(t, env, lim', wide')
  {
    match t
    case Un(op, ty, a, _) =>
      Lim1Mono(op, lim, lim');
      SafeMono(a, env, Lim1(op, lim), Wide1(op, ty, wide), Lim1(op, lim'), Wide1(op, ty, wide'));
    case Bin(op, ty, l, r, _) =>
      LimMono(op, lim, lim', A(l));
      LimMono(op, lim, lim', A(r));
      SafeMono(l, env, LimLeft(op, lim, A(r)), wide && ThruLeft(op, ty, A(r)),
               LimLeft(op, lim', A(r)), wide' && ThruLeft(op, ty, A(r)));
      if !Skips(op, Eval(l, env)) {
        SafeMono(r, env, LimRight(op, lim, A(l)), wide && ThruRight(op, ty, A(l)),
                 LimRight(op, lim', A(l)), wide' && ThruRight(op, ty, A(l)));
      }
    case Qmark(_, _, _, _, _) =>
    case _ =>
  }

  /** A widening does not look through a LONG node. */
  lemma LongWide(t: Tree, env: Env, lim: Lim, wide: bool, wide': bool)
    requires TypeOf(t) == LONG
    ensures Safe(t, env, lim, wide) == Safe(t, env, lim, wide')
  {
  }

  /** The assumptions under which a rewrite must keep the value. */
  predicate Pre(t: Tree, env: Env, lim: Lim, wide: bool) {
    Safe(t, env, lim, wide) && Tighter(lim, FREE) && (wide ==> A(t).nest <= 1)
  }

  /** u computes what t computes, and is as safe, in every environment. */
  ghost predicate Same(t: Tree, u: Tree) {
    forall env, lim, wide :: Pre(t, env, lim, wide) ==>
      Eval(u, env) == Eval(t, env) && Safe(u, env, lim, wide)
  }

  /** u is a sound replacement of t. */
  ghost predicate Refines(t: Tree, u: Tree) {
    Leq(A(u), A(t)) && Same(t, u)
  }

  lemma LimFree(op: Bop, lim: Lim, a: Attr)
    requires Tighter(lim, FREE)
    ensures Tighter(LimLeft(op, lim, a), FREE) && Tighter(LimRight(op, lim, a), FREE)
  {
  }

  lemma PreOperands(op: Bop, ty: Ty, l: Tree, r: Tree, su: int, env: Env, lim: Lim, wide: bool)
    requires Pre(Bin(op, ty, l, r, su), env, lim, wide)
    ensures Pre(l, env, LimLeft(op, lim, A(r)), wide && ThruLeft(op, ty, A(r)))
    ensures Skips(op, Eval(l, env)) || Pre(r, env, LimRight(op, lim, A(l)), wide && ThruRight(op, ty, A(l)))
  {
    LimFree(op, lim, A(l));
    LimFree(op, lim, A(r));
  }

  lemma SameAt(t: Tree, u: Tree, env: Env, lim: Lim, wide: bool, lim': Lim, wide': bool)
    requires Same(t, u) && Pre(t, env, lim, wide) && Tighter(lim, lim') && (wide' ==> wide)
    ensures Eval(u, env) == Eval(t, env) && Safe(u, env, lim', wide')
  {
    SafeMono(u, env, lim, wide, lim', wide');
  }

  lemma SkippedValue(op: Bop, ty: Ty, x: int, y: int, y': int)
    requires Skips(op, x)
    ensures Meaning2(op, ty, x, y) == Meaning2(op, ty, x, y')
  {
  }

  lemma LimsGrow(op: Bop, lim: Lim, a: Attr, a': Attr)
    requires Leq(a', a) && Tighter(lim, FREE)
    ensures Tighter(LimLeft(op, lim, a), LimLeft(op, lim, a'))
    ensures Tighter(LimRight(op, lim, a), LimRight(op, lim, a'))
  {
  }

  /** Sound replacements of the operands make a sound replacement of the node. */
  lemma BinSame(op: Bop, ty: Ty, l: Tree, r: Tree, l': Tree, r': Tree, su: int, env: Env, lim: Lim, wide: bool)
    requires Pre(Bin(op, ty, l, r, su), env, lim, wide) && Same(l, l') && Same(r, r')
    requires Leq(A(l'), A(l)) && Leq(A(r'), A(r))
    ensures Eval(Bin(op, ty, l', r', su), env) == Eval(Bin(op, ty, l, r, su), env)
    ensures Safe(Bin(op, ty, l', r', su), env, lim, wide)
  {
    hide LimLeft, LimRight;
    PreOperands(op, ty, l, r, su, env, lim, wide);
    LimsGrow(op, lim, A(r), A(r'));
    LimsGrow(op, lim, A(l), A(l'));
    SameAt(l, l', env, LimLeft(op, lim, A(r)), wide && ThruLeft(op, ty, A(r)),
           LimLeft(op, lim, A(r')), wide && ThruLeft(op, ty, A(r')));
    if Skips(op, Eval(l, env)) {
      SkippedValue(op, ty, Eval(l, env), Eval(r, env), Eval(r', env));
    } else {
      SameAt(r, r', env, LimRight(op, lim, A(l)), wide && ThruRight(op, ty, A(l)),
             LimRight(op, lim, A(l')), wide && ThruRight(op, ty, A(l')));
    }
  }

  lemma UnSame(op: Uop, ty: Ty, a: Tree, a': Tree, su: int, env: Env, lim: Lim, wide: bool)
    requires Pre(Un(op, ty, a, su), env, lim, wide) && Same(a, a')
    requires op == INT2L ==> A(a).nest <= 1
    ensures Eval(Un(op, ty, a', su), env) == Eval(Un(op, ty, a, su), env)
    ensures Safe(Un(op, ty, a', su), env, lim, wide)
  {
    assert Pre(a, env, Lim1(op, lim), Wide1(op, ty, wide));
  }

  lemma QmarkSame(ty: Ty, c: Tree, l: Tree, r: Tree, c': Tree, l': Tree, r': Tree, su: int,
                  env: Env, lim: Lim, wide: bool)
    requires Pre(Qmark(ty, c, l, r, su), env, lim, wide) && Same(c, c') && Same(l, l') && Same(r, r')
    ensures Eval(Qmark(ty, c', l', r', su), env) == Eval(Qmark(ty, c, l, r, su), env)
    ensures Safe(Qmark(ty, c', l', r', su), env, lim, wide)
  {
    assert Pre(c, env, FREE, false);
    assert Pre(if Eval(c, env) != 0 then l else r, env, FREE, false);
  }

  lemma SameRefl(t: Tree)
    ensures Same(t, t)
  {
  }
}
