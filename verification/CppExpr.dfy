/** The preprocessor's constant expressions: operators wait on a stack until one
    of lower priority arrives. */
module CppExpr {
  import opened Word

  datatype Opr =
    | CEOF | SUB | ADD | NOT | NEG | LPAREN | RPAREN | QMARK | COLON | OR | AND | XOR
    | EQUAL | NEQUAL | LESS | LSEQUAL | GREAT | GREQUAL | LSHIFT | RSHIFT | MULT | DIV | MOD | COMPL

  function Pri(op: Opr): nat {
    match op
    case CEOF => 0
    case SUB => 16
    case ADD => 16
    case NOT => 20
    case NEG => 20
    case COMPL => 20
    case LPAREN => 22
    case RPAREN => 2
    case QMARK => 6
    case COLON => 6
    case OR => 8
    case XOR => 8
    case AND => 10
    case EQUAL => 12
    case NEQUAL => 12
    case LESS => 14
    case LSEQUAL => 14
    case GREAT => 14
    case GREQUAL => 14
    case LSHIFT => 4
    case RSHIFT => 4
    case MULT => 18
    case DIV => 18
    case MOD => 18
  }

  predicate Binary(op: Opr) {
    op !in {CEOF, NOT, NEG, COMPL, LPAREN, RPAREN}
  }

  predicate Arith(op: Opr) { Binary(op) && op != QMARK && op != COLON }

  predicate Prefix(op: Opr) { op in {NOT, NEG, COMPL} }

  function Truth(b: bool): int { if b then 1 else 0 }

  /** The host's long arithmetic on two operands. */
  function Apply(op: Opr, a: int, b: int): int {
    match op
    case SUB => Wrap32(a - b)
    case ADD => Wrap32(a + b)
    case MULT => Wrap32(Times(a, b))
    case DIV => Wrap32(Quotient(a, b))
    case MOD => Wrap32(Remainder(a, b))
    case LSHIFT => Wrap32(ShiftLeft(a, b))
    case RSHIFT => Wrap32(ShiftRight(a, b))
    case OR => BitOp(BOr, 31, a, b)
    case AND => BitOp(BAnd, 31, a, b)
    case XOR => BitOp(BXor, 31, a, b)
    case EQUAL => Truth(a == b)
    case NEQUAL => Truth(a != b)
    case LESS => Truth(a < b)
    case LSEQUAL => Truth(a <= b)
    case GREAT => Truth(a > b)
    case GREQUAL => Truth(a >= b)
    case _ => a
  }

  function Apply1(op: Opr, a: int): int {
    match op
    case NEG => Wrap32(-a)
    case NOT => Truth(a == 0)
    case COMPL => Wrap32(-a - 1)
    case _ => a
  }

  // ---- the stacks ----

  datatype Stacks = Stacks(oprs: seq<Opr>, opns: seq<int>)

  datatype Option<T> = None | Some(value: T)

  function PushOpr(s: Stacks, op: Opr): Stacks { Stacks(s.oprs + [op], s.opns) }

  function PushOpn(s: Stacks, v: int): Stacks { Stacks(s.oprs, s.opns + [v]) }

  /** The top operator applied to the top operands. */
  function Reduce(s: Stacks): (r: Option<Stacks>)
    requires |s.oprs| > 0
    ensures r.Some? ==> |r.value.oprs| < |s.oprs|
  {
    var k, n := |s.oprs| - 1, |s.opns|;
    var op := s.oprs[k];
    if op == QMARK then None
    else if op == COLON then
      if k == 0 || s.oprs[k - 1] != QMARK || n < 3 then None
      else
        Some(Stacks(s.oprs[..k - 1], s.opns[..n - 3] + [if s.opns[n - 3] != 0 then s.opns[n - 2] else s.opns[n - 1]]))
    else if Binary(op) then
      if n < 2 then None else Some(Stacks(s.oprs[..k], s.opns[..n - 2] + [Apply(op, s.opns[n - 2], s.opns[n - 1])]))
    else if n < 1 then None
    else Some(Stacks(s.oprs[..k], s.opns[..n - 1] + [Apply1(op, s.opns[n - 1])]))
  }

  /** Applies the operators of higher priority, then stacks this one. */
  function Stkop(s: Stacks, op: Opr): Option<Stacks>
    decreases |s.oprs|
  {
    var k := |s.oprs| - 1;
    if k < 0 || Pri(op) >= Pri(s.oprs[k]) then Some(PushOpr(s, op))
    else if s.oprs[k] == LPAREN then
      Some(if op == RPAREN then Stacks(s.oprs[..k], s.opns) else PushOpr(s, op))
    else
      match Reduce(s)
      case None => None
      case Some(s1) => Stkop(s1, op)
  }

  datatype Token = Num(v: int) | Op(op: Opr)

  datatype State = Running(s: Stacks, lop: bool) | Syntax

  function Stacked(s: Stacks, op: Opr, lop: bool): State {
    match Stkop(s, op)
    case None => Syntax
    case Some(s1) => Running(s1, lop)
  }

  /** One token.  lop: the last token was an operator. */
  function Feed(st: State, t: Token): State {
    if st.Syntax? then Syntax
    else
      match t
      case Num(v) => if st.lop then Running(PushOpn(st.s, v), false) else Syntax
      case Op(op) =>
        if op == SUB && st.lop then Stacked(st.s, NEG, true)
        else if op == ADD && st.lop then st
        else if op in {COMPL, LPAREN, NOT} then (if st.lop then Stacked(st.s, op, true) else Syntax)
        else if st.lop then Syntax
        else Stacked(st.s, op, op != RPAREN)
  }

  function FeedAll(st: State, ts: seq<Token>): State {
    if |ts| == 0 then st else Feed(FeedAll(st, ts[..|ts| - 1]), ts[|ts| - 1])
  }

  /** The value of the whole text; none for a syntax error. */
  function Finish(st: State): Option<int> {
    if st.Syntax? || st.lop then None
    else
      match Stkop(st.s, CEOF)
      case None => None
      case Some(s) => if |s.opns| == 1 then Some(s.opns[0]) else None
  }

  const START := Running(Stacks([], []), true)

  function Evaluate(ts: seq<Token>): Option<int> { Finish(FeedAll(START, ts)) }

  // ---- expressions and their text ----

  datatype Expr =
    | Const(val: int)
    | Unary(uop: Opr, e: Expr)
    | Bin(op: Opr, l: Expr, r: Expr)
    | Cond(c: Expr, t: Expr, f: Expr)

  predicate Ok(e: Expr) {
    match e
    case Const(_) => true
    case Unary(op, e1) => Prefix(op) && Ok(e1)
    case Bin(op, l, r) => Arith(op) && Ok(l) && Ok(r)
    case Cond(c, t, f) => Ok(c) && Ok(t) && Ok(f)
  }

  function Value(e: Expr): int {
    match e
    case Const(v) => v
    case Unary(op, e1) => Apply1(op, Value(e1))
    case Bin(op, l, r) => Apply(op, Value(l), Value(r))
    case Cond(c, t, f) => if Value(c) != 0 then Value(t) else Value(f)
  }

  function Level(e: Expr): nat {
    match e
    case Const(_) => 24
    case Unary(_, _) => 20
    case Bin(op, _, _) => Pri(op)
    case Cond(_, _, _) => 6
  }

  /** The lowest level, above that of a closing parenthesis. */
  const LOWEST := 3

  /** Parentheses where the level asks for them. */
  function Print(e: Expr, m: nat): seq<Token>
    decreases e, 1
  {
    if Level(e) < m then [Op(LPAREN)] + Body(e) + [Op(RPAREN)] else Body(e)
  }

  /** Operators of equal priority group to the right; only the last arm of ?: may
      be another ?:. */
  function Body(e: Expr): seq<Token>
    decreases e, 0
  {
    match e
    case Const(v) => [Num(v)]
    case Unary(op, e1) => [Op(if op == NEG then SUB else op)] + Print(e1, 20)
    case Bin(op, l, r) => Print(l, Pri(op) + 1) + [Op(op)] + Print(r, Pri(op))
    case Cond(c, t, f) => Print(c, 7) + [Op(QMARK)] + Print(t, 7) + [Op(COLON)] + Print(f, 6)
  }

  // ---- evaluating what was printed ----

  lemma {:induction false} FeedAppend(st: State, a: seq<Token>, b: seq<Token>)
    ensures FeedAll(st, a + b) == FeedAll(FeedAll(st, a), b)
  {
    if |b| == 0 {
      assert a + b == a;
    } else {
      FeedAppend(st, a, b[..|b| - 1]);
      assert (a + b)[..|a + b| - 1] == a + b[..|b| - 1];
    }
  }

  lemma FeedOne(st: State, t: Token)
    ensures FeedAll(st, [t]) == Feed(st, t)
  {
    assert [t][..0] == [] && FeedAll(st, []) == st;
  }

  /** No operator of level m or more, arriving next, applies what is waiting. */
  predicate Waits(s: Stacks, m: nat) {
    var k := |s.oprs| - 1;
    k < 0 || s.oprs[k] == LPAREN || Pri(s.oprs[k]) <= m
  }

  lemma WaitsPush(s: Stacks, m: nat, op: Opr)
    requires Waits(s, m) && Pri(op) >= m && op != RPAREN
    ensures Stkop(s, op) == Some(PushOpr(s, op)) && Waits(PushOpr(s, op), Pri(op))
  {
  }

  /** To an operator below level m, r is as good as s with the value v on it. */
  predicate Holding(s: Stacks, v: int, m: nat, r: State) {
    r.Running? && !r.lop && forall op {:trigger Stkop(r.s, op)} :: Pri(op) < m ==>
      Stkop(r.s, op) == Stkop(PushOpn(s, v), op)
  }

  lemma HoldingUse(s: Stacks, v: int, m: nat, r: State, op: Opr)
    requires Holding(s, v, m, r) && Pri(op) < m
    ensures Stkop(r.s, op) == Stkop(PushOpn(s, v), op)
  {
    assert Stkop(r.s, op) == Stkop(r.s, op);
  }

  /** A printed expression acts as its value. */
  lemma {:induction false} Printed(e: Expr, m: nat, s: Stacks)
    requires Ok(e) && Waits(s, m) && m >= LOWEST
    ensures Holding(s, Value(e), m, FeedAll(Running(s, true), Print(e, m)))
    decreases e, 1
  {
    if Level(e) < m {
      var s1 := PushOpr(s, LPAREN);
      var st := Running(s, true);
      BodyPrinted(e, LOWEST, s1);
      Parenthesized(e, s);
    } else {
      BodyPrinted(e, m, s);
    }
  }

  lemma FeedOpen(s: Stacks)
    ensures Feed(Running(s, true), Op(LPAREN)) == Running(PushOpr(s, LPAREN), true)
  {
  }

  lemma FeedClose(s: Stacks, v: int, r: State)
    requires Holding(PushOpr(s, LPAREN), v, LOWEST, r)
    ensures Feed(r, Op(RPAREN)) == Running(PushOpn(s, v), false)
  {
    HoldingUse(PushOpr(s, LPAREN), v, LOWEST, r, RPAREN);
    assert PushOpn(PushOpr(s, LPAREN), v).oprs[..|s.oprs|] == s.oprs;
  }

  lemma Parenthesized(e: Expr, s: Stacks)
    requires Holding(PushOpr(s, LPAREN), Value(e), LOWEST, FeedAll(Running(PushOpr(s, LPAREN), true), Body(e)))
    ensures FeedAll(Running(s, true), [Op(LPAREN)] + Body(e) + [Op(RPAREN)]) == Running(PushOpn(s, Value(e)), false)
  {
    var st, b := Running(s, true), Body(e);
    var r := FeedAll(Running(PushOpr(s, LPAREN), true), b);
    FeedOne(st, Op(LPAREN));
    FeedOpen(s);
    FeedAppend(st, [Op(LPAREN)], b);
    FeedAppend(st, [Op(LPAREN)] + b, [Op(RPAREN)]);
    FeedOne(r, Op(RPAREN));
    FeedClose(s, Value(e), r);
  }

  lemma {:induction false} BodyPrinted(e: Expr, m: nat, s: Stacks)
    requires Ok(e) && Waits(s, m) && m >= LOWEST && Level(e) >= m
    ensures Holding(s, Value(e), m, FeedAll(Running(s, true), Body(e)))
    decreases e, 0
  {
    match e
    case Const(v) =>
      FeedOne(Running(s, true), Num(v));
    case Unary(op, e1) =>
      UnaryPrinted(op, e1, m, s);
    case Bin(op, l, r) =>
      var s1 := Stacks(s.oprs + [op], s.opns + [Value(l)]);
      Printed(l, Pri(op) + 1, s);
      Printed(r, Pri(op), s1);
      BinPrinted(op, l, r, m, s);
    case Cond(c, t, f) =>
      var s1 := Stacks(s.oprs + [QMARK], s.opns + [Value(c)]);
      var s2 := Stacks(s1.oprs + [COLON], s1.opns + [Value(t)]);
      Printed(c, 7, s);
      Printed(t, 7, s1);
      Printed(f, 6, s2);
      CondPrinted(c, t, f, m, s);
  }

  lemma {:induction false} UnaryPrinted(op: Opr, e1: Expr, m: nat, s: Stacks)
    requires Prefix(op) && Ok(e1) && Waits(s, m) && LOWEST <= m <= 20
    ensures Holding(s, Apply1(op, Value(e1)), m, FeedAll(Running(s, true), Body(Unary(op, e1))))
    decreases e1, 2
  {
    var st, s1 := Running(s, true), PushOpr(s, op);
    var t := Op(if op == NEG then SUB else op);
    WaitsPush(s, m, op);
    FeedOne(st, t);
    FeedAppend(st, [t], Print(e1, 20));
    Printed(e1, 20, s1);
    var r := FeedAll(Running(s1, true), Print(e1, 20));
    forall o | Pri(o) < m ensures Stkop(r.s, o) == Stkop(PushOpn(s, Apply1(op, Value(e1))), o) {
      HoldingUse(s1, Value(e1), 20, r, o);
      ReduceUnary(s, op, Value(e1));
    }
  }

  lemma ReduceUnary(s: Stacks, op: Opr, v: int)
    requires Prefix(op)
    ensures Reduce(PushOpn(PushOpr(s, op), v)) == Some(PushOpn(s, Apply1(op, v)))
  {
    var u := PushOpn(PushOpr(s, op), v);
    assert u.oprs[..|u.oprs| - 1] == s.oprs && u.opns[..|u.opns| - 1] == s.opns;
  }

  lemma ReduceBin(s: Stacks, op: Opr, a: int, b: int)
    requires Arith(op)
    ensures Reduce(Stacks(s.oprs + [op], s.opns + [a] + [b])) == Some(PushOpn(s, Apply(op, a, b)))
  {
    var u := Stacks(s.oprs + [op], s.opns + [a] + [b]);
    assert u.oprs[..|u.oprs| - 1] == s.oprs && u.opns[..|u.opns| - 2] == s.opns;
  }

  lemma ReduceCond(s: Stacks, a: int, b: int, c: int)
    ensures Reduce(Stacks(s.oprs + [QMARK] + [COLON], s.opns + [a] + [b] + [c])) ==
      Some(PushOpn(s, if a != 0 then b else c))
  {
    var u := Stacks(s.oprs + [QMARK] + [COLON], s.opns + [a] + [b] + [c]);
    assert u.oprs[..|u.oprs| - 2] == s.oprs && u.opns[..|u.opns| - 3] == s.opns;
  }

  lemma FeedInfix(s: Stacks, op: Opr)
    requires Binary(op)
    ensures Feed(Running(s, false), Op(op)) == Stacked(s, op, true)
  {
  }

  /** An operand and the infix operator behind it. */
  lemma OperandPrinted(e: Expr, op: Opr, p: nat, s: Stacks, m: nat)
    requires Binary(op) && m <= Pri(op) < p && Waits(s, m)
    requires Holding(s, Value(e), p, FeedAll(Running(s, true), Print(e, p)))
    ensures FeedAll(Running(s, true), Print(e, p) + [Op(op)]) ==
      Running(Stacks(s.oprs + [op], s.opns + [Value(e)]), true)
  {
    var x := FeedAll(Running(s, true), Print(e, p));
    FeedAppend(Running(s, true), Print(e, p), [Op(op)]);
    FeedOne(x, Op(op));
    FeedInfix(x.s, op);
    HoldingUse(s, Value(e), p, x, op);
    WaitsPush(PushOpn(s, Value(e)), m, op);
  }

  lemma BinPrinted(op: Opr, l: Expr, r: Expr, m: nat, s: Stacks)
    requires Arith(op) && Waits(s, m) && LOWEST <= m <= Pri(op)
    requires Holding(s, Value(l), Pri(op) + 1, FeedAll(Running(s, true), Print(l, Pri(op) + 1)))
    requires var s1 := Stacks(s.oprs + [op], s.opns + [Value(l)]);
      Holding(s1, Value(r), Pri(op), FeedAll(Running(s1, true), Print(r, Pri(op))))
    ensures Holding(s, Apply(op, Value(l), Value(r)), m, FeedAll(Running(s, true), Body(Bin(op, l, r))))
  {
    var st, p := Running(s, true), Pri(op);
    var s1 := Stacks(s.oprs + [op], s.opns + [Value(l)]);
    var y := FeedAll(Running(s1, true), Print(r, p));
    OperandPrinted(l, op, p + 1, s, m);
    FeedAppend(st, Print(l, p + 1) + [Op(op)], Print(r, p));
    forall o | Pri(o) < m ensures Stkop(y.s, o) == Stkop(PushOpn(s, Apply(op, Value(l), Value(r))), o) {
      HoldingUse(s1, Value(r), p, y, o);
      ReduceBin(s, op, Value(l), Value(r));
    }
  }

  lemma ThreeParts(st: State, x: seq<Token>, p: Opr, y: seq<Token>, q: Opr, z: seq<Token>)
    ensures FeedAll(st, x + [Op(p)] + y + [Op(q)] + z) ==
      FeedAll(FeedAll(FeedAll(st, x + [Op(p)]), y + [Op(q)]), z)
  {
    var a, b := x + [Op(p)], y + [Op(q)];
    FeedAppend(st, a, b);
    FeedAppend(st, a + b, z);
    assert a + b == x + [Op(p)] + y + [Op(q)];
  }

  lemma CondText(x: seq<Token>, y: seq<Token>, z: seq<Token>, s: Stacks, s1: Stacks, s2: Stacks)
    requires FeedAll(Running(s, true), x + [Op(QMARK)]) == Running(s1, true)
    requires FeedAll(Running(s1, true), y + [Op(COLON)]) == Running(s2, true)
    ensures FeedAll(Running(s, true), x + [Op(QMARK)] + y + [Op(COLON)] + z) == FeedAll(Running(s2, true), z)
  {
    ThreeParts(Running(s, true), x, QMARK, y, COLON, z);
  }

  lemma CondHolds(a: int, b: int, c: int, m: nat, s: Stacks, s2: Stacks, z: State)
    requires m <= 6 && s2 == Stacks(s.oprs + [QMARK] + [COLON], s.opns + [a] + [b]) && Holding(s2, c, 6, z)
    ensures Holding(s, if a != 0 then b else c, m, z)
  {
    var v := if a != 0 then b else c;
    forall o | Pri(o) < m ensures Stkop(z.s, o) == Stkop(PushOpn(s, v), o) {
      HoldingUse(s2, c, 6, z, o);
      ReduceCond(s, a, b, c);
      StkopReduces(PushOpn(s2, c), PushOpn(s, v), o);
    }
  }

  lemma StkopReduces(s: Stacks, r: Stacks, o: Opr)
    requires |s.oprs| > 0 && s.oprs[|s.oprs| - 1] != LPAREN && Pri(o) < Pri(s.oprs[|s.oprs| - 1]) &&
      Reduce(s) == Some(r)
    ensures Stkop(s, o) == Stkop(r, o)
  {
  }

  lemma CondJoined(x: seq<Token>, y: seq<Token>, z: seq<Token>, a: int, b: int, c: int, m: nat, s: Stacks, s1: Stacks,
                   s2: Stacks)
    requires m <= 6 && s2 == Stacks(s.oprs + [QMARK] + [COLON], s.opns + [a] + [b])
    requires FeedAll(Running(s, true), x + [Op(QMARK)]) == Running(s1, true)
    requires FeedAll(Running(s1, true), y + [Op(COLON)]) == Running(s2, true)
    requires Holding(s2, c, 6, FeedAll(Running(s2, true), z))
    ensures Holding(s, if a != 0 then b else c, m, FeedAll(Running(s, true), x + [Op(QMARK)] + y + [Op(COLON)] + z))
  {
    CondText(x, y, z, s, s1, s2);
    CondHolds(a, b, c, m, s, s2, FeedAll(Running(s2, true), z));
  }

  lemma CondPrinted(c: Expr, t: Expr, f: Expr, m: nat, s: Stacks)
    requires Waits(s, m) && LOWEST <= m <= 6
    requires Holding(s, Value(c), 7, FeedAll(Running(s, true), Print(c, 7)))
    requires var s1 := Stacks(s.oprs + [QMARK], s.opns + [Value(c)]);
      && Holding(s1, Value(t), 7, FeedAll(Running(s1, true), Print(t, 7)))
      && var s2 := Stacks(s1.oprs + [COLON], s1.opns + [Value(t)]);
         Holding(s2, Value(f), 6, FeedAll(Running(s2, true), Print(f, 6)))
    ensures Holding(s, if Value(c) != 0 then Value(t) else Value(f), m,
                    FeedAll(Running(s, true), Print(c, 7) + [Op(QMARK)] + Print(t, 7) + [Op(COLON)] + Print(f, 6)))
  {
    var s1 := Stacks(s.oprs + [QMARK], s.opns + [Value(c)]);
    var s2 := Stacks(s1.oprs + [COLON], s1.opns + [Value(t)]);
    OperandPrinted(c, QMARK, 7, s, m);
    OperandPrinted(t, COLON, 7, s1, 6);
    CondJoined(Print(c, 7), Print(t, 7), Print(f, 6), Value(c), Value(t), Value(f), m, s, s1, s2);
  }

  /** Printing an expression and evaluating the text gives its value. */
  lemma EvaluatePrinted(e: Expr)
    requires Ok(e)
    ensures Evaluate(Print(e, LOWEST)) == Some(Value(e))
    ensures Stkop(FeedAll(START, Print(e, LOWEST)).s, CEOF) == Some(Stacks([CEOF], [Value(e)]))
  {
    var s := Stacks([], []);
    Printed(e, LOWEST, s);
    HoldingUse(s, Value(e), LOWEST, FeedAll(START, Print(e, LOWEST)), CEOF);
    assert [] + [CEOF] == [CEOF] && [] + [Value(e)] == [Value(e)];
  }

  // ---- what the operators compute, and how texts group ----

  /** v is the operator's value on two words, in C's terms. */
  ghost predicate Computes(op: Opr, a: int, b: int, v: int) {
    match op
    case ADD => SameModulo(v, a + b, 0x1_0000_0000)
    case SUB => SameModulo(v, a - b, 0x1_0000_0000)
    case MULT => SameModulo(v, a * b, 0x1_0000_0000)
    case DIV => IsQuotient(v, a, b, 0x1_0000_0000)
    case MOD => IsRemainder(v, a, b)
    case LSHIFT => IsLeftShift(v, a, b, 0x1_0000_0000)
    case RSHIFT => IsRightShift(v, a, b)
    case AND => BitwiseAnd(v, a, b)
    case OR => BitwiseOr(v, a, b)
    case XOR => BitwiseXor(v, a, b)
    case EQUAL => v == if a == b then 1 else 0
    case NEQUAL => v == if a != b then 1 else 0
    case LESS => v == if a < b then 1 else 0
    case LSEQUAL => v == if a <= b then 1 else 0
    case GREAT => v == if a > b then 1 else 0
    case GREQUAL => v == if a >= b then 1 else 0
    case _ => false
  }

  lemma ApplyComputes(op: Opr, a: int, b: int)
    requires Arith(op) && In32(a) && In32(b)
    ensures In32(Apply(op, a, b)) && Computes(op, a, b, Apply(op, a, b))
  {
    hide SameModulo, IsQuotient, IsRemainder, IsLeftShift, IsRightShift, BitwiseAnd, BitwiseOr, BitwiseXor, BitOp;
    hide ShiftLeft, ShiftRight;
    match op
    case ADD => Wraps(a + b);
    case SUB => Wraps(a - b);
    case MULT => Wraps(a * b);
    case DIV => Quotients32(a, b);
    case MOD => Quotients32(a, b);
    case LSHIFT => Shifts32(a, b);
    case RSHIFT => Shifts32(a, b);
    case AND => Bits32(BAnd, a, b);
    case OR => Bits32(BOr, a, b);
    case XOR => Bits32(BXor, a, b);
    case _ =>
  }

  lemma PrefixComputes(op: Opr, a: int)
    requires Prefix(op) && In32(a)
    ensures var v := Apply1(op, a);
      && In32(v) && (op == NEG ==> SameModulo(v, -a, 0x1_0000_0000))
      && (op == NOT ==> v == if a == 0 then 1 else 0) && (op == COMPL ==> v == -1 - a)
  {
    Wraps(-a);
  }

  /** The classes of arithmetic operators, loosest first. */
  function Class(op: Opr): nat {
    if op in {LSHIFT, RSHIFT} then 1
    else if op in {OR, XOR} then 2
    else if op == AND then 3
    else if op in {EQUAL, NEQUAL} then 4
    else if op in {LESS, LSEQUAL, GREAT, GREQUAL} then 5
    else if op in {ADD, SUB} then 6
    else 7
  }

  lemma ClassPri(p: Opr, q: Opr)
    requires Arith(p) && Arith(q)
    ensures Class(p) > Class(q) <==> Pri(p) > Pri(q)
    ensures Class(p) == 1 <==> Pri(p) < 6
    ensures LOWEST < Pri(p) < 20 && (Pri(p) == 6 ==> false)
  {
  }

  /** The text of two printed operands and the operator between them. */
  lemma TextBin(op: Opr, l: Expr, r: Expr, x: seq<Token>, y: seq<Token>, ts: seq<Token>)
    requires Arith(op) && Ok(l) && Ok(r) && Print(l, Pri(op) + 1) == x && Print(r, Pri(op)) == y
    requires x + [Op(op)] + y == ts
    ensures Evaluate(ts) == Some(Apply(op, Value(l), Value(r)))
  {
    ClassPri(op, op);
    EvaluatePrinted(Bin(op, l, r));
  }

  lemma TextCond(c: Expr, t: Expr, f: Expr, x: seq<Token>, y: seq<Token>, z: seq<Token>, ts: seq<Token>)
    requires Ok(c) && Ok(t) && Ok(f) && Print(c, 7) == x && Print(t, 7) == y && Print(f, 6) == z
    requires x + [Op(QMARK)] + y + [Op(COLON)] + z == ts
    ensures Evaluate(ts) == Some(Chosen(Value(c), Value(t), Value(f)))
  {
    EvaluatePrinted(Cond(c, t, f));
  }

  lemma BinBody(a: int, p: Opr, b: int)
    requires Arith(p)
    ensures Body(Bin(p, Const(a), Const(b))) == [Num(a), Op(p), Num(b)]
  {
    assert Print(Const(a), Pri(p) + 1) == [Num(a)] && Print(Const(b), Pri(p)) == [Num(b)];
  }

  /** a p b q c groups to the left exactly when p is of a tighter class than q. */
  lemma TwoOperators(a: int, p: Opr, b: int, q: Opr, c: int)
    requires Arith(p) && Arith(q)
    ensures Evaluate([Num(a), Op(p), Num(b), Op(q), Num(c)]) ==
      Some(if Class(p) > Class(q) then Apply(q, Apply(p, a, b), c) else Apply(p, a, Apply(q, b, c)))
  {
    ClassPri(p, q);
    BinBody(a, p, b);
    BinBody(b, q, c);
    var ts := [Num(a), Op(p), Num(b), Op(q), Num(c)];
    if Class(p) > Class(q) {
      assert [Num(a), Op(p), Num(b)] + [Op(q)] + [Num(c)] == ts;
      TextBin(q, Bin(p, Const(a), Const(b)), Const(c), [Num(a), Op(p), Num(b)], [Num(c)], ts);
    } else {
      assert [Num(a)] + [Op(p)] + [Num(b), Op(q), Num(c)] == ts;
      TextBin(p, Const(a), Bin(q, Const(b), Const(c)), [Num(a)], [Num(b), Op(q), Num(c)], ts);
    }
  }

  /** The sign as it is written. */
  function Written(op: Opr): Opr { if op == NEG then SUB else op }

  /** A prefix operator binds tighter than any arithmetic one. */
  lemma PrefixBinds(u: Opr, a: int, q: Opr, b: int)
    requires Prefix(u) && Arith(q)
    ensures Evaluate([Op(Written(u)), Num(a), Op(q), Num(b)]) == Some(Apply(q, Apply1(u, a), b))
    ensures Evaluate([Num(a), Op(q), Op(Written(u)), Num(b)]) == Some(Apply(q, a, Apply1(u, b)))
  {
    ClassPri(q, q);
    var w := Op(Written(u));
    assert Print(Const(a), 20) == [Num(a)] && Print(Const(b), 20) == [Num(b)];
    assert [w] + [Num(a)] == [w, Num(a)] && [w] + [Num(b)] == [w, Num(b)];
    assert [w, Num(a)] + [Op(q)] + [Num(b)] == [w, Num(a), Op(q), Num(b)];
    assert [Num(a)] + [Op(q)] + [w, Num(b)] == [Num(a), Op(q), w, Num(b)];
    TextBin(q, Unary(u, Const(a)), Const(b), [w, Num(a)], [Num(b)], [w, Num(a), Op(q), Num(b)]);
    TextBin(q, Const(a), Unary(u, Const(b)), [Num(a)], [w, Num(b)], [Num(a), Op(q), w, Num(b)]);
  }

  /** A prefix + is nothing. */
  lemma PrefixPlus(a: int, q: Opr, b: int)
    requires Arith(q)
    ensures Evaluate([Num(a), Op(q), Op(ADD), Num(b)]) == Some(Apply(q, a, b))
  {
    var ts := [Num(a), Op(q), Op(ADD)];
    var st := Running(Stacks([q], [a]), true);
    InfixAfter(a, q);
    FeedAppend(START, [Num(a), Op(q)], [Op(ADD)]);
    FeedOne(st, Op(ADD));
    assert [Num(a), Op(q)] + [Op(ADD)] == ts;
    FeedAppend(START, ts, [Num(b)]);
    FeedOne(st, Num(b));
    assert ts + [Num(b)] == [Num(a), Op(q), Op(ADD), Num(b)] && [a] + [b] == [a, b];
    FinishBin(a, q, b);
  }

  lemma InfixAfter(a: int, q: Opr)
    requires Binary(q)
    ensures FeedAll(START, [Num(a), Op(q)]) == Running(Stacks([q], [a]), true)
  {
    FeedAppend(START, [Num(a)], [Op(q)]);
    FeedOne(START, Num(a));
    FeedOne(Running(Stacks([], [a]), false), Op(q));
    assert [Num(a)] + [Op(q)] == [Num(a), Op(q)];
    assert [] + [a] == [a] && [] + [q] == [q];
  }

  function Chosen(a: int, b: int, c: int): int { if a != 0 then b else c }

  /** Where the condition or the last arm of ?: ends in an operator: only a shift is
      looser than ?: itself. */
  lemma ConditionalBinds(a: int, p: Opr, b: int, c: int, d: int)
    requires Arith(p)
    ensures Evaluate([Num(a), Op(p), Num(b), Op(QMARK), Num(c), Op(COLON), Num(d)]) ==
      Some(if Class(p) == 1 then Apply(p, a, Chosen(b, c, d)) else Chosen(Apply(p, a, b), c, d))
    ensures Evaluate([Num(a), Op(QMARK), Num(b), Op(COLON), Num(c), Op(p), Num(d)]) ==
      Some(if Class(p) == 1 then Apply(p, Chosen(a, b, c), d) else Chosen(a, b, Apply(p, c, d)))
  {
    ClassPri(p, p);
    ConditionFirst(a, p, b, c, d);
    ConditionLast(a, p, b, c, d);
  }

  lemma ConstPrinted(v: int, m: nat)
    requires m <= 24
    ensures Print(Const(v), m) == [Num(v)]
  {
    assert Level(Const(v)) == 24;
  }

  lemma CondBody(c: int, t: int, f: int)
    ensures Body(Cond(Const(c), Const(t), Const(f))) == [Num(c), Op(QMARK), Num(t), Op(COLON), Num(f)]
  {
    ConstPrinted(c, 7);
    ConstPrinted(t, 7);
    ConstPrinted(f, 6);
  }

  lemma ConditionFirst(a: int, p: Opr, b: int, c: int, d: int)
    requires Arith(p)
    ensures Evaluate([Num(a), Op(p), Num(b), Op(QMARK), Num(c), Op(COLON), Num(d)]) ==
      Some(if Class(p) == 1 then Apply(p, a, Chosen(b, c, d)) else Chosen(Apply(p, a, b), c, d))
  {
    ClassPri(p, p);
    var ts := [Num(a), Op(p), Num(b), Op(QMARK), Num(c), Op(COLON), Num(d)];
    if Class(p) == 1 {
      var y := [Num(b), Op(QMARK), Num(c), Op(COLON), Num(d)];
      CondBody(b, c, d);
      assert [Num(a)] + [Op(p)] + y == ts;
      TextBin(p, Const(a), Cond(Const(b), Const(c), Const(d)), [Num(a)], y, ts);
    } else {
      var x := [Num(a), Op(p), Num(b)];
      BinBody(a, p, b);
      assert x + [Op(QMARK)] + [Num(c)] + [Op(COLON)] + [Num(d)] == ts;
      TextCond(Bin(p, Const(a), Const(b)), Const(c), Const(d), x, [Num(c)], [Num(d)], ts);
    }
  }

  lemma ConditionLast(a: int, p: Opr, b: int, c: int, d: int)
    requires Arith(p)
    ensures Evaluate([Num(a), Op(QMARK), Num(b), Op(COLON), Num(c), Op(p), Num(d)]) ==
      Some(if Class(p) == 1 then Apply(p, Chosen(a, b, c), d) else Chosen(a, b, Apply(p, c, d)))
  {
    ClassPri(p, p);
    var ts := [Num(a), Op(QMARK), Num(b), Op(COLON), Num(c), Op(p), Num(d)];
    if Class(p) == 1 {
      var x := [Num(a), Op(QMARK), Num(b), Op(COLON), Num(c)];
      CondBody(a, b, c);
      assert x + [Op(p)] + [Num(d)] == ts;
      TextBin(p, Cond(Const(a), Const(b), Const(c)), Const(d), x, [Num(d)], ts);
    } else {
      var z := [Num(c), Op(p), Num(d)];
      BinBody(c, p, d);
      assert [Num(a)] + [Op(QMARK)] + [Num(b)] + [Op(COLON)] + z == ts;
      TextCond(Const(a), Const(b), Bin(p, Const(c), Const(d)), [Num(a)], [Num(b)], z, ts);
    }
  }

  /** In the middle arm a shift is a syntax error. */
  lemma MiddleArm(a: int, b: int, p: Opr, c: int, d: int)
    requires Arith(p)
    ensures Evaluate([Num(a), Op(QMARK), Num(b), Op(p), Num(c), Op(COLON), Num(d)]) ==
      if Class(p) == 1 then None else Some(Chosen(a, Apply(p, b, c), d))
  {
    ClassPri(p, p);
    var ts := [Num(a), Op(QMARK), Num(b), Op(p), Num(c), Op(COLON), Num(d)];
    if Class(p) == 1 {
      var st := Running(Stacks([QMARK], [a]), true);
      var st' := Running(Stacks([QMARK], [a, b]), false);
      InfixAfter(a, QMARK);
      FeedAppend(START, [Num(a), Op(QMARK)], [Num(b)]);
      FeedOne(st, Num(b));
      assert [a] + [b] == [a, b];
      FeedAppend(START, [Num(a), Op(QMARK)] + [Num(b)], [Op(p)]);
      FeedOne(st', Op(p));
      var u := [Num(a), Op(QMARK), Num(b), Op(p)];
      assert [Num(a), Op(QMARK)] + [Num(b)] + [Op(p)] == u;
      assert FeedAll(START, u) == Syntax;
      FeedAppend(START, u, [Num(c), Op(COLON), Num(d)]);
      AfterSyntax([Num(c), Op(COLON), Num(d)]);
      assert u + [Num(c), Op(COLON), Num(d)] == ts;
    } else {
      var y := [Num(b), Op(p), Num(c)];
      BinBody(b, p, c);
      assert [Num(a)] + [Op(QMARK)] + y + [Op(COLON)] + [Num(d)] == ts;
      TextCond(Const(a), Bin(p, Const(b), Const(c)), Const(d), [Num(a)], y, [Num(d)], ts);
    }
  }

  /** Parentheses group either way. */
  lemma ParenthesesGroup(a: int, p: Opr, b: int, q: Opr, c: int)
    requires Arith(p) && Arith(q)
    ensures Evaluate([Op(LPAREN), Num(a), Op(p), Num(b), Op(RPAREN), Op(q), Num(c)]) ==
      Some(Apply(q, Apply(p, a, b), c))
    ensures Evaluate([Num(a), Op(p), Op(LPAREN), Num(b), Op(q), Num(c), Op(RPAREN)]) ==
      Some(Apply(p, a, Apply(q, b, c)))
  {
    GroupedLeft(a, p, b, q, c);
    GroupedRight(a, p, b, q, c);
  }

  /** What a text in parentheses leaves. */
  lemma InParentheses(s: Stacks, a: int, p: Opr, b: int)
    requires Arith(p)
    ensures FeedAll(Running(s, true), [Op(LPAREN), Num(a), Op(p), Num(b), Op(RPAREN)]) ==
      Running(PushOpn(s, Apply(p, a, b)), false)
  {
    ClassPri(p, p);
    var e := Bin(p, Const(a), Const(b));
    BinBody(a, p, b);
    BodyPrinted(e, LOWEST, PushOpr(s, LPAREN));
    Parenthesized(e, s);
    assert [Op(LPAREN)] + Body(e) + [Op(RPAREN)] == [Op(LPAREN), Num(a), Op(p), Num(b), Op(RPAREN)];
  }

  lemma FinishBin(a: int, p: Opr, b: int)
    requires Arith(p)
    ensures Finish(Running(Stacks([p], [a, b]), false)) == Some(Apply(p, a, b))
  {
    ClassPri(p, p);
    ReduceBin(Stacks([], []), p, a, b);
    assert [] + [p] == [p] && [] + [a] + [b] == [a, b];
    var s, r := Stacks([p], [a, b]), PushOpn(Stacks([], []), Apply(p, a, b));
    StkopReduces(s, r, CEOF);
  }

  lemma GroupedLeft(a: int, p: Opr, b: int, q: Opr, c: int)
    requires Arith(p) && Arith(q)
    ensures Evaluate([Op(LPAREN), Num(a), Op(p), Num(b), Op(RPAREN), Op(q), Num(c)]) ==
      Some(Apply(q, Apply(p, a, b), c))
  {
    hide FeedAll, Finish, Apply;
    var ts, v := [Op(LPAREN), Num(a), Op(p), Num(b), Op(RPAREN)], Apply(p, a, b);
    InParentheses(Stacks([], []), a, p, b);
    FeedAppend(START, ts, [Op(q), Num(c)]);
    assert [] + [v] == [v];
    var st := Running(Stacks([], [v]), false);
    FeedAppend(st, [Op(q)], [Num(c)]);
    FeedOne(st, Op(q));
    FeedOne(Running(Stacks([q], [v]), true), Num(c));
    assert [] + [q] == [q] && [v] + [c] == [v, c] && [Op(q)] + [Num(c)] == [Op(q), Num(c)];
    FinishBin(v, q, c);
    assert ts + [Op(q), Num(c)] == [Op(LPAREN), Num(a), Op(p), Num(b), Op(RPAREN), Op(q), Num(c)];
  }

  lemma GroupedRight(a: int, p: Opr, b: int, q: Opr, c: int)
    requires Arith(p) && Arith(q)
    ensures Evaluate([Num(a), Op(p), Op(LPAREN), Num(b), Op(q), Num(c), Op(RPAREN)]) ==
      Some(Apply(p, a, Apply(q, b, c)))
  {
    hide FeedAll, Finish, Apply;
    var ts, v := [Op(LPAREN), Num(b), Op(q), Num(c), Op(RPAREN)], Apply(q, b, c);
    InfixAfter(a, p);
    FeedAppend(START, [Num(a), Op(p)], ts);
    InParentheses(Stacks([p], [a]), b, q, c);
    assert [a] + [v] == [a, v];
    FinishBin(a, p, v);
    assert [Num(a), Op(p)] + ts == [Num(a), Op(p), Op(LPAREN), Num(b), Op(q), Num(c), Op(RPAREN)];
  }

  // ---- where the text of C means something else ----

  function Minus(a: int, b: int, c: int): Expr { Bin(SUB, Const(a), Bin(SUB, Const(b), Const(c))) }

  /** The text a - b - c is that of a - (b - c). */
  lemma MinusText(a: int, b: int, c: int)
    ensures Print(Minus(a, b, c), LOWEST) == [Num(a), Op(SUB), Num(b), Op(SUB), Num(c)]
  {
    var inner := Bin(SUB, Const(b), Const(c));
    assert Print(Const(a), 17) == [Num(a)] && Print(Const(b), 17) == [Num(b)] && Print(Const(c), 16) == [Num(c)];
    assert Print(inner, 16) == Body(inner) == [Num(b), Op(SUB), Num(c)];
    assert Body(Minus(a, b, c)) == [Num(a), Op(SUB)] + [Num(b), Op(SUB), Num(c)];
  }

  /** It has the value C gives the text exactly for these c. */
  lemma MinusChain(a: int, b: int, c: int)
    requires In32(a) && In32(b) && In32(c)
    ensures Evaluate(Print(Minus(a, b, c), LOWEST)) == Some(Wrap32(Wrap32(a - b) - c)) <==> c == 0 || c == -HALF32
  {
    Means(Minus(a, b, c), Wrap32(Wrap32(a - b) - c));
    MinusValue(a, b, c);
    MinusGroups(a, b, c);
  }

  lemma MinusValue(a: int, b: int, c: int)
    ensures Value(Minus(a, b, c)) == Wrap32(a - Wrap32(b - c)) && Ok(Minus(a, b, c))
  {
    assert Value(Bin(SUB, Const(b), Const(c))) == Apply(SUB, b, c);
  }

  lemma Means(e: Expr, w: int)
    requires Ok(e)
    ensures Evaluate(Print(e, LOWEST)) == Some(w) <==> Value(e) == w
  {
    EvaluatePrinted(e);
  }

  lemma MinusGroups(a: int, b: int, c: int)
    requires In32(a) && In32(b) && In32(c)
    ensures Wrap32(a - Wrap32(b - c)) == Wrap32(Wrap32(a - b) - c) <==> c == 0 || c == -HALF32
  {
    Wrap32Add(a - b, -c);
    var k := Wrap32Congruent(b - c);
    Wrap32Shift(a - b + c, -k);
    TwiceZero(a - b, c);
  }

  lemma TwiceZero(d: int, c: int)
    requires In32(c)
    ensures Wrap32(d + c) == Wrap32(d - c) <==> c == 0 || c == -HALF32
  {
    var i := Wrap32Congruent(d + c);
    var j := Wrap32Congruent(d - c);
    if c == -HALF32 {
      Wrap32Shift(d - c, -1);
    }
  }

  // ---- the stacks never run empty ----

  function Infixes(oprs: seq<Opr>): nat {
    if |oprs| == 0 then 0 else Infixes(oprs[..|oprs| - 1]) + (if Binary(oprs[|oprs| - 1]) then 1 else 0)
  }

  /** After an operand there is one operand more than infix operators waiting. */
  predicate Balanced(s: Stacks, lop: bool) { |s.opns| == Infixes(s.oprs) + (if lop then 0 else 1) }

  lemma InfixesPush(oprs: seq<Opr>, op: Opr)
    ensures Infixes(oprs + [op]) == Infixes(oprs) + (if Binary(op) then 1 else 0)
  {
    assert (oprs + [op])[..|oprs|] == oprs;
  }

  lemma InfixesTwo(oprs: seq<Opr>)
    requires |oprs| >= 2
    ensures var k := |oprs| - 1;
      Infixes(oprs) == Infixes(oprs[..k - 1]) +
        (if Binary(oprs[k - 1]) then 1 else 0) + (if Binary(oprs[k]) then 1 else 0)
  {
    var k := |oprs| - 1;
    assert oprs[..k][..k - 1] == oprs[..k - 1];
  }

  /** An operator fails only when ? and : do not match: there are always operands. */
  lemma ReduceBalanced(s: Stacks)
    requires |s.oprs| > 0 && Balanced(s, false)
    ensures match Reduce(s)
      case Some(r) => Balanced(r, false)
      case None => var k := |s.oprs| - 1;
        s.oprs[k] == QMARK || (s.oprs[k] == COLON && (k == 0 || s.oprs[k - 1] != QMARK))
  {
    if |s.oprs| >= 2 {
      InfixesTwo(s.oprs);
    }
  }

  lemma {:induction false} StkopBalanced(s: Stacks, op: Opr)
    requires Balanced(s, false) && !Prefix(op) && op != LPAREN
    ensures Stkop(s, op).Some? ==> Balanced(Stkop(s, op).value, Binary(op))
    decreases |s.oprs|
  {
    var k := |s.oprs| - 1;
    InfixesPush(s.oprs, op);
    if k >= 0 && Pri(op) < Pri(s.oprs[k]) && s.oprs[k] != LPAREN {
      ReduceBalanced(s);
      if Reduce(s).Some? {
        StkopBalanced(Reduce(s).value, op);
      }
    }
  }

  lemma StkopOpening(s: Stacks, op: Opr)
    requires Prefix(op) || op == LPAREN
    ensures Stkop(s, op) == Some(PushOpr(s, op))
  {
  }

  lemma StkopPrefix(s: Stacks, op: Opr)
    requires Balanced(s, true) && (Prefix(op) || op == LPAREN)
    ensures Stkop(s, op) == Some(PushOpr(s, op)) && Balanced(PushOpr(s, op), true)
  {
    StkopOpening(s, op);
    InfixesPush(s.oprs, op);
  }

  /** Whatever the text, the operand stack matches the operator stack. */
  lemma FeedBalanced(st: State, t: Token)
    requires st.Running? && Balanced(st.s, st.lop)
    requires t.Op? ==> t.op != CEOF && t.op != NEG
    ensures Feed(st, t).Running? ==> Balanced(Feed(st, t).s, Feed(st, t).lop)
  {
    if t.Op? {
      if st.lop {
        if t.op == SUB { StkopPrefix(st.s, NEG); }
        if t.op in {COMPL, LPAREN, NOT} { StkopPrefix(st.s, t.op); }
      } else if t.op !in {COMPL, LPAREN, NOT} {
        StkopBalanced(st.s, t.op);
      }
    }
  }

  // ---- texts whose parentheses do not match ----

  /** NEG and CEOF are no tokens of a text. */
  predicate TextToken(t: Token) { t.Op? ==> t.op != CEOF && t.op != NEG }

  predicate Text(ts: seq<Token>) { forall i :: 0 <= i < |ts| ==> TextToken(ts[i]) }

  /** How many ( are open behind ts, d having been open before it. */
  function Depth(d: nat, ts: seq<Token>): nat {
    if |ts| == 0 then d
    else
      var e, t := Depth(d, ts[..|ts| - 1]), ts[|ts| - 1];
      if t == Op(LPAREN) then e + 1 else if t == Op(RPAREN) && e > 0 then e - 1 else e
  }

  /** How many ) in ts close none. */
  function Extra(d: nat, ts: seq<Token>): nat {
    if |ts| == 0 then 0
    else
      var n := |ts| - 1;
      Extra(d, ts[..n]) + (if ts[n] == Op(RPAREN) && Depth(d, ts[..n]) == 0 then 1 else 0)
  }

  function Parens(oprs: seq<Opr>): nat {
    if |oprs| == 0 then 0 else Parens(oprs[..|oprs| - 1]) + (if oprs[|oprs| - 1] == LPAREN then 1 else 0)
  }

  lemma ParensPush(oprs: seq<Opr>, op: Opr)
    ensures Parens(oprs + [op]) == Parens(oprs) + (if op == LPAREN then 1 else 0)
  {
    assert (oprs + [op])[..|oprs|] == oprs;
  }

  /** No ) that closed nothing is left on the stack. */
  predicate NoMarks(oprs: seq<Opr>) { forall i :: 0 <= i < |oprs| ==> oprs[i] != RPAREN && oprs[i] != CEOF }

  lemma ReduceParens(s: Stacks)
    requires |s.oprs| > 0 && Reduce(s).Some? && s.oprs[|s.oprs| - 1] != LPAREN
    ensures Parens(Reduce(s).value.oprs) == Parens(s.oprs)
    ensures NoMarks(s.oprs) ==> NoMarks(Reduce(s).value.oprs)
  {
    var k := |s.oprs| - 1;
    if s.oprs[k] == COLON {
      assert s.oprs[..k][..k - 1] == s.oprs[..k - 1];
    }
  }

  function ParensAfter(d: nat, op: Opr): nat {
    if op == LPAREN then d + 1 else if op == RPAREN && d > 0 then d - 1 else d
  }

  lemma StkopDown(s: Stacks, op: Opr)
    requires |s.oprs| > 0 && Pri(op) < Pri(s.oprs[|s.oprs| - 1]) && s.oprs[|s.oprs| - 1] != LPAREN
    ensures Stkop(s, op) == match Reduce(s) case None => None case Some(r) => Stkop(r, op)
  {
  }

  predicate AppliesTop(s: Stacks, op: Opr) {
    var k := |s.oprs| - 1; k >= 0 && Pri(op) < Pri(s.oprs[k]) && s.oprs[k] != LPAREN
  }

  predicate ParensOk(s: Stacks, op: Opr, r: Stacks) {
    && Parens(r.oprs) == ParensAfter(Parens(s.oprs), op)
    && (op != RPAREN || Parens(s.oprs) > 0 ==> NoMarks(r.oprs))
  }

  /** The operators op takes off (, or goes on top of. */
  function OnTop(oprs: seq<Opr>, op: Opr): seq<Opr> {
    var k := |oprs| - 1;
    if k >= 0 && oprs[k] == LPAREN && op == RPAREN then oprs[..k] else oprs + [op]
  }

  lemma StkopOnTop(s: Stacks, op: Opr)
    requires !AppliesTop(s, op)
    ensures Stkop(s, op) == Some(Stacks(OnTop(s.oprs, op), s.opns))
  {
  }

  lemma LowPri(op: Opr)
    ensures Pri(op) <= Pri(RPAREN) <==> op == RPAREN || op == CEOF
  {
  }

  lemma StkopTop(s: Stacks, op: Opr)
    requires NoMarks(s.oprs) && op != CEOF && !AppliesTop(s, op)
    ensures Stkop(s, op).Some? && ParensOk(s, op, Stkop(s, op).value)
  {
    var k := |s.oprs| - 1;
    StkopOnTop(s, op);
    if k >= 0 && op == RPAREN {
      LowPri(s.oprs[k]);
    }
    OnTopParens(s.oprs, op);
  }

  lemma OnTopParens(oprs: seq<Opr>, op: Opr)
    requires NoMarks(oprs) && op != CEOF && (op == RPAREN ==> oprs == [] || oprs[|oprs| - 1] == LPAREN)
    ensures Parens(OnTop(oprs, op)) == ParensAfter(Parens(oprs), op)
    ensures op != RPAREN || Parens(oprs) > 0 ==> NoMarks(OnTop(oprs, op))
  {
    ParensPush(oprs, op);
  }

  /** The ( on the stack are those open in the text. */
  lemma {:induction false} StkopParens(s: Stacks, op: Opr)
    requires NoMarks(s.oprs) && op != CEOF && Stkop(s, op).Some?
    ensures ParensOk(s, op, Stkop(s, op).value)
    decreases |s.oprs|
  {
    if AppliesTop(s, op) {
      StkopDown(s, op);
      ReduceParens(s);
      StkopParens(Reduce(s).value, op);
    } else {
      StkopTop(s, op);
    }
  }

  // ---- a run above other stacks ----

  function Join(base: Stacks, s: Stacks): Stacks { Stacks(base.oprs + s.oprs, base.opns + s.opns) }

  function JoinOption(base: Stacks, r: Option<Stacks>): Option<Stacks> {
    match r
    case None => None
    case Some(s) => Some(Join(base, s))
  }

  function JoinState(base: Stacks, st: State): State {
    match st
    case Syntax => Syntax
    case Running(s, lop) => Running(Join(base, s), lop)
  }

  predicate BasedOn(base: Stacks, op: Opr) { |base.oprs| > 0 && base.oprs[|base.oprs| - 1] == op }

  lemma JoinPush(base: Stacks, s: Stacks, op: Opr, v: int)
    ensures PushOpr(Join(base, s), op) == Join(base, PushOpr(s, op))
    ensures PushOpn(Join(base, s), v) == Join(base, PushOpn(s, v))
  {
    assert base.oprs + s.oprs + [op] == base.oprs + (s.oprs + [op]);
    assert base.opns + s.opns + [v] == base.opns + (s.opns + [v]);
  }

  lemma JoinTake(base: Stacks, s: Stacks, i: nat, j: nat, v: int)
    requires i <= |s.oprs| && j <= |s.opns|
    ensures Stacks((base.oprs + s.oprs)[..|base.oprs| + i], (base.opns + s.opns)[..|base.opns| + j] + [v]) ==
      Join(base, Stacks(s.oprs[..i], s.opns[..j] + [v]))
  {
    assert (base.oprs + s.oprs)[..|base.oprs| + i] == base.oprs + s.oprs[..i];
    assert (base.opns + s.opns)[..|base.opns| + j] + [v] == base.opns + (s.opns[..j] + [v]);
  }

  lemma ReduceOn(base: Stacks, s: Stacks)
    requires |s.oprs| > 0 && Balanced(s, false) && (BasedOn(base, LPAREN) || BasedOn(base, RPAREN))
    ensures Reduce(Join(base, s)) == JoinOption(base, Reduce(s))
  {
    var j, k, n := Join(base, s), |s.oprs| - 1, |s.opns|;
    var op := s.oprs[k];
    ReduceBalanced(s);
    if op == COLON {
      ReduceColonOn(base, s);
    } else if Reduce(s).Some? {
      if Binary(op) {
        JoinTake(base, s, k, n - 2, Apply(op, s.opns[n - 2], s.opns[n - 1]));
      } else {
        JoinTake(base, s, k, n - 1, Apply1(op, s.opns[n - 1]));
      }
    }
  }

  lemma ReduceColonOn(base: Stacks, s: Stacks)
    requires |s.oprs| > 0 && s.oprs[|s.oprs| - 1] == COLON && (BasedOn(base, LPAREN) || BasedOn(base, RPAREN))
    requires Reduce(s).Some? || |s.oprs| == 1 || s.oprs[|s.oprs| - 2] != QMARK
    ensures Reduce(Join(base, s)) == JoinOption(base, Reduce(s))
  {
    var k, n := |s.oprs| - 1, |s.opns|;
    if Reduce(s).Some? {
      JoinTake(base, s, k - 1, n - 3, if s.opns[n - 3] != 0 then s.opns[n - 2] else s.opns[n - 1]);
    }
  }

  /** An operator acts above a waiting ( or ) as it would on empty stacks, unless it
      is one that applies to that. */
  lemma {:induction false} StkopOn(base: Stacks, s: Stacks, op: Opr)
    requires BasedOn(base, LPAREN) || BasedOn(base, RPAREN)
    requires Balanced(s, false) || Prefix(op) || op == LPAREN
    requires BasedOn(base, LPAREN) && op == RPAREN ==> Parens(s.oprs) > 0
    requires BasedOn(base, RPAREN) ==> op != CEOF
    ensures Stkop(Join(base, s), op) == JoinOption(base, Stkop(s, op))
    decreases |s.oprs|
  {
    if AppliesTop(s, op) {
      ReduceOn(base, s);
      if Reduce(s).Some? {
        ReduceBalanced(s);
        ReduceParens(s);
        StkopOn(base, Reduce(s).value, op);
      }
      StkopDownOn(base, s, op);
    } else {
      StkopStays(base, s, op);
    }
  }

  lemma StkopDownOn(base: Stacks, s: Stacks, op: Opr)
    requires AppliesTop(s, op) && Reduce(Join(base, s)) == JoinOption(base, Reduce(s))
    requires Reduce(s).Some? ==>
      Stkop(Join(base, Reduce(s).value), op) == JoinOption(base, Stkop(Reduce(s).value, op))
    ensures Stkop(Join(base, s), op) == JoinOption(base, Stkop(s, op))
  {
    StkopDown(s, op);
    TopAbove(base, s, op);
    StkopDown(Join(base, s), op);
  }

  lemma TopAbove(base: Stacks, s: Stacks, op: Opr)
    requires |s.oprs| > 0
    ensures AppliesTop(Join(base, s), op) == AppliesTop(s, op)
  {
    assert (base.oprs + s.oprs)[|base.oprs| + |s.oprs| - 1] == s.oprs[|s.oprs| - 1];
  }

  lemma StkopStays(base: Stacks, s: Stacks, op: Opr)
    requires BasedOn(base, LPAREN) || BasedOn(base, RPAREN)
    requires BasedOn(base, LPAREN) && op == RPAREN ==> Parens(s.oprs) > 0
    requires BasedOn(base, RPAREN) ==> op != CEOF
    requires !AppliesTop(s, op)
    ensures Stkop(Join(base, s), op) == JoinOption(base, Stkop(s, op))
  {
    var k, j := |s.oprs| - 1, Join(base, s);
    LowPri(op);
    if k < 0 {
      assert base.oprs + s.oprs == base.oprs;
    } else {
      assert j.oprs[|j.oprs| - 1] == s.oprs[k];
    }
    StkopOnTop(s, op);
    StkopOnTop(j, op);
    JoinPush(base, s, op, 0);
    if k >= 0 {
      assert j.oprs[..|base.oprs| + k] == base.oprs + s.oprs[..k];
    }
  }

  lemma FeedOn(base: Stacks, st: State, t: Token)
    requires BasedOn(base, LPAREN) || BasedOn(base, RPAREN)
    requires TextToken(t) && (st.Running? ==> Balanced(st.s, st.lop))
    requires BasedOn(base, LPAREN) && t == Op(RPAREN) && st.Running? ==> Parens(st.s.oprs) > 0
    ensures Feed(JoinState(base, st), t) == JoinState(base, Feed(st, t))
  {
    if st.Running? {
      match t
      case Num(v) => JoinPush(base, st.s, ADD, v);
      case Op(op) =>
        if st.lop {
          if op == SUB { StkopOn(base, st.s, NEG); }
          if op in {COMPL, LPAREN, NOT} { StkopOn(base, st.s, op); }
        } else if op !in {COMPL, LPAREN, NOT} {
          StkopOn(base, st.s, op);
        }
    }
  }

  /** What holds of the stacks of a text whose ) all close something. */
  predicate Tracks(st: State, d: nat) {
    st.Running? ==> Balanced(st.s, st.lop) && NoMarks(st.s.oprs) && Parens(st.s.oprs) == d
  }

  lemma FeedTracks(st: State, d: nat, t: Token)
    requires Tracks(st, d) && TextToken(t) && (t == Op(RPAREN) ==> d > 0)
    ensures Tracks(Feed(st, t), Depth(d, [t]))
  {
    assert [t][..0] == [];
    if st.Running? {
      FeedBalanced(st, t);
      if t.Op? && Feed(st, t).Running? {
        var op := if t.op == SUB && st.lop then NEG else t.op;
        if op != ADD || !st.lop {
          StkopParens(st.s, op);
        }
      }
    }
  }

  lemma DepthStep(d: nat, ts: seq<Token>, t: Token)
    ensures Depth(d, ts + [t]) == Depth(Depth(d, ts), [t])
    ensures Extra(d, ts + [t]) == Extra(d, ts) + (if t == Op(RPAREN) && Depth(d, ts) == 0 then 1 else 0)
  {
    assert (ts + [t])[..|ts|] == ts && [t][..0] == [];
  }

  lemma {:induction false} RunTracks(ts: seq<Token>)
    requires Text(ts) && Extra(0, ts) == 0
    ensures Tracks(FeedAll(START, ts), Depth(0, ts))
  {
    if |ts| > 0 {
      var u, t := ts[..|ts| - 1], ts[|ts| - 1];
      assert ts == u + [t] && TextToken(t);
      DepthStep(0, u, t);
      RunTracks(u);
      FeedTracks(FeedAll(START, u), Depth(0, u), t);
    }
  }

  /** Such a text acts above a waiting ( as it does by itself. */
  lemma {:induction false} RunInside(base: Stacks, ts: seq<Token>)
    requires BasedOn(base, LPAREN) && Text(ts) && Extra(0, ts) == 0
    ensures FeedAll(JoinState(base, START), ts) == JoinState(base, FeedAll(START, ts))
  {
    if |ts| > 0 {
      var u, t := ts[..|ts| - 1], ts[|ts| - 1];
      assert ts == u + [t] && TextToken(t);
      DepthStep(0, u, t);
      RunInside(base, u);
      RunTracks(u);
      FeedOn(base, FeedAll(START, u), t);
    }
  }

  /** Any text acts above a ) that closed nothing as it does by itself. */
  lemma {:induction false} RunBehind(base: Stacks, st: State, ts: seq<Token>)
    requires BasedOn(base, RPAREN) && Text(ts) && (st.Running? ==> Balanced(st.s, st.lop))
    ensures FeedAll(JoinState(base, st), ts) == JoinState(base, FeedAll(st, ts))
    ensures FeedAll(st, ts).Running? ==> Balanced(FeedAll(st, ts).s, FeedAll(st, ts).lop)
  {
    if |ts| > 0 {
      var n := |ts| - 1;
      RunBehind(base, st, ts[..n]);
      assert TextToken(ts[n]);
      FeedOn(base, FeedAll(st, ts[..n]), ts[n]);
      if FeedAll(st, ts[..n]).Running? {
        FeedBalanced(FeedAll(st, ts[..n]), ts[n]);
      }
    }
  }

  // ---- a ( that is never closed ----

  /** A token that may stand before an operand. */
  predicate Opening(t: Token) { t.Op? && t.op in {LPAREN, SUB, ADD, NOT, COMPL} }

  predicate AllOpening(ts: seq<Token>) { forall i :: 0 <= i < |ts| ==> Opening(ts[i]) }

  lemma {:induction false} StkopOperands(s: Stacks, op: Opr)
    requires Stkop(s, op).Some? && |s.opns| > 0
    ensures |Stkop(s, op).value.opns| > 0
    decreases |s.oprs|
  {
    var k := |s.oprs| - 1;
    if k >= 0 && Pri(op) < Pri(s.oprs[k]) && s.oprs[k] != LPAREN {
      StkopOperands(Reduce(s).value, op);
    }
  }

  lemma FeedOperands(st: State, t: Token)
    requires st.Running? && TextToken(t) && (st.s.opns == [] ==> st.lop)
    ensures var r := Feed(st, t);
      if st.s.opns == [] && Opening(t) then r.Running? && r.lop && r.s.opns == []
      else r.Running? ==> r.s.opns != []
  {
    if t.Op? && |st.s.opns| > 0 {
      var op := if t.op == SUB && st.lop then NEG else t.op;
      if Stkop(st.s, op).Some? {
        StkopOperands(st.s, op);
      }
    }
    if t.Op? && st.s.opns == [] && Opening(t) && t.op != ADD {
      StkopOpening(st.s, if t.op == SUB then NEG else t.op);
    }
  }

  /** No operand has been met behind exactly these texts. */
  lemma {:induction false} NoOperands(ts: seq<Token>)
    requires Text(ts)
    ensures var st := FeedAll(START, ts);
      if AllOpening(ts) then st.Running? && st.lop && st.s.opns == []
      else st.Running? ==> st.s.opns != []
  {
    if |ts| > 0 {
      var n := |ts| - 1;
      NoOperands(ts[..n]);
      assert TextToken(ts[n]);
      assert AllOpening(ts) <==> AllOpening(ts[..n]) && Opening(ts[n]) by {
        assert forall i :: 0 <= i < n ==> ts[i] == ts[..n][i];
      }
      if FeedAll(START, ts[..n]).Running? {
        FeedOperands(FeedAll(START, ts[..n]), ts[n]);
      }
    }
  }

  lemma FinishInside(base: Stacks, st: State)
    requires BasedOn(base, LPAREN) && (st.Running? ==> Balanced(st.s, st.lop))
    ensures Finish(JoinState(base, st)) == if base.opns == [] then Finish(st) else None
  {
    if st.Running? && !st.lop {
      StkopOn(base, st.s, CEOF);
      StkopBalanced(st.s, CEOF);
    }
  }

  lemma OpenState(p: seq<Token>)
    requires Text(p)
    ensures var st, o := FeedAll(START, p), FeedAll(START, p + [Op(LPAREN)]);
      if st.Running? && st.lop then
        var base := PushOpr(st.s, LPAREN);
        BasedOn(base, LPAREN) && base.opns == st.s.opns && o == JoinState(base, START)
      else o == Syntax
  {
    FeedAppend(START, p, [Op(LPAREN)]);
    FeedOne(FeedAll(START, p), Op(LPAREN));
    var st := FeedAll(START, p);
    if st.Running? && st.lop {
      StkopOpening(st.s, LPAREN);
      var base := PushOpr(st.s, LPAREN);
      assert base.oprs + [] == base.oprs && base.opns + [] == base.opns;
    }
  }

  lemma {:induction false} AfterSyntax(ts: seq<Token>)
    ensures FeedAll(Syntax, ts) == Syntax
  {
    if |ts| > 0 {
      AfterSyntax(ts[..|ts| - 1]);
    }
  }

  /** A text with a ( that nothing closes is accepted if only openings stand before
      it and the rest is accepted by itself; the openings then have no effect. */
  lemma OpenText(p: seq<Token>, r: seq<Token>)
    requires Text(p) && Text(r) && Extra(0, r) == 0
    ensures Evaluate(p + [Op(LPAREN)] + r) == if AllOpening(p) then Evaluate(r) else None
  {
    var st := FeedAll(START, p);
    FeedAppend(START, p + [Op(LPAREN)], r);
    OpenState(p);
    NoOperands(p);
    if st.Running? && st.lop {
      var base := PushOpr(st.s, LPAREN);
      RunInside(base, r);
      RunTracks(r);
      FinishInside(base, FeedAll(START, r));
    } else {
      AfterSyntax(r);
    }
  }

  /** The last ( that k others, still open, follow. */
  lemma {:induction false} LastOpen(ts: seq<Token>, k: nat) returns (p: seq<Token>, r: seq<Token>)
    requires k < Depth(0, ts)
    ensures ts == p + [Op(LPAREN)] + r && Extra(0, r) == 0 && Depth(0, r) == k
  {
    var u, t := ts[..|ts| - 1], ts[|ts| - 1];
    assert ts == u + [t];
    if t == Op(LPAREN) && k == 0 {
      p, r := u, [];
    } else {
      p, r := LastOpen(u, if t == Op(LPAREN) then k - 1 else if t == Op(RPAREN) then k + 1 else k);
      DepthStep(0, r, t);
      assert [t][..0] == [];
      r := r + [t];
    }
  }

  /** Every text with a ( left open: with r what follows the last one, it is accepted
      exactly if nothing but openings stands before that and r is accepted, and its
      value is r's. */
  lemma MissingClosing(ts: seq<Token>) returns (p: seq<Token>, r: seq<Token>)
    requires Text(ts) && Depth(0, ts) > 0
    ensures ts == p + [Op(LPAREN)] + r && Extra(0, r) == 0 && Depth(0, r) == 0
    ensures Evaluate(ts) == if AllOpening(p) then Evaluate(r) else None
  {
    p, r := LastOpen(ts, 0);
    TextParts(p, Op(LPAREN), r, ts);
    OpenText(p, r);
  }

  // ---- a ) that closes nothing ----

  /** The text up to the first ) that closes nothing, and what follows it. */
  lemma {:induction false} FirstExtra(ts: seq<Token>) returns (a: seq<Token>, b: seq<Token>)
    requires Extra(0, ts) > 0
    ensures ts == a + [Op(RPAREN)] + b && Extra(0, a) == 0 && Depth(0, a) == 0
  {
    var n := |ts| - 1;
    if Extra(0, ts[..n]) > 0 {
      a, b := FirstExtra(ts[..n]);
      b := b + [ts[n]];
    } else {
      a, b := ts[..n], [];
    }
  }

  const OPENED := Stacks([LPAREN], [])
  const CLOSED := Stacks([RPAREN], [])

  predicate ClosesTo(s: Stacks, r: Option<Stacks>, r': Option<Stacks>) {
    match r
    case None => r' == None
    case Some(u) => |u.opns| == 1 && u.oprs == [RPAREN] && r' == Some(Stacks([], u.opns))
  }

  lemma CloseBottom(s: Stacks)
    requires s.oprs == [] && |s.opns| == 1
    ensures ClosesTo(s, Stkop(s, RPAREN), Stkop(Join(OPENED, s), RPAREN))
  {
    var j := Join(OPENED, s);
    assert j.oprs == [LPAREN] && j.opns == s.opns && j.oprs[..0] == [];
    StkopOnTop(s, RPAREN);
    StkopOnTop(j, RPAREN);
  }

  lemma ParensTop(oprs: seq<Opr>)
    requires |oprs| > 0 && NoMarks(oprs) && Parens(oprs) == 0
    ensures var op := oprs[|oprs| - 1]; op != LPAREN && Pri(op) > Pri(RPAREN)
  {
    LowPri(oprs[|oprs| - 1]);
  }

  /** A ) applies everything that waits, down to the bottom or to a (. */
  lemma {:induction false} CloseAll(s: Stacks)
    requires Balanced(s, false) && NoMarks(s.oprs) && Parens(s.oprs) == 0
    ensures ClosesTo(s, Stkop(s, RPAREN), Stkop(Join(OPENED, s), RPAREN))
    decreases |s.oprs|
  {
    if |s.oprs| == 0 {
      CloseBottom(s);
    } else {
      ParensTop(s.oprs);
      ReduceOn(OPENED, s);
      ReduceBalanced(s);
      StkopDown(s, RPAREN);
      StkopDown(Join(OPENED, s), RPAREN);
      if Reduce(s).Some? {
        ReduceParens(s);
        CloseAll(Reduce(s).value);
      }
    }
  }

  lemma OpenedState(a: seq<Token>)
    requires Text(a) && Extra(0, a) == 0
    ensures FeedAll(START, [Op(LPAREN)] + a) == JoinState(OPENED, FeedAll(START, a))
  {
    FeedOne(START, Op(LPAREN));
    assert [] + [LPAREN] == [LPAREN] && OPENED == Join(OPENED, Stacks([], []));
    FeedAppend(START, [Op(LPAREN)], a);
    RunInside(OPENED, a);
  }

  lemma CloseFed(s: State)
    requires Tracks(s, 0)
    ensures var st := Feed(JoinState(OPENED, s), Op(RPAREN));
      && Feed(s, Op(RPAREN)) == JoinState(CLOSED, st)
      && (st.Running? ==> st.s.oprs == [] && |st.s.opns| == 1 && !st.lop)
  {
    if s.Running? && !s.lop {
      CloseAll(s.s);
    }
  }

  /** Behind such a ) the text runs as if it had been opened at the start. */
  lemma ClosedState(a: seq<Token>) returns (st: State)
    requires Text(a) && Extra(0, a) == 0 && Depth(0, a) == 0
    ensures FeedAll(START, a + [Op(RPAREN)]) == JoinState(CLOSED, st)
    ensures FeedAll(START, [Op(LPAREN)] + a + [Op(RPAREN)]) == st
    ensures st.Running? ==> st.s.oprs == [] && |st.s.opns| == 1 && !st.lop
  {
    var s := FeedAll(START, a);
    OpenedState(a);
    FeedAppend(START, [Op(LPAREN)] + a, [Op(RPAREN)]);
    FeedAppend(START, a, [Op(RPAREN)]);
    FeedOne(s, Op(RPAREN));
    FeedOne(JoinState(OPENED, s), Op(RPAREN));
    st := Feed(JoinState(OPENED, s), Op(RPAREN));
    RunTracks(a);
    CloseFed(s);
  }

  lemma {:induction false} FinishBehind(s: Stacks)
    requires Balanced(s, false)
    ensures SameOperands(Stkop(s, CEOF), Stkop(Join(CLOSED, s), CEOF))
    decreases |s.oprs|
  {
    if |s.oprs| == 0 {
      FinishMark(s);
    } else if AppliesTop(s, CEOF) {
      ReduceOn(CLOSED, s);
      ReduceBalanced(s);
      StkopDown(s, CEOF);
      TopAbove(CLOSED, s, CEOF);
      StkopDown(Join(CLOSED, s), CEOF);
      if Reduce(s).Some? {
        FinishBehind(Reduce(s).value);
      }
    } else {
      TopAbove(CLOSED, s, CEOF);
      StkopOnTop(s, CEOF);
      StkopOnTop(Join(CLOSED, s), CEOF);
      assert [] + s.opns == s.opns;
    }
  }

  predicate SameOperands(r: Option<Stacks>, r': Option<Stacks>) {
    match r
    case None => r' == None
    case Some(s) => r'.Some? && r'.value.opns == s.opns
  }

  /** At the end such a ) is taken off without effect. */
  lemma FinishMark(s: Stacks)
    requires s.oprs == [] && |s.opns| == 1
    ensures Stkop(s, CEOF) == Some(PushOpr(s, CEOF)) && Stkop(Join(CLOSED, s), CEOF) == Some(PushOpr(s, CEOF))
  {
    var v := s.opns[0];
    assert s.opns == [v] && [] + s.opns == [v] && [RPAREN] + s.oprs == [RPAREN];
    MarkOff(v);
    StkopOnTop(s, CEOF);
  }

  lemma MarkOff(v: int)
    ensures Stkop(Stacks([RPAREN], [v]), CEOF) == Some(Stacks([] + [CEOF], [v]))
  {
    ReduceMark(v);
    StkopDown(Stacks([RPAREN], [v]), CEOF);
    StkopOnTop(Stacks([], [v]), CEOF);
  }

  lemma ReduceMark(v: int)
    ensures Reduce(Stacks([RPAREN], [v])) == Some(Stacks([], [v]))
  {
    var s := Stacks([RPAREN], [v]);
    assert Apply1(RPAREN, v) == v && s.oprs[..0] == [] && s.opns[..0] + [v] == [v];
  }

  lemma SameFinish(st: State)
    requires st.Running? ==> Balanced(st.s, st.lop)
    ensures Finish(JoinState(CLOSED, st)) == Finish(st)
  {
    if st.Running? && !st.lop {
      FinishBehind(st.s);
    }
  }

  lemma OpenedRun(a: seq<Token>, b: seq<Token>)
    requires Text(a) && Text(b) && Extra(0, a) == 0 && Depth(0, a) == 0
    ensures Finish(FeedAll(START, [Op(LPAREN)] + a + [Op(RPAREN)] + b)) == Finish(FeedAll(START, a + [Op(RPAREN)] + b))
  {
    var st := ClosedState(a);
    FeedAppend(START, a + [Op(RPAREN)], b);
    FeedAppend(START, [Op(LPAREN)] + a + [Op(RPAREN)], b);
    RunBehind(CLOSED, st, b);
    SameFinish(FeedAll(st, b));
  }

  /** A ( put at the start of the text changes nothing. */
  lemma OpenedOnce(ts: seq<Token>)
    requires Text(ts) && Extra(0, ts) > 0
    ensures Evaluate([Op(LPAREN)] + ts) == Evaluate(ts)
  {
    var a, b := FirstExtra(ts);
    TextParts(a, Op(RPAREN), b, ts);
    assert [Op(LPAREN)] + ts == [Op(LPAREN)] + a + [Op(RPAREN)] + b;
    OpenedRun(a, b);
  }

  lemma TextParts(a: seq<Token>, t: Token, b: seq<Token>, ts: seq<Token>)
    requires Text(ts) && ts == a + [t] + b
    ensures Text(a) && Text(b)
  {
    forall i | 0 <= i < |a| ensures TextToken(a[i]) { assert a[i] == ts[i]; }
    forall i | 0 <= i < |b| ensures TextToken(b[i]) { assert b[i] == ts[|a| + 1 + i]; }
  }

  lemma {:induction false} OneMoreOpen(ts: seq<Token>)
    ensures var t := [Op(LPAREN)] + ts;
      if Extra(0, ts) == 0 then Extra(0, t) == 0 && Depth(0, t) == Depth(0, ts) + 1
      else Extra(0, t) == Extra(0, ts) - 1 && Depth(0, t) == Depth(0, ts)
  {
    var t := [Op(LPAREN)] + ts;
    if |ts| == 0 {
      assert t[..0] == [] && t[0] == Op(LPAREN);
    } else {
      OneMoreOpen(ts[..|ts| - 1]);
      assert t[..|t| - 1] == [Op(LPAREN)] + ts[..|ts| - 1];
    }
  }

  lemma TextOpened(ts: seq<Token>)
    requires Text(ts)
    ensures Text([Op(LPAREN)] + ts)
  {
  }

  function Opened(n: nat): seq<Token> { if n == 0 then [] else Opened(n - 1) + [Op(LPAREN)] }

  /** A ) that closes nothing is never rejected for that: the text has the value it
      has with as many ( put at its start as there are such ), and with these every )
      closes a (. */
  lemma {:induction false} ExtraClosing(ts: seq<Token>)
    requires Text(ts)
    ensures var t := Opened(Extra(0, ts)) + ts; Evaluate(t) == Evaluate(ts) && Extra(0, t) == 0
    decreases Extra(0, ts)
  {
    var n, t := Extra(0, ts), [Op(LPAREN)] + ts;
    if n == 0 {
      assert Opened(n) + ts == ts;
    } else {
      OneMoreOpen(ts);
      OpenedOnce(ts);
      TextOpened(ts);
      assert Opened(n) + ts == Opened(n - 1) + t;
      ExtraClosing(t);
    }
  }

  // ---- the evaluator ----

  /** Operator, priority and operand stack; the priority stack has a 0 below. */
  class Evaluator {
    var oprs: seq<Opr>
    var pris: seq<nat>
    var opns: seq<int>

    ghost predicate Valid()
      reads this
    {
      |pris| == |oprs| + 1 && pris[0] == 0 && forall i :: 0 <= i < |oprs| ==> pris[i + 1] == Pri(oprs[i])
    }

    ghost function S(): Stacks
      reads this
    {
      Stacks(oprs, opns)
    }

    constructor ()
      ensures Valid() && S() == Stacks([], [])
    {
      oprs, pris, opns := [], [0], [];
    }

    /** Takes the top operator and its priority off. */
    method PopOpr()
      requires Valid() && |oprs| > 0
      modifies `oprs, `pris
      ensures Valid() && oprs == old(oprs)[..|old(oprs)| - 1]
    {
      pris := pris[..|pris| - 1];
      oprs := oprs[..|oprs| - 1];
    }

    /** Puts a result in place of the top n operands. */
    method Replace(n: nat, v: int)
      requires n <= |opns|
      modifies `opns
      ensures opns == old(opns)[..|old(opns)| - n] + [v]
    {
      opns := opns[..|opns| - n] + [v];
    }

    /** Applies the top operator to the top operands. */
    method ReduceTop() returns (ok: bool)
      requires Valid() && |oprs| > 0
      modifies this
      ensures ok ==> Valid() && Reduce(old(S())) == Some(S())
      ensures !ok ==> Reduce(old(S())) == None
    {
      var op, n := oprs[|oprs| - 1], |opns|;
      if op == QMARK || n < (if op == COLON then 3 else if Binary(op) then 2 else 1) {
        return false;
      }
      var op1 := opns[n - 1];
      if op == COLON {
        PopOpr();
        if |oprs| == 0 || oprs[|oprs| - 1] != QMARK {
          return false;
        }
        Replace(3, if opns[n - 3] != 0 then opns[n - 2] else op1);
        assert oprs[..|oprs| - 1] == old(oprs)[..|oprs| - 1];
      } else if Binary(op) {
        Replace(2, Apply(op, opns[n - 2], op1));
      } else {
        Replace(1, Apply1(op, op1));
      }
      PopOpr();
      ok := true;
    }

    method Stackop(op: Opr) returns (ok: bool)
      requires Valid()
      modifies this
      ensures ok ==> Valid() && Stkop(old(S()), op) == Some(S())
      ensures !ok ==> Stkop(old(S()), op) == None
    {
      var pri := Pri(op);
      while pri < pris[|pris| - 1]
        invariant Valid() && Stkop(S(), op) == Stkop(old(S()), op)
        decreases |oprs|
      {
        if oprs[|oprs| - 1] == LPAREN {
          if op == RPAREN {
            PopOpr();
            return true;
          }
          break;
        }
        ghost var s := S();
        StkopDown(s, op);
        ok := ReduceTop();
        if !ok {
          return;
        }
      }
      oprs, pris := oprs + [op], pris + [pri];
      ok := true;
    }

    /** Evaluates a text. */
    method Cexpr(ts: seq<Token>) returns (r: Option<int>)
      requires Valid() && S() == Stacks([], [])
      modifies this
      ensures r == Evaluate(ts)
    {
      var lop := true;
      for i := 0 to |ts|
        invariant Valid() && FeedAll(START, ts[..i]) == Running(S(), lop)
      {
        assert ts[..i + 1][..i] == ts[..i];
        ghost var st := Running(S(), lop);
        var ok := true;
        match ts[i] {
          case Num(v) =>
            ok := lop;
            lop := false;
            opns := opns + [v];
          case Op(op) =>
            if op == SUB && lop {
              ok := Stackop(NEG);
            } else if op == ADD && lop {
              // a unary + is passed over
            } else if op in {COMPL, LPAREN, NOT} {
              ok := lop;
              if ok {
                ok := Stackop(op);
              }
            } else {
              ok := !lop;
              if ok {
                lop := op != RPAREN;
                ok := Stackop(op);
              }
            }
        }
        if !ok {
          assert Feed(st, ts[i]) == Syntax;
          StaysSyntax(ts, i + 1);
          return None;
        }
      }
      assert ts[..|ts|] == ts;
      if lop {
        return None;
      }
      var ok := Stackop(CEOF);
      r := if ok && |opns| == 1 then Some(opns[0]) else None;
    }
  }

  lemma {:induction false} StaysSyntax(ts: seq<Token>, i: nat)
    requires i <= |ts| && FeedAll(START, ts[..i]) == Syntax
    ensures FeedAll(START, ts) == Syntax
    decreases |ts| - i
  {
    if i < |ts| {
      assert ts[..i + 1][..i] == ts[..i];
      StaysSyntax(ts, i + 1);
    } else {
      assert ts[..i] == ts;
    }
  }
}
