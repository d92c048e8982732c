/** Products below a widening with a factor that becomes a literal late, which the
    canonicalizer's main theorem leaves out: when their width survives. */
module Widths {
  import opened Word
  import opened Icode
  import opened Fold
  import opened Group
  import opened Regroup
  import opened Canon
  import opened Commuting
  import opened SwitchRules

  // ---- a factor that becomes a literal late ----

  /** What the loop at a node makes of y * v at type ty, v on the right. */
  function TimesLiteral(ty: Ty, y: Tree, v: int, k: int, su: int): Tree {
    if v == 1 then y
    else if v == -1 then Un(UMINUS, ty, y, su)
    else if TwoPower(v) then Bin(LSH, ty, y, Cint(OneBit(v), k), su)
    else Bin(MULT, ty, y, Cint(v, k), su)
  }

  predicate IntVar(y: Tree) { y.Sym? && y.ty == INT }

  lemma TwoPowerBit(v: int)
    requires In16(v)
    ensures TwoPower(v) <==> OneBit(v) >= 0
    ensures v != 1 && TwoPower(v) ==> 0 < OneBit(v) < 32
  {
    if Log2(v) >= 32 {
      Pow2Mono(32, Log2(v));
      Pow2Values();
    }
  }

  lemma ShiftFixed(ty: Ty, y: Tree, n: int, k: int, su: int)
    requires IntVar(y) && n > 0
    ensures var u := Bin(LSH, ty, y, Cint(n, k), su); Turn(u) == Brk(u)
  {
  }

  lemma MinusFixed(ty: Ty, y: Tree, su: int)
    requires IntVar(y)
    ensures var u := Un(UMINUS, ty, y, su); Turn(u) == Brk(u)
  {
  }

  lemma PlainFixed(ty: Ty, y: Tree, v: int, k: int, su: int)
    requires IntVar(y) && In16(v) && PlainFactor(v)
    ensures var u := Bin(MULT, ty, y, Cint(v, k), su); Turn(u) == Brk(u)
  {
    TwoPowerBit(v);
  }

  /** A literal left factor is not looked at. */
  lemma LeftFixed(ty: Ty, y: Tree, v: int, k: int, su: int)
    requires IntVar(y)
    ensures var u := Bin(MULT, ty, Cint(v, k), y, su); Turn(u) == Brk(u)
  {
  }

  lemma EndsHere(u: Tree)
    requires !Leaf(u) ==> Turn(u) == Brk(u)
    ensures LoopEnds(u, u, 0)
  {
  }

  lemma TimesLiteralTurns(ty: Ty, y: Tree, v: int, k: int, su: int)
    requires IntVar(y) && In16(v)
    ensures var t, u := Bin(MULT, ty, y, Cint(v, k), su), TimesLiteral(ty, y, v, k, su);
      && Turn(t) == (if PlainFactor(v) then Brk(t) else Cont(u))
      && (!Leaf(u) ==> Turn(u) == Brk(u))
  {
    TwoPowerBit(v);
    MinusFixed(ty, y, su);
    if PlainFactor(v) {
      PlainFixed(ty, y, v, k, su);
    } else if v != 1 && v != -1 {
      ShiftFixed(ty, y, OneBit(v), k, su);
    }
  }

  lemma TimesLiteralEnds(ty: Ty, y: Tree, v: int, k: int, su: int) returns (n: nat)
    requires IntVar(y) && In16(v)
    ensures LoopEnds(Bin(MULT, ty, y, Cint(v, k), su), TimesLiteral(ty, y, v, k, su), n)
  {
    n := if PlainFactor(v) then 0 else 1;
    TimesLiteralTurns(ty, y, v, k, su);
    EndsHere(TimesLiteral(ty, y, v, k, su));
  }

  // ---- how a pair of factors is commuted ----

  lemma StepSelf(s: seq<Tree>, p: nat)
    requires p < |s| && Norm(s[p]) == s[p]
    ensures Step(s, p, p) == s
  {
  }

  lemma SortedPair(p: Tree, q: Tree)
    requires Norm(p) == p && Norm(q) == q
    ensures Sorted([p, q], 0) == if Harder(q, p).0 then [q, p] else [p, q]
  {
    var s := [p, q];
    StepSelf(s, 0);
    var s1 := Step(s, 0, 1);
    assert s1 == if Harder(q, p).0 then [q, p] else [p, q];
    assert Exchanged(s, 0, 0) == Exchanged(s, 0, 1) == Exchanged(s1, 0, 2) == s1;
    StepSelf(s1, 1);
    assert Exchanged(s1, 1, 1) == Exchanged(s1, 1, 2) == s1;
    assert Sorted(s, 0) == Sorted(s1, 1) == Sorted(s1, 2) == s1;
  }

  lemma RegroupedPair(op: Bop, ty: Ty, p: Tree, q: Tree, h: Head)
    requires Norm(p) == p && Norm(q) == q
    ensures Regrouped(op, ty, [p, q], [h]) ==
      if Harder(q, p).0 then Bin(op, FixedTy(h.ty, q, p), q, p, h.su)
      else Bin(op, FixedTy(h.ty, p, q), p, q, h.su)
  {
    SortedPair(p, q);
    var u := Sorted([p, q], 0);
    assert u[..1 + 1] == u && [h][..1] == [h];
    RebuiltTwo(op, u, [h]);
  }

  lemma RebuiltTwo(op: Bop, s: seq<Tree>, hs: seq<Head>)
    requires |s| == 2 && |hs| == 1
    ensures Rebuilt(op, s, hs) == Bin(op, FixedTy(hs[0].ty, s[0], s[1]), s[0], s[1], hs[0].su)
  {
    var s0, hs0 := s[..1], hs[..0];
    assert |hs0| == 0 && Rebuilt(op, s0, hs0) == s0[0] == s[0];
  }

  lemma FlatPair(op: Bop, t: Tree)
    requires InGroup(op, t) && !InGroup(op, t.left) && !InGroup(op, t.right)
    ensures Flat(op, t) == [t.left, t.right] && Heads(op, t) == [Head(t.ty, t.su)]
  {
    assert Flat(op, t.left) == [t.left] && Flat(op, t.right) == [t.right];
    assert Heads(op, t.left) == [] && Heads(op, t.right) == [];
  }

  lemma CommutesPair(op: Bop, ty: Ty, l: Tree, r: Tree, su: int, p: Tree, q: Tree)
    requires CommOp(op) && !InGroup(op, l) && !InGroup(op, r) && p == CommuteTree(l) && q == CommuteTree(r)
    requires Norm(p) == p && Norm(q) == q
    ensures CommuteTree(Bin(op, ty, l, r, su)) ==
      if Harder(q, p).0 then Bin(op, FixedTy(ty, q, p), q, p, su) else Bin(op, FixedTy(ty, p, q), p, q, su)
  {
    var t := Bin(op, ty, l, r, su);
    FlatPair(op, t);
    CommutesTo(t, [p, q]);
    RegroupedPair(op, ty, p, q, Head(ty, su));
  }

  // ---- the first round ----

  /** A sum of parts the loop leaves alone. */
  lemma VarTo(y: Tree)
    requires Leaf(y)
    ensures OptimizesTo(y, y, 0) && Sucomp(y, 0).Sym? == y.Sym?
  {
  }

  /** The widened product with its literal in place and the variable first. */
  function WidenedLiteral(y: Tree, v: int, k: int, su: int, usu: int): Tree {
    if PlainFactor(v) then Bin(MULT, LONG, y, Cint(v, k), su)
    else Un(INT2L, LONG, TimesLiteral(INT, y, v, k, su), usu)
  }

  lemma WidenedLiteralEnds(y: Tree, v: int, k: int, su: int, usu: int) returns (n: nat)
    requires IntVar(y) && In16(v)
    ensures LoopEnds(Un(INT2L, LONG, TimesLiteral(INT, y, v, k, su), usu), WidenedLiteral(y, v, k, su, usu), n)
  {
    var m := TimesLiteral(INT, y, v, k, su);
    var t := Un(INT2L, LONG, m, usu);
    TwoPowerBit(v);
    if PlainFactor(v) {
      var u := Bin(MULT, LONG, y, Cint(v, k), su);
      PlainFixed(LONG, y, v, k, su);
      EndsHere(u);
      assert Turn(t) == Cont(u);
      n := 1;
    } else {
      assert v == 1 ==> Turn(t) == Brk(t);
      assert v == -1 ==> Turn(t) == Brk(t);
      assert Turn(t) == Brk(t);
      n := 0;
    }
  }

  /** The variable first: the literal is met before the widening. */
  lemma VarFirstRound(y: Tree, x: Tree, v: int, k: int, n: nat, su: int, usu: int) returns (c: nat)
    requires IntVar(y) && In16(v) && OptimizesTo(x, Cint(v, k), n)
    ensures OptimizesTo(Un(INT2L, LONG, Bin(MULT, INT, y, x, su), usu), WidenedLiteral(y, v, k, su, usu), c)
  {
    var m := TimesLiteral(INT, y, v, k, su);
    var i := TimesLiteralEnds(INT, y, v, k, su);
    var j := WidenedLiteralEnds(y, v, k, su, usu);
    VarTo(y);
    BinTo(MULT, INT, y, x, su, y, 0, Cint(v, k), n, m, i);
    UnTo(INT2L, LONG, Bin(MULT, INT, y, x, su), usu, m, n + i, WidenedLiteral(y, v, k, su, usu), j);
    c := n + i + j;
  }

  lemma WidenLeft(y: Tree, v: int, k: int, su: int, usu: int)
    requires IntVar(y)
    ensures LoopEnds(Un(INT2L, LONG, Bin(MULT, INT, Cint(v, k), y, su), usu), Bin(MULT, LONG, Cint(v, k), y, su), 1)
  {
    var t, u := Un(INT2L, LONG, Bin(MULT, INT, Cint(v, k), y, su), usu), Bin(MULT, LONG, Cint(v, k), y, su);
    LeftFixed(LONG, y, v, k, su);
    EndsHere(u);
    assert Turn(t) == Cont(u);
  }

  /** The literal first: nothing looks at it, and the product is widened. */
  lemma LiteralFirstRound(y: Tree, x: Tree, v: int, k: int, n: nat, su: int, usu: int) returns (c: nat)
    requires IntVar(y) && OptimizesTo(x, Cint(v, k), n)
    ensures OptimizesTo(Un(INT2L, LONG, Bin(MULT, INT, x, y, su), usu), Bin(MULT, LONG, Cint(v, k), y, su), c)
  {
    var m := Bin(MULT, INT, Cint(v, k), y, su);
    LeftFixed(INT, y, v, k, su);
    EndsHere(m);
    VarTo(y);
    BinTo(MULT, INT, x, y, su, Cint(v, k), n, y, 0, m, 0);
    WidenLeft(y, v, k, su, usu);
    UnTo(INT2L, LONG, Bin(MULT, INT, x, y, su), usu, m, n, Bin(MULT, LONG, Cint(v, k), y, su), 1);
    c := n + 1;
  }

  // ---- the second round ----

  /** A LONG tree of the kind the pass is given and should leave. */
  predicate LongTree(t: Tree) { WellTyped(t, DONE) && TypeOf(t) == LONG }

  lemma TimesLiteralWidth(y: Tree, v: int, k: int, su: int)
    requires IntVar(y) && In16(v)
    ensures LongTree(TimesLiteral(LONG, y, v, k, su)) <==> PlainFactor(v)
  {
    TwoPowerBit(v);
    var u := TimesLiteral(LONG, y, v, k, su);
    assert A(y).kind == IntK && WellTyped(y, DONE) && WellTyped(Cint(v, k), DONE);
    if PlainFactor(v) {
      assert WideFactor(A(y)) && WideFactor(A(Cint(v, k)));
    } else if v == -1 {
      assert !NodeOk1(UMINUS, LONG, y, DONE);
    } else if v != 1 {
      assert !NodeOk2(LSH, LONG, A(y), A(Cint(OneBit(v), k)), true);
    }
  }

  lemma LiteralLoses(y: Tree, v: int, k: int)
    requires IntVar(y) && y.su != SU_VHARD && k != SU_VHARD
    ensures Harder(y, Cint(v, k)).0 && !Harder(Cint(v, k), y).0
  {
  }

  /** A literal beside a variable is taken last, whichever came first. */
  lemma LiteralLast(y: Tree, v: int, k: int, su: int)
    requires IntVar(y) && y.su != SU_VHARD && k != SU_VHARD
    ensures CommuteTree(Bin(MULT, LONG, y, Cint(v, k), su)) == Bin(MULT, LONG, y, Cint(v, k), su)
    ensures CommuteTree(Bin(MULT, LONG, Cint(v, k), y, su)) == Bin(MULT, LONG, y, Cint(v, k), su)
  {
    var c := Cint(v, k);
    LiteralLoses(y, v, k);
    assert CommuteTree(y) == y && CommuteTree(c) == c;
    CommutesLeaves(y, c, su);
    CommutesLeaves(c, y, su);
  }

  lemma CommutesLeaves(a: Tree, b: Tree, su: int)
    requires Leaf(a) && Leaf(b)
    ensures CommuteTree(Bin(MULT, LONG, a, b, su)) ==
      if Harder(b, a).0 then Bin(MULT, LONG, b, a, su) else Bin(MULT, LONG, a, b, su)
  {
    CommutesPair(MULT, LONG, a, b, su, a, b);
  }

  /** The widened product with its literal on either side, numbered anew. */
  lemma ProductNumbered(t: Tree, y: Tree, v: int, k: int, su: int) returns (su': int)
    requires IntVar(y)
    requires t == Bin(MULT, LONG, y, Cint(v, k), su) || t == Bin(MULT, LONG, Cint(v, k), y, su)
    ensures var y', k' := Sucomp(y, 0), ConstSu(v);
      && IntVar(y') && y'.su != SU_VHARD && k' != SU_VHARD
      && (Sucomp(t, 0) == Bin(MULT, LONG, y', Cint(v, k'), su') ||
          Sucomp(t, 0) == Bin(MULT, LONG, Cint(v, k'), y', su'))
  {
    su' := Sucomp(t, 0).su;
  }

  lemma LongProductRound(t: Tree, y: Tree, v: int, k: int, su: int) returns (u: Tree, c: nat)
    requires IntVar(y) && In16(v)
    requires t == Bin(MULT, LONG, y, Cint(v, k), su) || t == Bin(MULT, LONG, Cint(v, k), y, su)
    ensures RoundTo(t, u, c) && (LongTree(u) <==> PlainFactor(v))
  {
    var su' := ProductNumbered(t, y, v, k, su);
    var y', k' := Sucomp(y, 0), ConstSu(v);
    LiteralLast(y', v, k', su');
    u := TimesLiteral(LONG, y', v, k', su');
    c := ProductOptimized(y', v, k', su');
    TimesLiteralWidth(y', v, k', su');
  }

  lemma ProductOptimized(y: Tree, v: int, k: int, su: int) returns (c: nat)
    requires IntVar(y) && In16(v)
    ensures OptimizesTo(Bin(MULT, LONG, y, Cint(v, k), su), TimesLiteral(LONG, y, v, k, su), c)
  {
    c := TimesLiteralEnds(LONG, y, v, k, su);
    VarTo(y);
    VarTo(Cint(v, k));
    BinTo(MULT, LONG, y, Cint(v, k), su, y, 0, Cint(v, k), 0, TimesLiteral(LONG, y, v, k, su), c);
  }

  lemma FixedTo(t: Tree, x: Tree)
    requires t.Un? && t.arg == x && OptimizesTo(x, x, 0) && Turn(t) == Brk(t)
    ensures OptimizesTo(t, t, 0)
  {
    EndsHere(t);
    UnTo(t.uop, t.ty, x, t.su, x, 0, t, 0);
  }

  /** A widened variable, or its widened negation or shift, stays as it is. */
  lemma WidenedRound(y: Tree, v: int, k: int, su: int, usu: int) returns (u: Tree)
    requires IntVar(y) && In16(v) && !PlainFactor(v)
    ensures RoundTo(Un(INT2L, LONG, TimesLiteral(INT, y, v, k, su), usu), u, 0) && LongTree(u)
  {
    TwoPowerBit(v);
    var t := Un(INT2L, LONG, TimesLiteral(INT, y, v, k, su), usu);
    u := Sucomp(t, 0);
    var w, m := Sucomp(y, 0), u.arg;
    VarTo(w);
    if v == 1 {
      WidenedStays(w, u.su);
    } else if v == -1 {
      assert m == Sucomp(Un(UMINUS, INT, y, su), 0) == Un(UMINUS, INT, w, m.su);
      MinusStays(w, m.su, u.su);
    } else {
      var n := OneBit(v);
      assert m == Sucomp(Bin(LSH, INT, y, Cint(n, k), su), 0) == Bin(LSH, INT, w, Cint(n, ConstSu(n)), m.su);
      ShiftStays(w, n, ConstSu(n), m.su, u.su);
    }
  }

  lemma WidenedStays(w: Tree, su: int)
    requires IntVar(w)
    ensures var u := Un(INT2L, LONG, w, su); CommuteTree(u) == u && OptimizesTo(u, u, 0) && LongTree(u)
  {
    VarTo(w);
    FixedTo(Un(INT2L, LONG, w, su), w);
  }

  lemma MinusStays(w: Tree, su: int, usu: int)
    requires IntVar(w)
    ensures var u := Un(INT2L, LONG, Un(UMINUS, INT, w, su), usu);
      CommuteTree(u) == u && OptimizesTo(u, u, 0) && LongTree(u)
  {
    var m := Un(UMINUS, INT, w, su);
    VarTo(w);
    MinusFixed(INT, w, su);
    FixedTo(m, w);
    assert CommuteTree(m) == m;
    FixedTo(Un(INT2L, LONG, m, usu), m);
    assert WellTyped(w, DONE) && A(w).kind == IntK;
    assert NodeOk1(UMINUS, INT, w, DONE) && WellTyped(m, DONE) && A(m).nest == 0;
  }

  lemma ShiftStays(w: Tree, n: int, k: int, su: int, usu: int)
    requires IntVar(w) && 0 < n < 32
    ensures var u := Un(INT2L, LONG, Bin(LSH, INT, w, Cint(n, k), su), usu);
      CommuteTree(u) == u && OptimizesTo(u, u, 0) && LongTree(u)
  {
    var m := Bin(LSH, INT, w, Cint(n, k), su);
    ShiftFixed(INT, w, n, k, su);
    EndsHere(m);
    VarTo(w);
    VarTo(Cint(n, k));
    BinTo(LSH, INT, w, Cint(n, k), su, w, 0, Cint(n, k), 0, m, 0);
    assert CommuteTree(m) == m;
    FixedTo(Un(INT2L, LONG, m, usu), m);
    ShiftWell(w, n, k);
    assert WellTyped(m, DONE) && A(m).kind == IntK;
  }

  lemma ShiftWell(w: Tree, n: int, k: int)
    requires IntVar(w) && 0 < n < 32
    ensures WellTyped(w, DONE) && WellTyped(Cint(n, k), DONE) && NodeOk2(LSH, INT, A(w), A(Cint(n, k)), true)
  {
  }

  // ---- both rounds ----

  /** A widened product of a variable y and, on its left or right, another factor
      that commuting makes x, which is no constant but is optimized to a literal. */
  ghost predicate TurnsLiteral(t: Tree, y: Tree, x: Tree, yLeft: bool, v: int, k: int, n: nat) {
    && t.Un? && t.uop == INT2L && t.ty == LONG && t.arg.Bin? && t.arg.op == MULT && t.arg.ty == INT
    && IntVar(y) && Factors(Sucomp(t, 0).arg, y, x, yLeft)
    && !IsConst(x) && TypeOf(x) != LONG && In16(v) && OptimizesTo(x, Cint(v, k), n)
  }

  predicate Factors(s: Tree, y: Tree, x: Tree, yLeft: bool) {
    && s.Bin? && y == (if yLeft then s.left else s.right)
    && var l := if yLeft then s.right else s.left; !InGroup(MULT, l) && x == CommuteTree(l)
  }

  /** The sort puts y first. */
  predicate VarFirst(y: Tree, x: Tree, yLeft: bool) {
    if yLeft then !Harder(x, y).0 else Harder(y, x).0
  }

  lemma FirstCommuted(t: Tree, y: Tree, x: Tree, yLeft: bool, v: int, k: int, n: nat)
    requires TurnsLiteral(t, y, x, yLeft, v, k, n)
    ensures var s := Sucomp(t, 0);
      CommuteTree(s) == Un(INT2L, LONG,
        if VarFirst(y, x, yLeft) then Bin(MULT, INT, y, x, s.arg.su) else Bin(MULT, INT, x, y, s.arg.su), s.su)
  {
    var p := Sucomp(t, 0).arg;
    assert Norm(x) == x && Norm(y) == y && !InGroup(MULT, p.left) && !InGroup(MULT, p.right);
    hide OptimizesTo, Harder;
    if yLeft {
      CommutesPair(MULT, INT, p.left, p.right, p.su, y, x);
    } else {
      CommutesPair(MULT, INT, p.left, p.right, p.su, x, y);
    }
  }

  /** After two rounds the width is kept exactly when the literal was met below the
      widening, the variable having been sorted first, or is one that no rewrite of
      a product knows. */
  lemma LateLiteral(t: Tree, y: Tree, x: Tree, yLeft: bool, v: int, k: int, n: nat)
      returns (u1: Tree, n1: nat, u2: Tree, n2: nat)
    requires TurnsLiteral(t, y, x, yLeft, v, k, n)
    ensures RoundTo(t, u1, n1) && RoundTo(u1, u2, n2)
    ensures LongTree(u2) <==> VarFirst(y, x, yLeft) || PlainFactor(v)
  {
    var s := Sucomp(t, 0);
    FirstCommuted(t, y, x, yLeft, v, k, n);
    if VarFirst(y, x, yLeft) {
      u1 := WidenedLiteral(y, v, k, s.arg.su, s.su);
      n1 := VarFirstRound(y, x, v, k, n, s.arg.su, s.su);
      if PlainFactor(v) {
        u2, n2 := LongProductRound(u1, y, v, k, s.arg.su);
      } else {
        u2 := WidenedRound(y, v, k, s.arg.su, s.su);
        n2 := 0;
      }
    } else {
      u1 := Bin(MULT, LONG, Cint(v, k), y, s.arg.su);
      n1 := LiteralFirstRound(y, x, v, k, n, s.arg.su, s.su);
      u2, n2 := LongProductRound(u1, y, v, k, s.arg.su);
    }
  }

  /** (long)((z | -1) * y), the variables in memory. */
  function OrProduct(z: Tree, y: Tree): Tree {
    Un(INT2L, LONG, Bin(MULT, INT, Bin(OR, INT, z, Cint(-1, 0), 0), y, 0), 0)
  }

  predicate MemVar(y: Tree) { IntVar(y) && !y.isReg && y.su == SU_ADDR }

  lemma MinusOneStays(z: Tree, k: int, su: int)
    requires MemVar(z) && k != SU_VHARD
    ensures CommuteTree(Bin(OR, INT, z, Cint(-1, k), su)) == Bin(OR, INT, z, Cint(-1, k), su)
  {
    LiteralLoses(z, -1, k);
    assert CommuteTree(z) == z && CommuteTree(Cint(-1, k)) == Cint(-1, k);
    CommutesPair(OR, INT, z, Cint(-1, k), su, z, Cint(-1, k));
  }

  lemma OrTurnsLiteral(z: Tree, k: int, su: int)
    requires IntVar(z)
    ensures OptimizesTo(Bin(OR, INT, z, Cint(-1, k), su), Cint(-1, k), 1)
  {
    var t, c := Bin(OR, INT, z, Cint(-1, k), su), Cint(-1, k);
    VarTo(z);
    VarTo(c);
    EndsHere(c);
    assert Turn(t) == Cont(c);
    BinTo(OR, INT, z, c, su, z, 0, c, 0, c, 1);
  }

  lemma OrNumbered(z: Tree, y: Tree)
    requires MemVar(z) && MemVar(y)
    ensures var s := Sucomp(OrProduct(z, y), 0);
      s.Un? && s.arg == Bin(MULT, INT, Bin(OR, INT, z, Cint(-1, SU_QUICK), SU_EASY), y, s.arg.su)
  {
    var x, p := Bin(OR, INT, z, Cint(-1, SU_QUICK), SU_EASY), OrProduct(z, y).arg;
    assert Sucomp(Bin(OR, INT, z, Cint(-1, 0), 0), 0) == x;
    assert Sucomp(y, 1) == y;
    assert Sucomp(p, 0) == Bin(MULT, INT, x, y, Sucomp(p, 0).su);
  }

  /** Such a product loses its width: it comes out as a long negation of an int. */
  lemma OrProductLost(z: Tree, y: Tree) returns (u1: Tree, n1: nat, u2: Tree, n2: nat)
    requires MemVar(z) && MemVar(y)
    ensures RoundTo(OrProduct(z, y), u1, n1) && RoundTo(u1, u2, n2) && !LongTree(u2)
  {
    var t := OrProduct(z, y);
    var k := SU_QUICK;
    var x := Bin(OR, INT, z, Cint(-1, k), SU_EASY);
    OrNumbered(z, y);
    MinusOneStays(z, k, SU_EASY);
    OrTurnsLiteral(z, k, SU_EASY);
    u1, n1, u2, n2 := LateLiteral(t, y, x, false, -1, k, 1);
  }
}
