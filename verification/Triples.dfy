/** Widened products of three factors, which the canonicalizer's main theorem leaves
    out: what becomes of them, and when that has the value of the product. */
module Triples {
  import opened Word
  import opened Icode
  import opened Fold
  import opened Group
  import opened Regroup
  import opened Canon
  import opened Commuting
  import opened SwitchRules
  import opened Widths

  // ---- the sort ----

  /** A variable as it is numbered. */
  function Numbered(y: Tree): (n: Tree)
    requires IntVar(y)
    ensures IntVar(n)
  {
    Sym(y.id, y.ty, y.isReg, if y.isReg then SU_REG else SU_ADDR)
  }

  predicate Vars(s: seq<Tree>) { forall i :: 0 <= i < |s| ==> IntVar(s[i]) && s[i] == Numbered(s[i]) }

  /** Registers go first; nothing else moves a variable. */
  lemma HarderVars(x: Tree, y: Tree)
    requires IntVar(x) && IntVar(y) && x == Numbered(x) && y == Numbered(y)
    ensures Harder(x, y) == (x.isReg && !y.isReg, x, y)
  {
  }

  lemma StepVars(s: seq<Tree>, p: nat, q: nat)
    requires Vars(s) && p <= q < |s|
    ensures Step(s, p, q) == if s[q].isReg && !s[p].isReg then Swapped(s, p, q) else s
  {
    HarderVars(s[q], s[p]);
    assert s[q := s[q]][p := s[p]] == s;
  }

  /** Three variables in the order the sort leaves. */
  function Ordered(a: Tree, b: Tree, c: Tree): (s: seq<Tree>)
    requires IntVar(a) && IntVar(b) && IntVar(c)
    ensures |s| == 3
  {
    if !c.isReg then (if !a.isReg && b.isReg then [b, a, c] else [a, b, c])
    else if a.isReg then (if b.isReg then [a, b, c] else [a, c, b])
    else if b.isReg then [b, c, a]
    else [c, b, a]
  }

  /** The factor multiplied last: the last one that is no register, except that a
      register behind others that are none changes places with the first of these. */
  function LastFactor(a: Tree, b: Tree, c: Tree): Tree
    requires IntVar(a) && IntVar(b) && IntVar(c)
  {
    if !c.isReg || (a.isReg && b.isReg) then c else if !a.isReg then a else b
  }

  lemma LastOrdered(a: Tree, b: Tree, c: Tree)
    requires IntVar(a) && IntVar(b) && IntVar(c)
    ensures Ordered(a, b, c)[2] == LastFactor(a, b, c)
  {
  }

  lemma RoundVars(s: seq<Tree>, p: nat)
    requires Vars(s) && |s| == 3 && p <= 2
    ensures p == 0 ==> Exchanged(s, 0, 0) == Step(Step(s, 0, 1), 0, 2)
    ensures p == 1 ==> Exchanged(s, 1, 1) == Step(s, 1, 2)
    ensures p == 2 ==> Exchanged(s, 2, 2) == s
  {
    StepVars(s, p, p);
    assert Exchanged(s, p, p) == Exchanged(s, p, p + 1);
    if p == 1 {
      assert Exchanged(s, 1, 2) == Exchanged(Step(s, 1, 2), 1, 3);
    } else if p == 0 {
      var s1 := Step(s, 0, 1);
      assert Exchanged(s, 0, 1) == Exchanged(s1, 0, 2) == Exchanged(Step(s1, 0, 2), 0, 3);
    }
  }

  lemma SortedVars(s: seq<Tree>)
    requires Vars(s) && |s| == 3
    ensures Sorted(s, 0) == Step(Step(Step(s, 0, 1), 0, 2), 1, 2)
  {
    var s1 := Step(s, 0, 1);
    StepVars(s, 0, 1);
    var s2 := Step(s1, 0, 2);
    StepVars(s1, 0, 2);
    var s3 := Step(s2, 1, 2);
    StepVars(s2, 1, 2);
    RoundVars(s, 0);
    RoundVars(s2, 1);
    RoundVars(s3, 2);
    assert Sorted(s, 0) == Sorted(s2, 1) == Sorted(s3, 2) == Sorted(s3, 3);
  }

  lemma SortedThree(a: Tree, b: Tree, c: Tree)
    requires Vars([a, b, c])
    ensures IntVar([a, b, c][0]) && IntVar([a, b, c][1]) && IntVar([a, b, c][2])
    ensures Sorted([a, b, c], 0) == Ordered(a, b, c) && Vars(Ordered(a, b, c))
  {
    var s := [a, b, c];
    assert IntVar(s[0]) && IntVar(s[1]) && IntVar(s[2]);
    SortedVars(s);
    StepVars(s, 0, 1);
    var s1 := Step(s, 0, 1);
    StepVars(s1, 0, 2);
    var s2 := Step(s1, 0, 2);
    StepVars(s2, 1, 2);
  }

  // ---- the products ----

  /** (a * b) * c, the outer product of this type. */
  function Triple(ty: Ty, s: seq<Tree>, k: int, l: int): Tree
    requires |s| == 3
  {
    Bin(MULT, ty, Bin(MULT, INT, s[0], s[1], k), s[2], l)
  }

  lemma RegroupedThree(ty: Ty, s: seq<Tree>, hs: seq<Head>)
    requires Vars(s) && |s| == 3 && |hs| == 2 && hs[0].ty == INT && hs[1].ty == ty && ty != UNSIGNED
    ensures IntVar(s[0]) && IntVar(s[1]) && IntVar(s[2])
    ensures Regrouped(MULT, ty, s, hs) == Triple(ty, Ordered(s[0], s[1], s[2]), hs[0].su, hs[1].su)
  {
    assert s == [s[0], s[1], s[2]];
    SortedThree(s[0], s[1], s[2]);
    var u := Ordered(s[0], s[1], s[2]);
    assert IntVar(u[0]) && IntVar(u[1]) && IntVar(u[2]);
    var h := Head(ty, 0);
    assert FoldAt(MULT, h, u, 2) == Folded(u, false) by {
      FoldAtConst(MULT, h, u, 2);
    }
    assert FoldLoop(MULT, h, u, 2, 2) == FoldLoop(MULT, h, u, 2, 1) == u[..3] == u;
    RebuiltThree(u, hs);
    assert hs[..2] == hs;
  }

  lemma RebuiltThree(u: seq<Tree>, hs: seq<Head>)
    requires |u| == 3 && |hs| == 2 && IntVar(u[0]) && IntVar(u[1]) && IntVar(u[2]) && hs[0].ty == INT
    ensures Rebuilt(MULT, u, hs) == Triple(hs[1].ty, u, hs[0].su, hs[1].su)
  {
    RebuiltTwo(MULT, u[..2], hs[..1]);
  }

  // ---- the two rounds ----

  /** The product of three variables, nested to the left or to the right. */
  predicate ThreeVars(m: Tree, a: Tree, b: Tree, c: Tree, k: int, l: int) {
    && IntVar(a) && IntVar(b) && IntVar(c)
    && (m == Bin(MULT, INT, Bin(MULT, INT, a, b, k), c, l) || m == Bin(MULT, INT, a, Bin(MULT, INT, b, c, k), l))
  }

  lemma NumberedTriple(m: Tree, a: Tree, b: Tree, c: Tree, k: int, l: int, n: int) returns (k': int, l': int)
    requires ThreeVars(m, a, b, c, k, l)
    ensures ThreeVars(Sucomp(m, n), Numbered(a), Numbered(b), Numbered(c), k', l')
  {
    var s := Sucomp(m, n);
    l' := s.su;
    if m.left.Bin? {
      k' := Sucomp(m.left, n).su;
      PairNumbered(a, b, k, n);
      VarNumbered(c, RightRegs(k', n));
      assert s == Bin(MULT, INT, Sucomp(m.left, n), Numbered(c), l');
    } else {
      var r := RightRegs(Sucomp(a, n).su, n);
      k' := Sucomp(m.right, r).su;
      PairNumbered(b, c, k, r);
      assert s == Bin(MULT, INT, Numbered(a), Sucomp(m.right, r), l');
    }
  }

  lemma VarNumbered(c: Tree, n: int)
    requires IntVar(c)
    ensures Sucomp(c, n) == Numbered(c)
  {
  }

  lemma PairNumbered(a: Tree, b: Tree, k: int, n: int)
    requires IntVar(a) && IntVar(b)
    ensures var s := Sucomp(Bin(MULT, INT, a, b, k), n); s == Bin(MULT, INT, Numbered(a), Numbered(b), s.su)
  {
    var r := RightRegs(Sucomp(a, n).su, n);
    assert Sucomp(a, n) == Numbered(a) && Sucomp(b, r) == Numbered(b);
  }

  lemma VarsOf(a: Tree, b: Tree, c: Tree)
    requires IntVar(a) && IntVar(b) && IntVar(c)
    ensures Vars([Numbered(a), Numbered(b), Numbered(c)])
  {
  }

  lemma CommutesTriple(m: Tree, a: Tree, b: Tree, c: Tree, k: int, l: int)
    requires ThreeVars(m, a, b, c, k, l) && Vars([a, b, c])
    ensures CommuteTree(m) == Triple(INT, Ordered(a, b, c), k, l)
  {
    var s, hs := [a, b, c], [Head(INT, k), Head(INT, l)];
    FlatTriple(m, a, b, c, k, l);
    CommutesTo(m, s);
    RegroupedThree(INT, s, hs);
  }

  lemma FlatTriple(m: Tree, a: Tree, b: Tree, c: Tree, k: int, l: int)
    requires ThreeVars(m, a, b, c, k, l)
    ensures Flat(MULT, m) == [a, b, c] && Heads(MULT, m) == [Head(INT, k), Head(INT, l)]
  {
    assert Flat(MULT, a) == [a] && Flat(MULT, b) == [b] && Flat(MULT, c) == [c];
    if m.left.Bin? {
      assert Flat(MULT, m.left) == [a, b] && Heads(MULT, m.left) == [Head(INT, k)];
    } else {
      assert Flat(MULT, m.right) == [b, c] && Heads(MULT, m.right) == [Head(INT, k)];
    }
  }

  /** A product of a narrow tree and a variable is left alone. */
  lemma ProductStays(ty: Ty, x: Tree, y: Tree, su: int)
    requires IntVar(y) && !IsConst(x) && TypeOf(x) == INT && !x.Clong?
    ensures var t := Bin(MULT, ty, x, y, su); Turn(t) == Brk(t)
  {
  }

  lemma PairStays(p: Tree, q: Tree, k: int)
    requires IntVar(p) && IntVar(q)
    ensures var t := Bin(MULT, INT, p, q, k); OptimizesTo(t, t, 0)
  {
    var t := Bin(MULT, INT, p, q, k);
    ProductStays(INT, p, q, k);
    EndsHere(t);
    VarTo(p);
    VarTo(q);
    BinTo(MULT, INT, p, q, k, p, 0, q, 0, t, 0);
  }

  lemma TripleStays(ty: Ty, s: seq<Tree>, k: int, l: int)
    requires |s| == 3 && IntVar(s[0]) && IntVar(s[1]) && IntVar(s[2])
    ensures var t := Triple(ty, s, k, l); OptimizesTo(t, t, 0) && Turn(t) == Brk(t)
  {
    var p, t := Bin(MULT, INT, s[0], s[1], k), Triple(ty, s, k, l);
    PairStays(s[0], s[1], k);
    ProductStays(ty, p, s[2], l);
    EndsHere(t);
    VarTo(s[2]);
    BinTo(MULT, ty, p, s[2], l, p, 0, s[2], 0, t, 0);
  }

  lemma WidenedTriple(s: seq<Tree>, k: int, l: int, su: int)
    requires |s| == 3 && IntVar(s[0]) && IntVar(s[1]) && IntVar(s[2])
    ensures OptimizesTo(Un(INT2L, LONG, Triple(INT, s, k, l), su), Triple(LONG, s, k, l), 1)
  {
    var m, u := Triple(INT, s, k, l), Triple(LONG, s, k, l);
    var t := Un(INT2L, LONG, m, su);
    TripleStays(INT, s, k, l);
    TripleStays(LONG, s, k, l);
    EndsHere(u);
    assert Turn(t) == Cont(u);
    UnTo(INT2L, LONG, m, su, m, 0, u, 1);
  }

  /** The first round widens the outer product. */
  lemma FirstRound(t: Tree, m: Tree, a: Tree, b: Tree, c: Tree, k: int, l: int) returns (k': int, l': int)
    requires ThreeVars(m, a, b, c, k, l) && t.Un? && t.uop == INT2L && t.ty == LONG && t.arg == m
    ensures RoundTo(t, Triple(LONG, Ordered(Numbered(a), Numbered(b), Numbered(c)), k', l'), 1)
  {
    var s := Sucomp(t, 0);
    k', l' := NumberedTriple(m, a, b, c, k, l, 0);
    VarsOf(a, b, c);
    var u := Ordered(Numbered(a), Numbered(b), Numbered(c));
    CommutesTriple(s.arg, Numbered(a), Numbered(b), Numbered(c), k', l');
    WidenedTriple(u, k', l', s.su);
  }

  lemma OrderedTwice(a: Tree, b: Tree, c: Tree)
    requires IntVar(a) && IntVar(b) && IntVar(c)
    ensures var u := Ordered(a, b, c);
      IntVar(u[0]) && IntVar(u[1]) && IntVar(u[2]) && Ordered(u[0], u[1], u[2]) == u
  {
  }

  lemma FlatLong(s: seq<Tree>, k: int, l: int)
    requires |s| == 3 && IntVar(s[0]) && IntVar(s[1]) && IntVar(s[2])
    ensures Flat(MULT, Triple(LONG, s, k, l)) == s
    ensures Heads(MULT, Triple(LONG, s, k, l)) == [Head(INT, k), Head(LONG, l)]
  {
    assert Flat(MULT, s[0]) == [s[0]] && Flat(MULT, s[1]) == [s[1]] && Flat(MULT, s[2]) == [s[2]];
    assert Flat(MULT, Bin(MULT, INT, s[0], s[1], k)) == [s[0], s[1]];
    assert Heads(MULT, Bin(MULT, INT, s[0], s[1], k)) == [Head(INT, k)];
    assert s == [s[0], s[1], s[2]];
  }

  /** The second one collects the factors of both products and changes nothing. */
  lemma SecondRound(s: seq<Tree>, k: int, l: int) returns (k': int, l': int)
    requires Vars(s) && |s| == 3 && IntVar(s[0]) && IntVar(s[1]) && IntVar(s[2]) && Ordered(s[0], s[1], s[2]) == s
    ensures RoundTo(Triple(LONG, s, k, l), Triple(LONG, s, k', l'), 0)
  {
    var t := Sucomp(Triple(LONG, s, k, l), 0);
    k', l' := t.left.su, t.su;
    PairNumbered(s[0], s[1], k, 0);
    VarNumbered(s[2], RightRegs(k', 0));
    assert t == Bin(MULT, LONG, Sucomp(Bin(MULT, INT, s[0], s[1], k), 0), Numbered(s[2]), l');
    FlatLong(s, k', l');
    CommutesTo(t, s);
    RegroupedThree(LONG, s, [Head(INT, k'), Head(LONG, l')]);
    TripleStays(LONG, s, k', l');
  }

  // ---- the value ----

  lemma PartialProduct(x: int, y: int, z: int)
    requires In16(x) && In16(y) && In16(z) && In16(x * y * z)
    ensures In16(Wrap16(x * y) * z) <==> !(x * y * z == -HALF16 && z == -1)
  {
    var p := x * y;
    if In16(p) {
      Wrap16Id(p);
    } else if z != 0 {
      MulBeyond(p, z);
      Wrap16Shift(-HALF16, 1);
    }
  }

  lemma MulBeyond(p: int, z: int)
    requires z != 0 && !In16(p)
    ensures In16(p * z) <==> p == HALF16 && z == -1
  {
    var q, d := if p > 0 then p else 0 - p, if z > 0 then z else 0 - z;
    assert p * z == q * d || p * z == 0 - q * d;
    MulAtLeast(d, q);
    if d >= 2 {
      MulAtLeast(d - 1, q);
      assert d * q == (d - 1) * q + q;
    }
  }

  lemma TripleValue(x: int, y: int, z: int)
    requires In16(x) && In16(y) && In16(z) && In16(x * y * z)
    ensures Wrap32(Times(Wrap16(Times(x, y)), z)) == x * y * z <==> !(x * y * z == -HALF16 && z == -1)
  {
    var p := Wrap16(x * y);
    PartialProduct(x, y, z);
    ProductFits32(p, z);
    Wrap32Id(p * z);
    Wrap16Mul(x * y, z);
    if In16(p * z) {
      Wrap16Id(p * z);
      Wrap16Id(x * y * z);
    }
  }

  lemma NestedValue(x: int, y: int, z: int)
    requires In16(x * y * z)
    ensures Wrap16(Times(Wrap16(Times(x, y)), z)) == Wrap16(Times(x, Wrap16(Times(y, z)))) == x * y * z
  {
    Wrap16Id(x * y * z);
    Wrap16Mul(x * y, z);
    Wrap16Mul(y * z, x);
    assert y * z * x == x * y * z by {
      ProductOrders(x, y, z);
    }
    assert x * Wrap16(y * z) == Wrap16(y * z) * x;
  }

  lemma ProductValue(m: Tree, a: Tree, b: Tree, c: Tree, k: int, l: int, env: Env)
    requires ThreeVars(m, a, b, c, k, l) && In16(Eval(a, env) * Eval(b, env) * Eval(c, env))
    ensures Eval(m, env) == Eval(a, env) * Eval(b, env) * Eval(c, env)
  {
    NestedValue(Eval(a, env), Eval(b, env), Eval(c, env));
  }

  lemma OrderedProduct(a: Tree, b: Tree, c: Tree, env: Env)
    requires IntVar(a) && IntVar(b) && IntVar(c)
    ensures var s := Ordered(Numbered(a), Numbered(b), Numbered(c));
      && Eval(s[0], env) * Eval(s[1], env) * Eval(s[2], env) == Eval(a, env) * Eval(b, env) * Eval(c, env)
      && Eval(s[2], env) == Eval(LastFactor(a, b, c), env)
  {
    var x, y, z := Eval(a, env), Eval(b, env), Eval(c, env);
    assert Eval(Numbered(a), env) == x && Eval(Numbered(b), env) == y && Eval(Numbered(c), env) == z;
    LastOrdered(Numbered(a), Numbered(b), Numbered(c));
    ProductOrders(x, y, z);
  }

  lemma ProductOrders(x: int, y: int, z: int)
    ensures y * x * z == x * y * z && x * z * y == x * y * z && y * z * x == x * y * z && z * y * x == x * y * z
  {
    assert x * z * y == x * (z * y) == x * (y * z);
    assert y * z * x == x * (y * z);
    assert z * y * x == x * (z * y);
  }

  /** What canon leaves of a widened product of three variables has the value of the
      product, where that fits in 16 bits, exactly unless it is -32768 and the
      factor the sort puts last is -1. */
  lemma ThreeFactors(t: Tree, m: Tree, a: Tree, b: Tree, c: Tree, k: int, l: int) returns (u1: Tree, u2: Tree)
    requires ThreeVars(m, a, b, c, k, l) && t.Un? && t.uop == INT2L && t.ty == LONG && t.arg == m
    ensures RoundTo(t, u1, 1) && RoundTo(u1, u2, 0)
    ensures forall env :: In16(Eval(a, env) * Eval(b, env) * Eval(c, env)) ==>
      (Eval(u2, env) == Eval(t, env) <==>
       !(Eval(a, env) * Eval(b, env) * Eval(c, env) == -HALF16 && Eval(LastFactor(a, b, c), env) == -1))
  {
    var s := Ordered(Numbered(a), Numbered(b), Numbered(c));
    VarsOf(a, b, c);
    SortedThree(Numbered(a), Numbered(b), Numbered(c));
    OrderedTwice(Numbered(a), Numbered(b), Numbered(c));
    var k1, l1 := FirstRound(t, m, a, b, c, k, l);
    u1 := Triple(LONG, s, k1, l1);
    var k2, l2 := SecondRound(s, k1, l1);
    u2 := Triple(LONG, s, k2, l2);
    forall env | In16(Eval(a, env) * Eval(b, env) * Eval(c, env))
      ensures Eval(u2, env) == Eval(t, env) <==>
        !(Eval(a, env) * Eval(b, env) * Eval(c, env) == -HALF16 && Eval(LastFactor(a, b, c), env) == -1)
    {
      ProductValue(m, a, b, c, k, l, env);
      OrderedProduct(a, b, c, env);
      TripleValue(Eval(s[0], env), Eval(s[1], env), Eval(s[2], env));
      TripleEval(s, k2, l2, env);
    }
  }

  lemma TripleEval(s: seq<Tree>, k: int, l: int, env: Env)
    requires |s| == 3
    ensures Eval(Triple(LONG, s, k, l), env)
      == Wrap32(Times(Wrap16(Times(Eval(s[0], env), Eval(s[1], env))), Eval(s[2], env)))
  {
  }
}
