/** What stays behind because it was met too early: a long product that had become a
    library call before its factor was a literal, and a literal that was converted
    twice over when the operands were sorted. */
module Lowered {
  import opened Word
  import opened Icode
  import opened Fold
  import opened Group
  import opened Regroup
  import opened NormalForm
  import opened Commuting
  import opened GroupShape
  import opened Canon
  import opened Widths

  // ---- a long factor that becomes a literal late ----

  predicate LongVar(y: Tree) { y.Sym? && y.ty == LONG }

  /** A long product of a variable y and, on its left or right, another factor that
      commuting makes x, which is no constant but is optimized to a literal. */
  ghost predicate TurnsLong(t: Tree, y: Tree, x: Tree, yLeft: bool, v: int, k: int, n: nat) {
    && t.Bin? && t.op == MULT && t.ty == LONG && LongVar(y) && Factors(Sucomp(t, 0), y, x, yLeft)
    && !IsConst(x) && In32(v) && OptimizesTo(x, Clong(v, k), n)
  }

  lemma LongCommuted(t: Tree, y: Tree, x: Tree, yLeft: bool, v: int, k: int, n: nat)
    requires TurnsLong(t, y, x, yLeft, v, k, n)
    ensures var s := Sucomp(t, 0);
      CommuteTree(s) == if VarFirst(y, x, yLeft) then Bin(MULT, LONG, y, x, s.su) else Bin(MULT, LONG, x, y, s.su)
  {
    var s := Sucomp(t, 0);
    assert Norm(x) == x && Norm(y) == y && !InGroup(MULT, s.left) && !InGroup(MULT, s.right);
    hide OptimizesTo, Harder, CommuteTree;
    if yLeft {
      CommutesPair(MULT, LONG, s.left, s.right, s.su, y, x);
    } else {
      CommutesPair(MULT, LONG, s.left, s.right, s.su, x, y);
    }
  }

  predicate LibraryCall(t: Tree) { t.Bin? && t.op == LMULT }

  lemma ShiftEnds(y: Tree, i: int, k: int, su: int)
    requires LongVar(y) && i > 0
    ensures var u := Bin(LSH, LONG, y, Cint(i, k), su); LoopEnds(u, u, 0)
  {
    EndsHere(Bin(LSH, LONG, y, Cint(i, k), su));
  }

  /** The variable first: the literal is seen, and reduced if it can be. */
  lemma LiteralSeen(y: Tree, v: int, k: int, su: int) returns (u: Tree, c: nat)
    requires LongVar(y) && In32(v)
    ensures LoopEnds(Bin(MULT, LONG, y, Clong(v, k), su), u, c)
    ensures LibraryCall(u) <==> !(v == -1 || v in BITS)
  {
    var t := Bin(MULT, LONG, y, Clong(v, k), su);
    BitsOf(v);
    assert 1 == BITS[0];
    if v == 1 {
      u, c := y, 1;
    } else if v == -1 {
      u, c := Un(UMINUS, LONG, y, su), 1;
      EndsHere(u);
    } else if v in BITS {
      u, c := Bin(LSH, LONG, y, Cint(OneBit(v), k), su), 1;
      assert Turn(t) == Cont(u);
      assert OneBit(v) != 0;
      ShiftEnds(y, OneBit(v), k, su);
    } else {
      u, c := Bin(LMULT, LONG, y, Clong(v, k), su), 0;
    }
  }

  /** After one round such a product is a library call exactly when the literal is
      none that a product can be reduced by, or the sort had put the other factor
      first, so that the literal stands on the left. */
  lemma LateLong(t: Tree, y: Tree, x: Tree, yLeft: bool, v: int, k: int, n: nat) returns (u: Tree, c: nat)
    requires TurnsLong(t, y, x, yLeft, v, k, n)
    ensures RoundTo(t, u, c)
    ensures LibraryCall(u) <==> !VarFirst(y, x, yLeft) || !(v == -1 || v in BITS)
  {
    hide Sucomp, Harder, CommuteTree;
    var su := Sucomp(t, 0).su;
    LongCommuted(t, y, x, yLeft, v, k, n);
    VarTo(y);
    if VarFirst(y, x, yLeft) {
      var d;
      u, d := LiteralSeen(y, v, k, su);
      BinTo(MULT, LONG, y, x, su, y, 0, Clong(v, k), n, u, d);
      c := n + d;
    } else {
      u := Bin(LMULT, LONG, Clong(v, k), y, su);
      assert Turn(Bin(MULT, LONG, Clong(v, k), y, su)) == Brk(u);
      BinTo(MULT, LONG, x, y, su, Clong(v, k), n, y, 0, u, 0);
      c := n;
    }
  }

  /** And a library call stays one, in whatever rounds may follow. */
  lemma CallForever(t: Tree, u: Tree, n: nat)
    requires LibraryCall(t) && RoundTo(t, u, n)
    ensures LibraryCall(u)
  {
    var s := CommuteTree(Sucomp(t, 0));
    var x, c, y, d := BinParts(s, u, n);
    assert Turn(Bin(LMULT, s.ty, x, y, s.su)).Brk?;
  }

  /** (z | -1) * y in longs, the variables in memory. */
  function OrCall(z: Tree, y: Tree): Tree {
    Bin(MULT, LONG, Bin(OR, LONG, z, Clong(-1, 0), 0), y, 0)
  }

  predicate LongMem(y: Tree) { LongVar(y) && !y.isReg && y.su == SU_ADDR }

  lemma OrNumberedLong(z: Tree, y: Tree) returns (su: int)
    requires LongMem(z) && LongMem(y)
    ensures Sucomp(OrCall(z, y), 0) == Bin(MULT, LONG, Bin(OR, LONG, z, Clong(-1, SU_QUICK), SU_EASY), y, su)
  {
    var x := Bin(OR, LONG, z, Clong(-1, SU_QUICK), SU_EASY);
    assert Sucomp(z, 0) == z && Sucomp(Clong(-1, 0), RightRegs(z.su, 0)) == Clong(-1, SU_QUICK);
    assert Sucomp(OrCall(z, y).left, 0) == x;
    assert Sucomp(y, RightRegs(x.su, 0)) == y;
    su := Sucomp(OrCall(z, y), 0).su;
  }

  /** Such a product ends as a library call that multiplies by -1. */
  lemma CallByMinusOne(z: Tree, y: Tree) returns (u: Tree, c: nat)
    requires LongMem(z) && LongMem(y)
    ensures RoundTo(OrCall(z, y), u, c) && LibraryCall(u)
  {
    var su := OrNumberedLong(z, y);
    var m := Clong(-1, SU_QUICK);
    var x := Bin(OR, LONG, z, m, SU_EASY);
    assert CommuteTree(z) == z && CommuteTree(m) == m;
    CommutesPair(OR, LONG, z, m, SU_EASY, z, m);
    VarTo(z);
    VarTo(m);
    EndsHere(m);
    assert Turn(x) == Cont(m);
    BinTo(OR, LONG, z, m, SU_EASY, z, 0, m, 0, m, 1);
    u, c := LateLong(OrCall(z, y), y, x, false, -1, SU_QUICK, 1);
  }

  // ---- a literal converted twice over ----

  /** (long)(int)v + y, y a variable in memory. */
  function TwiceConverted(v: int, y: Tree): Tree {
    Bin(ADD, LONG, Un(INT2L, LONG, Un(LONG2I, INT, Clong(v, 0), 0), 0), y, 0)
  }

  lemma TwiceNumbered(v: int, y: Tree) returns (k: int, a: int, b: int, c: int)
    requires LongVar(y) && !y.isReg && y.su == SU_ADDR
    ensures Sucomp(TwiceConverted(v, y), 0) ==
      Bin(ADD, LONG, Un(INT2L, LONG, Un(LONG2I, INT, Clong(v, k), a), b), y, c)
    ensures b == SU_EASY
  {
    var s := Sucomp(TwiceConverted(v, y), 0);
    var i := Sucomp(Un(LONG2I, INT, Clong(v, 0), 0), 0);
    var l := Sucomp(Clong(v, 0), 0);
    assert l == Clong(v, l.su) && l.su <= SU_ADDR && i.arg == l;
    k, a, b, c := i.arg.su, i.su, s.left.su, s.su;
    assert i == Un(LONG2I, INT, Clong(v, k), a) && a == SU_EASY;
    assert s.left == Sucomp(Un(INT2L, LONG, Un(LONG2I, INT, Clong(v, 0), 0), 0), 0) == Un(INT2L, LONG, i, b);
    assert s.right == Sucomp(y, RightRegs(b, 0)) == y;
  }

  /** The sum ends with the literal on its left, and no round moves it any more. */
  lemma LiteralLeft(v: int, y: Tree) returns (u: Tree)
    requires LongVar(y) && !y.isReg && y.su == SU_ADDR && In32(v)
    ensures RoundTo(TwiceConverted(v, y), u, 0) && Normal(u)
    ensures u.Bin? && u.op == ADD && u.left.Clong? && u.right == y && !Gathered(u)
  {
    var k, a, b, c := TwiceNumbered(v, y);
    var i := Un(LONG2I, INT, Clong(v, k), a);
    var p := Un(INT2L, LONG, i, b);
    var s := Bin(ADD, LONG, p, y, c);
    SumStays(p, y, c);
    VarTo(i.arg);
    FixedTo(i, i.arg);
    u := Bin(ADD, LONG, Clong(Wrap16(v), b), y, c);
    SumEnds(p, i, y, v, c, u);
  }

  lemma CommutesLeaf(t: Tree)
    requires Leaf(t)
    ensures CommuteTree(t) == t
  {
  }

  lemma CommutesUn(t: Tree)
    requires t.Un? && CommuteTree(t.arg) == t.arg
    ensures CommuteTree(t) == t
  {
  }

  lemma SumStays(p: Tree, y: Tree, c: int)
    requires LongVar(y) && !y.isReg && y.su == SU_ADDR
    requires p.Un? && p.arg.Un? && Leaf(p.arg.arg) && p.su == SU_EASY
    ensures CommuteTree(Bin(ADD, LONG, p, y, c)) == Bin(ADD, LONG, p, y, c)
  {
    CommutesLeaf(p.arg.arg);
    CommutesLeaf(y);
    CommutesUn(p.arg);
    CommutesUn(p);
    CommutesPair(ADD, LONG, p, y, c, p, y);
  }

  lemma SumEnds(p: Tree, i: Tree, y: Tree, v: int, su: int, u: Tree)
    requires p == Un(INT2L, LONG, i, p.su) && i.Un? && i.uop == LONG2I && i.arg.Clong? && i.arg.val == v
    requires OptimizesTo(i, i, 0) && LongVar(y) && u == Bin(ADD, LONG, Clong(Wrap16(v), p.su), y, su)
    ensures OptimizesTo(Bin(ADD, LONG, p, y, su), u, 0)
  {
    var q := Un(INT2L, LONG, Cint(Wrap16(v), i.su), p.su);
    assert Turn(p) == Brk(q);
    UnTo(INT2L, LONG, i, p.su, i, 0, q, 0);
    VarTo(y);
    assert Turn(Bin(ADD, LONG, q, y, su)) == Brk(u);
    BinTo(ADD, LONG, p, y, su, q, 0, y, 0, u, 0);
  }
}
