/** The commuting pass over a tree: every commutative group collected, sorted, folded
    and rebuilt, every comparison with its harder operand on the left. */
module Commuting {
  import opened Word
  import opened Icode
  import opened Fold
  import opened Rules
  import opened FormRules
  import opened SwitchRules
  import opened Group
  import opened Regroup
  import opened Stable

  function SortedMode(low: bool): Mode { Mode(low, true, false) }
  function OpenMode(low: bool): Mode { Mode(low, false, false) }

  /** Of the products that rewriting may uncover in t, none has a factor that is a
      product or becomes a constant only later. */
  predicate FlatProducts(t: Tree) { A(t).okMul && A(t).nest <= 1 }

  /** u is what commuting may make of t. */
  ghost predicate Commuted(t: Tree, u: Tree, low: bool) {
    && WellTyped(u, SortedMode(low)) && Refines(t, u)
    && SuOk(u) && ConstRight(u)
    && (FlatProducts(t) ==> A(u).sorted)
  }

  lemma NormCommuted(t: Tree, u: Tree, v: Tree, low: bool)
    requires Commuted(t, u, low) && NormOf(v, u) && SuOk(v)
    ensures Commuted(t, v, low)
  {
    NormOk(u, []);
    forall env, lim, wide | Pre(t, env, lim, wide)
      ensures Eval(v, env) == Eval(t, env) && Safe(v, env, lim, wide)
    {
      NormOk(u, env);
    }
  }

  // ---- a general group ----

  ghost predicate AllCommuted(s: seq<Tree>, u: seq<Tree>, low: bool) {
    |u| == |s| && forall i :: 0 <= i < |s| ==> Commuted(s[i], u[i], low)
  }

  lemma OperandsSurface(op: Bop, ty: Ty, t: Tree, s: seq<Tree>, low: bool)
    requires CommOp(op) && Uniform(op, ty, t) && FlatProducts(t) && AllCommuted(Flat(op, t), s, low)
    ensures Surface(op, ty, s)
  {
    var s0 := Flat(op, t);
    FlatAttr(op, ty, t);
    CommutedLeq(s0, s, low);
    PointwiseVanish(op, s0, s);
    NestsMono(op, ty, NestOf, s0, A(t).nest, 1);
    forall i | 0 <= i < |s| ensures SurfaceAt(op, ty, s, i) {
      assert NestsAt(op, ty, NestOf, s0, i, 1) && OkMulAt(op, ty, s0, i) && Commuted(s0[i], s[i], low);
    }
  }

  lemma CommutedLeq(s: seq<Tree>, u: seq<Tree>, low: bool)
    requires AllCommuted(s, u, low)
    ensures forall i :: 0 <= i < |s| ==> Leq(A(u[i]), A(s[i])) && Refines(s[i], u[i])
  {
    forall i | 0 <= i < |s| ensures Leq(A(u[i]), A(s[i])) && Refines(s[i], u[i]) {
      assert Commuted(s[i], u[i], low);
    }
  }

  lemma OperandsGood(op: Bop, ty: Ty, t: Tree, s: seq<Tree>, low: bool)
    requires CommOp(op) && ty != UNSIGNED && Uniform(op, ty, t) && GroupWell(ty, Flat(op, t), OpenMode(low))
    requires AllCommuted(Flat(op, t), s, low)
    ensures GoodList(op, ty, Flat(op, t), s, SortedMode(low), FlatProducts(t))
  {
    CommutedLeq(Flat(op, t), s, low);
    PointwiseRefines(op, ty, Flat(op, t), s);
    if FlatProducts(t) {
      OperandsSurface(op, ty, t, s, low);
    }
    OperandsWell(ty, Flat(op, t), s, low);
  }

  lemma OperandsWell(ty: Ty, s0: seq<Tree>, s: seq<Tree>, low: bool)
    requires ty != UNSIGNED && GroupWell(ty, s0, OpenMode(low)) && AllCommuted(s0, s, low)
    ensures GroupWell(ty, s, SortedMode(low)) && AllSuOk(s) && AllConstRight(s)
  {
    forall i | 0 <= i < |s|
      ensures WellTyped(s[i], SortedMode(low)) && A(s[i]).kind == TyKind(ty) && SuOk(s[i]) && ConstRight(s[i])
    {
      assert Commuted(s0[i], s[i], low) && A(s0[i]).kind == TyKind(ty);
    }
  }

  lemma PermutedSurface(op: Bop, ty: Ty, s: seq<Tree>, g: seq<Tree>)
    requires Surface(op, ty, s) && multiset(s) == multiset(g)
    ensures Surface(op, ty, g)
  {
    forall i | 0 <= i < |g| ensures SurfaceAt(op, ty, g, i) {
      var j := PermutedPlace(op, s, g, i);
      assert SurfaceAt(op, ty, s, j);
    }
  }

  lemma PermutedGood(op: Bop, ty: Ty, s0: seq<Tree>, s: seq<Tree>, g: seq<Tree>, m: Mode, flat: bool)
    requires CommOp(op) && ty != UNSIGNED && GoodList(op, ty, s0, s, m, flat) && multiset(s) == multiset(g)
    ensures GoodList(op, ty, s0, g, m, flat)
  {
    PermutedRefines(op, ty, s, g);
    ListRefinesTrans(op, ty, s0, s, g);
    if flat {
      PermutedSurface(op, ty, s, g);
    }
    forall i | 0 <= i < |g|
      ensures WellTyped(g[i], m) && A(g[i]).kind == TyKind(ty) && SuOk(g[i]) && ConstRight(g[i])
    {
      var j := PermutedMember(s, g, i);
    }
  }

  lemma NormRefines(t: Tree, u: Tree)
    requires NormOf(u, t)
    ensures Refines(t, u)
  {
    NormOk(t, []);
    LeqRefl(t);
  }

  lemma NormFine(t: Tree, u: Tree)
    requires NormOf(u, t)
    ensures ConstRight(t) ==> ConstRight(u)
    ensures A(t).okMul && A(t).sorted ==> A(u).okMul && A(u).sorted
  {
  }

  lemma NormedSurface(op: Bop, ty: Ty, g: seq<Tree>, s: seq<Tree>)
    requires Surface(op, ty, g) && ListNormOf(s, g)
    requires forall i :: 0 <= i < |s| ==> Leq(A(s[i]), A(g[i]))
    ensures Surface(op, ty, s)
  {
    PointwiseVanish(op, g, s);
    forall i | 0 <= i < |s| ensures SurfaceAt(op, ty, s, i) {
      assert SurfaceAt(op, ty, g, i);
      NormFine(g[i], s[i]);
    }
  }

  lemma NormedGood(op: Bop, ty: Ty, s0: seq<Tree>, g: seq<Tree>, s: seq<Tree>, m: Mode, flat: bool)
    requires ty != UNSIGNED && GoodList(op, ty, s0, g, m, flat) && ListNormOf(s, g)
    ensures GoodList(op, ty, s0, s, m, flat)
  {
    forall i | 0 <= i < |s|
      ensures Refines(g[i], s[i]) && ConstRight(s[i]) && WellTyped(s[i], m) && A(s[i]).kind == TyKind(ty)
    {
      NormRefines(g[i], s[i]);
      NormFine(g[i], s[i]);
      NormOk(g[i], []);
    }
    PointwiseRefines(op, ty, g, s);
    ListRefinesTrans(op, ty, s0, g, s);
    if flat {
      NormedSurface(op, ty, g, s);
    }
  }

  lemma {:induction false} DeepFine(op: Bop, s: seq<Tree>, hs: seq<Head>)
    requires |s| == |hs| + 1 && AllSuOk(s) && AllConstRight(s)
    requires |s| > 1 && IsConst(s[0]) ==> IsConst(s[1])
    ensures SuOk(LeftDeep(op, s, hs)) && ConstRight(LeftDeep(op, s, hs))
  {
    if |hs| > 0 {
      DeepFine(op, s[..|hs|], hs[..|hs| - 1]);
    }
  }

  /** The rebuilt group. */
  lemma GroupDone(op: Bop, ty: Ty, t: Tree, s: seq<Tree>, hs: seq<Head>, low: bool)
    requires InGroup(op, t) && CommOp(op) && ty != UNSIGNED && Uniform(op, ty, t)
    requires GoodList(op, ty, Flat(op, t), s, SortedMode(low), FlatProducts(t))
    requires |s| == |hs| + 1 && |s| >= 2 && SameTy(hs, ty) && (IsConst(s[0]) ==> IsConst(s[1]))
    requires op == MULT && ty == LONG ==> !low
    requires IntProduct(op, ty) ==> A(t).nest == 2
    ensures Commuted(t, LeftDeep(op, s, hs), low)
  {
    DeepWell(op, ty, s, hs, SortedMode(low));
    GroupKind(op, ty, t);
    GroupRefines(op, ty, t, s, hs);
    DeepFine(op, s, hs);
  }

  lemma GroupKind(op: Bop, ty: Ty, t: Tree)
    requires InGroup(op, t) && CommOp(op) && t.ty == ty
    ensures A(t).kind == TyKind(ty)
  {
  }

  // ---- a product of exactly two operands ----

  lemma SwappedProduct(ty: Ty, l: Tree, r: Tree, su: int, su': int, env: Env, lim: Lim, wide: bool)
    requires Safe(Bin(MULT, ty, l, r, su), env, lim, wide)
    ensures Eval(Bin(MULT, ty, r, l, su'), env) == Eval(Bin(MULT, ty, l, r, su), env)
    ensures Safe(Bin(MULT, ty, r, l, su'), env, lim, wide)
  {
    TimesComm(Eval(l, env), Eval(r, env));
    DownIs(MULT, lim, A(l));
    DownIs(MULT, lim, A(r));
  }

  lemma SwappedAttr(ty: Ty, l: Attr, r: Attr)
    ensures var a, b := Attr2(MULT, ty, l, r), Attr2(MULT, ty, r, l);
      && b.kind == a.kind && b.fold == a.fold && b.zero == a.zero && b.nest == a.nest && b.caps == a.caps
      && b.weight == a.weight && b.lit == a.lit && b.okMul == a.okMul
  {
    TimesComm(l.weight, r.weight);
  }

  predicate LateLiteral(l: Attr, r: Attr) { l.lit.Lit? && r.lit.NoLit? }

  /** A literal factor comes with a literal factor on its right. */
  lemma PairSorted(r: Attr, x: Tree, y: Tree)
    requires Leq(A(y), r) && A(x).kind == IntK && (IsConst(x) ==> IsConst(y))
    requires r.lit.Lit? || !r.fold
    ensures !LateLiteral(A(x), A(y))
  {
    AttrBounds(x);
    NormOk(y, []);
  }

  lemma PairOperands(ty: Ty, l: Tree, r: Tree, su: int, low: bool)
    requires WellTyped(Bin(MULT, ty, l, r, su), OpenMode(low)) && (ty == LONG ==> low)
    requires FlatProducts(Bin(MULT, ty, l, r, su))
    ensures ThruLeft(MULT, ty, A(r)) ==> FlatProducts(l)
    ensures ThruRight(MULT, ty, A(l)) ==> FlatProducts(r)
    ensures ty == INT ==> A(l).lit.Lit? || !A(l).fold
    ensures ty == INT ==> A(r).lit.Lit? || !A(r).fold
  {
  }

  lemma PairWell(ty: Ty, l: Attr, r: Attr, x: Attr, y: Attr, low: bool)
    requires NodeOk2(MULT, ty, l, r, low) && Leq(x, l) && Leq(y, r)
    ensures NodeOk2(MULT, ty, x, y, low) && NodeOk2(MULT, ty, y, x, low)
  {
  }

  lemma PairSame(ty: Ty, l: Tree, r: Tree, su: int, x: Tree, y: Tree, su': int)
    requires Refines(l, x) && Refines(r, y)
    ensures Same(Bin(MULT, ty, l, r, su), Bin(MULT, ty, x, y, su'))
    ensures Same(Bin(MULT, ty, l, r, su), Bin(MULT, ty, y, x, su'))
  {
    forall env, lim, wide | Pre(Bin(MULT, ty, l, r, su), env, lim, wide)
      ensures Eval(Bin(MULT, ty, x, y, su'), env) == Eval(Bin(MULT, ty, l, r, su), env)
      ensures Safe(Bin(MULT, ty, x, y, su'), env, lim, wide)
      ensures Eval(Bin(MULT, ty, y, x, su'), env) == Eval(Bin(MULT, ty, l, r, su), env)
      ensures Safe(Bin(MULT, ty, y, x, su'), env, lim, wide)
    {
      BinSame(MULT, ty, l, r, x, y, su, env, lim, wide);
      SwappedProduct(ty, x, y, su, su', env, lim, wide);
      SwappedProduct(ty, y, x, su', su', env, lim, wide);
    }
  }

  lemma PairLeq(ty: Ty, l: Attr, r: Attr, x: Attr, y: Attr)
    requires Leq(x, l) && Leq(y, r) && (l.lit.Lit? ==> l.fold) && (r.lit.Lit? ==> r.fold)
    requires var a := Attr2(MULT, ty, l, r);
      a.okMul && a.nest <= 1 ==>
        && (ThruLeft(MULT, ty, r) ==> x.sorted) && (ThruRight(MULT, ty, l) ==> y.sorted)
        && (ty == INT ==> !LateLiteral(y, x))
    ensures Leq(Attr2(MULT, ty, y, x), Attr2(MULT, ty, l, r))
    ensures var a := Attr2(MULT, ty, l, r);
      a.okMul && a.nest <= 1 ==> Attr2(MULT, ty, y, x).sorted
  {
    Leq2(MULT, ty, l, r, x, y);
    SwappedAttr(ty, x, y);
  }

  lemma PairKinds(ty: Ty, l: Tree, r: Tree, su: int, x: Tree, y: Tree, low: bool)
    requires WellTyped(Bin(MULT, ty, l, r, su), OpenMode(low)) && (ty == LONG ==> low)
    requires Leq(A(x), A(l)) && Leq(A(y), A(r))
    ensures A(x).kind == IntK && A(y).kind == IntK
  {
  }

  lemma PairOrdered(ty: Ty, l: Tree, r: Tree, su: int, x: Tree, y: Tree, su': int, low: bool)
    requires WellTyped(Bin(MULT, ty, l, r, su), OpenMode(low)) && (ty == LONG ==> low)
    requires Commuted(l, x, low) && Commuted(r, y, low) && (IsConst(y) ==> IsConst(x))
    ensures Leq(A(Bin(MULT, ty, y, x, su')), A(Bin(MULT, ty, l, r, su)))
    ensures FlatProducts(Bin(MULT, ty, l, r, su)) ==> A(Bin(MULT, ty, y, x, su')).sorted
  {
    AttrBounds(l);
    AttrBounds(r);
    PairSurface(ty, l, r, su, x, y, low);
    PairLeq(ty, A(l), A(r), A(x), A(y));
  }

  lemma PairSurface(ty: Ty, l: Tree, r: Tree, su: int, x: Tree, y: Tree, low: bool)
    requires WellTyped(Bin(MULT, ty, l, r, su), OpenMode(low)) && (ty == LONG ==> low)
    requires Commuted(l, x, low) && Commuted(r, y, low) && (IsConst(y) ==> IsConst(x))
    ensures FlatProducts(Bin(MULT, ty, l, r, su)) ==>
      && (ThruLeft(MULT, ty, A(r)) ==> A(x).sorted) && (ThruRight(MULT, ty, A(l)) ==> A(y).sorted)
      && (ty == INT ==> !LateLiteral(A(y), A(x)))
  {
    if FlatProducts(Bin(MULT, ty, l, r, su)) {
      PairOperands(ty, l, r, su, low);
      PairKinds(ty, l, r, su, x, y, low);
      if ty == INT {
        PairSorted(A(l), y, x);
      }
    }
  }

  /** Two factors, exchanged. */
  lemma PairSwapped(ty: Ty, l: Tree, r: Tree, su: int, x: Tree, y: Tree, su': int, low: bool)
    requires WellTyped(Bin(MULT, ty, l, r, su), OpenMode(low)) && (ty == LONG ==> low)
    requires Commuted(l, x, low) && Commuted(r, y, low) && (IsConst(y) ==> IsConst(x))
    ensures Commuted(Bin(MULT, ty, l, r, su), Bin(MULT, ty, y, x, su'), low)
  {
    PairWell(ty, A(l), A(r), A(x), A(y), low);
    PairSame(ty, l, r, su, x, y, su');
    PairOrdered(ty, l, r, su, x, y, su', low);
  }

  /** Two factors, as they stood. */
  lemma PairPlain(ty: Ty, l: Tree, r: Tree, su: int, x: Tree, y: Tree, su': int, low: bool)
    requires WellTyped(Bin(MULT, ty, l, r, su), OpenMode(low)) && (ty == LONG ==> low)
    requires Commuted(l, x, low) && Commuted(r, y, low) && (IsConst(x) ==> IsConst(y))
    ensures Commuted(Bin(MULT, ty, l, r, su), Bin(MULT, ty, x, y, su'), low)
  {
    hide Attr2, Safe, Eval;
    PairWell(ty, A(l), A(r), A(x), A(y), low);
    PairSame(ty, l, r, su, x, y, su');
    PairOrdered(ty, r, l, su, y, x, su', low);
    SwappedAttr(ty, A(l), A(r));
  }

  // ---- one group, from its commuted operands to the tree ----

  lemma {:induction false} FlatAll(op: Bop, t: Tree, m: Mode)
    requires WellTyped(t, m) && SuOk(t)
    ensures forall x :: x in Flat(op, t) ==>
      WellTyped(x, m) && SuOk(x) && Size(x) <= Size(t) && (InGroup(op, t) ==> Size(x) < Size(t))
  {
    if InGroup(op, t) {
      FlatAll(op, t.left, m);
      FlatAll(op, t.right, m);
    }
  }

  lemma TwoPermuted(a: Tree, b: Tree, g: seq<Tree>)
    requires multiset(g) == multiset([a, b])
    ensures g == [a, b] || g == [b, a]
  {
    assert |g| == |multiset(g)| == 2;
    assert g[0] in multiset(g) && g[1] in multiset(g);
    assert g == [g[0], g[1]];
    if g[0] == a {
      assert multiset{a, g[1]} == multiset{a, b};
      assert multiset{g[1]} == multiset{a, g[1]} - multiset{a};
      assert multiset{b} == multiset{a, b} - multiset{a};
      assert g[1] in multiset{b};
    } else {
      assert g[0] == b;
      assert multiset{b, g[1]} == multiset{a, b};
      assert multiset{g[1]} == multiset{b, g[1]} - multiset{b};
      assert multiset{a} == multiset{a, b} - multiset{b};
      assert g[1] in multiset{a};
    }
  }

  lemma PairGroup(ty: Ty, t: Tree, s1: seq<Tree>, g: seq<Tree>, s: seq<Tree>, h: Head, low: bool)
    requires WellTyped(t, OpenMode(low)) && InGroup(MULT, t) && t.ty == ty && h.ty == ty && (ty == LONG ==> low)
    requires |s1| == |s| == 2 && Commuted(t.left, s1[0], low) && Commuted(t.right, s1[1], low) && Arranged(s1, g, s)
    ensures Commuted(t, LeftDeep(MULT, s, [h]), low)
  {
    assert s1 == [s1[0], s1[1]] && |g| == |multiset(g)|;
    TwoPermuted(s1[0], s1[1], g);
    assert LeftDeep(MULT, s, [h]) == Bin(MULT, ty, s[0], s[1], h.su);
    if g == s1 {
      NormCommuted(t.left, s1[0], s[0], low);
      NormCommuted(t.right, s1[1], s[1], low);
      PairPlain(ty, t.left, t.right, t.su, s[0], s[1], h.su, low);
    } else {
      NormCommuted(t.left, s1[0], s[1], low);
      NormCommuted(t.right, s1[1], s[0], low);
      PairSwapped(ty, t.left, t.right, t.su, s[1], s[0], h.su, low);
    }
  }

  /** A product whose factors are narrower than itself, or lie below a widening. */
  predicate Paired(t: Tree, low: bool) {
    t.Bin? && t.op == MULT && (if t.ty == LONG then low else A(t).nest <= 1)
  }

  lemma PairedFlat(t: Tree, low: bool)
    requires WellTyped(t, OpenMode(low)) && Paired(t, low)
    ensures Flat(MULT, t) == [t.left, t.right] && |Heads(MULT, t)| == 1
    ensures Heads(MULT, t) == [Head(t.ty, t.su)]
  {
    AttrBounds(t.left);
    AttrBounds(t.right);
    NotProduct(t.left, OpenMode(low));
    NotProduct(t.right, OpenMode(low));
  }

  lemma NotProduct(t: Tree, m: Mode)
    requires WellTyped(t, m) && A(t).kind == IntK && A(t).nest == 0
    ensures !InGroup(MULT, t)
  {
  }

  /** The operands, gathered, sorted and folded, satisfy what rebuilding needs. */
  lemma GroupOperands(op: Bop, t: Tree, s1: seq<Tree>, g: seq<Tree>, s: seq<Tree>, low: bool)
    requires WellTyped(t, OpenMode(low)) && InGroup(op, t) && CommOp(op) && (op == MULT && t.ty == LONG ==> !low)
    requires AllCommuted(Flat(op, t), s1, low) && Arranged(s1, g, s) && |s| >= 2
    ensures GoodList(op, t.ty, Flat(op, t), FoldTail(op, t.ty, s), SortedMode(low), FlatProducts(t))
    ensures NoneLonger(t.ty, FoldTail(op, t.ty, s))
  {
    var m, ty, s0 := SortedMode(low), t.ty, Flat(op, t);
    WellTypedGroup(op, ty, t, OpenMode(low));
    OperandsGood(op, ty, t, s1, low);
    PermutedGood(op, ty, s0, s1, g, m, FlatProducts(t));
    NormedGood(op, ty, s0, g, s, m, FlatProducts(t));
    FoldTailGood(op, ty, s0, s, m, FlatProducts(t));
    var u := FoldTail(op, ty, s);
    forall i | 0 <= i < |u| && ty != LONG ensures TypeOf(u[i]) != LONG {
      KindType(u[i], m);
    }
  }

  lemma PairedCommuted(t: Tree, s1: seq<Tree>, g: seq<Tree>, s: seq<Tree>, low: bool)
    requires WellTyped(t, OpenMode(low)) && Paired(t, low)
    requires AllCommuted(Flat(MULT, t), s1, low) && Arranged(s1, g, s) && |s| == 2
    ensures |Heads(MULT, t)| == 1 && Commuted(t, LeftDeep(MULT, s, Heads(MULT, t)), low)
  {
    PairedFlat(t, low);
    assert |g| == |multiset(g)| && |s1| == |multiset(s1)|;
    assert Commuted(Flat(MULT, t)[0], s1[0], low) && Commuted(Flat(MULT, t)[1], s1[1], low);
    PairGroup(t.ty, t, s1, g, s, Head(t.ty, t.su), low);
  }

  lemma OtherCommuted(op: Bop, t: Tree, s1: seq<Tree>, g: seq<Tree>, s: seq<Tree>, hs: seq<Head>, low: bool)
    requires WellTyped(t, OpenMode(low)) && InGroup(op, t) && CommOp(op) && !Paired(t, low)
    requires AllCommuted(Flat(op, t), s1, low) && Arranged(s1, g, s) && |s| >= 2
    requires |FoldTail(op, t.ty, s)| == |hs| + 1 && SameTy(hs, t.ty)
    ensures Commuted(t, LeftDeep(op, FoldTail(op, t.ty, s), hs), low)
  {
    GroupOperands(op, t, s1, g, s, low);
    WellTypedGroup(op, t.ty, t, OpenMode(low));
    FoldTailSuffix(op, t.ty, s);
    AttrBounds(t);
    GroupDone(op, t.ty, t, FoldTail(op, t.ty, s), hs, low);
  }

  lemma GroupCommuted(op: Bop, t: Tree, s1: seq<Tree>, g: seq<Tree>, s: seq<Tree>, hs: seq<Head>, low: bool)
    requires WellTyped(t, OpenMode(low)) && InGroup(op, t) && CommOp(op)
    requires AllCommuted(Flat(op, t), s1, low) && Arranged(s1, g, s) && |s| >= 2
    requires |FoldTail(op, t.ty, s)| == |hs| + 1 && SameTy(hs, t.ty) && hs <= Heads(op, t)
    ensures Commuted(t, LeftDeep(op, FoldTail(op, t.ty, s), hs), low)
  {
    if Paired(t, low) {
      PairedFlat(t, low);
      assert hs == Heads(op, t);
      PairedCommuted(t, s1, g, s, low);
    } else {
      OtherCommuted(op, t, s1, g, s, hs, low);
    }
  }

  lemma GroupRebuilds(op: Bop, t: Tree, s1: seq<Tree>, g: seq<Tree>, s: seq<Tree>, low: bool)
    requires WellTyped(t, OpenMode(low)) && InGroup(op, t) && CommOp(op)
    requires AllCommuted(Flat(op, t), s1, low) && Arranged(s1, g, s) && |s| >= 2
    ensures NoneLonger(t.ty, FoldTail(op, t.ty, s)) && SameTy(Heads(op, t), t.ty)
  {
    assert |g| == |multiset(g)| && |s1| == |multiset(s1)|;
    if op == MULT && t.ty == LONG && low {
      PairedFlat(t, low);
    } else {
      hide A, SuOk;
      GroupOperands(op, t, s1, g, s, low);
      WellTypedGroup(op, t.ty, t, OpenMode(low));
      HeadsTy(op, t.ty, t);
    }
  }

  // ---- the other nodes ----

  function Mirror(op: Bop): Bop {
    match op
    case GREAT => LESS
    case GREATEQ => LESSEQ
    case LESS => GREAT
    case LESSEQ => GREATEQ
    case _ => op
  }

  /** A mirrored comparison of exchanged operands. */
  lemma MirrorSame(op: Bop, ty: Ty, l: Tree, r: Tree, su: int, env: Env, lim: Lim, wide: bool)
    requires RelOp(op)
    ensures Eval(Bin(Mirror(op), ty, r, l, su), env) == Eval(Bin(op, ty, l, r, su), env)
    ensures Safe(Bin(Mirror(op), ty, r, l, su), env, lim, wide) == Safe(Bin(op, ty, l, r, su), env, lim, wide)
  {
    PlainRel(op, ty, l, r, su, env, lim, wide);
    PlainRel(Mirror(op), ty, r, l, su, env, lim, wide);
    MirrorHolds(op, Eval(l, env), Eval(r, env));
  }

  lemma MirrorHolds(op: Bop, a: int, b: int)
    requires RelOp(op)
    ensures RelOp(Mirror(op)) && Meaning2(Mirror(op), INT, b, a) == Meaning2(op, INT, a, b)
  {
  }

  lemma MirrorAttr(op: Bop, ty: Ty, l: Attr, r: Attr)
    requires RelOp(op)
    ensures Attr2(Mirror(op), ty, r, l) == Attr2(op, ty, l, r)
  {
  }

  lemma MirrorDone(op: Bop, ty: Ty, l: Tree, r: Tree, su: int, u: Tree, low: bool)
    requires RelOp(op) && WellTyped(Bin(op, ty, l, r, su), OpenMode(low))
    requires Commuted(Bin(Mirror(op), ty, r, l, su), u, low)
    ensures Commuted(Bin(op, ty, l, r, su), u, low)
  {
    var t := Bin(op, ty, l, r, su);
    MirrorAttr(op, ty, A(l), A(r));
    forall env, lim, wide | Pre(t, env, lim, wide)
      ensures Eval(u, env) == Eval(t, env) && Safe(u, env, lim, wide)
    {
      MirrorSame(op, ty, l, r, su, env, lim, wide);
      assert Pre(Bin(Mirror(op), ty, r, l, su), env, lim, wide);
    }
  }

  lemma RefinesTrans(t: Tree, v: Tree, u: Tree)
    requires Refines(t, v) && Refines(v, u)
    ensures Refines(t, u)
  {
    LeqTrans(A(u), A(v), A(t));
    forall env, lim, wide | Pre(t, env, lim, wide)
      ensures Eval(u, env) == Eval(t, env) && Safe(u, env, lim, wide)
    {
      assert Pre(v, env, lim, wide);
    }
  }

  lemma NormFirst(t: Tree, v: Tree, u: Tree, low: bool)
    requires NormOf(v, t) && Commuted(v, u, low)
    ensures Commuted(t, u, low)
  {
    NormRefines(t, v);
    hide A;
    RefinesTrans(t, v, u);
  }

  lemma BinKeeps(op: Bop, ty: Ty, l: Tree, r: Tree, x: Tree, y: Tree, su: int)
    requires Refines(l, x) && Refines(r, y)
    ensures Same(Bin(op, ty, l, r, su), Bin(op, ty, x, y, su))
  {
    var t := Bin(op, ty, l, r, su);
    forall env, lim, wide | Pre(t, env, lim, wide)
      ensures Eval(Bin(op, ty, x, y, su), env) == Eval(t, env)
      ensures Safe(Bin(op, ty, x, y, su), env, lim, wide)
    {
      BinSame(op, ty, l, r, x, y, su, env, lim, wide);
    }
  }

  lemma BinDone(op: Bop, ty: Ty, l: Tree, r: Tree, x: Tree, y: Tree, su: int, low: bool)
    requires !CommOp(op) && WellTyped(Bin(op, ty, l, r, su), OpenMode(low))
    requires Commuted(l, x, low) && Commuted(r, y, low)
    ensures Commuted(Bin(op, ty, l, r, su), Bin(op, ty, x, y, su), low)
  {
    var t := Bin(op, ty, l, r, su);
    AttrBounds(l);
    AttrBounds(r);
    Leq2(op, ty, A(l), A(r), A(x), A(y));
    NodeOkMono(op, ty, A(l), A(r), A(x), A(y), low);
    BinKeeps(op, ty, l, r, x, y, su);
  }

  lemma UnDone(op: Uop, ty: Ty, a: Tree, x: Tree, su: int, low: bool)
    requires WellTyped(Un(op, ty, a, su), OpenMode(low)) && Commuted(a, x, low)
    requires SuOk(Un(op, ty, a, su)) && (Leaf(x) ==> x == a)
    ensures Commuted(Un(op, ty, a, su), Un(op, ty, x, su), low)
  {
    var t := Un(op, ty, a, su);
    Leq1(op, ty, A(a), A(x));
    forall env, lim, wide | Pre(t, env, lim, wide)
      ensures Eval(Un(op, ty, x, su), env) == Eval(t, env)
      ensures Safe(Un(op, ty, x, su), env, lim, wide)
    {
      UnSame(op, ty, a, x, su, env, lim, wide);
    }
  }

  lemma QmarkDone(ty: Ty, c: Tree, l: Tree, r: Tree, x: Tree, y: Tree, z: Tree, su: int, low: bool)
    requires WellTyped(Qmark(ty, c, l, r, su), OpenMode(low))
    requires Commuted(c, x, low) && Commuted(l, y, low) && Commuted(r, z, low)
    ensures Commuted(Qmark(ty, c, l, r, su), Qmark(ty, x, y, z, su), low)
  {
    var t := Qmark(ty, c, l, r, su);
    Leq3(ty, A(c), A(l), A(r), A(x), A(y), A(z));
    forall env, lim, wide | Pre(t, env, lim, wide)
      ensures Eval(Qmark(ty, x, y, z, su), env) == Eval(t, env)
      ensures Safe(Qmark(ty, x, y, z, su), env, lim, wide)
    {
      QmarkSame(ty, c, l, r, x, y, z, su, env, lim, wide);
    }
  }

  lemma NormSize(t: Tree, v: Tree, m: Mode)
    requires NormOf(v, t) && WellTyped(t, m) && SuOk(t)
    ensures Size(v) <= Size(t) && WellTyped(v, m) && SuOk(v)
  {
    NormOk(t, []);
  }

  // ---- the pass ----

  lemma NormSmaller(t: Tree)
    ensures Size(Norm(t)) <= Size(t)
  {
  }

  /** What the pass makes of a tree. */
  function CommuteTree(t: Tree): Tree
    decreases Size(t), 0, 0
  {
    match t
    case Un(op, ty, a, su) => Un(op, ty, CommuteTree(a), su)
    case Bin(op, ty, l, r, su) =>
      if CommOp(op) then
        FlatSmaller(op, t);
        Regrouped(op, ty, CommuteAll(Flat(op, t), Size(t) - 1), Heads(op, t))
      else if RelOp(op) then
        var h := Harder(r, l);
        NormSmaller(r);
        NormSmaller(l);
        var x, y := CommuteTree(h.2), CommuteTree(h.1);
        if h.0 then Bin(Mirror(op), ty, y, x, su) else Bin(op, ty, x, y, su)
      else Bin(op, ty, CommuteTree(l), CommuteTree(r), su)
    case Qmark(ty, c, l, r, su) => Qmark(ty, CommuteTree(c), CommuteTree(l), CommuteTree(r), su)
    case _ => t
  }

  function CommuteAll(s: seq<Tree>, n: nat): (u: seq<Tree>)
    requires forall x :: x in s ==> Size(x) <= n
    ensures |u| == |s| && forall i :: 0 <= i < |s| ==> u[i] == CommuteTree(s[i])
    decreases n, 1, |s|
  {
    if s == [] then [] else CommuteAll(s[..|s| - 1], n) + [CommuteTree(s[|s| - 1])]
  }

  lemma CommutesTo(t: Tree, s: seq<Tree>)
    requires t.Bin? && CommOp(t.op)
    requires |s| == |Flat(t.op, t)| && forall i :: 0 <= i < |s| ==> s[i] == CommuteTree(Flat(t.op, t)[i])
    ensures CommuteTree(t) == Regrouped(t.op, t.ty, s, Heads(t.op, t))
  {
    hide Regrouped, Flat, Heads, CommuteAll;
    FlatSmaller(t.op, t);
    AllOf(Flat(t.op, t), s, Size(t) - 1);
  }

  lemma AllOf(s: seq<Tree>, u: seq<Tree>, n: nat)
    requires forall x :: x in s ==> Size(x) <= n
    requires |u| == |s| && forall i :: 0 <= i < |s| ==> u[i] == CommuteTree(s[i])
    ensures u == CommuteAll(s, n)
  {
  }

  ghost predicate AllOpen(s: seq<Tree>, n: nat, low: bool) {
    forall i :: 0 <= i < |s| ==> WellTyped(s[i], OpenMode(low)) && SuOk(s[i]) && Size(s[i]) < n
  }

  method CommuteOperands(clist: array<Tree>, ghost n: nat, ghost low: bool)
    requires AllOpen(clist[..], n, low)
    modifies clist
    ensures AllCommuted(old(clist[..]), clist[..], low)
    ensures forall i :: 0 <= i < clist.Length ==> clist[i] == CommuteTree(old(clist[i]))
    decreases n, 0
  {
    for i := 0 to clist.Length
      invariant forall j :: 0 <= j < i ==> clist[j] == CommuteTree(old(clist[j]))
      invariant forall j :: i <= j < clist.Length ==> clist[j] == old(clist[j])
      invariant forall j :: 0 <= j < i ==> Commuted(old(clist[j]), clist[j], low)
    {
      assert clist[i] == old(clist[..])[i];
      var x := Commute(clist[i], low);
      clist[i] := x;
    }
  }

  lemma GroupFinished(t: Tree, s1: seq<Tree>, g: seq<Tree>, s: seq<Tree>, u: seq<Tree>, hs: seq<Head>, low: bool)
    requires t.Bin? && CommOp(t.op) && WellTyped(t, OpenMode(low))
    requires AllCommuted(Flat(t.op, t), s1, low) && Arranged(s1, g, s)
    requires |s| >= 2 && u == FoldTail(t.op, t.ty, s) && hs == Heads(t.op, t)[..|u| - 1]
    ensures Commuted(t, Rebuilt(t.op, u, hs), low) && !Leaf(Rebuilt(t.op, u, hs))
  {
    GroupRebuilds(t.op, t, s1, g, s, low);
    HeadsPrefix(Heads(t.op, t), t.ty, |u| - 1);
    RebuiltDeep(t.op, t.ty, u, hs);
    GroupCommuted(t.op, t, s1, g, s, hs, low);
  }

  /** The same, with the fold as the loop leaves it. */
  lemma GroupEnds(t: Tree, s1: seq<Tree>, g: seq<Tree>, s: seq<Tree>, k: nat, low: bool)
    requires t.Bin? && CommOp(t.op) && WellTyped(t, OpenMode(low)) && |s| == |Heads(t.op, t)| + 1 >= 2
    requires AllCommuted(Flat(t.op, t), s1, low) && Arranged(s1, g, s) && s == Sorted(s1, 0)
    requires FoldTail(t.op, t.ty, s) == FoldLoop(t.op, Head(t.ty, 0), s, |s| - 1, |s| - 1)
    requires k == |FoldTail(t.op, t.ty, s)| && 2 <= k <= |s|
    ensures var u := Rebuilt(t.op, FoldTail(t.op, t.ty, s), Heads(t.op, t)[..k - 1]);
      Commuted(t, u, low) && !Leaf(u) && u == Regrouped(t.op, t.ty, s1, Heads(t.op, t))
  {
    hide Commuted, AllCommuted, SuOk, A, Flat, Heads, WellTyped, Rebuilt;
    GroupFinished(t, s1, g, s, FoldTail(t.op, t.ty, s), Heads(t.op, t)[..k - 1], low);
  }

  lemma CommutedSuOk(t: Tree, s1: seq<Tree>, low: bool)
    requires t.Bin? && AllCommuted(Flat(t.op, t), s1, low)
    ensures AllSuOk(s1)
  {
    hide SuOk;
    forall i | 0 <= i < |s1| ensures SuOk(s1[i]) {
      assert Commuted(Flat(t.op, t)[i], s1[i], low);
    }
  }

  lemma HeadsPrefix(hs: seq<Head>, ty: Ty, k: nat)
    requires SameTy(hs, ty) && k <= |hs|
    ensures SameTy(hs[..k], ty)
  {
  }

  /** Sorts the commuted operands, folds the constants and rebuilds the group. */
  method FinishGroup(t: Tree, clist: array<Tree>, plist: array<Head>, ghost low: bool) returns (u: Tree)
    requires t.Bin? && CommOp(t.op) && WellTyped(t, OpenMode(low))
    requires AllCommuted(Flat(t.op, t), clist[..], low) && plist[..] == Heads(t.op, t)
    modifies clist
    ensures Commuted(t, u, low) && !Leaf(u)
    ensures u == Regrouped(t.op, t.ty, old(clist[..]), Heads(t.op, t))
  {
    ghost var s1, hs := clist[..], plist[..];
    CommutedSuOk(t, s1, low);
    var k;
    ghost var g, s;
    k, g, s := SortAndFold(t.op, t.ty, clist, plist);
    u := Rebuild(t.op, clist, plist, k);
    assert plist[..k - 1] == hs[..k - 1];
    GroupEnds(t, s1, g, s, k, low);
  }

  lemma GroupOpen(t: Tree, low: bool)
    requires t.Bin? && WellTyped(t, OpenMode(low)) && SuOk(t)
    ensures AllOpen(Flat(t.op, t), Size(t), low)
  {
    FlatAll(t.op, t, OpenMode(low));
  }

  /** The two lists of a group. */
  method Collect(t: Tree) returns (clist: array<Tree>, plist: array<Head>)
    requires t.Bin?
    ensures fresh(clist) && fresh(plist) && clist[..] == Flat(t.op, t) && plist[..] == Heads(t.op, t)
  {
    clist := new Tree[|Flat(t.op, t)|](_ => t);
    plist := new Head[|Heads(t.op, t)|](_ => Head(t.ty, t.su));
    var c, p := Addtree(t, clist, plist, 0, 0);
    assert clist[..c] == clist[..] && plist[..p] == plist[..];
  }

  /** Commutes a group: its operands first, then sort, fold and rebuild. */
  method CommuteGroup(t: Tree, ghost low: bool) returns (u: Tree)
    requires t.Bin? && CommOp(t.op) && WellTyped(t, OpenMode(low)) && SuOk(t)
    ensures Commuted(t, u, low) && !Leaf(u) && u == CommuteTree(t)
    decreases Size(t), 1
  {
    var clist, plist := Collect(t);
    GroupOpen(t, low);
    CommuteOperands(clist, Size(t), low);
    ghost var s := clist[..];
    u := FinishGroup(t, clist, plist, low);
    CommutesTo(t, s);
  }

  /** The commuting pass over a tree. */
  method Commute(t: Tree, ghost low: bool) returns (u: Tree)
    requires WellTyped(t, OpenMode(low)) && SuOk(t)
    ensures Commuted(t, u, low) && u == CommuteTree(t)
    ensures Leaf(u) ==> u == t
    decreases Size(t), 2
  {
    match t
    case Un(op, ty, a, su) =>
      var x := Commute(a, low);
      UnDone(op, ty, a, x, su, low);
      u := Un(op, ty, x, su);
    case Bin(op, ty, l, r, su) =>
      if CommOp(op) {
        u := CommuteGroup(t, low);
      } else {
        u := CommutePair(op, ty, l, r, su, low);
      }
    case Qmark(ty, c, l, r, su) =>
      var x := Commute(c, low);
      var y := Commute(l, low);
      var z := Commute(r, low);
      QmarkDone(ty, c, l, r, x, y, z, su, low);
      u := Qmark(ty, x, y, z, su);
    case _ =>
      LeqRefl(t);
      SameRefl(t);
      u := t;
  }

  /** Other operators keep their places, but a comparison turns round when its
      right operand is harder. */
  method CommutePair(op: Bop, ty: Ty, l: Tree, r: Tree, su: int, ghost low: bool) returns (u: Tree)
    requires !CommOp(op) && WellTyped(Bin(op, ty, l, r, su), OpenMode(low)) && SuOk(Bin(op, ty, l, r, su))
    ensures Commuted(Bin(op, ty, l, r, su), u, low) && !Leaf(u) && u == CommuteTree(Bin(op, ty, l, r, su))
    decreases Size(l) + Size(r) + 1, 0
  {
    if !RelOp(op) {
      var x := Commute(l, low);
      var y := Commute(r, low);
      BinDone(op, ty, l, r, x, y, su, low);
      u := Bin(op, ty, x, y, su);
    } else {
      u := CommuteComparison(op, ty, l, r, su, low);
    }
  }

  method CommuteComparison(op: Bop, ty: Ty, l: Tree, r: Tree, su: int, ghost low: bool) returns (u: Tree)
    requires RelOp(op) && WellTyped(Bin(op, ty, l, r, su), OpenMode(low)) && SuOk(Bin(op, ty, l, r, su))
    ensures Commuted(Bin(op, ty, l, r, su), u, low) && !Leaf(u) && u == CommuteTree(Bin(op, ty, l, r, su))
    decreases Size(l) + Size(r) + 1, 0, 0
  {
    assert SuOk(l) && SuOk(r) && WellTyped(l, OpenMode(low)) && WellTyped(r, OpenMode(low));
    hide Harder, SuOk, WellTyped, CommuteTree, A;
    var h := Harder(r, l);
    NormSize(r, h.1, OpenMode(low));
    NormSize(l, h.2, OpenMode(low));
    var y := Commute(h.1, low);
    var x := Commute(h.2, low);
    NormFirst(r, h.1, y, low);
    NormFirst(l, h.2, x, low);
    u := if h.0 then Bin(Mirror(op), ty, y, x, su) else Bin(op, ty, x, y, su);
    ComparisonDone(op, ty, l, r, x, y, su, h.0, low);
    CommutesComparison(op, ty, l, r, su);
  }

  lemma CommutesComparison(op: Bop, ty: Ty, l: Tree, r: Tree, su: int)
    requires RelOp(op)
    ensures var h := Harder(r, l);
      CommuteTree(Bin(op, ty, l, r, su)) ==
        if h.0 then Bin(Mirror(op), ty, CommuteTree(h.1), CommuteTree(h.2), su)
        else Bin(op, ty, CommuteTree(h.2), CommuteTree(h.1), su)
  {
    NormSmaller(r);
    NormSmaller(l);
  }

  lemma ComparisonDone(op: Bop, ty: Ty, l: Tree, r: Tree, x: Tree, y: Tree, su: int, turned: bool, low: bool)
    requires RelOp(op) && WellTyped(Bin(op, ty, l, r, su), OpenMode(low))
    requires Commuted(l, x, low) && Commuted(r, y, low)
    ensures var u := if turned then Bin(Mirror(op), ty, y, x, su) else Bin(op, ty, x, y, su);
      Commuted(Bin(op, ty, l, r, su), u, low)
  {
    if turned {
      MirrorTurned(op, ty, l, r, x, y, su, low);
    } else {
      BinDone(op, ty, l, r, x, y, su, low);
    }
  }

  lemma MirrorTurned(op: Bop, ty: Ty, l: Tree, r: Tree, x: Tree, y: Tree, su: int, low: bool)
    requires RelOp(op) && WellTyped(Bin(op, ty, l, r, su), OpenMode(low))
    requires Commuted(l, x, low) && Commuted(r, y, low)
    ensures Commuted(Bin(op, ty, l, r, su), Bin(Mirror(op), ty, y, x, su), low)
  {
    BinDone(Mirror(op), ty, r, l, y, x, su, low);
    MirrorDone(op, ty, l, r, su, Bin(Mirror(op), ty, y, x, su), low);
  }
}
