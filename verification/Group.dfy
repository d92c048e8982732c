/** Groups of operands of one commutative operator: their value, weight and
    other sums do not depend on order or association. */
module Group {
  import opened Word
  import opened Icode
  import opened Fold
  import opened Rules

  datatype Comb = Machine(op: Bop, ty: Ty) | Plus | Prod

  function Join(m: Comb, x: int, y: int): int {
    match m
    case Machine(op, ty) => Meaning2(op, ty, x, y)
    case Plus => x + y
    case Prod => Times(x, y)
  }

  predicate GoodComb(m: Comb) { m.Machine? ==> CommOp(m.op) && m.ty != UNSIGNED }

  lemma JoinComm(m: Comb, x: int, y: int)
    requires GoodComb(m)
    ensures Join(m, x, y) == Join(m, y, x)
  {
    TimesComm(x, y);
    if m.Machine? && m.op in {AND, OR, XOR} {
      BitOpComm(if m.op == AND then BAnd else if m.op == OR then BOr else BXor, Msb(m.ty), x, y);
    }
  }

  lemma TimesComm(x: int, y: int)
    ensures Times(x, y) == Times(y, x)
  {
  }

  lemma WrapTimes(ty: Ty, p: int, z: int)
    requires ty != UNSIGNED
    ensures Wrap(ty, Times(Wrap(ty, p), z)) == Wrap(ty, Times(p, z))
  {
    if ty == INT {
      Wrap16Mul(p, z);
    } else {
      Wrap32Mul(p, z);
    }
  }

  lemma TimesAssoc(x: int, y: int, z: int)
    ensures Times(Times(x, y), z) == Times(x, Times(y, z))
  {
    assert x * y * z == x * (y * z);
  }

  lemma WrapProduct(ty: Ty, x: int, y: int, z: int)
    requires ty != UNSIGNED
    ensures Wrap(ty, Times(Wrap(ty, Times(x, y)), z)) == Wrap(ty, Times(x, Wrap(ty, Times(y, z))))
  {
    var q := Times(y, z);
    WrapTimes(ty, Times(x, y), z);
    WrapTimes(ty, q, x);
    TimesComm(Wrap(ty, q), x);
    TimesComm(q, x);
    TimesAssoc(x, y, z);
  }

  lemma WrapSum(ty: Ty, x: int, y: int, z: int)
    requires ty != UNSIGNED
    ensures Wrap(ty, Wrap(ty, x + y) + z) == Wrap(ty, x + Wrap(ty, y + z))
  {
    if ty == INT {
      Wrap16Add(x + y, z);
      Wrap16Add(y + z, x);
    } else {
      Wrap32Add(x + y, z);
      Wrap32Add(y + z, x);
    }
  }

  lemma JoinAssoc(m: Comb, x: int, y: int, z: int)
    requires GoodComb(m)
    ensures Join(m, Join(m, x, y), z) == Join(m, x, Join(m, y, z))
  {
    match m
    case Plus =>
    case Prod =>
      TimesAssoc(x, y, z);
    case Machine(op, ty) =>
      if op == ADD {
        WrapSum(ty, x, y, z);
      } else if op == MULT {
        WrapProduct(ty, x, y, z);
      } else {
        BitOpAssoc(if op == AND then BAnd else if op == OR then BOr else BXor, Msb(ty), x, y, z);
      }
  }

  /** The operands joined from the left. */
  function JoinAll(m: Comb, f: Tree -> int, s: seq<Tree>): int
    requires |s| >= 1
  {
    if |s| == 1 then f(s[0]) else Join(m, JoinAll(m, f, s[..|s| - 1]), f(s[|s| - 1]))
  }

  lemma {:induction false} JoinAllAppend(m: Comb, f: Tree -> int, s: seq<Tree>, u: seq<Tree>)
    requires GoodComb(m) && |s| >= 1 && |u| >= 1
    ensures JoinAll(m, f, s + u) == Join(m, JoinAll(m, f, s), JoinAll(m, f, u))
  {
    var su := s + u;
    var last := f(u[|u| - 1]);
    if |u| == 1 {
      assert su[..|su| - 1] == s;
    } else {
      var u0 := u[..|u| - 1];
      assert su[..|su| - 1] == s + u0;
      JoinAllAppend(m, f, s, u0);
      JoinAssoc(m, JoinAll(m, f, s), JoinAll(m, f, u0), last);
    }
  }

  function Without(s: seq<Tree>, k: nat): seq<Tree>
    requires k < |s|
  {
    s[..k] + s[k + 1..]
  }

  /** Any operand may be taken last. */
  lemma {:induction false} JoinAllMove(m: Comb, f: Tree -> int, s: seq<Tree>, k: nat)
    requires GoodComb(m) && k < |s| && |s| >= 2
    ensures JoinAll(m, f, s) == Join(m, JoinAll(m, f, Without(s, k)), f(s[k]))
  {
    var x := f(s[k]);
    if k == |s| - 1 {
      assert Without(s, k) == s[..|s| - 1];
    } else if k == 0 {
      assert s == [s[0]] + s[1..] && Without(s, 0) == s[1..];
      JoinAllAppend(m, f, [s[0]], s[1..]);
      JoinComm(m, x, JoinAll(m, f, s[1..]));
    } else {
      assert s == s[..k] + s[k..] && s[k..] == [s[k]] + s[k + 1..];
      var a, b := JoinAll(m, f, s[..k]), JoinAll(m, f, s[k + 1..]);
      JoinAllAppend(m, f, s[..k], s[k..]);
      JoinAllAppend(m, f, [s[k]], s[k + 1..]);
      JoinAllAppend(m, f, s[..k], s[k + 1..]);
      JoinComm(m, x, b);
      JoinAssoc(m, a, b, x);
    }
  }

  /** Rearranging the operands does not change what they join to. */
  lemma {:induction false} JoinAllPermuted(m: Comb, f: Tree -> int, s: seq<Tree>, u: seq<Tree>)
    requires GoodComb(m) && |s| >= 1 && multiset(s) == multiset(u)
    ensures |u| == |s| && JoinAll(m, f, s) == JoinAll(m, f, u)
  {
    assert |multiset(s)| == |s| && |multiset(u)| == |u|;
    var last := s[|s| - 1];
    if |s| == 1 {
      assert s[0] in multiset(u);
    } else {
      assert last in multiset(u);
      var k :| 0 <= k < |u| && u[k] == last;
      assert s == s[..|s| - 1] + [last];
      assert u == u[..k] + [last] + u[k + 1..];
      assert multiset(s) == multiset(s[..|s| - 1]) + multiset{last};
      assert multiset(u) == multiset(Without(u, k)) + multiset{last};
      assert multiset(s[..|s| - 1]) == multiset(Without(u, k)) by {
        assert multiset(s[..|s| - 1]) == multiset(s) - multiset{last};
        assert multiset(Without(u, k)) == multiset(u) - multiset{last};
      }
      JoinAllPermuted(m, f, s[..|s| - 1], Without(u, k));
      JoinAllMove(m, f, u, k);
    }
  }

  // ---- a group of operands in a tree ----

  datatype Head = Head(ty: Ty, su: int)

  predicate InGroup(op: Bop, t: Tree) { t.Bin? && t.op == op }

  /** The operands collected below nested nodes of the same operator. */
  function Flat(op: Bop, t: Tree): (s: seq<Tree>)
    ensures |s| >= 1
  {
    if InGroup(op, t) then Flat(op, t.left) + Flat(op, t.right) else [t]
  }

  /** The operator nodes themselves, each after those below it. */
  function Heads(op: Bop, t: Tree): (s: seq<Head>)
    ensures |s| + 1 == |Flat(op, t)|
  {
    if InGroup(op, t) then Heads(op, t.left) + Heads(op, t.right) + [Head(t.ty, t.su)] else []
  }

  lemma {:induction false} FlatSmaller(op: Bop, t: Tree)
    ensures forall x :: x in Flat(op, t) ==> Size(x) <= Size(t) && (InGroup(op, t) ==> Size(x) < Size(t))
  {
    if InGroup(op, t) {
      FlatSmaller(op, t.left);
      FlatSmaller(op, t.right);
    }
  }

  /** The operands joined by the nodes, leaning to the left. */
  function LeftDeep(op: Bop, s: seq<Tree>, hs: seq<Head>): Tree
    requires |s| == |hs| + 1
  {
    if |hs| == 0 then s[0]
    else
      var n := |hs| - 1;
      Bin(op, hs[n].ty, LeftDeep(op, s[..n + 1], hs[..n]), s[n + 1], hs[n].su)
  }

  /** All nodes of the group have the same type, and no operand is wider. */
  predicate Uniform(op: Bop, ty: Ty, t: Tree) {
    if InGroup(op, t) then t.ty == ty && Uniform(op, ty, t.left) && Uniform(op, ty, t.right)
    else A(t).kind == TyKind(ty)
  }

  lemma {:induction false} WellTypedGroup(op: Bop, ty: Ty, t: Tree, m: Mode)
    requires CommOp(op) && WellTyped(t, m) && A(t).kind == TyKind(ty) && ty != UNSIGNED
    requires op == MULT && ty == LONG ==> !m.low
    ensures Uniform(op, ty, t)
    ensures forall x :: x in Flat(op, t) ==> WellTyped(x, m) && A(x).kind == TyKind(ty)
  {
    if InGroup(op, t) {
      WellTypedGroup(op, ty, t.left, m);
      WellTypedGroup(op, ty, t.right, m);
    }
  }

  function CapsOf(x: Tree): int { A(x).caps }
  function NestOf(x: Tree): int { A(x).nest }
  function WeightOf(x: Tree): int { A(x).weight }

  function WeightComb(op: Bop): Comb { if ProductOp(op) then Prod else Plus }

  lemma {:induction false} FlatSums(op: Bop, t: Tree)
    requires CommOp(op)
    ensures A(t).weight == JoinAll(WeightComb(op), WeightOf, Flat(op, t))
    ensures op == MULT ==> A(t).caps == JoinAll(Plus, CapsOf, Flat(op, t))
  {
    if InGroup(op, t) {
      FlatSums(op, t.left);
      FlatSums(op, t.right);
      JoinAllAppend(WeightComb(op), WeightOf, Flat(op, t.left), Flat(op, t.right));
      JoinAllAppend(Plus, CapsOf, Flat(op, t.left), Flat(op, t.right));
    }
  }

  function EvalIn(env: Env): Tree -> int { (x: Tree) => Eval(x, env) }

  lemma {:induction false} FlatEval(op: Bop, ty: Ty, t: Tree, env: Env)
    requires CommOp(op) && ty != UNSIGNED && Uniform(op, ty, t)
    ensures Eval(t, env) == JoinAll(Machine(op, ty), EvalIn(env), Flat(op, t))
  {
    if InGroup(op, t) {
      FlatEval(op, ty, t.left, env);
      FlatEval(op, ty, t.right, env);
      JoinAllAppend(Machine(op, ty), EvalIn(env), Flat(op, t.left), Flat(op, t.right));
    }
  }

  predicate SameTy(hs: seq<Head>, ty: Ty) { forall i :: 0 <= i < |hs| ==> hs[i].ty == ty }

  lemma {:induction false} HeadsTy(op: Bop, ty: Ty, t: Tree)
    requires Uniform(op, ty, t)
    ensures SameTy(Heads(op, t), ty)
  {
    if InGroup(op, t) {
      HeadsTy(op, ty, t.left);
      HeadsTy(op, ty, t.right);
    }
  }

  lemma {:induction false} DeepEval(op: Bop, ty: Ty, s: seq<Tree>, hs: seq<Head>, env: Env)
    requires CommOp(op) && |s| == |hs| + 1 && SameTy(hs, ty)
    ensures Eval(LeftDeep(op, s, hs), env) == JoinAll(Machine(op, ty), EvalIn(env), s)
  {
    if |hs| > 0 {
      var n := |hs| - 1;
      DeepEval(op, ty, s[..n + 1], hs[..n], env);
      assert s[..|s| - 1] == s[..n + 1];
    }
  }

  lemma {:induction false} DeepSums(op: Bop, s: seq<Tree>, hs: seq<Head>)
    requires CommOp(op) && |s| == |hs| + 1
    ensures A(LeftDeep(op, s, hs)).weight == JoinAll(WeightComb(op), WeightOf, s)
    ensures op == MULT ==> A(LeftDeep(op, s, hs)).caps == JoinAll(Plus, CapsOf, s)
  {
    if |hs| > 0 {
      var n := |hs| - 1;
      DeepSums(op, s[..n + 1], hs[..n]);
      assert s[..|s| - 1] == s[..n + 1];
    }
  }

  // ---- replacing the list of operands ----

  function Total(s: seq<Tree>): int
    requires |s| >= 1
  {
    JoinAll(Plus, CapsOf, s)
  }

  predicate VanishAt(op: Bop, s: seq<Tree>, j: nat)
    requires j < |s|
  {
    Vanishes(op, A(s[j]))
  }

  predicate AllVanish(op: Bop, s: seq<Tree>) {
    forall j {:trigger VanishAt(op, s, j)} :: 0 <= j < |s| ==> VanishAt(op, s, j)
  }

  /** All operands but this one may turn out to be units. */
  predicate OthersVanish(op: Bop, s: seq<Tree>, i: nat) {
    forall j {:trigger VanishAt(op, s, j)} :: 0 <= j < |s| && j != i ==> VanishAt(op, s, j)
  }

  /** The group may be replaced by this operand. */
  predicate Open(op: Bop, ty: Ty, s: seq<Tree>, i: nat) { |s| == 1 || (ty != LONG && OthersVanish(op, s, i)) }

  /** lim at an operand of a commutative node: van says whether the other operand
      may vanish, caps how many of its factors may become constants. */
  function DownLim(op: Bop, lim: Lim, van: bool, caps: int): Lim {
    if op == MULT then FactorLim(lim, van, caps)
    else if !van then FREE
    else if op == XOR then EitherBits(lim)
    else lim
  }

  lemma DownIs(op: Bop, lim: Lim, a: Attr)
    requires CommOp(op)
    ensures LimLeft(op, lim, a) == LimRight(op, lim, a) == DownLim(op, lim, Vanishes(op, a), a.caps)
  {
  }

  /** lim at operand i of a list. */
  function LimAt(op: Bop, lim: Lim, s: seq<Tree>, i: nat): Lim
    requires i < |s|
  {
    if |s| == 1 then lim else DownLim(op, lim, OthersVanish(op, s, i), Total(s) - CapsOf(s[i]))
  }

  predicate SafeAt(op: Bop, ty: Ty, s: seq<Tree>, i: nat, env: Env, lim: Lim, wide: bool)
    requires i < |s|
  {
    Safe(s[i], env, LimAt(op, lim, s, i), wide && Open(op, ty, s, i))
  }

  predicate ListSafe(op: Bop, ty: Ty, s: seq<Tree>, env: Env, lim: Lim, wide: bool)
    requires |s| >= 1
  {
    forall i {:trigger SafeAt(op, ty, s, i, env, lim, wide)} :: 0 <= i < |s| ==> SafeAt(op, ty, s, i, env, lim, wide)
  }

  /** f (nest or caps) at an operand that may replace the group is at most k. */
  predicate NestsAt(op: Bop, ty: Ty, f: Tree -> int, s: seq<Tree>, i: nat, k: int)
    requires i < |s|
  {
    Open(op, ty, s, i) ==> f(s[i]) <= k
  }

  predicate Nests(op: Bop, ty: Ty, f: Tree -> int, s: seq<Tree>, k: int) {
    forall i {:trigger NestsAt(op, ty, f, s, i, k)} :: 0 <= i < |s| ==> NestsAt(op, ty, f, s, i, k)
  }

  /** What bounds the factors that may become constants in a group other than a product. */
  predicate CapsIn(op: Bop, s: seq<Tree>, k: int) {
    Nests(op, INT, CapsOf, s, k) && (Folds(op, s) ==> k >= 1)
  }

  predicate ListPre(op: Bop, ty: Ty, s: seq<Tree>, env: Env, lim: Lim, wide: bool)
    requires |s| >= 1
  {
    ListSafe(op, ty, s, env, lim, wide) && Tighter(lim, FREE) && (wide ==> Nests(op, ty, NestOf, s, 1))
  }

  predicate Folds(op: Bop, s: seq<Tree>) {
    if op == OR then exists i :: 0 <= i < |s| && A(s[i]).fold
    else forall i :: 0 <= i < |s| ==> A(s[i]).fold
  }

  ghost predicate ListSame(op: Bop, ty: Ty, s: seq<Tree>, u: seq<Tree>)
    requires |s| >= 1 && |u| >= 1
  {
    forall env, lim, wide :: ListPre(op, ty, s, env, lim, wide) ==>
      && JoinAll(Machine(op, ty), EvalIn(env), u) == JoinAll(Machine(op, ty), EvalIn(env), s)
      && ListSafe(op, ty, u, env, lim, wide)
  }

  /** u is a sound replacement of the operand list s. */
  ghost predicate ListRefines(op: Bop, ty: Ty, s: seq<Tree>, u: seq<Tree>) {
    && 1 <= |u| <= |s|
    && JoinAll(WeightComb(op), WeightOf, u) <= JoinAll(WeightComb(op), WeightOf, s)
    && Total(u) <= Total(s)
    && (Folds(op, u) ==> Folds(op, s)) && (AllVanish(op, u) ==> AllVanish(op, s))
    && (forall k: nat :: Nests(op, ty, NestOf, s, k) ==> Nests(op, ty, NestOf, u, k))
    && (forall k :: CapsIn(op, s, k) ==> CapsIn(op, u, k))
    && ListSame(op, ty, s, u)
  }

  lemma DownTwice(op: Bop, lim: Lim, v: bool, f: int, w: bool, g: int)
    requires CommOp(op) && Tighter(lim, FREE) && f >= 0 && g >= 0
    requires op == MULT ==> (v ==> f > 0) && (w ==> g > 0)
    ensures DownLim(op, DownLim(op, lim, v, f), w, g) == DownLim(op, lim, v && w, f + g)
  {
  }

  lemma {:induction false} TotalPositive(s: seq<Tree>)
    requires |s| >= 1
    ensures Total(s) >= 0
  {
    JoinAllMono(Plus, CapsOf, s, s);
  }

  /** Factors that may all become constants are counted. */
  lemma VanishTotal(s: seq<Tree>)
    requires |s| >= 1 && AllVanish(MULT, s)
    ensures Total(s) >= 1
  {
    var n := |s| - 1;
    OthersMono(s, s, n);
    AttrBounds(s[n]);
    assert VanishAt(MULT, s, n);
  }

  lemma OthersTotal(op: Bop, s: seq<Tree>, i: nat)
    requires |s| >= 2 && i < |s|
    ensures Total(s) - CapsOf(s[i]) >= 0
    ensures op == MULT && OthersVanish(op, s, i) ==> Total(s) - CapsOf(s[i]) >= 1
  {
    JoinAllMove(Plus, CapsOf, s, i);
    TotalPositive(Without(s, i));
    if op == MULT && OthersVanish(op, s, i) {
      WithoutVanish(op, s, i);
      VanishTotal(Without(s, i));
    }
  }

  /** The limit at an operand of one part of a list, from the limit at that part; f
      is the total of the other part, v says whether all of that may vanish. */
  lemma PartLim(op: Bop, x: seq<Tree>, s: seq<Tree>, i: nat, k: nat, lim: Lim, v: bool, f: int)
    requires CommOp(op) && i < |x| < |s| && k < |s| && s[k] == x[i] && Tighter(lim, FREE)
    requires f >= 0 && (op == MULT && v ==> f > 0) && Total(s) == Total(x) + f
    requires OthersVanish(op, s, k) <==> OthersVanish(op, x, i) && v
    ensures LimAt(op, DownLim(op, lim, v, f), x, i) == LimAt(op, lim, s, k)
  {
    if |x| > 1 {
      OthersTotal(op, x, i);
      DownTwice(op, lim, v, f, OthersVanish(op, x, i), Total(x) - CapsOf(x[i]));
    } else {
      LonePart(op, x, s, k);
    }
  }

  lemma LonePart(op: Bop, x: seq<Tree>, s: seq<Tree>, k: nat)
    requires |x| == 1 && k < |s| && s[k] == x[0]
    ensures Total(x) == CapsOf(s[k]) && OthersVanish(op, x, 0)
  {
  }

  lemma PartTotal(op: Bop, y: seq<Tree>)
    requires |y| >= 1
    ensures Total(y) >= 0 && (op == MULT && AllVanish(op, y) ==> Total(y) > 0)
  {
    TotalPositive(y);
    if op == MULT && AllVanish(op, y) {
      VanishTotal(y);
    }
  }

  lemma AppendAt(op: Bop, l: seq<Tree>, r: seq<Tree>)
    ensures forall j :: 0 <= j < |l| ==> VanishAt(op, l + r, j) == VanishAt(op, l, j)
    ensures forall j :: 0 <= j < |r| ==> VanishAt(op, l + r, |l| + j) == VanishAt(op, r, j)
  {
    var s := l + r;
    assert forall j :: 0 <= j < |l| ==> s[j] == l[j];
    assert forall j :: 0 <= j < |r| ==> s[|l| + j] == r[j];
  }

  lemma AppendAll(op: Bop, l: seq<Tree>, r: seq<Tree>)
    ensures AllVanish(op, l + r) <==> AllVanish(op, l) && AllVanish(op, r)
  {
    var s := l + r;
    AppendAt(op, l, r);
    if AllVanish(op, s) {
      forall j | 0 <= j < |l| ensures VanishAt(op, l, j) { assert VanishAt(op, s, j); }
      forall j | 0 <= j < |r| ensures VanishAt(op, r, j) { assert VanishAt(op, s, |l| + j); }
    }
    if AllVanish(op, l) && AllVanish(op, r) {
      forall j | 0 <= j < |s| ensures VanishAt(op, s, j) {
        if j >= |l| { assert VanishAt(op, r, j - |l|) == VanishAt(op, s, |l| + (j - |l|)); }
      }
    }
  }

  lemma AppendLeft(op: Bop, l: seq<Tree>, r: seq<Tree>, i: nat)
    requires i < |l|
    ensures OthersVanish(op, l + r, i) <==> OthersVanish(op, l, i) && AllVanish(op, r)
  {
    var s := l + r;
    AppendAt(op, l, r);
    if OthersVanish(op, s, i) {
      forall j | 0 <= j < |l| && j != i ensures VanishAt(op, l, j) { assert VanishAt(op, s, j); }
      forall j | 0 <= j < |r| ensures VanishAt(op, r, j) { assert VanishAt(op, s, |l| + j); }
    }
    if OthersVanish(op, l, i) && AllVanish(op, r) {
      forall j | 0 <= j < |s| && j != i ensures VanishAt(op, s, j) {
        if j >= |l| { assert VanishAt(op, r, j - |l|) == VanishAt(op, s, |l| + (j - |l|)); }
      }
    }
  }

  lemma AppendRight(op: Bop, l: seq<Tree>, r: seq<Tree>, i: nat, k: nat)
    requires i < |r| && k == |l| + i
    ensures OthersVanish(op, l + r, k) <==> OthersVanish(op, r, i) && AllVanish(op, l)
  {
    var s := l + r;
    AppendAt(op, l, r);
    if OthersVanish(op, s, k) {
      forall j | 0 <= j < |l| ensures VanishAt(op, l, j) { assert VanishAt(op, s, j); }
      forall j | 0 <= j < |r| && j != i ensures VanishAt(op, r, j) { assert VanishAt(op, s, |l| + j); }
    }
    if OthersVanish(op, r, i) && AllVanish(op, l) {
      forall j | 0 <= j < |s| && j != k ensures VanishAt(op, s, j) {
        if j >= |l| { assert VanishAt(op, r, j - |l|) == VanishAt(op, s, |l| + (j - |l|)); }
      }
    }
  }

  /** What is below a commutative node whose other operands are these. */
  function PartDown(op: Bop, lim: Lim, others: seq<Tree>): Lim
    requires |others| >= 1
  {
    DownLim(op, lim, AllVanish(op, others), Total(others))
  }

  predicate PartWide(op: Bop, ty: Ty, wide: bool, others: seq<Tree>) {
    wide && ty != LONG && AllVanish(op, others)
  }

  lemma LeftAt(op: Bop, ty: Ty, l: seq<Tree>, r: seq<Tree>, i: nat, env: Env, lim: Lim, wide: bool)
    requires CommOp(op) && i < |l| && |r| >= 1 && Tighter(lim, FREE)
    ensures SafeAt(op, ty, l + r, i, env, lim, wide) ==
      SafeAt(op, ty, l, i, env, PartDown(op, lim, r), PartWide(op, ty, wide, r))
  {
    LeftLim(op, ty, l, r, i, lim);
    SamePlaceAt(op, ty, l + r, i, l, i, env, lim, wide, PartDown(op, lim, r), PartWide(op, ty, wide, r));
  }

  lemma LeftLim(op: Bop, ty: Ty, l: seq<Tree>, r: seq<Tree>, i: nat, lim: Lim)
    requires CommOp(op) && i < |l| && |r| >= 1 && Tighter(lim, FREE)
    ensures LimAt(op, PartDown(op, lim, r), l, i) == LimAt(op, lim, l + r, i)
    ensures Open(op, ty, l + r, i) <==> ty != LONG && AllVanish(op, r) && Open(op, ty, l, i)
  {
    TotalAppend(l, r);
    AppendLeft(op, l, r, i);
    PartTotal(op, r);
    PartLim(op, l, l + r, i, i, lim, AllVanish(op, r), Total(r));
    if |l| == 1 {
      LonePart(op, l, l + r, i);
    }
  }

  lemma SamePlaceAt(op: Bop, ty: Ty, s: seq<Tree>, k: nat, u: seq<Tree>, i: nat, env: Env, lim: Lim, wide: bool,
                    lim': Lim, wide': bool)
    requires k < |s| && i < |u| && s[k] == u[i] && LimAt(op, lim, s, k) == LimAt(op, lim', u, i)
    requires (wide && Open(op, ty, s, k)) == (wide' && Open(op, ty, u, i))
    ensures SafeAt(op, ty, s, k, env, lim, wide) == SafeAt(op, ty, u, i, env, lim', wide')
  {
  }

  lemma RightLim(op: Bop, ty: Ty, l: seq<Tree>, r: seq<Tree>, i: nat, k: nat, lim: Lim)
    requires CommOp(op) && i < |r| && |l| >= 1 && Tighter(lim, FREE) && k == |l| + i
    ensures (l + r)[k] == r[i]
    ensures LimAt(op, PartDown(op, lim, l), r, i) == LimAt(op, lim, l + r, k)
    ensures Open(op, ty, l + r, k) <==> ty != LONG && AllVanish(op, l) && Open(op, ty, r, i)
  {
    TotalAppend(l, r);
    AppendRight(op, l, r, i, k);
    PartTotal(op, l);
    PartLim(op, r, l + r, i, k, lim, AllVanish(op, l), Total(l));
    if |r| == 1 {
      LonePart(op, r, l + r, k);
    }
  }

  lemma TotalAppend(l: seq<Tree>, r: seq<Tree>)
    requires |l| >= 1 && |r| >= 1
    ensures Total(l + r) == Total(l) + Total(r)
  {
    JoinAllAppend(Plus, CapsOf, l, r);
  }

  lemma RightAt(op: Bop, ty: Ty, l: seq<Tree>, r: seq<Tree>, i: nat, k: nat, env: Env, lim: Lim, wide: bool)
    requires CommOp(op) && i < |r| && |l| >= 1 && Tighter(lim, FREE) && k == |l| + i
    ensures SafeAt(op, ty, l + r, k, env, lim, wide) ==
      SafeAt(op, ty, r, i, env, PartDown(op, lim, l), PartWide(op, ty, wide, l))
  {
    RightLim(op, ty, l, r, i, k, lim);
    SamePlaceAt(op, ty, l + r, k, r, i, env, lim, wide, PartDown(op, lim, l), PartWide(op, ty, wide, l));
  }

  predicate PartSafe(op: Bop, ty: Ty, part: seq<Tree>, others: seq<Tree>, env: Env, lim: Lim, wide: bool)
    requires |part| >= 1 && |others| >= 1
  {
    ListSafe(op, ty, part, env, PartDown(op, lim, others), PartWide(op, ty, wide, others))
  }

  lemma PartsSafe(op: Bop, ty: Ty, l: seq<Tree>, r: seq<Tree>, env: Env, lim: Lim, wide: bool)
    requires CommOp(op) && |l| >= 1 && |r| >= 1 && Tighter(lim, FREE) && ListSafe(op, ty, l + r, env, lim, wide)
    ensures PartSafe(op, ty, l, r, env, lim, wide) && PartSafe(op, ty, r, l, env, lim, wide)
  {
    forall i | 0 <= i < |l| ensures SafeAt(op, ty, l, i, env, PartDown(op, lim, r), PartWide(op, ty, wide, r)) {
      assert SafeAt(op, ty, l + r, i, env, lim, wide);
      LeftAt(op, ty, l, r, i, env, lim, wide);
    }
    forall i | 0 <= i < |r| ensures SafeAt(op, ty, r, i, env, PartDown(op, lim, l), PartWide(op, ty, wide, l)) {
      assert SafeAt(op, ty, l + r, |l| + i, env, lim, wide);
      RightAt(op, ty, l, r, i, |l| + i, env, lim, wide);
    }
  }

  /** Safe parts make a safe list. */
  lemma AppendSafe(op: Bop, ty: Ty, l: seq<Tree>, r: seq<Tree>, env: Env, lim: Lim, wide: bool)
    requires CommOp(op) && |l| >= 1 && |r| >= 1 && Tighter(lim, FREE)
    requires PartSafe(op, ty, l, r, env, lim, wide) && PartSafe(op, ty, r, l, env, lim, wide)
    ensures ListSafe(op, ty, l + r, env, lim, wide)
  {
    forall k | 0 <= k < |l + r| ensures SafeAt(op, ty, l + r, k, env, lim, wide) {
      if k < |l| {
        assert SafeAt(op, ty, l, k, env, PartDown(op, lim, r), PartWide(op, ty, wide, r));
        LeftAt(op, ty, l, r, k, env, lim, wide);
      } else {
        assert SafeAt(op, ty, r, k - |l|, env, PartDown(op, lim, l), PartWide(op, ty, wide, l));
        RightAt(op, ty, l, r, k - |l|, k, env, lim, wide);
      }
    }
  }

  lemma GroupCaps(op: Bop, t: Tree)
    requires CommOp(op)
    ensures op == MULT ==> A(t).caps == Total(Flat(op, t))
  {
    FlatSums(op, t);
  }

  lemma SingleAt(op: Bop, ty: Ty, s: seq<Tree>, env: Env, lim: Lim, wide: bool)
    requires |s| == 1
    ensures SafeAt(op, ty, s, 0, env, lim, wide) <==> Safe(s[0], env, lim, wide)
  {
  }

  lemma SingleSafe(op: Bop, ty: Ty, s: seq<Tree>, env: Env, lim: Lim, wide: bool)
    requires |s| == 1
    ensures ListSafe(op, ty, s, env, lim, wide) <==> Safe(s[0], env, lim, wide)
  {
    SingleAt(op, ty, s, env, lim, wide);
    if Safe(s[0], env, lim, wide) {
      forall i | 0 <= i < |s| ensures SafeAt(op, ty, s, i, env, lim, wide) {}
    }
  }

  lemma DownMono(op: Bop, lim: Lim, lim': Lim, van: bool, f: int)
    requires Tighter(lim, lim')
    ensures Tighter(DownLim(op, lim, van, f), DownLim(op, lim', van, f))
  {
  }

  lemma ListMono(op: Bop, ty: Ty, s: seq<Tree>, env: Env, lim: Lim, wide: bool, lim': Lim, wide': bool)
    requires |s| >= 1 && ListSafe(op, ty, s, env, lim, wide) && Tighter(lim, lim') && (wide' ==> wide)
    ensures ListSafe(op, ty, s, env, lim', wide')
  {
    forall i | 0 <= i < |s| ensures SafeAt(op, ty, s, i, env, lim', wide') {
      assert SafeAt(op, ty, s, i, env, lim, wide);
      if |s| > 1 {
        DownMono(op, lim, lim', OthersVanish(op, s, i), Total(s) - CapsOf(s[i]));
      }
      SafeMono(s[i], env, LimAt(op, lim, s, i), wide && Open(op, ty, s, i),
               LimAt(op, lim', s, i), wide' && Open(op, ty, s, i));
    }
  }

  lemma SingleVanish(op: Bop, s: seq<Tree>)
    requires |s| == 1
    ensures AllVanish(op, s) <==> Vanishes(op, A(s[0]))
  {
    if AllVanish(op, s) {
      assert VanishAt(op, s, 0);
    }
    if Vanishes(op, A(s[0])) {
      forall j | 0 <= j < |s| ensures VanishAt(op, s, j) { assert j == 0; }
    }
  }

  /** A group whose operands may all vanish may vanish itself. */
  lemma {:induction false} FlatVanishes(op: Bop, t: Tree)
    requires CommOp(op)
    ensures AllVanish(op, Flat(op, t)) ==> Vanishes(op, A(t))
  {
    if InGroup(op, t) {
      AppendAll(op, Flat(op, t.left), Flat(op, t.right));
      FlatVanishes(op, t.left);
      FlatVanishes(op, t.right);
    } else {
      SingleVanish(op, [t]);
    }
  }

  lemma FlatDown(op: Bop, ty: Ty, t: Tree, lim: Lim, wide: bool)
    requires CommOp(op) && Tighter(lim, FREE)
    ensures Tighter(LimLeft(op, lim, A(t)), PartDown(op, lim, Flat(op, t)))
    ensures Tighter(LimRight(op, lim, A(t)), PartDown(op, lim, Flat(op, t)))
    ensures PartWide(op, ty, wide, Flat(op, t)) ==> wide && ThruLeft(op, ty, A(t)) && ThruRight(op, ty, A(t))
  {
    GroupCaps(op, t);
    FlatVanishes(op, t);
    DownIs(op, lim, A(t));
    DownGrows(op, lim, Vanishes(op, A(t)), A(t).caps, AllVanish(op, Flat(op, t)), Total(Flat(op, t)));
  }

  lemma {:induction false} FlatSafe(op: Bop, ty: Ty, t: Tree, env: Env, lim: Lim, wide: bool)
    requires CommOp(op) && Uniform(op, ty, t) && Safe(t, env, lim, wide) && Tighter(lim, FREE)
    ensures ListSafe(op, ty, Flat(op, t), env, lim, wide)
  {
    if InGroup(op, t) {
      var l, r := t.left, t.right;
      FlatDown(op, ty, l, lim, wide);
      FlatDown(op, ty, r, lim, wide);
      LimFree(op, lim, A(l));
      LimFree(op, lim, A(r));
      FlatSafe(op, ty, l, env, LimLeft(op, lim, A(r)), wide && ThruLeft(op, ty, A(r)));
      FlatSafe(op, ty, r, env, LimRight(op, lim, A(l)), wide && ThruRight(op, ty, A(l)));
      ListMono(op, ty, Flat(op, l), env, LimLeft(op, lim, A(r)), wide && ThruLeft(op, ty, A(r)),
               PartDown(op, lim, Flat(op, r)), PartWide(op, ty, wide, Flat(op, r)));
      ListMono(op, ty, Flat(op, r), env, LimRight(op, lim, A(l)), wide && ThruRight(op, ty, A(l)),
               PartDown(op, lim, Flat(op, l)), PartWide(op, ty, wide, Flat(op, l)));
      AppendSafe(op, ty, Flat(op, l), Flat(op, r), env, lim, wide);
    } else {
      SingleSafe(op, ty, [t], env, lim, wide);
    }
  }

  lemma DownGrows(op: Bop, lim: Lim, van: bool, f: int, van': bool, f': int)
    requires Tighter(lim, FREE) && (op == MULT ==> f' <= f) && (van' ==> van)
    ensures Tighter(DownLim(op, lim, van, f), DownLim(op, lim, van', f'))
    ensures Tighter(DownLim(op, lim, van', f'), FREE)
  {
  }

  /** A group that may vanish has operands that all may. */
  lemma {:induction false} DeepVanishes(op: Bop, s: seq<Tree>, hs: seq<Head>)
    requires CommOp(op) && |s| == |hs| + 1
    ensures Vanishes(op, A(LeftDeep(op, s, hs))) ==> AllVanish(op, s)
  {
    var n := |hs|;
    if n > 0 {
      DeepVanishes(op, s[..n], hs[..n - 1]);
      assert s == s[..n] + [s[n]];
      AppendAll(op, s[..n], [s[n]]);
      SingleVanish(op, [s[n]]);
    } else {
      SingleVanish(op, s);
    }
  }

  lemma {:induction false} DeepSafe(op: Bop, ty: Ty, s: seq<Tree>, hs: seq<Head>, env: Env, lim: Lim, wide: bool)
    requires CommOp(op) && |s| == |hs| + 1 && SameTy(hs, ty)
    requires ListSafe(op, ty, s, env, lim, wide) && Tighter(lim, FREE)
    requires IntProduct(op, ty) ==> !wide
    ensures Safe(LeftDeep(op, s, hs), env, lim, wide)
  {
    var n := |hs|;
    if n > 0 {
      var s0, x := s[..n], s[n];
      var l := LeftDeep(op, s0, hs[..n - 1]);
      assert s == s0 + [x];
      PartsSafe(op, ty, s0, [x], env, lim, wide);
      DeepLeft(op, ty, s0, x, env, lim, wide);
      LimFree(op, lim, A(x));
      DeepSafe(op, ty, s0, hs[..n - 1], env, LimLeft(op, lim, A(x)), wide && ThruLeft(op, ty, A(x)));
      DeepSums(op, s0, hs[..n - 1]);
      DeepVanishes(op, s0, hs[..n - 1]);
      DeepRight(op, ty, s0, x, l, env, lim, wide);
    } else {
      SingleSafe(op, ty, s, env, lim, wide);
    }
  }

  lemma DeepLeft(op: Bop, ty: Ty, s0: seq<Tree>, x: Tree, env: Env, lim: Lim, wide: bool)
    requires CommOp(op) && |s0| >= 1 && Tighter(lim, FREE) && PartSafe(op, ty, s0, [x], env, lim, wide)
    ensures ListSafe(op, ty, s0, env, LimLeft(op, lim, A(x)), wide && ThruLeft(op, ty, A(x)))
  {
    SingleVanish(op, [x]);
    DownIs(op, lim, A(x));
    assert Total([x]) == CapsOf([x][0]) == A(x).caps;
  }

  lemma DeepRight(op: Bop, ty: Ty, s0: seq<Tree>, x: Tree, l: Tree, env: Env, lim: Lim, wide: bool)
    requires CommOp(op) && |s0| >= 1 && Tighter(lim, FREE) && (Vanishes(op, A(l)) ==> AllVanish(op, s0))
    requires (op == MULT ==> A(l).caps == Total(s0)) && PartSafe(op, ty, [x], s0, env, lim, wide)
    ensures Safe(x, env, LimRight(op, lim, A(l)), wide && ThruRight(op, ty, A(l)))
  {
    SingleSafe(op, ty, [x], env, PartDown(op, lim, s0), PartWide(op, ty, wide, s0));
    DownIs(op, lim, A(l));
    DownGrows(op, lim, AllVanish(op, s0), Total(s0), Vanishes(op, A(l)), A(l).caps);
    SafeMono(x, env, PartDown(op, lim, s0), PartWide(op, ty, wide, s0),
             LimRight(op, lim, A(l)), wide && ThruRight(op, ty, A(l)));
  }

  lemma {:induction false} JoinAllEqual(m: Comb, f: Tree -> int, s: seq<Tree>, u: seq<Tree>)
    requires |s| == |u| >= 1 && forall i :: 0 <= i < |s| ==> f(u[i]) == f(s[i])
    ensures JoinAll(m, f, u) == JoinAll(m, f, s)
  {
    if |s| > 1 {
      JoinAllEqual(m, f, s[..|s| - 1], u[..|u| - 1]);
    }
  }

  /** Sums and products of natural numbers are monotone. */
  lemma {:induction false} JoinAllMono(m: Comb, f: Tree -> int, s: seq<Tree>, u: seq<Tree>)
    requires m != Machine(ADD, INT) && !m.Machine?
    requires |s| == |u| >= 1 && forall i :: 0 <= i < |s| ==> 0 <= f(u[i]) <= f(s[i])
    ensures 0 <= JoinAll(m, f, u) <= JoinAll(m, f, s)
  {
    if |s| > 1 {
      JoinAllMono(m, f, s[..|s| - 1], u[..|u| - 1]);
      MulMono(JoinAll(m, f, s[..|s| - 1]), f(s[|s| - 1]), JoinAll(m, f, u[..|u| - 1]), f(u[|u| - 1]));
    }
  }

  /** The count beside operand i. */
  lemma OthersMono(s: seq<Tree>, u: seq<Tree>, i: nat)
    requires i < |s| == |u| && forall j :: 0 <= j < |s| ==> CapsOf(u[j]) <= CapsOf(s[j])
    ensures Total(u) - CapsOf(u[i]) <= Total(s) - CapsOf(s[i])
    ensures Total(s) >= CapsOf(s[i])
  {
    if |s| > 1 {
      JoinAllMove(Plus, CapsOf, s, i);
      JoinAllMove(Plus, CapsOf, u, i);
      WithoutCaps(s, u, i);
    }
  }

  lemma WithoutAt(s: seq<Tree>, i: nat, j: nat)
    requires i < |s| && j < |s| - 1
    ensures Without(s, i)[j] == s[if j < i then j else j + 1]
  {
  }

  lemma WithoutCaps(s: seq<Tree>, u: seq<Tree>, i: nat)
    requires i < |s| == |u| && |s| > 1 && forall j :: 0 <= j < |s| ==> CapsOf(u[j]) <= CapsOf(s[j])
    ensures 0 <= Total(Without(u, i)) <= Total(Without(s, i))
  {
    var s', u' := Without(s, i), Without(u, i);
    forall j | 0 <= j < |s'| ensures 0 <= CapsOf(u'[j]) <= CapsOf(s'[j]) {
      WithoutAt(s, i, j);
      WithoutAt(u, i, j);
    }
    JoinAllMono(Plus, CapsOf, s', u');
  }

  lemma PointwiseVanish(op: Bop, s: seq<Tree>, u: seq<Tree>)
    requires |s| == |u| && forall i :: 0 <= i < |s| ==> Leq(A(u[i]), A(s[i]))
    ensures forall i :: OthersVanish(op, u, i) ==> OthersVanish(op, s, i)
    ensures AllVanish(op, u) ==> AllVanish(op, s)
  {
    forall i | OthersVanish(op, u, i) ensures OthersVanish(op, s, i) {
      forall j | 0 <= j < |s| && j != i ensures VanishAt(op, s, j) {
        assert Leq(A(u[j]), A(s[j])) && VanishAt(op, u, j);
      }
    }
    if AllVanish(op, u) {
      forall j | 0 <= j < |s| ensures VanishAt(op, s, j) {
        assert Leq(A(u[j]), A(s[j])) && VanishAt(op, u, j);
      }
    }
  }

  lemma PointwiseLim(op: Bop, s: seq<Tree>, u: seq<Tree>, i: nat, lim: Lim)
    requires |s| == |u| && i < |s| && Tighter(lim, FREE)
    requires forall j :: 0 <= j < |s| ==> CapsOf(u[j]) <= CapsOf(s[j])
    requires OthersVanish(op, u, i) ==> OthersVanish(op, s, i)
    ensures Tighter(LimAt(op, lim, s, i), LimAt(op, lim, u, i)) && Tighter(LimAt(op, lim, s, i), FREE)
  {
    OthersMono(s, u, i);
    if |s| > 1 {
      DownGrows(op, lim, OthersVanish(op, s, i), Total(s) - CapsOf(s[i]),
                OthersVanish(op, u, i), Total(u) - CapsOf(u[i]));
      DownGrows(op, lim, OthersVanish(op, s, i), Total(s) - CapsOf(s[i]),
                OthersVanish(op, s, i), Total(s) - CapsOf(s[i]));
    }
  }

  lemma PointwiseAt(op: Bop, ty: Ty, s: seq<Tree>, u: seq<Tree>, i: nat, env: Env, lim: Lim, wide: bool)
    requires |s| == |u| && i < |s| && Same(s[i], u[i]) && Tighter(lim, FREE)
    requires Tighter(LimAt(op, lim, s, i), LimAt(op, lim, u, i)) && Tighter(LimAt(op, lim, s, i), FREE)
    requires OthersVanish(op, u, i) ==> OthersVanish(op, s, i)
    requires SafeAt(op, ty, s, i, env, lim, wide) && (wide ==> NestsAt(op, ty, NestOf, s, i, 1))
    ensures Eval(u[i], env) == Eval(s[i], env) && SafeAt(op, ty, u, i, env, lim, wide)
  {
    assert Pre(s[i], env, LimAt(op, lim, s, i), wide && Open(op, ty, s, i));
    SameAt(s[i], u[i], env, LimAt(op, lim, s, i), wide && Open(op, ty, s, i),
           LimAt(op, lim, u, i), wide && Open(op, ty, u, i));
  }

  lemma PointwiseSame(op: Bop, ty: Ty, s: seq<Tree>, u: seq<Tree>, env: Env, lim: Lim, wide: bool)
    requires |s| == |u| >= 1 && forall i :: 0 <= i < |s| ==> Refines(s[i], u[i])
    requires ListPre(op, ty, s, env, lim, wide)
    ensures JoinAll(Machine(op, ty), EvalIn(env), u) == JoinAll(Machine(op, ty), EvalIn(env), s)
    ensures ListSafe(op, ty, u, env, lim, wide)
  {
    PointwiseVanish(op, s, u);
    forall i | 0 <= i < |s|
      ensures Eval(u[i], env) == Eval(s[i], env) && SafeAt(op, ty, u, i, env, lim, wide)
    {
      assert SafeAt(op, ty, s, i, env, lim, wide) && (wide ==> NestsAt(op, ty, NestOf, s, i, 1));
      PointwiseLim(op, s, u, i, lim);
      PointwiseAt(op, ty, s, u, i, env, lim, wide);
    }
    JoinAllEqual(Machine(op, ty), EvalIn(env), s, u);
  }

  lemma PointwiseRefines(op: Bop, ty: Ty, s: seq<Tree>, u: seq<Tree>)
    requires |s| == |u| >= 1 && forall i :: 0 <= i < |s| ==> Refines(s[i], u[i])
    ensures ListRefines(op, ty, s, u)
  {
    JoinAllMono(WeightComb(op), WeightOf, s, u);
    JoinAllMono(Plus, CapsOf, s, u);
    PointwiseVanish(op, s, u);
    forall env, lim, wide | ListPre(op, ty, s, env, lim, wide)
      ensures JoinAll(Machine(op, ty), EvalIn(env), u) == JoinAll(Machine(op, ty), EvalIn(env), s)
        && ListSafe(op, ty, u, env, lim, wide)
    {
      PointwiseSame(op, ty, s, u, env, lim, wide);
    }
    PointwiseFolds(op, ty, s, u);
  }

  lemma PointwiseNests(op: Bop, ty: Ty, f: Tree -> int, s: seq<Tree>, u: seq<Tree>, k: int)
    requires |s| == |u| && Nests(op, ty, f, s, k) && forall i :: 0 <= i < |s| ==> f(u[i]) <= f(s[i])
    requires forall i :: OthersVanish(op, u, i) ==> OthersVanish(op, s, i)
    ensures Nests(op, ty, f, u, k)
  {
    forall i | 0 <= i < |u| ensures NestsAt(op, ty, f, u, i, k) {
      assert NestsAt(op, ty, f, s, i, k);
    }
  }

  lemma PointwiseFolds(op: Bop, ty: Ty, s: seq<Tree>, u: seq<Tree>)
    requires |s| == |u| >= 1 && forall i :: 0 <= i < |s| ==> Leq(A(u[i]), A(s[i]))
    ensures Folds(op, u) ==> Folds(op, s)
    ensures forall k: nat :: Nests(op, ty, NestOf, s, k) ==> Nests(op, ty, NestOf, u, k)
    ensures forall k :: CapsIn(op, s, k) ==> CapsIn(op, u, k)
  {
    PointwiseVanish(op, s, u);
    if Folds(op, u) {
      if op == OR {
        var i :| 0 <= i < |u| && A(u[i]).fold;
        assert A(s[i]).fold;
      } else {
        forall i | 0 <= i < |s| ensures A(s[i]).fold { assert A(u[i]).fold; }
      }
    }
    forall k: nat | Nests(op, ty, NestOf, s, k) ensures Nests(op, ty, NestOf, u, k) {
      PointwiseNests(op, ty, NestOf, s, u, k);
    }
    forall k | CapsIn(op, s, k) ensures CapsIn(op, u, k) {
      PointwiseNests(op, INT, CapsOf, s, u, k);
    }
  }

  // ---- permuting the operands ----

  lemma PermutedMember(s: seq<Tree>, u: seq<Tree>, i: nat) returns (j: nat)
    requires multiset(s) == multiset(u) && i < |u|
    ensures j < |s| && s[j] == u[i]
  {
    assert u[i] in multiset(u);
    assert u[i] in s;
    j :| 0 <= j < |s| && s[j] == u[i];
  }

  lemma PermutedVanish(op: Bop, s: seq<Tree>, u: seq<Tree>)
    requires multiset(s) == multiset(u) && AllVanish(op, s)
    ensures AllVanish(op, u)
  {
    forall i | 0 <= i < |u| ensures VanishAt(op, u, i) {
      var j := PermutedMember(s, u, i);
      assert VanishAt(op, s, j);
    }
  }

  lemma WithoutVanish(op: Bop, s: seq<Tree>, i: nat)
    requires i < |s|
    ensures OthersVanish(op, s, i) <==> AllVanish(op, Without(s, i))
  {
    var w := Without(s, i);
    if AllVanish(op, w) {
      forall j | 0 <= j < |s| && j != i ensures VanishAt(op, s, j) {
        var k := if j < i then j else j - 1;
        WithoutAt(s, i, k);
        assert VanishAt(op, w, k);
      }
    }
    if OthersVanish(op, s, i) {
      forall j | 0 <= j < |w| ensures VanishAt(op, w, j) {
        WithoutAt(s, i, j);
        assert VanishAt(op, s, if j < i then j else j + 1);
      }
    }
  }

  lemma WithoutMultiset(s: seq<Tree>, i: nat)
    requires i < |s|
    ensures multiset(Without(s, i)) == multiset(s) - multiset{s[i]}
  {
    assert s == s[..i] + [s[i]] + s[i + 1..];
    assert multiset(s) == multiset(Without(s, i)) + multiset{s[i]};
  }

  /** What operand i of u has beside it, some place of s has too. */
  lemma PermutedPlace(op: Bop, s: seq<Tree>, u: seq<Tree>, i: nat) returns (j: nat)
    requires multiset(s) == multiset(u) && i < |u|
    ensures |u| == |s| && j < |s| && s[j] == u[i]
    ensures OthersVanish(op, s, j) <==> OthersVanish(op, u, i)
  {
    assert |multiset(s)| == |s| && |multiset(u)| == |u|;
    j := PermutedMember(s, u, i);
    WithoutVanish(op, s, j);
    WithoutVanish(op, u, i);
    WithoutMultiset(s, j);
    WithoutMultiset(u, i);
    if AllVanish(op, Without(s, j)) {
      PermutedVanish(op, Without(s, j), Without(u, i));
    }
    if AllVanish(op, Without(u, i)) {
      PermutedVanish(op, Without(u, i), Without(s, j));
    }
  }

  lemma SamePlace(op: Bop, ty: Ty, s: seq<Tree>, j: nat, u: seq<Tree>, i: nat, env: Env, lim: Lim, wide: bool)
    requires |u| == |s| && i < |u| && j < |s| && s[j] == u[i] && Total(s) == Total(u)
    requires OthersVanish(op, s, j) <==> OthersVanish(op, u, i)
    ensures SafeAt(op, ty, s, j, env, lim, wide) == SafeAt(op, ty, u, i, env, lim, wide)
  {
    SameLim(op, ty, s, j, u, i, lim);
    SamePlaceAt(op, ty, s, j, u, i, env, lim, wide, lim, wide);
  }

  lemma SameLim(op: Bop, ty: Ty, s: seq<Tree>, j: nat, u: seq<Tree>, i: nat, lim: Lim)
    requires |u| == |s| && i < |u| && j < |s| && s[j] == u[i] && Total(s) == Total(u)
    requires OthersVanish(op, s, j) <==> OthersVanish(op, u, i)
    ensures LimAt(op, lim, s, j) == LimAt(op, lim, u, i) && Open(op, ty, s, j) == Open(op, ty, u, i)
  {
  }

  lemma PermutedSafe(op: Bop, ty: Ty, s: seq<Tree>, u: seq<Tree>, env: Env, lim: Lim, wide: bool)
    requires |s| >= 1 && |u| >= 1 && multiset(s) == multiset(u) && Total(s) == Total(u)
    requires ListSafe(op, ty, s, env, lim, wide)
    ensures ListSafe(op, ty, u, env, lim, wide)
  {
    forall i | 0 <= i < |u| ensures SafeAt(op, ty, u, i, env, lim, wide) {
      var j := PermutedPlace(op, s, u, i);
      assert SafeAt(op, ty, s, j, env, lim, wide);
      SamePlace(op, ty, s, j, u, i, env, lim, wide);
    }
  }

  lemma PermutedNests(op: Bop, ty: Ty, f: Tree -> int, s: seq<Tree>, u: seq<Tree>, k: int)
    requires multiset(s) == multiset(u) && Nests(op, ty, f, s, k)
    ensures Nests(op, ty, f, u, k)
  {
    forall i | 0 <= i < |u| ensures NestsAt(op, ty, f, u, i, k) {
      var j := PermutedPlace(op, s, u, i);
      assert NestsAt(op, ty, f, s, j, k);
    }
  }

  lemma PermutedFolds(op: Bop, ty: Ty, s: seq<Tree>, u: seq<Tree>)
    requires multiset(s) == multiset(u)
    ensures Folds(op, u) ==> Folds(op, s)
    ensures forall k: nat :: Nests(op, ty, NestOf, s, k) ==> Nests(op, ty, NestOf, u, k)
    ensures forall k :: CapsIn(op, s, k) ==> CapsIn(op, u, k)
  {
    if Folds(op, u) {
      if op == OR {
        var i :| 0 <= i < |u| && A(u[i]).fold;
        var j := PermutedMember(s, u, i);
        assert A(s[j]).fold;
      } else {
        forall i | 0 <= i < |s| ensures A(s[i]).fold {
          var j := PermutedMember(u, s, i);
        }
      }
    }
    forall k: nat | Nests(op, ty, NestOf, s, k) ensures Nests(op, ty, NestOf, u, k) {
      PermutedNests(op, ty, NestOf, s, u, k);
    }
    forall k | CapsIn(op, s, k) ensures CapsIn(op, u, k) {
      PermutedNests(op, INT, CapsOf, s, u, k);
    }
  }

  lemma PermutedRefines(op: Bop, ty: Ty, s: seq<Tree>, u: seq<Tree>)
    requires CommOp(op) && ty != UNSIGNED && |s| >= 1 && multiset(s) == multiset(u)
    ensures |u| == |s| && ListRefines(op, ty, s, u)
  {
    JoinAllPermuted(WeightComb(op), WeightOf, s, u);
    JoinAllPermuted(Plus, CapsOf, s, u);
    forall env, lim, wide | ListPre(op, ty, s, env, lim, wide)
      ensures JoinAll(Machine(op, ty), EvalIn(env), u) == JoinAll(Machine(op, ty), EvalIn(env), s)
        && ListSafe(op, ty, u, env, lim, wide)
    {
      JoinAllPermuted(Machine(op, ty), EvalIn(env), s, u);
      PermutedSafe(op, ty, s, u, env, lim, wide);
    }
    PermutedFolds(op, ty, s, u);
    if AllVanish(op, u) {
      PermutedVanish(op, u, s);
    }
  }

  lemma ListRefinesTrans(op: Bop, ty: Ty, s: seq<Tree>, u: seq<Tree>, v: seq<Tree>)
    requires |s| >= 1 && |u| >= 1 && |v| >= 1 && ListRefines(op, ty, s, u) && ListRefines(op, ty, u, v)
    ensures ListRefines(op, ty, s, v)
  {
    forall env, lim, wide | ListPre(op, ty, s, env, lim, wide)
      ensures JoinAll(Machine(op, ty), EvalIn(env), v) == JoinAll(Machine(op, ty), EvalIn(env), s)
        && ListSafe(op, ty, v, env, lim, wide)
    {
      assert ListPre(op, ty, u, env, lim, wide);
    }
  }

  // ---- folding the last two constants ----

  function Merged(op: Bop, ty: Ty, s: seq<Tree>): seq<Tree>
    requires |s| >= 2
  {
    var n := |s| - 2;
    s[..n] + [Ccexpr(Bin(op, ty, s[n], s[n + 1], 0)).tree]
  }

  lemma ConstPlain(t: Tree)
    requires IsConst(t)
    ensures A(t).caps == 1 && A(t).nest == 0 && A(t).fold && A(t).weight >= 3
  {
    AttrBounds(t);
  }

  predicate GroupWell(ty: Ty, s: seq<Tree>, m: Mode) {
    forall i :: 0 <= i < |s| ==> WellTyped(s[i], m) && A(s[i]).kind == TyKind(ty)
  }

  lemma FoldedPairTop(op: Bop, ty: Ty, a: Tree, b: Tree, m: Mode)
    requires CommOp(op) && ty != UNSIGNED && IsConst(a) && IsConst(b)
    requires WellTyped(a, m) && WellTyped(b, m) && A(a).kind == A(b).kind == TyKind(ty)
    ensures Top(Bin(op, ty, a, b, 0))
  {
    assert WellTyped(a, DONE) && WellTyped(b, DONE);
  }

  /** The constant two constants fold to. */
  lemma FoldedPair(op: Bop, ty: Ty, a: Tree, b: Tree, m: Mode)
    requires CommOp(op) && ty != UNSIGNED && IsConst(a) && IsConst(b)
    requires WellTyped(a, m) && WellTyped(b, m) && A(a).kind == A(b).kind == TyKind(ty)
    ensures var c := Ccexpr(Bin(op, ty, a, b, 0)).tree;
      && (c.Cint? || c.Clong?) && WellTyped(c, m) && A(c).kind == TyKind(ty)
      && A(c).weight <= Join(WeightComb(op), A(a).weight, A(b).weight)
  {
    var t := Bin(op, ty, a, b, 0);
    FoldedPairTop(op, ty, a, b, m);
    FoldedWidth(t);
    AttrBounds(a);
    AttrBounds(b);
    Weight2AtLeast(op, A(a).weight, A(b).weight);
  }

  lemma FoldedPairValue(op: Bop, ty: Ty, a: Tree, b: Tree, m: Mode, env: Env)
    requires CommOp(op) && ty != UNSIGNED && IsConst(a) && IsConst(b)
    requires WellTyped(a, m) && WellTyped(b, m) && A(a).kind == A(b).kind == TyKind(ty)
    ensures Eval(Ccexpr(Bin(op, ty, a, b, 0)).tree, env) == Join(Machine(op, ty), Eval(a, env), Eval(b, env))
  {
    FoldedPairTop(op, ty, a, b, m);
    FoldedSame(Bin(op, ty, a, b, 0), env);
  }

  lemma JoinAllLastTwo(m: Comb, f: Tree -> int, s: seq<Tree>, c: Tree)
    requires GoodComb(m) && |s| >= 2
    ensures |s| == 2 ==> JoinAll(m, f, s) == Join(m, f(s[0]), f(s[1])) && JoinAll(m, f, [c]) == f(c)
    ensures |s| > 2 ==> JoinAll(m, f, s) == Join(m, JoinAll(m, f, s[..|s| - 2]), Join(m, f(s[|s| - 2]), f(s[|s| - 1])))
    ensures |s| > 2 ==> JoinAll(m, f, s[..|s| - 2] + [c]) == Join(m, JoinAll(m, f, s[..|s| - 2]), f(c))
  {
    var n := |s| - 2;
    assert s == s[..n] + [s[n], s[n + 1]];
    assert [s[n], s[n + 1]][..1] == [s[n]];
    if n > 0 {
      JoinAllAppend(m, f, s[..n], [s[n], s[n + 1]]);
      JoinAllAppend(m, f, s[..n], [c]);
    }
  }

  lemma {:induction false} WeightsPositive(m: Comb, s: seq<Tree>)
    requires !m.Machine? && |s| >= 1
    ensures JoinAll(m, WeightOf, s) >= 0
  {
    JoinAllMono(m, WeightOf, s, s);
  }

  lemma MergedWeight(op: Bop, s: seq<Tree>, c: Tree)
    requires |s| >= 2
    requires A(c).weight <= Join(WeightComb(op), A(s[|s| - 2]).weight, A(s[|s| - 1]).weight)
    ensures JoinAll(WeightComb(op), WeightOf, s[..|s| - 2] + [c]) <= JoinAll(WeightComb(op), WeightOf, s)
  {
    var m := WeightComb(op);
    JoinAllLastTwo(m, WeightOf, s, c);
    if |s| > 2 {
      var pre := JoinAll(m, WeightOf, s[..|s| - 2]);
      WeightsPositive(m, s[..|s| - 2]);
      MulMono(pre, Join(m, A(s[|s| - 2]).weight, A(s[|s| - 1]).weight), pre, A(c).weight);
    }
  }

  /** The last two operands replaced by one that vanishes only if both do. */
  lemma ShorterVanish(op: Bop, s: seq<Tree>, u: seq<Tree>)
    requires |s| >= 2 && |u| == |s| - 1 && u[..|s| - 2] == s[..|s| - 2]
    requires Vanishes(op, A(u[|s| - 2])) ==> Vanishes(op, A(s[|s| - 2])) && Vanishes(op, A(s[|s| - 1]))
    ensures AllVanish(op, u) ==> AllVanish(op, s)
    ensures forall i :: 0 <= i < |u| - 1 && OthersVanish(op, u, i) ==> OthersVanish(op, s, i)
  {
    var n := |s| - 2;
    forall j | 0 <= j < |s| ensures VanishAt(op, u, if j < n then j else n) ==> VanishAt(op, s, j) {
      if j < n { assert u[j] == u[..n][j] == s[..n][j]; }
    }
    if AllVanish(op, u) {
      forall j | 0 <= j < |s| ensures VanishAt(op, s, j) {
        assert VanishAt(op, u, if j < n then j else n);
      }
    }
    forall i | 0 <= i < n && OthersVanish(op, u, i) ensures OthersVanish(op, s, i) {
      forall j | 0 <= j < |s| && j != i ensures VanishAt(op, s, j) {
        assert VanishAt(op, u, if j < n then j else n);
      }
    }
  }

  /** A constant that may be a unit was folded from two that may be. */
  lemma MergedVanish(op: Bop, ty: Ty, s: seq<Tree>)
    requires CommOp(op) && |s| >= 2 && IsConst(s[|s| - 2]) && IsConst(s[|s| - 1])
    ensures var u := Merged(op, ty, s);
      && (AllVanish(op, u) ==> AllVanish(op, s))
      && forall i :: 0 <= i < |u| - 1 && OthersVanish(op, u, i) ==> OthersVanish(op, s, i)
  {
    var u := Merged(op, ty, s);
    MergedLast(op, ty, s[|s| - 2], s[|s| - 1]);
    assert u[..|s| - 2] == s[..|s| - 2];
    ShorterVanish(op, s, u);
  }

  lemma MergedLast(op: Bop, ty: Ty, a: Tree, b: Tree)
    requires CommOp(op) && IsConst(a) && IsConst(b)
    ensures Vanishes(op, A(Ccexpr(Bin(op, ty, a, b, 0)).tree)) ==> Vanishes(op, A(a)) && Vanishes(op, A(b))
  {
    ConstPlain(a);
    ConstPlain(b);
    if op == OR {
      FoldedZero(Bin(op, ty, a, b, 0));
    }
  }

  lemma MergedAt(op: Bop, ty: Ty, s: seq<Tree>, i: nat, env: Env, lim: Lim, wide: bool)
    requires CommOp(op) && |s| >= 2 && i < |s| - 2 && Tighter(lim, FREE) && SafeAt(op, ty, s, i, env, lim, wide)
    requires Total(Merged(op, ty, s)) <= Total(s)
    requires OthersVanish(op, Merged(op, ty, s), i) ==> OthersVanish(op, s, i)
    ensures SafeAt(op, ty, Merged(op, ty, s), i, env, lim, wide)
  {
    var u := Merged(op, ty, s);
    DownGrows(op, lim, OthersVanish(op, s, i), Total(s) - CapsOf(s[i]),
              OthersVanish(op, u, i), Total(u) - CapsOf(u[i]));
    SafeMono(s[i], env, LimAt(op, lim, s, i), wide && Open(op, ty, s, i),
             LimAt(op, lim, u, i), wide && Open(op, ty, u, i));
  }

  lemma MergedSame(op: Bop, ty: Ty, s: seq<Tree>, m: Mode)
    requires CommOp(op) && ty != UNSIGNED && |s| >= 2 && GroupWell(ty, s, m)
    requires IsConst(s[|s| - 2]) && IsConst(s[|s| - 1])
    requires Total(Merged(op, ty, s)) <= Total(s)
    ensures ListSame(op, ty, s, Merged(op, ty, s))
  {
    var n, u := |s| - 2, Merged(op, ty, s);
    FoldedPair(op, ty, s[n], s[n + 1], m);
    MergedVanish(op, ty, s);
    forall env, lim, wide | ListPre(op, ty, s, env, lim, wide)
      ensures JoinAll(Machine(op, ty), EvalIn(env), u) == JoinAll(Machine(op, ty), EvalIn(env), s)
        && ListSafe(op, ty, u, env, lim, wide)
    {
      FoldedPairValue(op, ty, s[n], s[n + 1], m, env);
      JoinAllLastTwo(Machine(op, ty), EvalIn(env), s, u[n]);
      forall i | 0 <= i < |u| ensures SafeAt(op, ty, u, i, env, lim, wide) {
        if i < n {
          assert SafeAt(op, ty, s, i, env, lim, wide);
          MergedAt(op, ty, s, i, env, lim, wide);
        }
      }
    }
  }

  /** The constant that replaces two counts as one. */
  lemma MergedTotal(op: Bop, ty: Ty, s: seq<Tree>)
    requires CommOp(op) && |s| >= 2 && IsConst(s[|s| - 2]) && IsConst(s[|s| - 1])
    ensures Total(Merged(op, ty, s)) <= Total(s)
  {
    var n := |s| - 2;
    MergedConstPlain(op, ty, s[n], s[n + 1]);
    AttrBounds(s[n]);
    AttrBounds(s[n + 1]);
    JoinAllLastTwo(Plus, CapsOf, s, Merged(op, ty, s)[n]);
  }

  lemma MergedRefines(op: Bop, ty: Ty, s: seq<Tree>, m: Mode)
    requires CommOp(op) && ty != UNSIGNED && |s| >= 2 && GroupWell(ty, s, m)
    requires IsConst(s[|s| - 2]) && IsConst(s[|s| - 1])
    ensures ListRefines(op, ty, s, Merged(op, ty, s)) && GroupWell(ty, Merged(op, ty, s), m)
  {
    var n := |s| - 2;
    FoldedPair(op, ty, s[n], s[n + 1], m);
    MergedWeight(op, s, Merged(op, ty, s)[n]);
    MergedTotal(op, ty, s);
    MergedSame(op, ty, s, m);
    MergedVanish(op, ty, s);
    MergedFolds(op, ty, s);
  }

  lemma ShorterNests(op: Bop, ty: Ty, f: Tree -> int, s: seq<Tree>, u: seq<Tree>, k: int)
    requires |s| >= 2 && |u| == |s| - 1 && u[..|s| - 2] == s[..|s| - 2] && Nests(op, ty, f, s, k)
    requires OthersVanish(op, u, |s| - 2) ==> f(u[|s| - 2]) <= k
    requires forall i :: 0 <= i < |u| - 1 && OthersVanish(op, u, i) ==> OthersVanish(op, s, i)
    ensures Nests(op, ty, f, u, k)
  {
    var n := |s| - 2;
    forall i | 0 <= i < |u| ensures NestsAt(op, ty, f, u, i, k) {
      if i < n {
        assert NestsAt(op, ty, f, s, i, k);
        assert u[i] == u[..n][i] == s[..n][i];
      } else if |u| == 1 {
        assert OthersVanish(op, u, n);
      }
    }
  }

  lemma ShorterFolds(op: Bop, s: seq<Tree>, u: seq<Tree>)
    requires |s| >= 2 && |u| == |s| - 1 && u[..|s| - 2] == s[..|s| - 2]
    requires A(s[|s| - 2]).fold && A(s[|s| - 1]).fold
    ensures Folds(op, u) ==> Folds(op, s)
  {
    var n := |s| - 2;
    if Folds(op, u) && op != OR {
      forall i | 0 <= i < |s| ensures A(s[i]).fold {
        if i < n {
          assert A(u[i]).fold;
          assert u[i] == u[..n][i] == s[..n][i];
        }
      }
    } else if Folds(op, u) {
      assert A(s[n]).fold;
    }
  }

  lemma MergedFolds(op: Bop, ty: Ty, s: seq<Tree>)
    requires CommOp(op) && |s| >= 2 && IsConst(s[|s| - 2]) && IsConst(s[|s| - 1])
    ensures var u := Merged(op, ty, s);
      && (Folds(op, u) ==> Folds(op, s))
      && (forall k: nat :: Nests(op, ty, NestOf, s, k) ==> Nests(op, ty, NestOf, u, k))
      && (forall k :: CapsIn(op, s, k) ==> CapsIn(op, u, k))
  {
    var u := Merged(op, ty, s);
    assert u[..|s| - 2] == s[..|s| - 2];
    MergedVanish(op, ty, s);
    MergedConstPlain(op, ty, s[|s| - 2], s[|s| - 1]);
    ShorterFolds(op, s, u);
    forall k: nat | Nests(op, ty, NestOf, s, k) ensures Nests(op, ty, NestOf, u, k) {
      ShorterNests(op, ty, NestOf, s, u, k);
    }
    forall k | CapsIn(op, s, k) ensures CapsIn(op, u, k) {
      if OthersVanish(op, u, |s| - 2) {
        LastFolds(op, s, u);
      }
      ShorterNests(op, INT, CapsOf, s, u, k);
    }
  }

  /** A constant left beside operands that may vanish makes a constant of the group. */
  lemma LastFolds(op: Bop, s: seq<Tree>, u: seq<Tree>)
    requires |s| >= 2 && |u| == |s| - 1 && u[..|s| - 2] == s[..|s| - 2] && OthersVanish(op, u, |s| - 2)
    requires A(s[|s| - 2]).fold && A(s[|s| - 1]).fold
    ensures Folds(op, s)
  {
    var n := |s| - 2;
    if op == OR {
      assert A(s[n]).fold;
    } else {
      forall i | 0 <= i < |s| ensures A(s[i]).fold {
        if i < n {
          assert VanishAt(op, u, i) && u[i] == u[..n][i] == s[..n][i];
        }
      }
    }
  }

  lemma MergedConstPlain(op: Bop, ty: Ty, a: Tree, b: Tree)
    requires CommOp(op) && IsConst(a) && IsConst(b)
    ensures var c := Ccexpr(Bin(op, ty, a, b, 0)).tree;
      A(a).fold && A(b).fold && A(c).nest == 0 && A(c).caps == 1
  {
    ConstPlain(a);
    ConstPlain(b);
  }

  // ---- from the list back to the tree ----

  lemma {:induction false} DeepWell(op: Bop, ty: Ty, s: seq<Tree>, hs: seq<Head>, m: Mode)
    requires CommOp(op) && ty != UNSIGNED && (op == MULT && ty == LONG ==> !m.low)
    requires |s| == |hs| + 1 && SameTy(hs, ty) && GroupWell(ty, s, m)
    ensures WellTyped(LeftDeep(op, s, hs), m) && A(LeftDeep(op, s, hs)).kind == TyKind(ty)
  {
    if |hs| > 0 {
      DeepWell(op, ty, s[..|hs|], hs[..|hs| - 1], m);
    }
  }

  /** An operand that may replace the group has its products in order. */
  predicate SurfaceAt(op: Bop, ty: Ty, s: seq<Tree>, i: nat)
    requires i < |s|
  {
    Open(op, ty, s, i) ==> A(s[i]).okMul && A(s[i]).sorted
  }

  predicate Surface(op: Bop, ty: Ty, s: seq<Tree>) {
    forall i {:trigger SurfaceAt(op, ty, s, i)} :: 0 <= i < |s| ==> SurfaceAt(op, ty, s, i)
  }

  lemma {:induction false} DeepFolds(op: Bop, s: seq<Tree>, hs: seq<Head>)
    requires CommOp(op) && |s| == |hs| + 1
    ensures A(LeftDeep(op, s, hs)).fold ==> Folds(op, s)
  {
    if |hs| > 0 && A(LeftDeep(op, s, hs)).fold {
      var n := |hs|;
      DeepFolds(op, s[..n], hs[..n - 1]);
      var l, last := A(LeftDeep(op, s[..n], hs[..n - 1])), A(s[n]);
      if op == OR {
        if l.fold {
          var i :| 0 <= i < n && A(s[..n][i]).fold;
          assert A(s[i]).fold;
        }
      } else {
        forall i | 0 <= i < |s| ensures A(s[i]).fold {
          if i < n { assert s[i] == s[..n][i]; }
        }
      }
    }
  }

  lemma LeftPart(op: Bop, ty: Ty, s: seq<Tree>, i: nat)
    requires |s| >= 2 && i < |s| - 1 && ty != LONG
    requires Open(op, ty, s[..|s| - 1], i) && Vanishes(op, A(s[|s| - 1]))
    ensures Open(op, ty, s, i)
  {
    var s0 := s[..|s| - 1];
    forall j | 0 <= j < |s| && j != i ensures VanishAt(op, s, j) {
      if j < |s| - 1 { assert VanishAt(op, s0, j); }
    }
  }

  /** The operands of the left part keep their bounds if the last one may vanish. */
  lemma LeftNests(op: Bop, ty: Ty, f: Tree -> int, s: seq<Tree>, k: int)
    requires |s| >= 2 && ty != LONG && Vanishes(op, A(s[|s| - 1])) && Nests(op, ty, f, s, k)
    ensures Nests(op, ty, f, s[..|s| - 1], k)
  {
    var s0 := s[..|s| - 1];
    forall i | 0 <= i < |s0| ensures NestsAt(op, ty, f, s0, i, k) {
      if Open(op, ty, s0, i) {
        LeftPart(op, ty, s, i);
        assert NestsAt(op, ty, f, s, i, k);
      }
    }
  }

  lemma LeftSurface(op: Bop, ty: Ty, s: seq<Tree>)
    requires |s| >= 2 && ty != LONG && Vanishes(op, A(s[|s| - 1])) && Surface(op, ty, s)
    ensures Surface(op, ty, s[..|s| - 1])
  {
    var s0 := s[..|s| - 1];
    forall i | 0 <= i < |s0| ensures SurfaceAt(op, ty, s0, i) {
      if Open(op, ty, s0, i) {
        LeftPart(op, ty, s, i);
        assert SurfaceAt(op, ty, s, i);
      }
    }
  }

  lemma {:induction false} DeepAttr(op: Bop, ty: Ty, s: seq<Tree>, hs: seq<Head>, k: nat)
    requires CommOp(op) && |s| == |hs| + 1 && SameTy(hs, ty) && Nests(op, ty, NestOf, s, k) && !IntProduct(op, ty)
    ensures A(LeftDeep(op, s, hs)).nest <= k && (|hs| >= 1 ==> A(LeftDeep(op, s, hs)).lit.NoLit?)
  {
    hide Attr2;
    var n := |hs|;
    if n == 0 {
      LastBounds(op, ty, NestOf, s, k);
    } else {
      var s0 := s[..n];
      var l := LeftDeep(op, s0, hs[..n - 1]);
      if ThruLeft(op, ty, A(s[n])) {
        LeftNests(op, ty, NestOf, s, k);
        DeepAttr(op, ty, s0, hs[..n - 1], k);
      }
      if ThruRight(op, ty, A(l)) {
        DeepVanishes(op, s0, hs[..n - 1]);
        LastOpens(op, s);
        LastBounds(op, ty, NestOf, s, k);
      }
      NestStep(op, ty, A(l), A(s[n]), k);
    }
  }

  lemma NestStep(op: Bop, ty: Ty, l: Attr, r: Attr, k: nat)
    requires !IntProduct(op, ty)
    requires ThruLeft(op, ty, r) ==> l.nest <= k
    requires ThruRight(op, ty, l) ==> r.nest <= k
    ensures Attr2(op, ty, l, r).nest <= k && Attr2(op, ty, l, r).lit.NoLit?
  {
  }

  lemma {:induction false} DeepSurface(op: Bop, ty: Ty, s: seq<Tree>, hs: seq<Head>)
    requires CommOp(op) && |s| == |hs| + 1 && SameTy(hs, ty) && Surface(op, ty, s) && !IntProduct(op, ty)
    ensures A(LeftDeep(op, s, hs)).okMul && A(LeftDeep(op, s, hs)).sorted
  {
    var n := |hs|;
    if n == 0 {
      LastSurface(op, ty, s);
    } else {
      var s0 := s[..n];
      var l := LeftDeep(op, s0, hs[..n - 1]);
      if ThruLeft(op, ty, A(s[n])) {
        LeftSurface(op, ty, s);
        DeepSurface(op, ty, s0, hs[..n - 1]);
      }
      if ThruRight(op, ty, A(l)) {
        DeepVanishes(op, s0, hs[..n - 1]);
        LastOpens(op, s);
        LastSurface(op, ty, s);
      }
      SurfaceStep(op, ty, A(l), A(s[n]));
    }
  }

  lemma LastSurface(op: Bop, ty: Ty, s: seq<Tree>)
    requires |s| >= 1 && Surface(op, ty, s) && Open(op, ty, s, |s| - 1)
    ensures A(s[|s| - 1]).okMul && A(s[|s| - 1]).sorted
  {
    assert SurfaceAt(op, ty, s, |s| - 1);
  }

  lemma SurfaceStep(op: Bop, ty: Ty, l: Attr, r: Attr)
    requires !IntProduct(op, ty)
    requires ThruLeft(op, ty, r) ==> l.okMul && l.sorted
    requires ThruRight(op, ty, l) ==> r.okMul && r.sorted
    ensures Attr2(op, ty, l, r).okMul && Attr2(op, ty, l, r).sorted
  {
  }

  lemma LastBounds(op: Bop, ty: Ty, f: Tree -> int, s: seq<Tree>, k: int)
    requires |s| >= 1 && Nests(op, ty, f, s, k) && Open(op, ty, s, |s| - 1)
    ensures f(s[|s| - 1]) <= k
  {
    assert NestsAt(op, ty, f, s, |s| - 1, k);
  }

  /** What a rebuilt group counts: as much as an operand that may replace it, or one
      for the constant it may become. */
  lemma {:induction false} DeepCaps(op: Bop, s: seq<Tree>, hs: seq<Head>, k: int)
    requires CommOp(op) && op != MULT && |s| == |hs| + 1 && Nests(op, INT, CapsOf, s, k) && k >= 0
    ensures A(LeftDeep(op, s, hs)).caps <= k || (A(LeftDeep(op, s, hs)).fold && A(LeftDeep(op, s, hs)).caps <= 1)
  {
    var n := |hs|;
    if n == 0 {
      LastBounds(op, INT, CapsOf, s, k);
    } else {
      var s0 := s[..n];
      var l := LeftDeep(op, s0, hs[..n - 1]);
      AttrBounds(s[n]);
      if LeavesLeft(op, A(s[n])) {
        LeftNests(op, INT, CapsOf, s, k);
        DeepCaps(op, s0, hs[..n - 1], k);
      }
      if LeavesRight(op, A(l)) {
        DeepVanishes(op, s0, hs[..n - 1]);
        LastOpens(op, s);
        LastBounds(op, INT, CapsOf, s, k);
      }
      CapsStep(op, A(l), A(s[n]), k);
    }
  }

  lemma CapsStep(op: Bop, l: Attr, r: Attr, k: int)
    requires CommOp(op) && op != MULT && k >= 0 && (r.zero ==> r.fold)
    requires LeavesLeft(op, r) ==> l.caps <= k || (l.fold && l.caps <= 1)
    requires LeavesRight(op, l) ==> r.caps <= k
    ensures Caps2(op, l, r) <= k || (Fold2(op, l, r) && Caps2(op, l, r) <= 1)
  {
  }

  lemma LastOpens(op: Bop, s: seq<Tree>)
    requires |s| >= 1
    ensures AllVanish(op, s[..|s| - 1]) ==> OthersVanish(op, s, |s| - 1)
  {
    var s0 := s[..|s| - 1];
    assert forall j :: 0 <= j < |s0| ==> VanishAt(op, s, j) == VanishAt(op, s0, j);
  }

  lemma {:induction false} DeepNest(op: Bop, s: seq<Tree>, hs: seq<Head>)
    requires |s| == |hs| + 1
    ensures A(LeftDeep(op, s, hs)).nest <= 2 && (|hs| >= 1 ==> A(LeftDeep(op, s, hs)).lit.NoLit?)
  {
    AttrBounds(LeftDeep(op, s, hs));
  }

  lemma AppendFolds(op: Bop, l: seq<Tree>, r: seq<Tree>)
    requires Folds(op, l + r)
    ensures if op == OR then Folds(op, l) || Folds(op, r) else Folds(op, l) && Folds(op, r)
  {
    if op == OR {
      var i :| 0 <= i < |l + r| && A((l + r)[i]).fold;
      if i < |l| { assert A(l[i]).fold; } else { assert A(r[i - |l|]).fold; }
    } else {
      forall i | 0 <= i < |l| ensures A(l[i]).fold { assert (l + r)[i] == l[i]; }
      forall i | 0 <= i < |r| ensures A(r[i]).fold { assert (l + r)[|l| + i] == r[i]; }
    }
  }

  lemma {:induction false} FlatFolds(op: Bop, t: Tree)
    requires CommOp(op)
    ensures Folds(op, Flat(op, t)) ==> A(t).fold
  {
    if InGroup(op, t) && Folds(op, Flat(op, t)) {
      AppendFolds(op, Flat(op, t.left), Flat(op, t.right));
      FlatFolds(op, t.left);
      FlatFolds(op, t.right);
    } else if !InGroup(op, t) && Folds(op, [t]) {
      assert A([t][0]).fold;
    }
  }

  predicate OkMulAt(op: Bop, ty: Ty, s: seq<Tree>, i: nat)
    requires i < |s|
  {
    Open(op, ty, s, i) ==> A(s[i]).okMul
  }

  predicate OkMuls(op: Bop, ty: Ty, s: seq<Tree>) {
    forall i {:trigger OkMulAt(op, ty, s, i)} :: 0 <= i < |s| ==> OkMulAt(op, ty, s, i)
  }

  /** Of a group's attributes, what its operands inherit. */
  lemma {:induction false} FlatAttr(op: Bop, ty: Ty, t: Tree)
    requires CommOp(op) && Uniform(op, ty, t)
    ensures Nests(op, ty, NestOf, Flat(op, t), A(t).nest)
    ensures A(t).okMul ==> OkMuls(op, ty, Flat(op, t))
  {
    if InGroup(op, t) {
      var l, r := Flat(op, t.left), Flat(op, t.right);
      FlatAttr(op, ty, t.left);
      FlatAttr(op, ty, t.right);
      FlatVanishes(op, t.left);
      FlatVanishes(op, t.right);
      AttrBounds(t);
      AttrBounds(t.left);
      AttrBounds(t.right);
      if ty != LONG && AllVanish(op, r) {
        NestsMono(op, ty, NestOf, l, A(t.left).nest, A(t).nest);
      }
      if ty != LONG && AllVanish(op, l) {
        NestsMono(op, ty, NestOf, r, A(t.right).nest, A(t).nest);
      }
      PartsNests(op, ty, NestOf, l, r, A(t).nest);
      PartsOkMul(op, ty, t, l, r);
    }
  }

  lemma {:induction false} FlatCaps(op: Bop, t: Tree)
    requires CommOp(op)
    ensures CapsIn(op, Flat(op, t), A(t).caps)
  {
    AttrBounds(t);
    FlatFolds(op, t);
    if InGroup(op, t) {
      var l, r := Flat(op, t.left), Flat(op, t.right);
      FlatCaps(op, t.left);
      FlatCaps(op, t.right);
      FlatVanishes(op, t.left);
      FlatVanishes(op, t.right);
      if AllVanish(op, r) {
        NestsMono(op, INT, CapsOf, l, A(t.left).caps, A(t).caps);
      }
      if AllVanish(op, l) {
        NestsMono(op, INT, CapsOf, r, A(t.right).caps, A(t).caps);
      }
      PartsNests(op, INT, CapsOf, l, r, A(t).caps);
    }
  }

  lemma PartsNests(op: Bop, ty: Ty, f: Tree -> int, l: seq<Tree>, r: seq<Tree>, k: int)
    requires |l| >= 1 && |r| >= 1
    requires ty != LONG && AllVanish(op, r) ==> Nests(op, ty, f, l, k)
    requires ty != LONG && AllVanish(op, l) ==> Nests(op, ty, f, r, k)
    ensures Nests(op, ty, f, l + r, k)
  {
    var s := l + r;
    forall i | 0 <= i < |s| ensures NestsAt(op, ty, f, s, i, k) {
      if Open(op, ty, s, i) {
        if i < |l| {
          AppendLeft(op, l, r, i);
          assert NestsAt(op, ty, f, l, i, k);
        } else {
          var j := i - |l|;
          AppendRight(op, l, r, j, i);
          assert s[i] == r[j];
          assert NestsAt(op, ty, f, r, j, k);
        }
      }
    }
  }

  lemma PartsOkMul(op: Bop, ty: Ty, t: Tree, l: seq<Tree>, r: seq<Tree>)
    requires InGroup(op, t) && CommOp(op) && t.ty == ty && |l| >= 1 && |r| >= 1
    requires A(t.left).okMul ==> OkMuls(op, ty, l)
    requires A(t.right).okMul ==> OkMuls(op, ty, r)
    requires (AllVanish(op, l) ==> Vanishes(op, A(t.left))) && (AllVanish(op, r) ==> Vanishes(op, A(t.right)))
    ensures A(t).okMul ==> OkMuls(op, ty, l + r)
  {
    var s := l + r;
    forall i | 0 <= i < |s| && A(t).okMul ensures OkMulAt(op, ty, s, i) {
      if Open(op, ty, s, i) {
        if i < |l| {
          AppendLeft(op, l, r, i);
          assert ThruLeft(op, ty, A(t.right)) && OkMulAt(op, ty, l, i);
        } else {
          var j := i - |l|;
          AppendRight(op, l, r, j, i);
          assert s[i] == r[j];
          assert ThruRight(op, ty, A(t.left)) && OkMulAt(op, ty, r, j);
        }
      }
    }
  }

  lemma {:induction false} ProductNest(t: Tree)
    requires Uniform(MULT, INT, t)
    ensures |Heads(MULT, t)| >= 1 ==> A(t).nest >= 1
    ensures |Heads(MULT, t)| >= 2 ==> A(t).nest == 2
  {
    if InGroup(MULT, t) {
      ProductNest(t.left);
      ProductNest(t.right);
    }
  }

  /** A sound replacement of the operands, rebuilt leaning to the left, is a
      sound replacement of the group. */
  lemma GroupRefines(op: Bop, ty: Ty, t: Tree, s: seq<Tree>, hs: seq<Head>)
    requires InGroup(op, t) && CommOp(op) && ty != UNSIGNED && Uniform(op, ty, t)
    requires ListRefines(op, ty, Flat(op, t), s) && |s| == |hs| + 1 && |s| >= 2 && SameTy(hs, ty)
    requires IntProduct(op, ty) ==> A(t).nest == 2
    requires A(t).okMul && A(t).nest <= 1 ==> Surface(op, ty, s)
    requires A(LeftDeep(op, s, hs)).kind == A(t).kind
    ensures Refines(t, LeftDeep(op, s, hs))
    ensures A(t).okMul && A(t).nest <= 1 ==> A(LeftDeep(op, s, hs)).sorted
  {
    GroupLeq(op, ty, t, s, hs);
    var u := LeftDeep(op, s, hs);
    forall env, lim, wide | Pre(t, env, lim, wide)
      ensures Eval(u, env) == Eval(t, env) && Safe(u, env, lim, wide)
    {
      GroupSame(op, ty, t, s, hs, env, lim, wide);
    }
  }

  lemma GroupSame(op: Bop, ty: Ty, t: Tree, s: seq<Tree>, hs: seq<Head>, env: Env, lim: Lim, wide: bool)
    requires InGroup(op, t) && CommOp(op) && ty != UNSIGNED && Uniform(op, ty, t)
    requires |s| == |hs| + 1 && |s| >= 2 && SameTy(hs, ty) && ListSame(op, ty, Flat(op, t), s)
    requires IntProduct(op, ty) ==> A(t).nest == 2
    requires Pre(t, env, lim, wide)
    ensures Eval(LeftDeep(op, s, hs), env) == Eval(t, env) && Safe(LeftDeep(op, s, hs), env, lim, wide)
  {
    FlatPre(op, ty, t, env, lim, wide);
    FlatEval(op, ty, t, env);
    DeepEval(op, ty, s, hs, env);
    DeepSafe(op, ty, s, hs, env, lim, wide);
  }

  lemma FlatPre(op: Bop, ty: Ty, t: Tree, env: Env, lim: Lim, wide: bool)
    requires CommOp(op) && Uniform(op, ty, t) && Pre(t, env, lim, wide)
    ensures ListPre(op, ty, Flat(op, t), env, lim, wide)
  {
    FlatSafe(op, ty, t, env, lim, wide);
    if wide {
      FlatAttr(op, ty, t);
      NestsMono(op, ty, NestOf, Flat(op, t), A(t).nest, 1);
    }
  }

  lemma NestsMono(op: Bop, ty: Ty, f: Tree -> int, s: seq<Tree>, k: int, k': int)
    requires Nests(op, ty, f, s, k) && k <= k'
    ensures Nests(op, ty, f, s, k')
  {
    forall i | 0 <= i < |s| ensures NestsAt(op, ty, f, s, i, k') {
      assert NestsAt(op, ty, f, s, i, k);
    }
  }

  lemma GroupCapsLeq(op: Bop, ty: Ty, t: Tree, s: seq<Tree>, hs: seq<Head>)
    requires InGroup(op, t) && CommOp(op) && |s| == |hs| + 1
    requires ListRefines(op, ty, Flat(op, t), s) && (A(LeftDeep(op, s, hs)).fold ==> A(t).fold)
    ensures A(LeftDeep(op, s, hs)).caps <= A(t).caps
  {
    if op == MULT {
      GroupCaps(op, t);
      DeepSums(op, s, hs);
    } else {
      AttrBounds(t);
      FlatCaps(op, t);
      assert CapsIn(op, s, A(t).caps);
      DeepCaps(op, s, hs, A(t).caps);
    }
  }

  lemma GroupLeq(op: Bop, ty: Ty, t: Tree, s: seq<Tree>, hs: seq<Head>)
    requires InGroup(op, t) && CommOp(op) && ty != UNSIGNED && Uniform(op, ty, t)
    requires ListRefines(op, ty, Flat(op, t), s) && |s| == |hs| + 1 && |s| >= 2 && SameTy(hs, ty)
    requires IntProduct(op, ty) ==> A(t).nest == 2
    requires A(t).okMul && A(t).nest <= 1 ==> Surface(op, ty, s)
    requires A(LeftDeep(op, s, hs)).kind == A(t).kind
    ensures Leq(A(LeftDeep(op, s, hs)), A(t))
    ensures A(t).okMul && A(t).nest <= 1 ==> A(LeftDeep(op, s, hs)).sorted
  {
    FlatSums(op, t);
    DeepSums(op, s, hs);
    FlatFolds(op, t);
    DeepFolds(op, s, hs);
    FlatVanishes(op, t);
    DeepVanishes(op, s, hs);
    FlatAttr(op, ty, t);
    GroupCapsLeq(op, ty, t, s, hs);
    if IntProduct(op, ty) {
      DeepNest(op, s, hs);
    } else {
      DeepAttr(op, ty, s, hs, A(t).nest);
      if Surface(op, ty, s) {
        DeepSurface(op, ty, s, hs);
      }
    }
  }
}
