/** The canonicalizer: commute the tree, optimize it bottom up, and start again
    as long as anything changed. */
module Canon {
  import opened Word
  import opened Icode
  import opened Fold
  import opened Rules
  import opened FormRules
  import opened SwitchRules
  import opened Group
  import opened Regroup
  import opened Stable
  import opened NormalForm
  import opened Commuting
  import opened GroupShape

  // ---- the optimizer ----

  /** The loop at a node, entered with t, goes round n times and leaves u. */
  predicate LoopEnds(t: Tree, u: Tree, n: nat)
    decreases n
  {
    if Leaf(t) then u == t && n == 0
    else
      match Turn(t)
      case Brk(b) => u == b && n == 0
      case Cont(c) => n > 0 && LoopEnds(c, u, n - 1)
  }

  /** Optimizing t bottom up counts n changes and leaves u. */
  ghost predicate OptimizesTo(t: Tree, u: Tree, n: nat)
    decreases t, 0
  {
    match t
    case Un(op, ty, a, su) =>
      exists x: Tree, c: nat :: c <= n && OptimizesTo(a, x, c) && LoopEnds(Un(op, ty, x, su), u, n - c)
    case Bin(op, ty, l, r, su) =>
      exists x: Tree, c: nat, y: Tree, d: nat :: c + d <= n && OptimizesTo(l, x, c) && OptimizesTo(r, y, d) &&
        LoopEnds(Bin(op, ty, x, y, su), u, n - c - d)
    case Qmark(ty, c, l, r, su) =>
      exists x: Tree, i: nat, y: Tree, j: nat, z: Tree, k: nat :: i + j + k <= n &&
        OptimizesTo(c, x, i) && OptimizesTo(l, y, j) && OptimizesTo(r, z, k) &&
        LoopEnds(Qmark(ty, x, Norm(y), Norm(z), su), u, n - i - j - k)
    case _ => u == t && n == 0
  }

  lemma {:induction false} LoopEndsOnce(t: Tree, u: Tree, n: nat, u': Tree, n': nat)
    requires LoopEnds(t, u, n) && LoopEnds(t, u', n')
    ensures u' == u && n' == n
    decreases n
  {
    if !Leaf(t) && Turn(t).Cont? {
      LoopEndsOnce(Turn(t).tree, u, n - 1, u', n' - 1);
    }
  }

  /** There is one such u and one such count. */
  lemma {:induction false} OptimizesOnce(t: Tree, u: Tree, n: nat, u': Tree, n': nat)
    requires OptimizesTo(t, u, n) && OptimizesTo(t, u', n')
    ensures u' == u && n' == n
    decreases t, 1
  {
    match t
    case Un(_, _, _, _) => OnceUn(t, u, n, u', n');
    case Bin(_, _, _, _, _) => OnceBin(t, u, n, u', n');
    case Qmark(_, _, _, _, _) => OnceQmark(t, u, n, u', n');
    case _ =>
  }

  lemma {:induction false} OnceUn(t: Tree, u: Tree, n: nat, u': Tree, n': nat)
    requires t.Un? && OptimizesTo(t, u, n) && OptimizesTo(t, u', n')
    ensures u' == u && n' == n
    decreases t, 0
  {
    hide *;
    var x, c := UnParts(t, u, n);
    var x', c' := UnParts(t, u', n');
    OnceArg(t, x, c, x', c');
    LoopEndsOnce(Un(t.uop, t.ty, x, t.su), u, n - c, u', n' - c');
  }

  lemma {:induction false} OnceArg(t: Tree, x: Tree, c: nat, x': Tree, c': nat)
    requires t.Un? && OptimizesTo(t.arg, x, c) && OptimizesTo(t.arg, x', c')
    ensures x' == x && c' == c
    decreases t, 0, 0
  {
    OptimizesOnce(t.arg, x, c, x', c');
  }

  lemma UnParts(t: Tree, u: Tree, n: nat) returns (x: Tree, c: nat)
    requires t.Un? && OptimizesTo(t, u, n)
    ensures c <= n && OptimizesTo(t.arg, x, c) && LoopEnds(Un(t.uop, t.ty, x, t.su), u, n - c)
  {
    x, c :| c <= n && OptimizesTo(t.arg, x, c) && LoopEnds(Un(t.uop, t.ty, x, t.su), u, n - c);
  }

  lemma {:induction false} OnceBin(t: Tree, u: Tree, n: nat, u': Tree, n': nat)
    requires t.Bin? && OptimizesTo(t, u, n) && OptimizesTo(t, u', n')
    ensures u' == u && n' == n
    decreases t, 0
  {
    hide *;
    var x, c, y, d := BinParts(t, u, n);
    var x', c', y', d' := BinParts(t, u', n');
    OnceSides(t, x, c, x', c', y, d, y', d');
    LoopEndsOnce(Bin(t.op, t.ty, x, y, t.su), u, n - c - d, u', n' - c' - d');
  }

  lemma {:induction false} OnceSides(t: Tree, x: Tree, c: nat, x': Tree, c': nat, y: Tree, d: nat, y': Tree, d': nat)
    requires t.Bin? && OptimizesTo(t.left, x, c) && OptimizesTo(t.left, x', c')
    requires OptimizesTo(t.right, y, d) && OptimizesTo(t.right, y', d')
    ensures x' == x && c' == c && y' == y && d' == d
    decreases t, 0, 0
  {
    OptimizesOnce(t.left, x, c, x', c');
    OptimizesOnce(t.right, y, d, y', d');
  }

  lemma BinParts(t: Tree, u: Tree, n: nat) returns (x: Tree, c: nat, y: Tree, d: nat)
    requires t.Bin? && OptimizesTo(t, u, n)
    ensures c + d <= n && OptimizesTo(t.left, x, c) && OptimizesTo(t.right, y, d)
    ensures LoopEnds(Bin(t.op, t.ty, x, y, t.su), u, n - c - d)
  {
    x, c, y, d :| c + d <= n && OptimizesTo(t.left, x, c) && OptimizesTo(t.right, y, d) &&
      LoopEnds(Bin(t.op, t.ty, x, y, t.su), u, n - c - d);
  }

  lemma {:induction false} OnceQmark(t: Tree, u: Tree, n: nat, u': Tree, n': nat)
    requires t.Qmark? && OptimizesTo(t, u, n) && OptimizesTo(t, u', n')
    ensures u' == u && n' == n
    decreases t, 0
  {
    var x, i, y, j, z, k := QmarkParts(t, u, n);
    var x', i', y', j', z', k' := QmarkParts(t, u', n');
    OptimizesOnce(t.cond, x, i, x', i');
    OptimizesOnce(t.thn, y, j, y', j');
    OptimizesOnce(t.els, z, k, z', k');
    LoopEndsOnce(Qmark(t.ty, x, Norm(y), Norm(z), t.su), u, n - i - j - k, u', n' - i' - j' - k');
  }

  lemma QmarkParts(t: Tree, u: Tree, n: nat) returns (x: Tree, i: nat, y: Tree, j: nat, z: Tree, k: nat)
    requires t.Qmark? && OptimizesTo(t, u, n)
    ensures i + j + k <= n && OptimizesTo(t.cond, x, i) && OptimizesTo(t.thn, y, j) && OptimizesTo(t.els, z, k)
    ensures LoopEnds(Qmark(t.ty, x, Norm(y), Norm(z), t.su), u, n - i - j - k)
  {
    x, i, y, j, z, k :| i + j + k <= n && OptimizesTo(t.cond, x, i) && OptimizesTo(t.thn, y, j) &&
      OptimizesTo(t.els, z, k) && LoopEnds(Qmark(t.ty, x, Norm(y), Norm(z), t.su), u, n - i - j - k);
  }

  lemma UnTo(op: Uop, ty: Ty, a: Tree, su: int, x: Tree, c: nat, u: Tree, n: nat)
    requires OptimizesTo(a, x, c) && LoopEnds(Un(op, ty, x, su), u, n)
    ensures OptimizesTo(Un(op, ty, a, su), u, c + n)
  {
    assert n == c + n - c;
  }

  lemma BinTo(op: Bop, ty: Ty, l: Tree, r: Tree, su: int, x: Tree, c: nat, y: Tree, d: nat, u: Tree, n: nat)
    requires OptimizesTo(l, x, c) && OptimizesTo(r, y, d) && LoopEnds(Bin(op, ty, x, y, su), u, n)
    ensures OptimizesTo(Bin(op, ty, l, r, su), u, c + d + n)
  {
    assert n == c + d + n - c - d;
  }

  lemma QmarkTo(ty: Ty, q: Tree, l: Tree, r: Tree, su: int, x: Tree, i: nat, y: Tree, j: nat, z: Tree, k: nat,
                u: Tree, n: nat)
    requires OptimizesTo(q, x, i) && OptimizesTo(l, y, j) && OptimizesTo(r, z, k)
    requires LoopEnds(Qmark(ty, x, Norm(y), Norm(z), su), u, n)
    ensures OptimizesTo(Qmark(ty, q, l, r, su), u, i + j + k + n)
  {
    assert n == i + j + k + n - i - j - k;
  }

  // ---- a pass without a change ----

  predicate SameRank(t: Tree, u: Tree) { Rank(u) == Rank(t) && u.su == t.su }

  /** u differs from t by converted constants and lowered operators at most. */
  predicate Alike(t: Tree, u: Tree) {
    && SameRank(t, u) && (Constant(u) <==> Constant(t)) && (u.Bin? <==> t.Bin?)
    && (u.Bin? && u.op != t.op ==> (t.op == MULT && u.op == LMULT) || (t.op in {DIV, MOD} && u.op in {LDIV, LMOD}))
    && (Leaf(t) ==> u == t)
    && (u.Bin? && u.op == t.op ==> SameRank(t.right, u.right) && (Constant(u.right) <==> Constant(t.right)))
  }

  lemma NormAlike(t: Tree)
    ensures SameRank(t, Norm(t)) && (Constant(Norm(t)) <==> Constant(t))
    ensures t.Bin? ==> Norm(t) == t
  {
    NormRank(t);
    ConstNorm(t);
    ConstNorm(Norm(t));
  }

  /** The last turn at a binary node converts constants and may lower the operator. */
  predicate LastLeaves(t: Tree, u: Tree)
    requires t.Bin?
  {
    && u.Bin? && u.ty == t.ty && u.su == t.su && (u.left == t.left || u.left == Norm(t.left))
    && (u.op == t.op || (t.op == MULT && u.op == LMULT) || (t.op in {DIV, MOD} && u.op in {LDIV, LMOD}))
    && (u.op == t.op ==> u.right == t.right || u.right == Norm(t.right))
  }

  lemma LastTurn(t: Tree, u: Tree)
    requires t.Bin? && LoopEnds(t, u, 0) && (RelOp(t.op) ==> AllFixed(t.left))
    ensures LastLeaves(t, u)
  {
    if RelOp(t.op) {
      RelFixed(t);
    } else if t.op in {MULT, DIV, MOD} {
      LastProduct(t, u);
    } else {
      LastOther(t, u);
    }
  }

  lemma LastProduct(t: Tree, u: Tree)
    requires t.Bin? && t.op in {MULT, DIV, MOD} && LoopEnds(t, u, 0)
    ensures LastLeaves(t, u)
  {
  }

  lemma LastOther(t: Tree, u: Tree)
    requires t.Bin? && t.op !in {MULT, DIV, MOD} && !RelOp(t.op) && LoopEnds(t, u, 0)
    ensures LastLeaves(t, u)
  {
  }

  /** Without a change a gathered tree stays one. */
  predicate Kept(t: Tree, u: Tree) { Gathered(t) ==> Gathered(u) && Alike(t, u) }

  /** What the last turn leaves of a node whose operands became x and y. */
  predicate LastOperands(t: Tree, x: Tree, y: Tree, u: Tree)
    requires t.Bin?
  {
    && u.Bin? && u.su == t.su && (u.left == x || u.left == Norm(x))
    && (u.op == t.op || (t.op == MULT && u.op == LMULT) || (t.op in {DIV, MOD} && u.op in {LDIV, LMOD}))
    && (u.op == t.op ==> u.right == y || u.right == Norm(y))
  }

  lemma BinAlike(t: Tree, x: Tree, y: Tree, u: Tree)
    requires t.Bin? && Alike(t.right, y) && LastOperands(t, x, y, u)
    ensures Alike(t, u)
  {
    NormAlike(y);
  }

  lemma NormGathered(t: Tree)
    requires Gathered(t)
    ensures Gathered(Norm(t))
  {
  }

  lemma LowRight(t: Tree, y: Tree, u: Tree)
    requires t.Bin? && LoopEnds(t, u, 0) && u.Bin? && Gathered(t.right) && t.right == y
    requires u.op != t.op
    ensures Gathered(u.right)
  {
  }

  lemma BinGathers(t: Tree, x: Tree, y: Tree, u: Tree)
    requires t.Bin? && Gathered(t) && Alike(t.left, x) && Alike(t.right, y) && LastOperands(t, x, y, u)
    requires WellTyped(u, DONE) && Normal(u)
    ensures Gathered2(u.op, u.left, u.right)
  {
    NormAlike(x);
    NormAlike(y);
    if CommOp(u.op) {
      LastKept(t, x, u);
    }
  }

  lemma BinKept(t: Tree, x: Tree, y: Tree, u: Tree)
    requires t.Bin? && Kept(t.left, x) && Kept(t.right, y) && AllFixed(x)
    requires LoopEnds(Bin(t.op, t.ty, x, y, t.su), u, 0) && WellTyped(u, DONE) && AllFixed(u)
    ensures Kept(t, u)
  {
    hide LoopEnds, AllFixed, WellTyped, Normal, Gathered2, Alike;
    if Gathered(t) {
      var v := Bin(t.op, t.ty, x, y, t.su);
      FixedIff(u);
      LastTurn(v, u);
      NormGathered(x);
      NormGathered(y);
      BinAlike(t, x, y, u);
      BinGathers(t, x, y, u);
      if u.op != t.op {
        LowRight(v, y, u);
      }
    }
  }

  /** Where a product keeps its operator so does one that is its left factor. */
  lemma LastKept(t: Tree, x: Tree, u: Tree)
    requires t.Bin? && u.Bin? && CommOp(u.op) && u.op == t.op && Alike(t.left, x)
    requires (u.left == x || u.left == Norm(x)) && WellTyped(u, DONE) && Normal(u)
    ensures SameRank(LastOf(t.op, t.left), LastOf(u.op, u.left))
    ensures Rooted(u.op, u.left) ==> Rooted(t.op, t.left) && (Constant(u.left.right) <==> Constant(t.left.right))
  {
    NormAlike(x);
  }

  lemma UnKept(t: Tree, x: Tree, u: Tree)
    requires t.Un? && Kept(t.arg, x) && LoopEnds(Un(t.uop, t.ty, x, t.su), u, 0)
    ensures Kept(t, u)
  {
    ConstNorm(x);
    NormAlike(x);
  }

  lemma QmarkKept(t: Tree, x: Tree, y: Tree, z: Tree, u: Tree)
    requires t.Qmark? && Kept(t.cond, x) && Kept(t.thn, y) && Kept(t.els, z)
    requires LoopEnds(Qmark(t.ty, x, y, z, t.su), u, 0)
    ensures Kept(t, u)
  {
    NormAlike(x);
  }

  /** u is what optimizing may make of t, with this many changes counted. */
  ghost predicate Optimized(t: Tree, u: Tree, changes: nat) {
    Improved(t, u, changes) && (changes == 0 ==> AllFixed(u) && Kept(t, u))
  }

  ghost predicate Improved(t: Tree, u: Tree, changes: nat) {
    && WellTyped(u, DONE) && Refines(t, u)
    && (changes > 0 ==> A(u).weight < A(t).weight)
    && (FlatProducts(t) && A(t).sorted && A(t).kind == IntK ==> Settled(u))
  }

  lemma TurnRefines(t: Tree)
    requires Top(t)
    ensures Refines(t, Turn(t).tree)
  {
    TurnForm(t);
    forall env, lim, wide | Pre(t, env, lim, wide)
      ensures Eval(Turn(t).tree, env) == Eval(t, env) && Safe(Turn(t).tree, env, lim, wide)
    {
      TurnSame(t, env, lim, wide);
    }
  }

  /** The loop gets from t to u in k turns. */
  predicate Leads(t: Tree, u: Tree, k: nat)
    decreases k
  {
    if k == 0 then u == t else !Leaf(t) && Turn(t).Cont? && Leads(Turn(t).tree, u, k - 1)
  }

  lemma {:induction false} LeadsOn(t: Tree, u: Tree, k: nat)
    requires Leads(t, u, k) && !Leaf(u) && Turn(u).Cont?
    ensures Leads(t, Turn(u).tree, k + 1)
    decreases k
  {
    if k > 0 {
      LeadsOn(Turn(t).tree, u, k - 1);
    }
  }

  lemma {:induction false} LeadsEnd(t: Tree, u: Tree, k: nat)
    requires Leads(t, u, k) && (Leaf(u) || Turn(u).Brk?)
    ensures LoopEnds(t, if Leaf(u) then u else Turn(u).tree, k)
    decreases k
  {
    if k > 0 {
      LeadsEnd(Turn(t).tree, u, k - 1);
    }
  }

  /** After k turns from t the loop is at u. */
  ghost predicate Reached(t: Tree, u: Tree, k: nat) {
    && Top(t) && Top(u) && Refines(t, u)
    && (if k > 0 then A(u).weight < A(t).weight else u == t)
    && Leads(t, u, k)
  }

  lemma ReachedFirst(t: Tree)
    requires Top(t)
    ensures Reached(t, t, 0)
  {
    LeqRefl(t);
    SameRefl(t);
  }

  lemma ReachedOn(t: Tree, u: Tree, k: nat)
    requires Reached(t, u, k) && !Leaf(u) && Turn(u).Cont?
    ensures Reached(t, Turn(u).tree, k + 1) && A(Turn(u).tree).weight < A(u).weight
  {
    TurnForm(u);
    TurnRefines(u);
    RefinesTrans(t, u, Turn(u).tree);
    LeadsOn(t, u, k);
  }

  lemma ReachedBrk(t: Tree, u: Tree, k: nat)
    requires Reached(t, u, k) && !Leaf(u) && Turn(u).Brk?
    ensures Improved(t, Turn(u).tree, k)
  {
    TurnForm(u);
    TurnRefines(u);
    RefinesTrans(t, u, Turn(u).tree);
    if FlatProducts(t) && A(t).sorted {
      TurnSettled(u);
    }
  }

  /** Where the loop ends. */
  lemma ReachedEnd(t: Tree, u: Tree, k: nat)
    requires Reached(t, u, k) && (Leaf(u) || Turn(u).Brk?)
    ensures var v := if Leaf(u) then u else Turn(u).tree;
      Improved(t, v, k) && LoopEnds(t, v, k) && (BelowFixed(t) && k == 0 ==> AllFixed(v) && Normal(v))
  {
    LeadsEnd(t, u, k);
    if !Leaf(u) {
      ReachedBrk(t, u, k);
      if BelowFixed(t) && k == 0 {
        TurnFixed(t);
        FixedIff(Turn(u).tree);
      }
    }
  }

  /** The loop at one node whose subtrees are optimized. */
  method OptimizeNode(t: Tree) returns (u: Tree, changes: nat)
    requires Top(t)
    ensures Improved(t, u, changes) && LoopEnds(t, u, changes)
    ensures BelowFixed(t) && changes == 0 ==> AllFixed(u) && Normal(u)
  {
    hide *;
    u, changes := t, 0;
    ReachedFirst(t);
    while !Leaf(u)
      invariant Reached(t, u, changes)
      decreases A(u).weight
    {
      var r := Turn(u);
      if r.Brk? {
        ReachedEnd(t, u, changes);
        u := r.tree;
        return;
      }
      ReachedOn(t, u, changes);
      u, changes := r.tree, changes + 1;
    }
    ReachedEnd(t, u, changes);
  }

  lemma Weight2Strict(op: Bop, l: nat, r: nat, l': nat, r': nat)
    requires l' <= l && r' <= r && l' >= 3 && r' >= 3 && (l' < l || r' < r)
    ensures Weight2(op, l', r') < Weight2(op, l, r)
  {
    WeightStrict(l, r, l', r');
  }

  lemma BinOperands(op: Bop, ty: Ty, l: Tree, r: Tree, su: int, x: Tree, y: Tree, cx: nat, cy: nat, low: bool)
    requires WellTyped(Bin(op, ty, l, r, su), SortedMode(low))
    requires Optimized(l, x, cx) && Optimized(r, y, cy)
    ensures var t, u := Bin(op, ty, l, r, su), Bin(op, ty, x, y, su);
      Top(u) && Refines(t, u) && (cx + cy > 0 ==> A(u).weight < A(t).weight)
  {
    var t, u := Bin(op, ty, l, r, su), Bin(op, ty, x, y, su);
    AttrBounds(l);
    AttrBounds(r);
    AttrBounds(x);
    AttrBounds(y);
    Leq2(op, ty, A(l), A(r), A(x), A(y));
    NodeOkMono(op, ty, A(l), A(r), A(x), A(y), low);
    if cx + cy > 0 {
      Weight2Strict(op, A(l).weight, A(r).weight, A(x).weight, A(y).weight);
    }
    forall env, lim, wide | Pre(t, env, lim, wide)
      ensures Eval(u, env) == Eval(t, env) && Safe(u, env, lim, wide)
    {
      BinSame(op, ty, l, r, x, y, su, env, lim, wide);
    }
  }

  lemma UnOperand(op: Uop, ty: Ty, a: Tree, su: int, x: Tree, c: nat, low: bool)
    requires WellTyped(Un(op, ty, a, su), SortedMode(low)) && Optimized(a, x, c)
    ensures var t, u := Un(op, ty, a, su), Un(op, ty, x, su);
      Top(u) && Refines(t, u) && (c > 0 ==> A(u).weight < A(t).weight)
  {
    var t, u := Un(op, ty, a, su), Un(op, ty, x, su);
    Leq1(op, ty, A(a), A(x));
    forall env, lim, wide | Pre(t, env, lim, wide)
      ensures Eval(u, env) == Eval(t, env) && Safe(u, env, lim, wide)
    {
      UnSame(op, ty, a, x, su, env, lim, wide);
    }
  }

  lemma QmarkOperands(ty: Ty, c: Tree, l: Tree, r: Tree, su: int, x: Tree, y: Tree, z: Tree,
                      cx: nat, cy: nat, cz: nat, low: bool)
    requires WellTyped(Qmark(ty, c, l, r, su), SortedMode(low))
    requires Optimized(c, x, cx) && Optimized(l, y, cy) && Optimized(r, z, cz)
    ensures var t, u := Qmark(ty, c, l, r, su), Qmark(ty, x, y, z, su);
      Top(u) && Refines(t, u) && (cx + cy + cz > 0 ==> A(u).weight < A(t).weight)
  {
    var t, u := Qmark(ty, c, l, r, su), Qmark(ty, x, y, z, su);
    Leq3(ty, A(c), A(l), A(r), A(x), A(y), A(z));
    forall env, lim, wide | Pre(t, env, lim, wide)
      ensures Eval(u, env) == Eval(t, env) && Safe(u, env, lim, wide)
    {
      QmarkSame(ty, c, l, r, x, y, z, su, env, lim, wide);
    }
  }

  lemma NodeOptimized(t: Tree, v: Tree, u: Tree, below: nat, changes: nat)
    requires Refines(t, v) && (below > 0 ==> A(v).weight < A(t).weight) && Improved(v, u, changes)
    requires below + changes == 0 ==> AllFixed(u) && Kept(t, u)
    ensures Optimized(t, u, below + changes)
  {
    RefinesTrans(t, v, u);
  }

  /** The arms of a conditional hang below one more node, which converts constants. */
  lemma ArmOptimized(t: Tree, u: Tree, changes: nat)
    requires Optimized(t, u, changes)
    ensures Optimized(t, Norm(u), changes)
  {
    if changes == 0 {
      NormFixed(u);
      NormAlike(u);
    }
    NormRefines(u, Norm(u));
    RefinesTrans(t, u, Norm(u));
    NormOk(u, []);
  }

  /** Optimizes bottom up, right operand first, counting the changes. */
  method Optimize(t: Tree, ghost low: bool) returns (u: Tree, changes: nat)
    requires WellTyped(t, SortedMode(low))
    ensures Optimized(t, u, changes) && OptimizesTo(t, u, changes)
    decreases t, 1
  {
    match t {
      case Un(_, _, _, _) => u, changes := OptimizeUn(t, low);
      case Bin(_, _, _, _, _) => u, changes := OptimizeBin(t, low);
      case Qmark(_, _, _, _, _) => u, changes := OptimizeQmark(t, low);
      case _ =>
        LeqRefl(t);
        SameRefl(t);
        u, changes := t, 0;
    }
  }

  method OptimizeUn(t: Tree, ghost low: bool) returns (u: Tree, changes: nat)
    requires t.Un? && WellTyped(t, SortedMode(low))
    ensures Optimized(t, u, changes) && OptimizesTo(t, u, changes)
    decreases t, 0
  {
    var x, cx := Optimize(t.arg, low);
    hide *;
    UnOperand(t.uop, t.ty, t.arg, t.su, x, cx, low);
    var v := Un(t.uop, t.ty, x, t.su);
    var c;
    u, c := OptimizeNode(v);
    changes := cx + c;
    if changes == 0 {
      UnKept(t, x, u);
    }
    NodeOptimized(t, v, u, cx, c);
    UnTo(t.uop, t.ty, t.arg, t.su, x, cx, u, c);
    assert t == Un(t.uop, t.ty, t.arg, t.su);
  }

  method OptimizeBin(t: Tree, ghost low: bool) returns (u: Tree, changes: nat)
    requires t.Bin? && WellTyped(t, SortedMode(low))
    ensures Optimized(t, u, changes) && OptimizesTo(t, u, changes)
    decreases t, 0
  {
    var y, cy := Optimize(t.right, low);
    var x, cx := Optimize(t.left, low);
    hide *;
    BinOperands(t.op, t.ty, t.left, t.right, t.su, x, y, cx, cy, low);
    var v := Bin(t.op, t.ty, x, y, t.su);
    var c;
    u, c := OptimizeNode(v);
    changes := cx + cy + c;
    BinTo(t.op, t.ty, t.left, t.right, t.su, x, cx, y, cy, u, c);
    if changes == 0 {
      BinKept(t, x, y, u);
    }
    NodeOptimized(t, v, u, cx + cy, c);
  }

  method OptimizeQmark(t: Tree, ghost low: bool) returns (u: Tree, changes: nat)
    requires t.Qmark? && WellTyped(t, SortedMode(low))
    ensures Optimized(t, u, changes) && OptimizesTo(t, u, changes)
    decreases t, 0
  {
    var z, cz := Optimize(t.els, low);
    var y, cy := Optimize(t.thn, low);
    ArmOptimized(t.els, z, cz);
    ArmOptimized(t.thn, y, cy);
    var x, cx := Optimize(t.cond, low);
    hide *;
    QmarkOperands(t.ty, t.cond, t.thn, t.els, t.su, x, Norm(y), Norm(z), cx, cy, cz, low);
    var v := Qmark(t.ty, x, Norm(y), Norm(z), t.su);
    var c;
    u, c := OptimizeNode(v);
    changes := cx + cy + cz + c;
    QmarkTo(t.ty, t.cond, t.thn, t.els, t.su, x, cx, y, cy, z, cz, u, c);
    if changes == 0 {
      QmarkKept(t, x, Norm(y), Norm(z), u);
    }
    NodeOptimized(t, v, u, cx + cy + cz, c);
  }

  // ---- the canonicalizer ----

  lemma DoneIsLow(t: Tree)
    requires WellTyped(t, DONE)
    ensures WellTyped(t, LOWERED)
  {
  }

  lemma SucompRefines(t: Tree, nregs: int)
    ensures Refines(t, Sucomp(t, nregs))
  {
    SucompOk(t, nregs);
    LeqRefl(t);
    forall env, lim, wide | Pre(t, env, lim, wide)
      ensures Eval(Sucomp(t, nregs), env) == Eval(t, env) && Safe(Sucomp(t, nregs), env, lim, wide)
    {
      SucompEval(t, nregs, env, lim, wide);
    }
  }

  /** One round makes u of t, counting n changes. */
  ghost predicate RoundTo(t: Tree, u: Tree, n: nat) {
    OptimizesTo(CommuteTree(Sucomp(t, 0)), u, n)
  }

  /** One round: number, commute, optimize. */
  method Round(t: Tree, ghost low: bool) returns (u: Tree, changes: nat)
    requires WellTyped(t, OpenMode(low))
    ensures RoundTo(t, u, changes)
    ensures WellTyped(u, DONE) && Refines(t, u)
    ensures if changes > 0 then A(u).weight < A(t).weight else Normal(u) && (Single(t) ==> Gathered(u))
  {
    SucompRefines(t, 0);
    SucompOk(t, 0);
    SucompWell(t, 0, OpenMode(low));
    var s := Sucomp(t, 0);
    var c := Commute(s, low);
    u, changes := Optimize(c, low);
    RefinesTrans(t, s, c);
    RefinesTrans(t, c, u);
    FixedIff(u);
    if Single(t) {
      SucompSingle(t, 0);
      CommuteGathers(s);
    }
  }

  lemma {:induction false} SucompSingle(t: Tree, nregs: int)
    requires Single(t)
    ensures Single(Sucomp(t, nregs)) && (Literal(Sucomp(t, nregs)) <==> Literal(t))
  {
    match t
    case Un(_, _, a, _) =>
      SucompSingle(a, nregs);
    case Bin(op, _, l, r, _) =>
      SucompSingle(l, nregs);
      SucompSingle(r, nregs);
      SucompSingle(r, RightRegs(Sucomp(l, nregs).su, nregs));
    case Qmark(_, c, l, r, _) =>
      var c' := Sucomp(c, nregs);
      var l' := Sucomp(l, RightRegs(c'.su, nregs));
      SucompSingle(c, nregs);
      SucompSingle(l, RightRegs(c'.su, nregs));
      SucompSingle(r, RightRegs(l'.su, RightRegs(c'.su, nregs)));
    case _ =>
  }

  /** Rounds until one makes no change.  It stops; the result has the normal form,
      type of the tree, and its value wherever the evaluation is safe; and its groups
      are gathered, unless the last round began with a literal converted twice over. */
  method Canonicalize(t: Tree) returns (u: Tree)
    requires WellTyped(t, SOURCE)
    ensures WellTyped(u, DONE) && Normal(u)
    ensures exists v :: RoundTo(v, u, 0) && (Single(v) ==> Gathered(u))
    ensures A(t).kind != AnyK ==> A(u).kind == A(t).kind && TypeOf(u) == TypeOf(t)
    ensures forall env :: Safe(t, env, FREE, false) ==> Eval(u, env) == Eval(t, env)
  {
    var changes;
    u, changes := Round(t, false);
    ghost var last := t;
    while changes > 0
      invariant WellTyped(u, DONE) && Refines(t, u) && RoundTo(last, u, changes)
      invariant if changes > 0 then A(u).weight < A(t).weight else Normal(u) && (Single(last) ==> Gathered(u))
      decreases A(u).weight, changes
    {
      DoneIsLow(u);
      last := u;
      var v;
      v, changes := Round(u, true);
      RefinesTrans(t, u, v);
      u := v;
    }
    KindType(u, DONE);
    KindType(t, SOURCE);
    forall env | Safe(t, env, FREE, false) ensures Eval(u, env) == Eval(t, env) {
      assert Pre(t, env, FREE, false);
    }
  }
}
