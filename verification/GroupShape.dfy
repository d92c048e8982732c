/** The shape of commuted trees: groups lean left, hardest operand first, with one
    literal at most, which stands last; comparisons have their literals on the right. */
module GroupShape {
  import opened Word
  import opened Icode
  import opened Fold
  import opened Rules
  import opened Group
  import opened NormalForm
  import opened Regroup
  import opened Commuting

  predicate Constant(t: Tree) { Literal(t) || Converted(t) }

  predicate Rooted(op: Bop, t: Tree) { t.Bin? && t.op == op }

  /** The operand before r in a group that leans left. */
  function LastOf(op: Bop, l: Tree): Tree { if Rooted(op, l) then l.right else l }

  predicate Gathered2(op: Bop, l: Tree, r: Tree) {
    && (op in {ADD, MULT, AND, OR, XOR} ==>
          && !Rooted(op, r)
          && (Rooted(op, l) ==> !Constant(l.right))
          && Precedes(LastOf(op, l), r))
    && (op in {EQUALS, NEQUALS, GREAT, GREATEQ, LESS, LESSEQ} && Constant(l) ==> Constant(r))
  }

  predicate Gathered(t: Tree) {
    match t
    case Un(op, _, a, _) => Gathered(a) && !(op in {INT2L, LONG2I} && Converted(a))
    case Bin(op, _, l, r, _) => Gathered(l) && Gathered(r) && Gathered2(op, l, r)
    case Qmark(_, c, l, r, _) => Gathered(c) && Gathered(l) && Gathered(r)
    case _ => true
  }

  /** No literal is converted twice over; such a one does not count as a constant
      until the optimizer has converted it once. */
  predicate Single(t: Tree) {
    match t
    case Un(op, _, a, _) => Single(a) && !(op in {INT2L, LONG2I} && Converted(a))
    case Bin(_, _, l, r, _) => Single(l) && Single(r)
    case Qmark(_, c, l, r, _) => Single(c) && Single(l) && Single(r)
    case _ => true
  }

  // ---- a rebuilt group ----

  /** Operands as the sort and the folding leave them. */
  predicate Finished(op: Bop, s: seq<Tree>) {
    && |s| >= 1 && AllSuOk(s) && InOrderTo(s, |s|)
    && (forall i :: 0 <= i < |s| ==> Gathered(s[i]) && !Rooted(op, s[i]))
    && (forall i :: 1 <= i < |s| - 1 ==> !IsConst(s[i]))
  }

  lemma FinishedPrefix(op: Bop, s: seq<Tree>)
    requires |s| >= 2 && Finished(op, s)
    ensures Finished(op, s[..|s| - 1])
  {
    var u := s[..|s| - 1];
    forall i | 0 <= i < |u| ensures PrecedesAll(u[i], u, i, |u|) {
      assert PrecedesAll(s[i], s, i, |s|);
    }
  }

  lemma {:induction false} RebuiltGathered(op: Bop, s: seq<Tree>, hs: seq<Head>)
    requires |s| == |hs| + 1 && Finished(op, s) && CommOp(op)
    ensures var t := Rebuilt(op, s, hs);
      Gathered(t) && SuOk(t) && LastOf(op, t) == s[|hs|] && (|hs| >= 1 <==> Rooted(op, t))
    decreases |hs|
  {
    if |hs| > 0 {
      var n := |hs| - 1;
      FinishedPrefix(op, s);
      RebuiltGathered(op, s[..n + 1], hs[..n]);
      assert PrecedesAll(s[n], s, n, |s|);
      ConstNorm(s[n]);
    }
  }

  // ---- folding keeps the operands in order ----

  lemma SuffixOf(s: seq<Tree>)
    requires InOrderTo(s, |s|) && AllSuOk(s)
    ensures ConstSuffix(s)
  {
    forall i, j | 0 <= i < j < |s| && IsConst(s[i]) ensures IsConst(s[j]) {
      assert PrecedesAll(s[i], s, i, |s|);
      ConstNorm(s[i]);
      ConstNorm(s[j]);
    }
  }

  lemma MergedInOrder(op: Bop, ty: Ty, s: seq<Tree>)
    requires CommOp(op) && |s| >= 2 && AllSuOk(s) && InOrderTo(s, |s|)
    requires IsConst(s[|s| - 2]) && IsConst(s[|s| - 1])
    ensures var u := Merged(op, ty, s); AllSuOk(u) && InOrderTo(u, |u|) && Literal(u[|s| - 2])
  {
    var n, u := |s| - 2, Merged(op, ty, s);
    MergedConst(op, ty, s[n], s[n + 1]);
    MergedSu(op, ty, s[n], s[n + 1]);
    ConstNorm(u[n]);
    forall i | 0 <= i < |u| ensures PrecedesAll(u[i], u, i, |u|) {
      if i < n { assert PrecedesAll(s[i], s, i, |s|); }
    }
  }

  lemma {:induction false} FoldTailInOrder(op: Bop, ty: Ty, s: seq<Tree>)
    requires CommOp(op) && |s| >= 2 && AllSuOk(s) && InOrderTo(s, |s|)
    ensures var u := FoldTail(op, ty, s); AllSuOk(u) && InOrderTo(u, |u|)
    ensures var u := FoldTail(op, ty, s); u[|u| - 1] == s[|u| - 1] || Literal(u[|u| - 1])
    decreases |s|
  {
    hide Precedes, SuOk, Literal;
    if |s| > 2 && IsConst(s[|s| - 2]) && IsConst(s[|s| - 1]) {
      MergedInOrder(op, ty, s);
      FoldTailInOrder(op, ty, Merged(op, ty, s));
    }
  }

  lemma FoldedFinished(op: Bop, ty: Ty, s: seq<Tree>)
    requires CommOp(op) && |s| >= 2 && AllSuOk(s) && InOrderTo(s, |s|)
    requires forall i :: 0 <= i < |s| ==> Gathered(s[i]) && !Rooted(op, s[i])
    ensures Finished(op, FoldTail(op, ty, s))
  {
    hide SuOk, Precedes;
    var u := FoldTail(op, ty, s);
    SuffixOf(s);
    FoldTailInOrder(op, ty, s);
    FoldTailPrefix(op, ty, s);
    FoldTailShape(op, ty, s);
    SuffixOf(u);
  }

  // ---- sorting keeps the operands ----

  predicate Operand(op: Bop, t: Tree) { Gathered(t) && SuOk(t) && !Rooted(op, t) }

  predicate Operands(op: Bop, s: seq<Tree>) { forall i :: 0 <= i < |s| ==> Operand(op, s[i]) }

  lemma StepOperands(op: Bop, s: seq<Tree>, p: nat, q: nat)
    requires p <= q < |s| && Operands(op, s)
    ensures Operands(op, Step(s, p, q))
  {
    NormOperand(op, s[p]);
    NormOperand(op, s[q]);
  }

  lemma NormOperand(op: Bop, t: Tree)
    requires Operand(op, t)
    ensures Operand(op, Norm(t))
  {
  }

  lemma {:induction false} ExchangedOperands(op: Bop, s: seq<Tree>, p: nat, q: nat)
    requires p <= q <= |s| && Operands(op, s)
    ensures Operands(op, Exchanged(s, p, q))
    decreases |s| - q
  {
    if q < |s| {
      StepOperands(op, s, p, q);
      ExchangedOperands(op, Step(s, p, q), p, q + 1);
    }
  }

  lemma {:induction false} SortedOperands(op: Bop, s: seq<Tree>, p: nat)
    requires p <= |s| && Operands(op, s)
    ensures Operands(op, Sorted(s, p))
    decreases |s| - p
  {
    if p < |s| {
      ExchangedOperands(op, s, p, p);
      SortedOperands(op, Exchanged(s, p, p), p + 1);
    }
  }

  lemma RegroupedGathered(op: Bop, ty: Ty, s: seq<Tree>, hs: seq<Head>)
    requires CommOp(op) && |s| == |hs| + 1 >= 2 && Operands(op, s)
    ensures var t := Regrouped(op, ty, s, hs); Gathered(t) && SuOk(t) && Rooted(op, t)
  {
    hide Gathered, SuOk, Precedes;
    var u := Sorted(s, 0);
    SortedInOrder(s, 0);
    SortedOperands(op, s, 0);
    SuffixOf(u);
    FoldLoopSorted(op, Head(ty, 0), u);
    FoldedFinished(op, ty, u);
    var v := FoldTail(op, ty, u);
    RebuiltGathered(op, v, hs[..|v| - 1]);
  }

  // ---- a commuted tree ----

  lemma {:induction false} FlatOperands(op: Bop, t: Tree)
    requires SuOk(t) && Single(t)
    ensures forall x :: x in Flat(op, t) ==> SuOk(x) && Single(x) && !Rooted(op, x)
  {
    if InGroup(op, t) {
      FlatOperands(op, t.left);
      FlatOperands(op, t.right);
    }
  }

  /** Commuting keeps a tree's operator, or exchanges a comparison for another. */
  predicate SameRoot(t: Tree, u: Tree) {
    && (u.Bin? <==> t.Bin?) && (Literal(u) <==> Literal(t)) && (Converted(u) <==> Converted(t))
    && (u.Bin? ==> u.op == t.op || (RelOp(t.op) && RelOp(u.op)))
  }

  lemma {:induction false} CommuteGathers(t: Tree)
    requires SuOk(t) && Single(t)
    ensures Gathered(CommuteTree(t)) && SuOk(CommuteTree(t)) && SameRoot(t, CommuteTree(t))
    decreases Size(t)
  {
    match t
    case Un(_, _, a, _) =>
      CommuteGathers(a);
    case Bin(op, ty, l, r, su) =>
      if CommOp(op) {
        GroupGathers(t);
      } else if RelOp(op) {
        ComparisonGathers(t);
      } else {
        CommuteGathers(l);
        CommuteGathers(r);
      }
    case Qmark(_, c, l, r, _) =>
      CommuteGathers(c);
      CommuteGathers(l);
      CommuteGathers(r);
    case _ =>
  }

  lemma {:induction false} GroupGathers(t: Tree)
    requires t.Bin? && CommOp(t.op) && SuOk(t) && Single(t)
    ensures Gathered(CommuteTree(t)) && SuOk(CommuteTree(t)) && Rooted(t.op, CommuteTree(t))
    decreases Size(t), 0
  {
    hide Gathered, Flat, Regrouped;
    var f := Flat(t.op, t);
    FlatOperands(t.op, t);
    FlatSmaller(t.op, t);
    var s := CommuteAll(f, Size(t) - 1);
    forall i | 0 <= i < |s| ensures Operand(t.op, s[i]) {
      assert f[i] in f;
      CommuteGathers(f[i]);
    }
    RegroupedGathered(t.op, t.ty, s, Heads(t.op, t));
  }

  lemma {:induction false} ComparisonGathers(t: Tree)
    requires t.Bin? && RelOp(t.op) && SuOk(t) && Single(t)
    ensures Gathered(CommuteTree(t)) && SuOk(CommuteTree(t)) && SameRoot(t, CommuteTree(t))
    decreases Size(t), 0
  {
    var h := Harder(t.right, t.left);
    HarderThanConst(t.right, t.left);
    NormSmaller(t.right);
    NormSmaller(t.left);
    CommutesComparison(t.op, t.ty, t.left, t.right, t.su);
    NormKeeps(t.right, h.1, t.right);
    NormKeeps(t.left, h.2, t.left);
    CommuteGathers(h.1);
    CommuteGathers(h.2);
    ConstNorm(CommuteTree(h.1));
    ConstNorm(CommuteTree(h.2));
  }
}
