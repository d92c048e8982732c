/** The commuting pass: collect the operands of a commutative group, sort them
    hardest first, fold the constants at the end, rebuild leaning left. */
module Regroup {
  import opened Word
  import opened Icode
  import opened Fold
  import opened Rules
  import opened Group
  import opened NormalForm

  // ---- Sethi-Ullman numbers ----

  const SU_ZERO := 0x000
  const SU_ONE := 0x100
  const SU_SMALL := 0x200
  const SU_QUICK := 0x300
  const SU_CONST := 0x400
  const SU_REG := 0x600
  const SU_ADDR := 0x700
  const SU_XREG := 0x800
  const SU_EASY := 0x900
  const SU_HARD := 0xa00
  const SU_VHARD := 0xb00
  const HICREG := 2
  const QUICKVAL := 16

  function ConstSu(i: int): int {
    if i == 0 then SU_ZERO
    else if i == 1 then SU_ONE
    else if 1 <= i <= QUICKVAL then SU_SMALL
    else if -128 <= i <= 127 then SU_QUICK
    else SU_CONST
  }

  function MaxI(a: int, b: int): int { if a > b then a else b }

  /** A binary node with left number l: how hard its right operand r makes it. */
  function BinSu(l: int, r: int, nregs: int): int {
    MaxI(SU_EASY,
         if l <= SU_ADDR then MaxI(l, r)
         else if r > SU_ADDR && nregs > HICREG then MaxI(l, SU_HARD)
         else l)
  }

  function RightRegs(l: int, nregs: int): int { if l <= SU_ADDR then nregs else nregs + 1 }

  /** t with every node's Sethi-Ullman number computed. */
  function Sucomp(t: Tree, nregs: int): Tree {
    match t
    case Cint(v, _) => Cint(v, ConstSu(v))
    case Clong(v, _) => Clong(v, if v >= 0x8000 || v <= -0x8000 then SU_ADDR else ConstSu(v))
    case Dclong(v, _) => Dclong(v, SU_ADDR)
    case Sym(id, ty, isReg, _) => Sym(id, ty, isReg, if isReg then SU_REG else SU_ADDR)
    case Un(op, ty, a, _) =>
      var a' := Sucomp(a, nregs);
      Un(op, ty, a', if a'.su <= SU_XREG then MaxI(SU_EASY, a'.su) else a'.su)
    case Bin(op, ty, l, r, _) =>
      if op == COMMA then
        var r', l' := Sucomp(r, nregs), Sucomp(l, nregs);
        Bin(op, ty, l', r', MaxI(MaxI(r'.su, l'.su), SU_EASY))
      else if op in {LDIV, LMOD, LMULT} then
        Bin(op, ty, Sucomp(l, nregs), Sucomp(r, nregs), SU_VHARD)
      else
        var l' := Sucomp(l, nregs);
        var r' := Sucomp(r, RightRegs(l'.su, nregs));
        Bin(op, ty, l', r', BinSu(l'.su, r'.su, nregs))
    case Qmark(ty, c, l, r, _) =>
      var c' := Sucomp(c, nregs);
      var l' := Sucomp(l, RightRegs(c'.su, nregs));
      var r' := Sucomp(r, RightRegs(l'.su, RightRegs(c'.su, nregs)));
      Qmark(ty, c', l', r', BinSu(c'.su, BinSu(l'.su, r'.su, RightRegs(c'.su, nregs)), nregs))
  }

  /** The classes of literals, and that they rise in the order of difficulty. */
  lemma LiteralClasses(v: int, k: int)
    requires In32(v)
    ensures SU_ZERO < SU_ONE < SU_SMALL < SU_QUICK < SU_CONST < SU_REG < SU_ADDR
    ensures SU_ADDR < SU_XREG < SU_EASY < SU_HARD < SU_VHARD
    ensures var n := Sucomp(Cint(v, k), 0).su;
      n == if v == 0 then SU_ZERO else if v == 1 then SU_ONE else if 2 <= v <= 16 then SU_SMALL
           else if -128 <= v <= 127 then SU_QUICK else SU_CONST
    ensures Sucomp(Clong(v, k), 0).su == if -0x8000 < v < 0x8000 then Sucomp(Cint(v, k), 0).su else SU_ADDR
  {
  }

  /** What a binary node needs, its left operand l, its right one r: nothing less than
      an operator by itself, and than its left operand; as much as the right one when
      the left one is addressable; else more only if the right one needs a register of
      its own and more than two are held. */
  lemma NodeNumber(l: int, r: int, nregs: int)
    ensures var n := BinSu(l, r, nregs);
      && n >= SU_EASY && n >= l
      && (l <= SU_ADDR ==> n >= r && n in {SU_EASY, l, r})
      && (l > SU_ADDR ==> n == if r > SU_ADDR && nregs > 2 && l < SU_HARD then SU_HARD else MaxI(l, SU_EASY))
  {
  }

  /** No constant counts as very hard. */
  predicate SuOk(t: Tree) {
    && (IsConst(t) ==> t.su != SU_VHARD)
    && match t
       case Un(_, _, a, _) => SuOk(a)
       case Bin(_, _, l, r, _) => SuOk(l) && SuOk(r)
       case Qmark(_, c, l, r, _) => SuOk(c) && SuOk(l) && SuOk(r)
       case _ => true
  }

  /** Renumbering changes nothing else. */
  lemma {:induction false} SucompOk(t: Tree, nregs: int)
    ensures A(Sucomp(t, nregs)) == A(t) && SuOk(Sucomp(t, nregs))
  {
    match t
    case Un(_, _, a, _) =>
      SucompOk(a, nregs);
    case Bin(op, _, l, r, _) =>
      SucompOk(l, nregs);
      SucompOk(r, nregs);
      SucompOk(r, RightRegs(Sucomp(l, nregs).su, nregs));
    case Qmark(_, c, l, r, _) =>
      var c' := Sucomp(c, nregs);
      var l' := Sucomp(l, RightRegs(c'.su, nregs));
      SucompOk(c, nregs);
      SucompOk(l, RightRegs(c'.su, nregs));
      SucompOk(r, RightRegs(l'.su, RightRegs(c'.su, nregs)));
    case _ =>
  }

  lemma {:induction false} SucompWell(t: Tree, nregs: int, m: Mode)
    requires WellTyped(t, m) && !m.settled
    ensures WellTyped(Sucomp(t, nregs), m)
  {
    match t
    case Un(_, _, a, _) =>
      SucompOk(a, nregs);
      SucompWell(a, nregs, m);
    case Bin(op, _, l, r, _) =>
      var regs := if op in {COMMA, LDIV, LMOD, LMULT} then nregs else RightRegs(Sucomp(l, nregs).su, nregs);
      SucompOk(l, nregs);
      SucompOk(r, regs);
      SucompWell(l, nregs, m);
      SucompWell(r, regs, m);
    case Qmark(_, c, l, r, _) =>
      var c' := Sucomp(c, nregs);
      var l' := Sucomp(l, RightRegs(c'.su, nregs));
      SucompWell(c, nregs, m);
      SucompWell(l, RightRegs(c'.su, nregs), m);
      SucompWell(r, RightRegs(l'.su, RightRegs(c'.su, nregs)), m);
    case _ =>
  }

  lemma {:induction false} SucompEval(t: Tree, nregs: int, env: Env, lim: Lim, wide: bool)
    ensures var u := Sucomp(t, nregs);
      Eval(u, env) == Eval(t, env) && (Safe(t, env, lim, wide) ==> Safe(u, env, lim, wide))
  {
    match t
    case Un(op, ty, a, _) =>
      SucompEval(a, nregs, env, Lim1(op, lim), Wide1(op, ty, wide));
    case Bin(op, ty, l, r, _) =>
      var regs := if op in {COMMA, LDIV, LMOD, LMULT} then nregs else RightRegs(Sucomp(l, nregs).su, nregs);
      SucompOk(l, nregs);
      SucompOk(r, regs);
      SucompEval(l, nregs, env, LimLeft(op, lim, A(r)), wide && ThruLeft(op, ty, A(r)));
      SucompEval(r, regs, env, LimRight(op, lim, A(l)), wide && ThruRight(op, ty, A(l)));
    case Qmark(_, c, l, r, _) =>
      var c' := Sucomp(c, nregs);
      var l' := Sucomp(l, RightRegs(c'.su, nregs));
      SucompEval(c, nregs, env, FREE, false);
      SucompEval(l, RightRegs(c'.su, nregs), env, FREE, false);
      SucompEval(r, RightRegs(l'.su, RightRegs(c'.su, nregs)), env, FREE, false);
    case _ =>
  }

  // ---- the order ----

  predicate IsReg(t: Tree) { t.Sym? && t.isReg }

  /** One comparison; it converts the constants it looks at.  Returns whether
      tp is harder than ntp, and both operands as they are afterwards. */
  function Harder(tp: Tree, ntp: Tree): (r: (bool, Tree, Tree))
    ensures r.1 == tp || r.1 == Norm(tp)
    ensures r.2 == ntp || r.2 == Norm(ntp)
  {
    if ntp.su == SU_VHARD then (false, tp, ntp)
    else if tp.su == SU_VHARD then (true, tp, ntp)
    else if IsReg(ntp) then (false, tp, ntp)
    else if IsReg(tp) then (true, tp, ntp)
    else if IsConst(ntp) then (true, tp, Norm(ntp))
    else if IsConst(tp) then (false, Norm(tp), ntp)
    else (tp.su > ntp.su, tp, ntp)
  }

  /** A constant loses against everything, and nothing constant wins against
      what is not. */
  lemma HarderThanConst(tp: Tree, ntp: Tree)
    requires SuOk(tp) && SuOk(ntp)
    ensures IsConst(ntp) ==> Harder(tp, ntp).0
    ensures !IsConst(ntp) && IsConst(tp) ==> !Harder(tp, ntp).0
  {
  }

  /** All constants stand at the end. */
  predicate ConstSuffix(s: seq<Tree>) {
    forall i, j :: 0 <= i < j < |s| && IsConst(s[i]) ==> IsConst(s[j])
  }

  predicate NormOf(x: Tree, y: Tree) { x == y || x == Norm(y) }

  predicate ListNormOf(s: seq<Tree>, g: seq<Tree>) {
    |s| == |g| && forall i :: 0 <= i < |s| ==> NormOf(s[i], g[i]) && SuOk(s[i])
  }

  function Swapped(s: seq<Tree>, i: nat, j: nat): seq<Tree>
    requires i < |s| && j < |s|
  {
    s[i := s[j]][j := s[i]]
  }

  lemma SwapMultiset(s: seq<Tree>, i: nat, j: nat)
    requires i < |s| && j < |s|
    ensures multiset(Swapped(s, i, j)) == multiset(s)
  {
  }

  lemma NormKeeps(x: Tree, y: Tree, g: Tree)
    requires NormOf(y, x) && NormOf(x, g) && SuOk(x)
    ensures NormOf(y, g) && SuOk(y) && IsConst(y) == IsConst(x)
  {
  }

  /** One comparison and exchange of the operands at p and q. */
  function Step(s: seq<Tree>, p: nat, q: nat): seq<Tree>
    requires p <= q < |s|
  {
    var r := Harder(s[q], s[p]);
    var s' := s[q := r.1][p := r.2];
    if r.0 then Swapped(s', p, q) else s'
  }

  /** One round of the exchange sort, from place q on. */
  function Exchanged(s: seq<Tree>, p: nat, q: nat): (u: seq<Tree>)
    requires p <= q <= |s|
    ensures |u| == |s|
    decreases |s| - q
  {
    if q == |s| then s else Exchanged(Step(s, p, q), p, q + 1)
  }

  /** The exchange sort, from place p on. */
  function Sorted(s: seq<Tree>, p: nat): (u: seq<Tree>)
    requires p <= |s|
    ensures |u| == |s|
    decreases |s| - p
  {
    if p == |s| then s else Sorted(Exchanged(s, p, p), p + 1)
  }

  predicate ConstRun(s: seq<Tree>, p: nat, q: nat)
    requires p <= q <= |s|
  {
    forall j :: p <= j < q ==> IsConst(s[j])
  }

  lemma StepOk(s: seq<Tree>, p: nat, q: nat, g: seq<Tree>) returns (g': seq<Tree>)
    requires p <= q < |s| && ListNormOf(s, g)
    ensures ListNormOf(Step(s, p, q), g') && multiset(g') == multiset(g)
    ensures Step(s, p, q)[..p] == s[..p]
    ensures IsConst(s[p]) ==> ConstRun(s, p, q) ==>
      IsConst(Step(s, p, q)[p]) ==> ConstRun(Step(s, p, q), p, q + 1)
    ensures !IsConst(s[p]) ==> !IsConst(Step(s, p, q)[p])
    ensures ConstRun(s, p, |s|) ==> ConstRun(Step(s, p, q), p, |s|)
  {
    var r := Harder(s[q], s[p]);
    HarderThanConst(s[q], s[p]);
    NormKeeps(s[q], r.1, g[q]);
    NormKeeps(s[p], r.2, g[p]);
    SwapMultiset(g, p, q);
    g' := if r.0 then Swapped(g, p, q) else g;
  }

  // ---- the order the sort leaves ----

  /** Very hard operands go first, then registers, then the rest, constants last. */
  function Rank(t: Tree): nat {
    if t.su == 0xb00 then 0
    else if t.Sym? && t.isReg then 1
    else if Literal(t) || Converted(t) then 3
    else 2
  }

  /** x may stand before y: by rank, and within the rest by falling number. */
  predicate Precedes(x: Tree, y: Tree) {
    Rank(x) < Rank(y) || (Rank(x) == Rank(y) && (Rank(x) == 2 ==> x.su >= y.su))
  }

  lemma NormRank(x: Tree)
    ensures Rank(Norm(x)) == Rank(x) && Norm(x).su == x.su
  {
    ConstNorm(x);
  }

  lemma HarderRank(tp: Tree, ntp: Tree)
    requires SuOk(tp) && SuOk(ntp)
    ensures var r := Harder(tp, ntp); if r.0 then Precedes(tp, ntp) else Precedes(ntp, tp)
    ensures var r := Harder(tp, ntp);
      Rank(r.1) == Rank(tp) && r.1.su == tp.su && Rank(r.2) == Rank(ntp) && r.2.su == ntp.su
  {
    ConstNorm(tp);
    ConstNorm(ntp);
    NormRank(tp);
    NormRank(ntp);
  }

  /** x precedes everything from place a on. */
  predicate PrecedesAll(x: Tree, s: seq<Tree>, a: nat, b: nat) {
    forall j :: a <= j < b <= |s| ==> Precedes(x, s[j])
  }

  lemma StepRank(s: seq<Tree>, p: nat, q: nat)
    requires p <= q < |s| && AllSuOk(s)
    ensures var u := Step(s, p, q);
      && AllSuOk(u) && Precedes(u[p], u[q])
      && (forall x, a: nat :: a <= p && PrecedesAll(x, s, a, |s|) ==> PrecedesAll(x, u, a, |s|))
      && (PrecedesAll(s[p], s, p, q) ==> PrecedesAll(u[p], u, p, q + 1))
      && u[..p] == s[..p]
  {
    HarderRank(s[q], s[p]);
    var r := Harder(s[q], s[p]);
    NormKeeps(s[q], r.1, s[q]);
    NormKeeps(s[p], r.2, s[p]);
  }

  lemma {:induction false} ExchangedRank(s: seq<Tree>, p: nat, q: nat)
    requires p <= q <= |s| && p < |s| && AllSuOk(s) && PrecedesAll(s[p], s, p, q)
    ensures var u := Exchanged(s, p, q);
      && AllSuOk(u) && PrecedesAll(u[p], u, p, |s|) && u[..p] == s[..p]
      && (forall x, a: nat :: a <= p && PrecedesAll(x, s, a, |s|) ==> PrecedesAll(x, u, a, |s|))
    decreases |s| - q
  {
    if q < |s| {
      StepRank(s, p, q);
      ExchangedRank(Step(s, p, q), p, q + 1);
    }
  }

  predicate InOrderTo(s: seq<Tree>, p: nat) {
    forall i :: 0 <= i < p <= |s| ==> PrecedesAll(s[i], s, i, |s|)
  }

  /** The sort leaves every operand before the easier ones. */
  lemma {:induction false} SortedInOrder(s: seq<Tree>, p: nat)
    requires p <= |s| && AllSuOk(s) && InOrderTo(s, p)
    ensures AllSuOk(Sorted(s, p)) && InOrderTo(Sorted(s, p), |s|)
    decreases |s| - p
  {
    if p < |s| {
      var u := Exchanged(s, p, p);
      ExchangedRank(s, p, p);
      forall i | 0 <= i <= p ensures PrecedesAll(u[i], u, i, |u|) {
        if i < p {
          assert u[i] == u[..p][i] == s[..p][i];
        }
      }
      SortedInOrder(u, p + 1);
    }
  }

  /** One round of the exchange sort: the hardest remaining operand moves to p. */
  method Exchange(clist: array<Tree>, p: nat, ghost g0: seq<Tree>) returns (ghost g: seq<Tree>)
    requires p < clist.Length && ListNormOf(clist[..], g0)
    modifies clist
    ensures clist[..] == Exchanged(old(clist[..]), p, p)
    ensures ListNormOf(clist[..], g) && multiset(g) == multiset(g0)
    ensures clist[..p] == old(clist[..p])
    ensures IsConst(clist[p]) ==> ConstRun(clist[..], p, clist.Length)
    ensures ConstRun(old(clist[..]), p, clist.Length) ==> ConstRun(clist[..], p, clist.Length)
  {
    g := g0;
    for q := p to clist.Length
      invariant Exchanged(clist[..], p, q) == Exchanged(old(clist[..]), p, p)
      invariant ListNormOf(clist[..], g) && multiset(g) == multiset(g0)
      invariant clist[..p] == old(clist[..p])
      invariant IsConst(clist[p]) ==> ConstRun(clist[..], p, q)
      invariant ConstRun(old(clist[..]), p, clist.Length) ==> ConstRun(clist[..], p, clist.Length)
    {
      g := StepOk(clist[..], p, q, g);
      ExchangePair(clist, p, q);
      assert clist[..p] == clist[..][..p];
    }
  }

  /** Compares the operands at q and p and exchanges them if the first is harder. */
  method ExchangePair(clist: array<Tree>, p: nat, q: nat)
    requires p <= q < clist.Length
    modifies clist
    ensures clist[..] == Step(old(clist[..]), p, q)
  {
    var r := Harder(clist[q], clist[p]);
    clist[q] := r.1;
    clist[p] := r.2;
    if r.0 {
      var x := clist[q];
      clist[q] := clist[p];
      clist[p] := x;
    }
  }

  /** The exchange sort.  g: the same operands in the same places, before their
      constants were converted. */
  method SortOperands(clist: array<Tree>) returns (ghost g: seq<Tree>)
    requires forall i :: 0 <= i < clist.Length ==> SuOk(clist[i])
    modifies clist
    ensures clist[..] == Sorted(old(clist[..]), 0)
    ensures ListNormOf(clist[..], g) && multiset(g) == multiset(old(clist[..]))
    ensures ConstSuffix(clist[..]) && InOrderTo(clist[..], clist.Length)
  {
    g := clist[..];
    assert ListNormOf(clist[..], g);
    SortedInOrder(clist[..], 0);
    hide InOrderTo, Harder, SuOk, ListNormOf;
    for p := 0 to clist.Length
      invariant Sorted(clist[..], p) == Sorted(old(clist[..]), 0)
      invariant ListNormOf(clist[..], g) && multiset(g) == multiset(old(clist[..]))
      invariant forall i :: 0 <= i < p && IsConst(clist[i]) ==> ConstRun(clist[..], i, clist.Length)
    {
      ghost var s := clist[..];
      g := Exchange(clist, p, g);
      forall i | 0 <= i <= p && IsConst(clist[i]) ensures ConstRun(clist[..], i, clist.Length) {
        if i < p {
          assert s[i] == s[..p][i] == clist[..p][i];
          forall j | i <= j < clist.Length ensures IsConst(clist[j]) {
            if j < p {
              assert clist[..p][j] == s[..p][j];
            }
          }
        }
      }
    }
  }

  /** Collects one side of a group: its operands if it is a group itself. */
  method AddSide(op: Bop, x: Tree, clist: array<Tree>, plist: array<Head>, c: nat, p: nat)
      returns (c': nat, p': nat)
    requires c + |Flat(op, x)| <= clist.Length && p + |Heads(op, x)| <= plist.Length
    modifies clist, plist
    ensures c' == c + |Flat(op, x)| && p' == p + |Heads(op, x)|
    ensures clist[..c'] == old(clist[..c]) + Flat(op, x)
    ensures plist[..p'] == old(plist[..p]) + Heads(op, x)
    decreases x, 1
  {
    if InGroup(op, x) {
      c', p' := Addtree(x, clist, plist, c, p);
    } else {
      clist[c] := x;
      c', p' := c + 1, p;
    }
  }

  lemma FlatIs(tp: Tree)
    requires tp.Bin?
    ensures Flat(tp.op, tp) == Flat(tp.op, tp.left) + Flat(tp.op, tp.right)
    ensures Heads(tp.op, tp) == Heads(tp.op, tp.left) + Heads(tp.op, tp.right) + [Head(tp.ty, tp.su)]
  {
  }

  /** Appends an operator node to those collected. */
  method PutHead(plist: array<Head>, p: nat, h: Head) returns (p': nat)
    requires p < plist.Length
    modifies plist
    ensures p' == p + 1 && plist[..p'] == old(plist[..p]) + [h]
  {
    plist[p] := h;
    p' := p + 1;
  }

  /** Collects the operands and the operator nodes below tp. */
  method Addtree(tp: Tree, clist: array<Tree>, plist: array<Head>, c: nat, p: nat) returns (c': nat, p': nat)
    requires tp.Bin?
    requires c + |Flat(tp.op, tp)| <= clist.Length && p + |Heads(tp.op, tp)| <= plist.Length
    modifies clist, plist
    ensures c' == c + |Flat(tp.op, tp)| && p' == p + |Heads(tp.op, tp)|
    ensures clist[..c'] == old(clist[..c]) + Flat(tp.op, tp)
    ensures plist[..p'] == old(plist[..p]) + Heads(tp.op, tp)
    decreases tp, 0
  {
    FlatIs(tp);
    hide Flat, Heads;
    c', p' := AddSide(tp.op, tp.left, clist, plist, c, p);
    c', p' := AddSide(tp.op, tp.right, clist, plist, c', p');
    p' := PutHead(plist, p', Head(tp.ty, tp.su));
  }

  predicate AllSuOk(s: seq<Tree>) { forall i :: 0 <= i < |s| ==> SuOk(s[i]) }

  predicate AllConstRight(s: seq<Tree>) { forall i :: 0 <= i < |s| ==> ConstRight(s[i]) }

  /** No constant is a left operand of a commutative node unless both are. */
  predicate ConstRight(t: Tree) {
    match t
    case Un(_, _, a, _) => ConstRight(a)
    case Bin(op, _, l, r, _) =>
      ConstRight(l) && ConstRight(r) && (CommOp(op) && IsConst(l) ==> IsConst(r))
    case Qmark(_, c, l, r, _) => ConstRight(c) && ConstRight(l) && ConstRight(r)
    case _ => true
  }

  /** What holds of the operand list all through the pass. */
  ghost predicate GoodList(op: Bop, ty: Ty, s0: seq<Tree>, s: seq<Tree>, m: Mode, flat: bool) {
    && |s0| >= 1 && |s| >= 1
    && ListRefines(op, ty, s0, s) && GroupWell(ty, s, m) && (flat ==> Surface(op, ty, s))
    && AllSuOk(s) && AllConstRight(s)
  }

  lemma MergedSurface(op: Bop, ty: Ty, s: seq<Tree>, m: Mode)
    requires CommOp(op) && ty != UNSIGNED && |s| >= 2 && GroupWell(ty, s, m) && Surface(op, ty, s)
    requires IsConst(s[|s| - 2]) && IsConst(s[|s| - 1])
    ensures Surface(op, ty, Merged(op, ty, s))
  {
    var n, u := |s| - 2, Merged(op, ty, s);
    FoldedPair(op, ty, s[n], s[n + 1], m);
    MergedVanish(op, ty, s);
    forall i | 0 <= i < |u| ensures SurfaceAt(op, ty, u, i) {
      if i < n {
        assert SurfaceAt(op, ty, s, i);
      }
    }
  }

  lemma MergedGood(op: Bop, ty: Ty, s0: seq<Tree>, s: seq<Tree>, m: Mode, flat: bool)
    requires CommOp(op) && ty != UNSIGNED && |s| >= 2 && GoodList(op, ty, s0, s, m, flat)
    requires IsConst(s[|s| - 2]) && IsConst(s[|s| - 1])
    ensures GoodList(op, ty, s0, Merged(op, ty, s), m, flat)
  {
    MergedRefines(op, ty, s, m);
    ListRefinesTrans(op, ty, s0, s, Merged(op, ty, s));
    if flat {
      MergedSurface(op, ty, s, m);
    }
    MergedFine(op, ty, s, m);
  }

  lemma MergedFine(op: Bop, ty: Ty, s: seq<Tree>, m: Mode)
    requires CommOp(op) && ty != UNSIGNED && |s| >= 2 && GroupWell(ty, s, m) && AllSuOk(s) && AllConstRight(s)
    requires IsConst(s[|s| - 2]) && IsConst(s[|s| - 1])
    ensures AllSuOk(Merged(op, ty, s)) && AllConstRight(Merged(op, ty, s))
  {
    var n := |s| - 2;
    FoldedPair(op, ty, s[n], s[n + 1], m);
    MergedSu(op, ty, s[n], s[n + 1]);
  }

  lemma MergedSu(op: Bop, ty: Ty, a: Tree, b: Tree)
    requires CommOp(op) && IsConst(a) && IsConst(b) && SuOk(a)
    ensures SuOk(Ccexpr(Bin(op, ty, a, b, 0)).tree)
  {
  }

  /** What the fold loop leaves: the constants at the end folded, last pair
      first, but never below two operands. */
  function FoldTail(op: Bop, ty: Ty, s: seq<Tree>): (u: seq<Tree>)
    requires |s| >= 2
    ensures 2 <= |u| <= |s|
    decreases |s|
  {
    if |s| > 2 && IsConst(s[|s| - 2]) && IsConst(s[|s| - 1]) then FoldTail(op, ty, Merged(op, ty, s)) else s
  }

  lemma {:induction false} FoldTailGood(op: Bop, ty: Ty, s0: seq<Tree>, s: seq<Tree>, m: Mode, flat: bool)
    requires CommOp(op) && ty != UNSIGNED && |s| >= 2 && GoodList(op, ty, s0, s, m, flat)
    ensures GoodList(op, ty, s0, FoldTail(op, ty, s), m, flat)
    decreases |s|
  {
    if |s| > 2 && IsConst(s[|s| - 2]) && IsConst(s[|s| - 1]) {
      MergedGood(op, ty, s0, s, m, flat);
      FoldTailGood(op, ty, s0, Merged(op, ty, s), m, flat);
    }
  }

  lemma MergedConst(op: Bop, ty: Ty, a: Tree, b: Tree)
    requires CommOp(op) && IsConst(a) && IsConst(b)
    ensures IsConst(Ccexpr(Bin(op, ty, a, b, 0)).tree)
  {
  }

  lemma MergedSuffix(op: Bop, ty: Ty, s: seq<Tree>)
    requires CommOp(op) && |s| > 2 && ConstSuffix(s) && IsConst(s[|s| - 2]) && IsConst(s[|s| - 1])
    ensures ConstSuffix(Merged(op, ty, s))
  {
    var n, t := |s| - 2, Merged(op, ty, s);
    MergedConst(op, ty, s[n], s[n + 1]);
    forall i, j | 0 <= i < j < |t| && IsConst(t[i]) ensures IsConst(t[j]) {
      assert t[i] == s[i];
      if j < n { assert t[j] == s[j]; }
    }
  }

  lemma {:induction false} FoldTailSuffix(op: Bop, ty: Ty, s: seq<Tree>)
    requires CommOp(op) && |s| >= 2 && ConstSuffix(s)
    ensures ConstSuffix(FoldTail(op, ty, s))
    decreases |s|
  {
    if |s| > 2 && IsConst(s[|s| - 2]) && IsConst(s[|s| - 1]) {
      MergedSuffix(op, ty, s);
      FoldTailSuffix(op, ty, Merged(op, ty, s));
    }
  }

  lemma {:induction false} FoldTailPrefix(op: Bop, ty: Ty, s: seq<Tree>)
    requires |s| >= 2
    ensures var u := FoldTail(op, ty, s); forall i :: 0 <= i < |u| - 1 ==> u[i] == s[i]
    ensures var u := FoldTail(op, ty, s); |u| == |s| ==> u == s
    decreases |s|
  {
    if |s| > 2 && IsConst(s[|s| - 2]) && IsConst(s[|s| - 1]) {
      FoldTailPrefix(op, ty, Merged(op, ty, s));
    }
  }

  lemma FoldTailRest(op: Bop, ty: Ty, s: seq<Tree>, k: nat)
    requires |s| > 2 && k <= |s| - 2 && IsConst(s[|s| - 2]) && IsConst(s[|s| - 1])
    requires ConstRun(Merged(op, ty, s), k, |s| - 1)
    ensures ConstRun(s, k, |s|)
  {
    forall j | k <= j < |s| ensures IsConst(s[j]) {
      if j < |s| - 2 { assert Merged(op, ty, s)[j] == s[j]; }
    }
  }

  /** Only constants were folded; a constant is left beside the last operand
      only when two operands are left and both are constant. */
  lemma {:induction false} FoldTailShape(op: Bop, ty: Ty, s: seq<Tree>)
    requires CommOp(op) && |s| >= 2 && ConstSuffix(s)
    ensures var u := FoldTail(op, ty, s);
      && (|u| < |s| ==> ConstRun(s, |u| - 1, |s|))
      && (IsConst(u[|u| - 2]) ==> |u| == 2 && IsConst(u[1]))
    decreases |s|
  {
    var n := |s| - 2;
    if |s| > 2 && IsConst(s[n]) && IsConst(s[n + 1]) {
      var t := Merged(op, ty, s);
      MergedSuffix(op, ty, s);
      FoldTailShape(op, ty, t);
      var k := |FoldTail(op, ty, t)|;
      if k == |t| {
        MergedConst(op, ty, s[n], s[n + 1]);
        assert ConstRun(t, k - 1, |t|);
      }
      FoldTailRest(op, ty, s, k - 1);
    }
  }

  /** Where the fold loop stands: clist is s with live operands up to clp; from
      the first pair that does not fold, q runs below clp. */
  predicate Folding(op: Bop, ty: Ty, s1: seq<Tree>, s: seq<Tree>, clp: nat, q: nat) {
    && 1 <= q <= clp < |s| && |s1| >= 2
    && ConstSuffix(s[..clp + 1])
    && (q < clp ==> !IsConst(s[clp - 1]))
    && FoldTail(op, ty, s[..clp + 1]) == FoldTail(op, ty, s1)
  }

  lemma FoldStep(op: Bop, ty: Ty, s1: seq<Tree>, s: seq<Tree>, clp: nat, q: nat)
    requires CommOp(op) && Folding(op, ty, s1, s, clp, q) && q > 1
    ensures if IsConst(s[q - 1]) then
        IsConst(s[q]) && Folding(op, ty, s1, s[q - 1 := Ccexpr(Bin(op, ty, s[q - 1], s[q], 0)).tree], clp - 1, q - 1)
      else Folding(op, ty, s1, s, clp, q - 1)
  {
    var l := s[..clp + 1];
    assert l[q - 1] == s[q - 1] && l[clp - 1] == s[clp - 1] && l[clp] == s[clp];
    if IsConst(s[q - 1]) {
      MergedConst(op, ty, s[clp - 1], s[clp]);
      var s' := s[q - 1 := Ccexpr(Bin(op, ty, s[q - 1], s[q], 0)).tree];
      assert s'[..clp] == Merged(op, ty, l);
      forall i, j | 0 <= i < j < clp && IsConst(s'[..clp][i]) ensures IsConst(s'[..clp][j]) {
        assert s'[i] == l[i] && (j < clp - 1 ==> s'[j] == l[j]);
      }
    }
  }

  lemma FoldDone(op: Bop, ty: Ty, s1: seq<Tree>, s: seq<Tree>, clp: nat)
    requires Folding(op, ty, s1, s, clp, 1)
    ensures s[..clp + 1] == FoldTail(op, ty, s1)
  {
    assert s[..clp + 1][clp - 1] == s[clp - 1];
  }

  datatype Folded = Folded(list: seq<Tree>, done: bool)

  /** Tries to fold the operands at q - 1 and q, below the node h. */
  function FoldAt(op: Bop, h: Head, s: seq<Tree>, q: nat): (r: Folded)
    requires 1 <= q < |s|
    ensures |r.list| == |s|
  {
    match Ccexpr(Bin(op, h.ty, s[q - 1], s[q], h.su))
    case Cont(c) => Folded(s[q - 1 := c], true)
    case Brk(b) => Folded(if b.Bin? then s[q - 1 := b.left][q := b.right] else s, false)
  }

  /** The node's own type and number do not matter to folding its operands. */
  lemma FoldAtIgnores(op: Bop, h: Head, h': Head, s: seq<Tree>, q: nat)
    requires CommOp(op) && 1 <= q < |s|
    ensures FoldAt(op, h, s, q) == FoldAt(op, h', s, q)
  {
  }

  /** The fold loop on any list: pairs from the end, each fold dropping the
      last live operand. */
  function FoldLoop(op: Bop, h: Head, s: seq<Tree>, clp: nat, q: nat): (u: seq<Tree>)
    requires 1 <= q <= clp < |s|
    ensures 2 <= |u| <= |s|
    decreases q
  {
    if q == 1 then s[..clp + 1]
    else
      var r := FoldAt(op, h, s, q);
      FoldLoop(op, h, r.list, if r.done then clp - 1 else clp, q - 1)
  }

  lemma {:induction false} FoldLoopRuns(op: Bop, h: Head, s1: seq<Tree>, s: seq<Tree>, clp: nat, q: nat)
    requires CommOp(op) && Folding(op, h.ty, s1, s, clp, q)
    ensures FoldLoop(op, h, s, clp, q) == FoldTail(op, h.ty, s1)
    decreases q, 1
  {
    if q == 1 {
      FoldDone(op, h.ty, s1, s, clp);
    } else {
      var tail := LoopTail(op, h, s1, s, clp, q);
      FoldLoopNext(op, h, s, clp, q);
    }
  }

  /** What the loop leaves after one turn. */
  lemma {:induction false} LoopTail(op: Bop, h: Head, s1: seq<Tree>, s: seq<Tree>, clp: nat, q: nat)
      returns (tail: seq<Tree>)
    requires CommOp(op) && Folding(op, h.ty, s1, s, clp, q) && q > 1
    ensures IsConst(s[q - 1]) ==> IsConst(s[q])
    ensures tail == FoldTail(op, h.ty, s1)
    ensures tail ==
      if IsConst(s[q - 1]) then
        FoldLoop(op, h, s[q - 1 := Ccexpr(Bin(op, h.ty, s[q - 1], s[q], 0)).tree], clp - 1, q - 1)
      else FoldLoop(op, h, s, clp, q - 1)
    decreases q, 0
  {
    hide Ccexpr;
    FoldStep(op, h.ty, s1, s, clp, q);
    tail := FoldTail(op, h.ty, s1);
    if IsConst(s[q - 1]) {
      FoldLoopRuns(op, h, s1, s[q - 1 := Ccexpr(Bin(op, h.ty, s[q - 1], s[q], 0)).tree], clp - 1, q - 1);
    } else {
      FoldLoopRuns(op, h, s1, s, clp, q - 1);
    }
  }

  /** One turn of the fold loop folds two constants or nothing. */
  lemma FoldLoopNext(op: Bop, h: Head, s: seq<Tree>, clp: nat, q: nat)
    requires CommOp(op) && 2 <= q <= clp < |s| && (IsConst(s[q - 1]) ==> IsConst(s[q]))
    ensures FoldLoop(op, h, s, clp, q) ==
      if IsConst(s[q - 1]) then
        FoldLoop(op, h, s[q - 1 := Ccexpr(Bin(op, h.ty, s[q - 1], s[q], 0)).tree], clp - 1, q - 1)
      else FoldLoop(op, h, s, clp, q - 1)
  {
    FoldAtIgnores(op, h, Head(h.ty, 0), s, q);
    FoldAtConst(op, Head(h.ty, 0), s, q);
  }

  lemma FoldAtConst(op: Bop, h: Head, s: seq<Tree>, q: nat)
    requires CommOp(op) && 1 <= q < |s| && (IsConst(s[q - 1]) ==> IsConst(s[q]))
    ensures var r := FoldAt(op, h, s, q);
      if IsConst(s[q - 1]) then r.done && r.list == s[q - 1 := Ccexpr(Bin(op, h.ty, s[q - 1], s[q], h.su)).tree]
      else !r.done && r.list == s
  {
    assert s[q - 1 := s[q - 1]][q := s[q]] == s;
  }

  /** On a list with its constants last, the loop folds exactly those. */
  lemma FoldLoopSorted(op: Bop, h: Head, s: seq<Tree>)
    requires CommOp(op) && |s| >= 2 && ConstSuffix(s)
    ensures FoldLoop(op, h, s, |s| - 1, |s| - 1) == FoldTail(op, h.ty, s)
  {
    FoldingAll(op, h.ty, s);
    FoldLoopRuns(op, h, s, s, |s| - 1, |s| - 1);
  }

  lemma FoldingAll(op: Bop, ty: Ty, s: seq<Tree>)
    requires |s| >= 2 && ConstSuffix(s)
    ensures Folding(op, ty, s, s, |s| - 1, |s| - 1)
  {
    assert s[..|s| - 1 + 1] == s;
  }

  /** Without that order it loses operands: of w + 1 + 2 + x + y, taken in this
      order, it leaves w + 3 + 2 + x. */
  lemma FoldLoopUnsorted(w: Tree, x: Tree, y: Tree, h: Head)
    requires w.Sym? && x.Sym? && y.Sym?
    ensures FoldLoop(ADD, h, [w, Cint(1, 0), Cint(2, 0), x, y], 4, 4) == [w, Cint(3, 0), Cint(2, 0), x]
  {
    var s := [w, Cint(1, 0), Cint(2, 0), x, y];
    FoldAtConst(ADD, h, s, 4);
    assert FoldAt(ADD, h, s, 3) == Folded(s, false) by {
      assert s[2 := Cint(2, 0)][3 := x] == s;
    }
    FoldAtConst(ADD, h, s, 2);
    assert FoldLoop(ADD, h, s, 4, 4) == FoldLoop(ADD, h, s, 4, 3) == FoldLoop(ADD, h, s, 4, 2);
    assert FoldLoop(ADD, h, s, 4, 2) == FoldLoop(ADD, h, s[1 := Cint(3, 0)], 3, 1);
  }

  predicate ConstPair(s: seq<Tree>, i: nat)
    requires i + 1 < |s|
  {
    IsConst(s[i]) && IsConst(s[i + 1])
  }

  /** How many neighbours up to q are constant pairs, the first operand aside. */
  function Pairs(s: seq<Tree>, q: nat): nat
    requires q < |s|
  {
    if q <= 1 then 0 else (if ConstPair(s, q - 1) then 1 else 0) + Pairs(s, q - 1)
  }

  /** How many of them stand in one run that ends at q. */
  function TailPairs(s: seq<Tree>, q: nat): nat
    requires q < |s|
  {
    if q <= 1 || !ConstPair(s, q - 1) then 0 else 1 + TailPairs(s, q - 1)
  }

  predicate SameConsts(s: seq<Tree>, u: seq<Tree>, q: nat)
    requires q <= |s| && q <= |u|
  {
    forall i :: 0 <= i < q ==> IsConst(s[i]) == IsConst(u[i])
  }

  lemma {:induction false} PairsOnly(s: seq<Tree>, u: seq<Tree>, q: nat)
    requires q < |s| && q < |u| && SameConsts(s, u, q + 1)
    ensures Pairs(s, q) == Pairs(u, q) && TailPairs(s, q) == TailPairs(u, q)
  {
    if q > 1 {
      PairsOnly(s, u, q - 1);
    }
  }

  lemma FoldAtConsts(op: Bop, h: Head, s: seq<Tree>, q: nat)
    requires CommOp(op) && 2 <= q < |s|
    ensures var r := FoldAt(op, h, s, q);
      r.done == ConstPair(s, q - 1) && SameConsts(s, r.list, q)
  {
    if ConstPair(s, q - 1) {
      MergedConst(op, h.ty, s[q - 1], s[q]);
    }
  }

  /** The loop folds every constant pair it meets. */
  lemma {:induction false} FoldLoopLength(op: Bop, h: Head, s: seq<Tree>, clp: nat, q: nat)
    requires CommOp(op) && 1 <= q <= clp < |s|
    ensures |FoldLoop(op, h, s, clp, q)| == clp + 1 - Pairs(s, q)
    decreases q
  {
    if q > 1 {
      var r := FoldAt(op, h, s, q);
      FoldAtConsts(op, h, s, q);
      PairsOnly(s, r.list, q - 1);
      FoldLoopLength(op, h, r.list, if r.done then clp - 1 else clp, q - 1);
    }
  }

  lemma {:induction false} FoldTailLength(op: Bop, ty: Ty, s: seq<Tree>)
    requires CommOp(op) && |s| >= 2
    ensures |FoldTail(op, ty, s)| == |s| - TailPairs(s, |s| - 1)
    decreases |s|
  {
    var n := |s| - 2;
    if n > 0 && ConstPair(s, n) {
      var u := Merged(op, ty, s);
      MergedConst(op, ty, s[n], s[n + 1]);
      assert u[..n] == s[..n];
      assert forall i :: 0 <= i < n ==> u[i] == u[..n][i] && s[i] == s[..n][i];
      PairsOnly(s, u, n);
      FoldTailLength(op, ty, u);
    }
  }

  /** Every constant pair, the first operand aside, stands in the run at q. */
  predicate PairsLast(s: seq<Tree>, q: nat)
    requires q < |s|
  {
    forall i {:trigger ConstPair(s, i)} :: 1 <= i < q && ConstPair(s, i) ==> ConstRun(s, i, q + 1)
  }

  lemma {:induction false} NoPairs(s: seq<Tree>, q: nat)
    requires q < |s|
    ensures Pairs(s, q) == 0 <==> forall i {:trigger ConstPair(s, i)} :: 1 <= i < q ==> !ConstPair(s, i)
  {
    if q > 1 {
      NoPairs(s, q - 1);
    }
  }

  lemma {:induction false} TailOnly(s: seq<Tree>, q: nat)
    requires q < |s|
    ensures TailPairs(s, q) <= Pairs(s, q)
    ensures TailPairs(s, q) == Pairs(s, q) <==> PairsLast(s, q)
  {
    if q > 1 {
      TailOnly(s, q - 1);
      if ConstPair(s, q - 1) {
        TailGrows(s, q);
      } else {
        NoPairs(s, q);
        forall i | 1 <= i < q && ConstPair(s, i) ensures !ConstRun(s, i, q + 1) {
          NoRun(s, i, q);
        }
      }
    }
  }

  lemma NoRun(s: seq<Tree>, i: nat, q: nat)
    requires 1 <= i < q < |s| && !ConstPair(s, q - 1)
    ensures !ConstRun(s, i, q + 1)
  {
    var j := if IsConst(s[q]) then q - 1 else q;
    assert i <= j < q + 1 && !IsConst(s[j]);
  }

  lemma TailGrows(s: seq<Tree>, q: nat)
    requires 1 < q < |s| && ConstPair(s, q - 1)
    ensures PairsLast(s, q) <==> PairsLast(s, q - 1)
  {
    if PairsLast(s, q) {
      forall i | 1 <= i < q - 1 && ConstPair(s, i) ensures ConstRun(s, i, q) {
        assert ConstRun(s, i, q + 1);
      }
    }
    if PairsLast(s, q - 1) {
      forall i | 1 <= i < q && ConstPair(s, i) ensures ConstRun(s, i, q + 1) {
        if i < q - 1 { assert ConstRun(s, i, q); }
      }
    }
  }

  /** The same operands, but for constants converted. */
  predicate SameNorms(u: seq<Tree>, v: seq<Tree>) {
    |u| == |v| && forall i :: 0 <= i < |u| ==> Norm(u[i]) == Norm(v[i])
  }

  lemma FoldAtNorms(op: Bop, h: Head, s: seq<Tree>, q: nat)
    requires CommOp(op) && 2 <= q < |s| && !ConstPair(s, q - 1)
    ensures var r := FoldAt(op, h, s, q); !r.done && SameNorms(r.list, s)
  {
  }

  /** Where there is no pair to fold the loop only converts constants. */
  lemma {:induction false} LoopNorms(op: Bop, h: Head, s: seq<Tree>, clp: nat, q: nat)
    requires CommOp(op) && 1 <= q <= clp < |s| && Pairs(s, q) == 0
    ensures SameNorms(FoldLoop(op, h, s, clp, q), s[..clp + 1])
    decreases q
  {
    if q > 1 {
      var r := FoldAt(op, h, s, q);
      FoldAtNorms(op, h, s, q);
      FoldAtConsts(op, h, s, q);
      PairsOnly(s, r.list, q - 1);
      LoopNorms(op, h, r.list, clp, q - 1);
      assert forall i :: 0 <= i <= clp ==> r.list[..clp + 1][i] == r.list[i] && s[..clp + 1][i] == s[i];
    }
  }

  lemma {:induction false} LoopIsTail(op: Bop, h: Head, s: seq<Tree>, clp: nat)
    requires CommOp(op) && 1 <= clp < |s| && TailPairs(s, clp) == Pairs(s, clp)
    ensures SameNorms(FoldLoop(op, h, s, clp, clp), FoldTail(op, h.ty, s[..clp + 1]))
    decreases clp
  {
    var t := s[..clp + 1];
    assert t[clp - 1] == s[clp - 1] && t[clp] == s[clp];
    if clp > 1 && ConstPair(s, clp - 1) {
      var u := FoldAt(op, h, s, clp).list;
      MergedPair(op, h, s, clp);
      FoldAtConsts(op, h, s, clp);
      PairsOnly(s, u, clp - 1);
      LoopIsTail(op, h, u, clp - 1);
    } else {
      LoopNorms(op, h, s, clp, clp);
    }
  }

  /** Folding the last live pair merges the last two operands. */
  lemma MergedPair(op: Bop, h: Head, s: seq<Tree>, clp: nat)
    requires CommOp(op) && 2 <= clp < |s| && ConstPair(s, clp - 1)
    ensures var r := FoldAt(op, h, s, clp); r.done && r.list[..clp] == Merged(op, h.ty, s[..clp + 1])
  {
    var t := s[..clp + 1];
    assert t[clp - 1] == s[clp - 1] && t[clp] == s[clp];
    FoldAtIgnores(op, h, Head(h.ty, 0), s, clp);
    FoldAtConst(op, Head(h.ty, 0), s, clp);
    assert t[..clp - 1] == s[..clp - 1];
  }

  /** On any list the loop leaves what folding the constants at the end leaves, up
      to conversions, exactly when all its constant pairs stand there. */
  lemma FoldLoopExactly(op: Bop, h: Head, s: seq<Tree>)
    requires CommOp(op) && |s| >= 2
    ensures SameNorms(FoldLoop(op, h, s, |s| - 1, |s| - 1), FoldTail(op, h.ty, s)) <==> PairsLast(s, |s| - 1)
  {
    var n := |s| - 1;
    assert s[..n + 1] == s;
    TailOnly(s, n);
    if PairsLast(s, n) {
      LoopIsTail(op, h, s, n);
    } else {
      FoldLoopLength(op, h, s, n, n);
      FoldTailLength(op, h.ty, s);
    }
  }

  /** Folds the pair at q - 1 and q in place, if it can. */
  method FoldPair(op: Bop, h: Head, clist: array<Tree>, q: nat) returns (folded: bool)
    requires CommOp(op) && 1 <= q < clist.Length
    modifies clist
    ensures Folded(clist[..], folded) == FoldAt(op, h, old(clist[..]), q)
  {
    var r := Ccexpr(Bin(op, h.ty, clist[q - 1], clist[q], h.su));
    folded := r.Cont?;
    if folded {
      clist[q - 1] := r.tree;
    } else if r.tree.Bin? {
      clist[q - 1], clist[q] := r.tree.left, r.tree.right;
    }
  }

  lemma FoldLoopStep(op: Bop, h: Head, h': Head, s: seq<Tree>, clp: nat, q: nat, r: Folded)
    requires CommOp(op) && 2 <= q <= clp < |s| && r == FoldAt(op, h', s, q)
    ensures FoldLoop(op, h, s, clp, q) == FoldLoop(op, h, r.list, if r.done then clp - 1 else clp, q - 1)
  {
    FoldAtIgnores(op, h, h', s, q);
  }

  /** Folds constants from the end of the list; k operands are left. */
  method FoldConstants(op: Bop, ghost h: Head, clist: array<Tree>, plist: array<Head>) returns (k: nat)
    requires CommOp(op) && clist.Length >= 2 && plist.Length == clist.Length - 1
    modifies clist
    ensures 2 <= k <= clist.Length
    ensures clist[..k] == FoldLoop(op, h, old(clist[..]), clist.Length - 1, clist.Length - 1)
  {
    var clp, q, p := clist.Length - 1, clist.Length - 1, clist.Length - 2;
    ghost var goal := FoldLoop(op, h, clist[..], clp, q);
    while p > 0
      invariant 1 <= q == p + 1 <= clp < clist.Length
      invariant FoldLoop(op, h, clist[..], clp, q) == goal
    {
      clp := FoldTurn(op, h, plist[p], clist, clp, q, goal);
      q, p := q - 1, p - 1;
    }
    k := clp + 1;
    assert clist[..k] == clist[..][..k];
  }

  /** One turn of the loop; clp' is the last operand still live. */
  method FoldTurn(op: Bop, ghost h: Head, h': Head, clist: array<Tree>, clp: nat, q: nat, ghost goal: seq<Tree>)
      returns (clp': nat)
    requires CommOp(op) && 2 <= q <= clp < clist.Length && FoldLoop(op, h, clist[..], clp, q) == goal
    modifies clist
    ensures q - 1 <= clp' <= clp && FoldLoop(op, h, clist[..], clp', q - 1) == goal
  {
    ghost var s := clist[..];
    var folded := FoldPair(op, h', clist, q);
    FoldLoopStep(op, h, h', s, clp, q, Folded(clist[..], folded));
    clp' := if folded then clp - 1 else clp;
  }

  /** s holds the operands in their final order: a permutation of the operands
      s1, with constants converted and last. */
  predicate Arranged(s1: seq<Tree>, g: seq<Tree>, s: seq<Tree>) {
    multiset(g) == multiset(s1) && ListNormOf(s, g) && ConstSuffix(s) && |s| == |s1|
  }

  method SortAndFold(op: Bop, ghost ty: Ty, clist: array<Tree>, plist: array<Head>)
      returns (k: nat, ghost g: seq<Tree>, ghost s: seq<Tree>)
    requires CommOp(op) && AllSuOk(clist[..]) && clist.Length >= 2 && plist.Length == clist.Length - 1
    modifies clist
    ensures Arranged(old(clist[..]), g, s) && s == Sorted(old(clist[..]), 0)
    ensures 2 <= k <= clist.Length && clist[..k] == FoldTail(op, ty, s)
    ensures clist[..k] == FoldLoop(op, Head(ty, 0), s, clist.Length - 1, clist.Length - 1)
  {
    g := SortOperands(clist);
    s := clist[..];
    FoldLoopSorted(op, Head(ty, 0), s);
    k := FoldConstants(op, Head(ty, 0), clist, plist);
  }

  /** The type of a rebuilt node: long if an operand is. */
  function FixedTy(ty: Ty, l: Tree, r: Tree): Ty {
    if ty == LONG then ty
    else if TypeOf(r) == LONG then LONG
    else if TypeOf(l) == LONG then LONG
    else ty
  }

  predicate NoneLonger(ty: Ty, s: seq<Tree>) {
    ty != LONG ==> forall i :: 0 <= i < |s| ==> TypeOf(s[i]) != LONG
  }

  /** The group rebuilt leaning left, each node as wide as its operands. */
  function Rebuilt(op: Bop, s: seq<Tree>, hs: seq<Head>): Tree
    requires |s| == |hs| + 1
  {
    if |hs| == 0 then s[0]
    else
      var n := |hs| - 1;
      var l := Rebuilt(op, s[..n + 1], hs[..n]);
      Bin(op, FixedTy(hs[n].ty, l, s[n + 1]), l, s[n + 1], hs[n].su)
  }

  lemma RebuiltMore(op: Bop, s: seq<Tree>, hs: seq<Head>)
    requires |s| == |hs| + 1 >= 2
    ensures var n := |hs| - 1; var l := Rebuilt(op, s[..n + 1], hs[..n]);
      Rebuilt(op, s, hs) == Bin(op, FixedTy(hs[n].ty, l, s[n + 1]), l, s[n + 1], hs[n].su)
  {
  }

  /** A rebuilt node is long exactly if a node of the group below it was, or an operand is. */
  lemma {:induction false} RebuiltWide(op: Bop, s: seq<Tree>, hs: seq<Head>)
    requires |s| == |hs| + 1 >= 2
    ensures TypeOf(Rebuilt(op, s, hs)) == LONG <==>
      (exists i :: 0 <= i < |hs| && hs[i].ty == LONG) || (exists i :: 0 <= i < |s| && TypeOf(s[i]) == LONG)
  {
    var n := |hs| - 1;
    var s0, hs0 := s[..n + 1], hs[..n];
    assert s == s0 + [s[n + 1]] && hs == hs0 + [hs[n]];
    if n > 0 {
      RebuiltWide(op, s0, hs0);
      assert forall i :: 0 <= i < n ==> hs0[i] == hs[i];
    } else {
      assert Rebuilt(op, s0, hs0) == s[0];
    }
    assert forall i :: 0 <= i <= n ==> s0[i] == s[i];
  }

  /** Where no operand is wider than the nodes, these keep their type. */
  lemma {:induction false} RebuiltDeep(op: Bop, ty: Ty, s: seq<Tree>, hs: seq<Head>)
    requires |s| == |hs| + 1 && SameTy(hs, ty) && NoneLonger(ty, s)
    ensures Rebuilt(op, s, hs) == LeftDeep(op, s, hs)
    ensures ty != LONG ==> TypeOf(LeftDeep(op, s, hs)) != LONG
  {
    if |hs| > 0 {
      RebuiltDeep(op, ty, s[..|hs|], hs[..|hs| - 1]);
    }
  }

  /** Rebuilds the group from the first k operands, leaning left. */
  method Rebuild(op: Bop, clist: array<Tree>, plist: array<Head>, k: nat) returns (u: Tree)
    requires 2 <= k <= clist.Length && k - 1 <= plist.Length
    ensures u == Rebuilt(op, clist[..k], plist[..k - 1])
  {
    ghost var s, hs := clist[..k], plist[..k - 1];
    u := clist[0];
    for i := 0 to k - 1
      invariant u == Rebuilt(op, s[..i + 1], hs[..i])
    {
      RebuiltMore(op, s[..i + 2], hs[..i + 1]);
      assert s[..i + 2][..i + 1] == s[..i + 1] && hs[..i + 1][..i] == hs[..i];
      u := Bin(op, FixedTy(plist[i].ty, u, clist[i + 1]), u, clist[i + 1], plist[i].su);
    }
    assert s[..k] == s && hs[..k - 1] == hs;
  }

  /** What commuting makes of a group whose operands are s and nodes hs. */
  function Regrouped(op: Bop, ty: Ty, s: seq<Tree>, hs: seq<Head>): Tree
    requires |s| == |hs| + 1 >= 2
  {
    var u := FoldLoop(op, Head(ty, 0), Sorted(s, 0), |s| - 1, |s| - 1);
    Rebuilt(op, u, hs[..|u| - 1])
  }
}
