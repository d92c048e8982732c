/** Compiling conditions to jumps: &&, ||, !, comma, ?: and comparisons become
    straight-line code with fresh labels, run on a small machine with flags. */
module CondJump {
  import opened Word

  // ---- comparison, inversion and the branch table ----

  datatype Relop = EQ | NE | GT | GE | LT | LE

  function Inverted(op: Relop): Relop {
    match op
    case EQ => NE
    case NE => EQ
    case GT => LE
    case GE => LT
    case LT => GE
    case LE => GT
  }

  function Mirrored(op: Relop): Relop {
    match op
    case EQ => EQ
    case NE => NE
    case GT => LT
    case GE => LE
    case LT => GT
    case LE => GE
  }

  predicate Compare(op: Relop, a: int, b: int) {
    match op
    case EQ => a == b
    case NE => a != b
    case GT => a > b
    case GE => a >= b
    case LT => a < b
    case LE => a <= b
  }

  datatype Cc = Jeq | Jne | Jgt | Jge | Jlt | Jle | Jule | Jult | Juge | Jugt

  function Branch(op: Relop, unsigned: bool): Cc {
    match op
    case EQ => Jeq
    case NE => Jne
    case GT => if unsigned then Jugt else Jgt
    case GE => if unsigned then Juge else Jge
    case LT => if unsigned then Jult else Jlt
    case LE => if unsigned then Jule else Jle
  }

  datatype Flags = Flags(c: bool, z: bool, s: bool, v: bool)

  predicate Taken(cc: Cc, f: Flags) {
    match cc
    case Jeq => f.z
    case Jne => !f.z
    case Jgt => !(f.z || f.s != f.v)
    case Jge => f.s == f.v
    case Jlt => f.s != f.v
    case Jle => f.z || f.s != f.v
    case Jule => f.c || f.z
    case Jult => f.c
    case Juge => !f.c
    case Jugt => !(f.c || f.z)
  }

  function Full(wide: bool): int { if wide then FULL32 else FULL16 }

  /** The value as the machine holds it, and as C reads it. */
  function Pattern(wide: bool, x: int): int { x % Full(wide) }

  function Read(wide: bool, unsigned: bool, x: int): int {
    if unsigned then Pattern(wide, x) else if wide then Wrap32(x) else Wrap16(x)
  }

  /** The flags after comparing: those of the difference. */
  function CompareFlags(wide: bool, x: int, y: int): Flags {
    var full := Full(wide);
    var a, b := Pattern(wide, x), Pattern(wide, y);
    var d := (a - b) % full;
    var neg := (p: int) => p >= full / 2;
    Flags(a < b, d == 0, neg(d), neg(a) != neg(b) && neg(d) != neg(a))
  }

  lemma DifferenceOf(full: int, a: int, b: int)
    requires full > 0 && 0 <= a < full && 0 <= b < full
    ensures (a - b) % full == if a >= b then a - b else a - b + full
  {
    if a >= b {
      DivModUnique(a - b, full, 0, a - b);
    } else {
      DivModUnique(a - b, full, -1, a - b + full);
    }
  }

  lemma SignedOf(wide: bool, x: int)
    ensures Read(wide, false, x) ==
      if Pattern(wide, x) >= Full(wide) / 2 then Pattern(wide, x) - Full(wide) else Pattern(wide, x)
  {
    var full := Full(wide);
    var q, p := x / full, x % full;
    if p >= full / 2 {
      DivModUnique(x + full / 2, full, q + 1, p - full / 2);
    } else {
      DivModUnique(x + full / 2, full, q, p + full / 2);
    }
  }

  /** The chosen branch is taken exactly when the comparison holds. */
  lemma BranchTaken(op: Relop, wide: bool, unsigned: bool, x: int, y: int)
    ensures Taken(Branch(op, unsigned), CompareFlags(wide, x, y))
      <==> Compare(op, Read(wide, unsigned, x), Read(wide, unsigned, y))
    ensures var a, b := Read(wide, unsigned, x), Read(wide, unsigned, y);
      Taken(Branch(op, unsigned), CompareFlags(wide, x, y)) <==>
        match op
        case EQ => a == b
        case NE => a != b
        case GT => a > b
        case GE => a >= b
        case LT => a < b
        case LE => a <= b
  {
    DifferenceOf(Full(wide), Pattern(wide, x), Pattern(wide, y));
    SignedOf(wide, x);
    SignedOf(wide, y);
  }

  /** Inverting the relation inverts the branch; mirroring exchanges its operands. */
  lemma RelationTables(op: Relop, a: int, b: int, unsigned: bool, f: Flags)
    ensures Compare(Inverted(op), a, b) == !Compare(op, a, b)
    ensures Compare(Mirrored(op), b, a) == Compare(op, a, b)
    ensures Taken(Branch(Inverted(op), unsigned), f) == !Taken(Branch(op, unsigned), f)
  {
  }

  // ---- expressions ----

  datatype Cond =
    | Const(val: int)
    | Not(c: Cond)
    | And(l: Cond, r: Cond)
    | Or(l: Cond, r: Cond)
    | Seq(e: Value, c: Cond)
    | Rel(op: Relop, wide: bool, unsigned: bool, a: nat, b: nat)
    | Test(v: Value)

  datatype Value =
    | Leaf(id: nat)
    | Truth(c: Cond)
    | Select(c: Cond, thn: Value, els: Value)
    | Both(first: Value, second: Value)

  /** The value a leaf has, given the leaves evaluated before it. */
  type Oracle = (nat, seq<nat>) -> int

  datatype Outcome = Outcome(truth: bool, trace: seq<nat>)
  datatype Result = Result(val: int, trace: seq<nat>)

  /** C's evaluation: left to right, && and || stopping early. */
  function EvalCond(c: Cond, o: Oracle, tr: seq<nat>): Outcome {
    match c
    case Const(v) => Outcome(v != 0, tr)
    case Not(c1) => var x := EvalCond(c1, o, tr); Outcome(!x.truth, x.trace)
    case And(l, r) => var x := EvalCond(l, o, tr); if x.truth then EvalCond(r, o, x.trace) else x
    case Or(l, r) => var x := EvalCond(l, o, tr); if x.truth then x else EvalCond(r, o, x.trace)
    case Seq(e, c1) => EvalCond(c1, o, EvalValue(e, o, tr).trace)
    case Rel(op, wide, uns, a, b) =>
      Outcome(Compare(op, Read(wide, uns, o(a, tr)), Read(wide, uns, o(b, tr + [a]))), tr + [a, b])
    case Test(v) => var x := EvalValue(v, o, tr); Outcome(x.val != 0, x.trace)
  }

  function EvalValue(v: Value, o: Oracle, tr: seq<nat>): Result {
    match v
    case Leaf(id) => Result(o(id, tr), tr + [id])
    case Truth(c) => var x := EvalCond(c, o, tr); Result(if x.truth then 1 else 0, x.trace)
    case Select(c, l, r) =>
      var x := EvalCond(c, o, tr);
      if x.truth then EvalValue(l, o, x.trace) else EvalValue(r, o, x.trace)
    case Both(v1, v2) => EvalValue(v2, o, EvalValue(v1, o, tr).trace)
  }

  // ---- the machine ----

  datatype Instr =
    | Get(id: nat)
    | Load(val: int)
    | Cmp(wide: bool, a: nat, b: nat)
    | Tst
    | Jcc(cc: Cc, lab: nat)
    | Jmp(lab: nat)
    | Lab(lab: nat)

  datatype State = State(pc: nat, acc: int, flags: Flags, trace: seq<nat>)

  /** Where the label stands; the end of the program if it does not occur. */
  function Find(prog: seq<Instr>, lab: nat): (k: nat)
    ensures k <= |prog|
    ensures k < |prog| ==> prog[k] == Lab(lab)
    ensures forall j :: 0 <= j < k ==> prog[j] != Lab(lab)
  {
    if |prog| == 0 || prog[0] == Lab(lab) then 0 else 1 + Find(prog[1..], lab)
  }

  function Step(prog: seq<Instr>, o: Oracle, st: State): State {
    if st.pc >= |prog| then st
    else
      var next := st.(pc := st.pc + 1);
      match prog[st.pc]
      case Get(id) => next.(acc := o(id, st.trace), trace := st.trace + [id])
      case Load(v) => next.(acc := v)
      case Cmp(wide, a, b) =>
        next.(flags := CompareFlags(wide, o(a, st.trace), o(b, st.trace + [a])), trace := st.trace + [a, b])
      case Tst => next.(flags := Flags(false, st.acc == 0, st.acc < 0, false))
      case Jcc(cc, lab) => if Taken(cc, st.flags) then st.(pc := Find(prog, lab)) else next
      case Jmp(lab) => st.(pc := Find(prog, lab))
      case Lab(_) => next
  }

  function Steps(prog: seq<Instr>, o: Oracle, st: State, k: nat): State
    decreases k
  {
    if k == 0 then st else Steps(prog, o, Step(prog, o, st), k - 1)
  }

  ghost predicate Reaches(prog: seq<Instr>, o: Oracle, st: State, st': State) {
    exists k: nat :: Steps(prog, o, st, k) == st'
  }

  lemma {:induction false} StepsAdd(prog: seq<Instr>, o: Oracle, st: State, j: nat, k: nat)
    ensures Steps(prog, o, st, j + k) == Steps(prog, o, Steps(prog, o, st, j), k)
    decreases j
  {
    if j > 0 {
      StepsAdd(prog, o, Step(prog, o, st), j - 1, k);
    }
  }

  lemma ReachesTrans(prog: seq<Instr>, o: Oracle, a: State, b: State, c: State)
    requires Reaches(prog, o, a, b) && Reaches(prog, o, b, c)
    ensures Reaches(prog, o, a, c)
  {
    var j: nat :| Steps(prog, o, a, j) == b;
    var k: nat :| Steps(prog, o, b, k) == c;
    StepsAdd(prog, o, a, j, k);
  }

  lemma ReachesStep(prog: seq<Instr>, o: Oracle, a: State)
    ensures Reaches(prog, o, a, Step(prog, o, a)) && Reaches(prog, o, a, a)
  {
    assert Steps(prog, o, a, 1) == Step(prog, o, a);
    assert Steps(prog, o, a, 0) == a;
  }

  // ---- the code ----

  datatype Gen = Gen(code: seq<Instr>, next: nat)

  /** The code that jumps to lab exactly when c is dir; n is the next label. */
  function CondCode(c: Cond, dir: bool, lab: nat, n: nat): (g: Gen)
    ensures g.next >= n
    decreases c, 1
  {
    match c
    case Const(v) => Gen(if (v != 0) == dir then [Jmp(lab)] else [], n)
    case Not(c1) => CondCode(c1, !dir, lab, n)
    case And(_, _) => if dir then Guarded(c, dir, lab, n) else Chained(c, dir, lab, n)
    case Or(_, _) => if dir then Chained(c, dir, lab, n) else Guarded(c, dir, lab, n)
    case Seq(e, c1) =>
      var x := ValueCode(e, n);
      var y := CondCode(c1, dir, lab, x.next);
      Gen(x.code + y.code, y.next)
    case Rel(op, wide, uns, a, b) =>
      Gen([Cmp(wide, a, b), Jcc(Branch(if dir then op else Inverted(op), uns), lab)], n)
    case Test(v) =>
      var x := ValueCode(v, n);
      Gen(x.code + [Tst, Jcc(if dir then Jne else Jeq, lab)], x.next)
  }

  /** Either operand may jump. */
  function Chained(c: Cond, dir: bool, lab: nat, n: nat): (g: Gen)
    requires c.And? || c.Or?
    ensures g.next >= n
    decreases c, 0
  {
    var x := CondCode(c.l, dir, lab, n);
    var y := CondCode(c.r, dir, lab, x.next);
    Gen(x.code + y.code, y.next)
  }

  /** The left operand may skip the right one. */
  function Guarded(c: Cond, dir: bool, lab: nat, n: nat): (g: Gen)
    requires c.And? || c.Or?
    ensures g.next >= n
    decreases c, 0
  {
    var x := CondCode(c.l, !dir, n, n + 1);
    var y := CondCode(c.r, dir, lab, x.next);
    Gen(x.code + y.code + [Lab(n)], y.next)
  }

  function ValueCode(v: Value, n: nat): (g: Gen)
    ensures g.next >= n
    decreases v, 1
  {
    match v
    case Leaf(id) => Gen([Get(id)], n)
    case Truth(c) =>
      var x := CondCode(c, true, n, n + 1);
      Gen(x.code + [Load(0), Jmp(x.next), Lab(n), Load(1), Lab(x.next)], x.next + 1)
    case Select(c, l, r) =>
      var x := CondCode(c, false, n, n + 1);
      var y := ValueCode(l, x.next);
      var z := ValueCode(r, y.next + 1);
      Gen(x.code + y.code + [Jmp(y.next), Lab(n)] + z.code + [Lab(y.next)], z.next)
    case Both(v1, v2) =>
      var x := ValueCode(v1, n);
      var y := ValueCode(v2, x.next);
      Gen(x.code + y.code, y.next)
  }

  // ---- labels ----

  predicate Unique(prog: seq<Instr>) {
    forall i, j :: 0 <= i < j < |prog| && prog[i].Lab? ==> prog[i] != prog[j]
  }

  /** Every label defined in the code lies in [n, m), and none twice. */
  predicate FreshLabels(code: seq<Instr>, n: nat, m: nat) {
    Unique(code) && forall i :: 0 <= i < |code| && code[i].Lab? ==> n <= code[i].lab < m
  }

  lemma FreshAppend(x: seq<Instr>, y: seq<Instr>, n: nat, k: nat, m: nat)
    requires n <= k <= m && FreshLabels(x, n, k) && FreshLabels(y, k, m)
    ensures FreshLabels(x + y, n, m)
  {
    var s := x + y;
    forall i, j | 0 <= i < j < |s| && s[i].Lab? ensures s[i] != s[j] {
      if i < |x| && j >= |x| {
        assert s[i] == x[i] && s[j] == y[j - |x|];
      } else if i >= |x| {
        assert s[i] == y[i - |x|] && s[j] == y[j - |x|];
      }
    }
  }

  lemma FreshPlain(x: seq<Instr>, n: nat, m: nat)
    requires forall i :: 0 <= i < |x| ==> !x[i].Lab?
    ensures FreshLabels(x, n, m)
  {
  }

  /** Labels generated for a condition: fresh ones, each once. */
  lemma {:induction false} CondLabels(c: Cond, dir: bool, lab: nat, n: nat)
    ensures var g := CondCode(c, dir, lab, n); FreshLabels(g.code, n, g.next)
    decreases c, 1
  {
    match c
    case Const(_) =>
    case Not(c1) => CondLabels(c1, !dir, lab, n);
    case And(_, _) => if dir { GuardedLabels(c, dir, lab, n); } else { ChainedLabels(c, dir, lab, n); }
    case Or(_, _) => if dir { ChainedLabels(c, dir, lab, n); } else { GuardedLabels(c, dir, lab, n); }
    case Seq(e, c1) =>
      var x := ValueCode(e, n);
      ValueLabels(e, n);
      CondLabels(c1, dir, lab, x.next);
      FreshAppend(x.code, CondCode(c1, dir, lab, x.next).code, n, x.next, CondCode(c1, dir, lab, x.next).next);
    case Rel(_, _, _, _, _) =>
    case Test(v) =>
      var x := ValueCode(v, n);
      ValueLabels(v, n);
      FreshAppend(x.code, [Tst, Jcc(if dir then Jne else Jeq, lab)], n, x.next, x.next);
  }

  lemma {:induction false} ChainedLabels(c: Cond, dir: bool, lab: nat, n: nat)
    requires c.And? || c.Or?
    ensures var g := Chained(c, dir, lab, n); FreshLabels(g.code, n, g.next)
    decreases c, 0
  {
    var x := CondCode(c.l, dir, lab, n);
    var y := CondCode(c.r, dir, lab, x.next);
    CondLabels(c.l, dir, lab, n);
    CondLabels(c.r, dir, lab, x.next);
    FreshAppend(x.code, y.code, n, x.next, y.next);
  }

  lemma {:induction false} GuardedLabels(c: Cond, dir: bool, lab: nat, n: nat)
    requires c.And? || c.Or?
    ensures var g := Guarded(c, dir, lab, n); FreshLabels(g.code, n, g.next)
    decreases c, 0
  {
    var x := CondCode(c.l, !dir, n, n + 1);
    var y := CondCode(c.r, dir, lab, x.next);
    CondLabels(c.l, !dir, n, n + 1);
    CondLabels(c.r, dir, lab, x.next);
    FreshAppend(x.code, y.code, n + 1, x.next, y.next);
    AddLabel(x.code + y.code, n, y.next);
  }

  lemma AddLabel(x: seq<Instr>, n: nat, m: nat)
    requires FreshLabels(x, n + 1, m) && n < m
    ensures FreshLabels(x + [Lab(n)], n, m)
  {
    var s := x + [Lab(n)];
    forall i, j | 0 <= i < j < |s| && s[i].Lab? ensures s[i] != s[j] {
      assert s[i] == x[i];
    }
  }

  lemma {:induction false} ValueLabels(v: Value, n: nat)
    ensures var g := ValueCode(v, n); FreshLabels(g.code, n, g.next)
    decreases v, 1
  {
    match v
    case Leaf(_) =>
    case Truth(c) =>
      var x := CondCode(c, true, n, n + 1);
      var tail := [Load(0), Jmp(x.next), Lab(n), Load(1), Lab(x.next)];
      CondLabels(c, true, n, n + 1);
      TruthLabels(x.code, n, x.next);
    case Select(_, _, _) =>
      ArmLabels(v, n);
    case Both(v1, v2) =>
      var x := ValueCode(v1, n);
      var y := ValueCode(v2, x.next);
      ValueLabels(v1, n);
      ValueLabels(v2, x.next);
      FreshAppend(x.code, y.code, n, x.next, y.next);
  }

  lemma {:induction false} ArmLabels(v: Value, n: nat)
    requires v.Select?
    ensures var g := ValueCode(v, n); FreshLabels(g.code, n, g.next)
    decreases v, 0
  {
    var x := CondCode(v.c, false, n, n + 1);
    var y := ValueCode(v.thn, x.next);
    var z := ValueCode(v.els, y.next + 1);
    CondLabels(v.c, false, n, n + 1);
    ValueLabels(v.thn, x.next);
    ValueLabels(v.els, y.next + 1);
    SelectLabels(x.code, y.code, z.code, n, x.next, y.next, z.next);
  }

  lemma TruthLabels(x: seq<Instr>, n: nat, m: nat)
    requires n < m && FreshLabels(x, n + 1, m)
    ensures FreshLabels(x + [Load(0), Jmp(m), Lab(n), Load(1), Lab(m)], n, m + 1)
  {
    FreshPlain([Load(0), Jmp(m)], m, m);
    FreshAppend(x, [Load(0), Jmp(m)], n + 1, m, m);
    AddLabel(x + [Load(0), Jmp(m)], n, m);
    FreshAppend(x + [Load(0), Jmp(m)] + [Lab(n)], [Load(1), Lab(m)], n, m, m + 1);
    assert x + [Load(0), Jmp(m)] + [Lab(n)] + [Load(1), Lab(m)] == x + [Load(0), Jmp(m), Lab(n), Load(1), Lab(m)];
  }

  lemma SelectLabels(x: seq<Instr>, y: seq<Instr>, z: seq<Instr>, n: nat, k: nat, l: nat, m: nat)
    requires n < k <= l < m
    requires FreshLabels(x, n + 1, k) && FreshLabels(y, k, l) && FreshLabels(z, l + 1, m)
    ensures FreshLabels(x + y + [Jmp(l), Lab(n)] + z + [Lab(l)], n, m)
  {
    FreshAppend(x, y, n + 1, k, l);
    FreshPlain([Jmp(l)], l, l);
    FreshAppend(x + y, [Jmp(l)], n + 1, l, l);
    AddLabel(x + y + [Jmp(l)], n, l);
    AddLabel(z, l, m);
    FreshAppend(x + y + [Jmp(l)] + [Lab(n)], z + [Lab(l)], n, l, m);
    assert x + y + [Jmp(l)] + [Lab(n)] + (z + [Lab(l)]) == x + y + [Jmp(l), Lab(n)] + z + [Lab(l)];
  }

  // ---- running the code, wherever it stands in a program ----

  predicate At(prog: seq<Instr>, pc: nat, code: seq<Instr>) {
    pc + |code| <= |prog| && prog[pc..pc + |code|] == code
  }

  lemma AtAppend(prog: seq<Instr>, pc: nat, x: seq<Instr>, y: seq<Instr>)
    requires At(prog, pc, x + y)
    ensures At(prog, pc, x) && At(prog, pc + |x|, y)
  {
    var s := prog[pc..pc + |x + y|];
    assert prog[pc..pc + |x|] == s[..|x|] == x;
    assert prog[pc + |x|..pc + |x| + |y|] == s[|x|..] == y;
  }

  lemma AtHead(prog: seq<Instr>, pc: nat, x: Instr, y: seq<Instr>)
    requires At(prog, pc, [x] + y)
    ensures pc < |prog| && prog[pc] == x && At(prog, pc + 1, y)
  {
    AtAppend(prog, pc, [x], y);
    assert prog[pc..pc + 1][0] == x;
  }

  lemma {:induction false} FindAt(prog: seq<Instr>, p: nat)
    requires Unique(prog) && p < |prog| && prog[p].Lab?
    ensures Find(prog, prog[p].lab) == p
  {
    assert prog[p] == Lab(prog[p].lab);
  }

  /** One instruction that falls through. */
  lemma StepsOver(prog: seq<Instr>, o: Oracle, st: State, mid: State, x: Instr)
    requires Reaches(prog, o, st, mid) && mid.pc < |prog| && prog[mid.pc] == x
    ensures Reaches(prog, o, st, Step(prog, o, mid))
  {
    ReachesStep(prog, o, mid);
    ReachesTrans(prog, o, st, mid, Step(prog, o, mid));
  }

  /** The state reached has this place and trace. */
  predicate Stands(st: State, pc: nat, tr: seq<nat>) { st.pc == pc && st.trace == tr }

  /** The code for a condition jumps to lab exactly when the condition is dir
      and otherwise falls through, having evaluated what C evaluates. */
  lemma {:induction false} CondRuns(c: Cond, dir: bool, lab: nat, n: nat, prog: seq<Instr>, o: Oracle, st: State)
      returns (st': State)
    requires Unique(prog) && At(prog, st.pc, CondCode(c, dir, lab, n).code)
    ensures Reaches(prog, o, st, st')
    ensures var x := EvalCond(c, o, st.trace);
      Stands(st', if x.truth == dir then Find(prog, lab) else st.pc + |CondCode(c, dir, lab, n).code|, x.trace)
    decreases c, 1
  {
    match c
    case Const(v) =>
      if (v != 0) == dir {
        AtHead(prog, st.pc, Jmp(lab), []);
        st' := Step(prog, o, st);
      } else {
        st' := st;
      }
      ReachesStep(prog, o, st);
    case Not(c1) =>
      st' := CondRuns(c1, !dir, lab, n, prog, o, st);
    case And(_, _) =>
      if dir {
        st' := GuardedRuns(c, dir, lab, n, prog, o, st);
      } else {
        st' := ChainedRuns(c, dir, lab, n, prog, o, st);
      }
    case Or(_, _) =>
      if dir {
        st' := ChainedRuns(c, dir, lab, n, prog, o, st);
      } else {
        st' := GuardedRuns(c, dir, lab, n, prog, o, st);
      }
    case Seq(_, _) =>
      st' := CommaRuns(c, dir, lab, n, prog, o, st);
    case Rel(op, wide, uns, a, b) =>
      st' := RelRuns(op, wide, uns, a, b, dir, lab, prog, o, st);
    case Test(v) =>
      var x := ValueCode(v, n);
      AtAppend(prog, st.pc, x.code, [Tst, Jcc(if dir then Jne else Jeq, lab)]);
      var mid := ValueRuns(v, n, prog, o, st);
      st' := TestRuns(dir, lab, prog, o, st, mid);
  }

  lemma {:induction false} CommaRuns(c: Cond, dir: bool, lab: nat, n: nat, prog: seq<Instr>, o: Oracle, st: State)
      returns (st': State)
    requires Unique(prog) && c.Seq? && At(prog, st.pc, CondCode(c, dir, lab, n).code)
    ensures Reaches(prog, o, st, st')
    ensures var x := EvalCond(c, o, st.trace);
      Stands(st', if x.truth == dir then Find(prog, lab) else st.pc + |CondCode(c, dir, lab, n).code|, x.trace)
    decreases c, 0
  {
    var x := ValueCode(c.e, n);
    AtAppend(prog, st.pc, x.code, CondCode(c.c, dir, lab, x.next).code);
    var mid := ValueRuns(c.e, n, prog, o, st);
    st' := CondRuns(c.c, dir, lab, x.next, prog, o, mid);
    ReachesTrans(prog, o, st, mid, st');
  }

  lemma RelRuns(op: Relop, wide: bool, uns: bool, a: nat, b: nat, dir: bool, lab: nat,
                prog: seq<Instr>, o: Oracle, st: State) returns (st': State)
    requires At(prog, st.pc, [Cmp(wide, a, b), Jcc(Branch(if dir then op else Inverted(op), uns), lab)])
    ensures Reaches(prog, o, st, st')
    ensures var x := EvalCond(Rel(op, wide, uns, a, b), o, st.trace);
      Stands(st', if x.truth == dir then Find(prog, lab) else st.pc + 2, x.trace)
  {
    var cc := Branch(if dir then op else Inverted(op), uns);
    assert [Cmp(wide, a, b), Jcc(cc, lab)] == [Cmp(wide, a, b)] + [Jcc(cc, lab)] + [];
    AtHead(prog, st.pc, Cmp(wide, a, b), [Jcc(cc, lab)]);
    AtHead(prog, st.pc + 1, Jcc(cc, lab), []);
    var x, y := o(a, st.trace), o(b, st.trace + [a]);
    BranchTaken(op, wide, uns, x, y);
    RelationTables(op, x, y, uns, CompareFlags(wide, x, y));
    ReachesStep(prog, o, st);
    var mid := Step(prog, o, st);
    StepsOver(prog, o, st, mid, Jcc(cc, lab));
    st' := Step(prog, o, mid);
  }

  lemma TestRuns(dir: bool, lab: nat, prog: seq<Instr>, o: Oracle, st: State, mid: State) returns (st': State)
    requires Reaches(prog, o, st, mid) && At(prog, mid.pc, [Tst, Jcc(if dir then Jne else Jeq, lab)])
    ensures Reaches(prog, o, st, st')
    ensures Stands(st', if (mid.acc != 0) == dir then Find(prog, lab) else mid.pc + 2, mid.trace)
  {
    var cc := if dir then Jne else Jeq;
    assert [Tst, Jcc(cc, lab)] == [Tst] + [Jcc(cc, lab)] + [];
    AtHead(prog, mid.pc, Tst, [Jcc(cc, lab)]);
    AtHead(prog, mid.pc + 1, Jcc(cc, lab), []);
    StepsOver(prog, o, st, mid, Tst);
    var m2 := Step(prog, o, mid);
    StepsOver(prog, o, st, m2, Jcc(cc, lab));
    st' := Step(prog, o, m2);
  }

  lemma {:induction false} ChainedRuns(c: Cond, dir: bool, lab: nat, n: nat, prog: seq<Instr>, o: Oracle, st: State)
      returns (st': State)
    requires Unique(prog) && ((c.And? && !dir) || (c.Or? && dir))
    requires At(prog, st.pc, Chained(c, dir, lab, n).code)
    ensures Reaches(prog, o, st, st')
    ensures var x := EvalCond(c, o, st.trace);
      Stands(st', if x.truth == dir then Find(prog, lab) else st.pc + |Chained(c, dir, lab, n).code|, x.trace)
    decreases c, 0
  {
    var x := CondCode(c.l, dir, lab, n);
    AtAppend(prog, st.pc, x.code, CondCode(c.r, dir, lab, x.next).code);
    st' := CondRuns(c.l, dir, lab, n, prog, o, st);
    if EvalCond(c.l, o, st.trace).truth != dir {
      var mid := st';
      st' := CondRuns(c.r, dir, lab, x.next, prog, o, mid);
      ReachesTrans(prog, o, st, mid, st');
    }
  }

  lemma {:induction false} GuardedRuns(c: Cond, dir: bool, lab: nat, n: nat, prog: seq<Instr>, o: Oracle, st: State)
      returns (st': State)
    requires Unique(prog) && ((c.And? && dir) || (c.Or? && !dir))
    requires At(prog, st.pc, Guarded(c, dir, lab, n).code)
    ensures Reaches(prog, o, st, st')
    ensures var x := EvalCond(c, o, st.trace);
      Stands(st', if x.truth == dir then Find(prog, lab) else st.pc + |Guarded(c, dir, lab, n).code|, x.trace)
    decreases c, 0
  {
    var x := CondCode(c.l, !dir, n, n + 1);
    var y := CondCode(c.r, dir, lab, x.next);
    AtAppend(prog, st.pc, x.code + y.code, [Lab(n)]);
    AtAppend(prog, st.pc, x.code, y.code);
    var last := st.pc + |x.code| + |y.code|;
    AtHead(prog, last, Lab(n), []);
    FindAt(prog, last);
    var mid := CondRuns(c.l, !dir, n, n + 1, prog, o, st);
    if EvalCond(c.l, o, st.trace).truth == dir {
      var m2 := CondRuns(c.r, dir, lab, x.next, prog, o, mid);
      ReachesTrans(prog, o, st, mid, m2);
      mid := m2;
      if EvalCond(c, o, st.trace).truth == dir {
        return m2;
      }
    }
    StepsOver(prog, o, st, mid, Lab(n));
    st' := Step(prog, o, mid);
  }

  /** The code for a value leaves it in the register, having evaluated what C
      evaluates: 0 or 1 for a condition, the selected arm for ?:. */
  lemma {:induction false} ValueRuns(v: Value, n: nat, prog: seq<Instr>, o: Oracle, st: State) returns (st': State)
    requires Unique(prog) && At(prog, st.pc, ValueCode(v, n).code)
    ensures Reaches(prog, o, st, st')
    ensures var x := EvalValue(v, o, st.trace);
      Stands(st', st.pc + |ValueCode(v, n).code|, x.trace) && st'.acc == x.val
    decreases v, 1
  {
    match v
    case Leaf(id) =>
      AtHead(prog, st.pc, Get(id), []);
      ReachesStep(prog, o, st);
      st' := Step(prog, o, st);
    case Truth(c) =>
      st' := TruthRuns(c, n, prog, o, st);
    case Select(c, l, r) =>
      st' := SelectRuns(v, n, prog, o, st);
    case Both(v1, v2) =>
      var x := ValueCode(v1, n);
      AtAppend(prog, st.pc, x.code, ValueCode(v2, x.next).code);
      var mid := ValueRuns(v1, n, prog, o, st);
      st' := ValueRuns(v2, x.next, prog, o, mid);
      ReachesTrans(prog, o, st, mid, st');
  }

  lemma {:induction false} TruthRuns(c: Cond, n: nat, prog: seq<Instr>, o: Oracle, st: State) returns (st': State)
    requires Unique(prog) && At(prog, st.pc, ValueCode(Truth(c), n).code)
    ensures Reaches(prog, o, st, st')
    ensures var x := EvalCond(c, o, st.trace);
      Stands(st', st.pc + |ValueCode(Truth(c), n).code|, x.trace) && st'.acc == (if x.truth then 1 else 0)
    decreases c, 2
  {
    var x := CondCode(c, true, n, n + 1);
    var m := x.next;
    var tail := [Load(0), Jmp(m), Lab(n), Load(1), Lab(m)];
    AtAppend(prog, st.pc, x.code, tail);
    var mid := CondRuns(c, true, n, n + 1, prog, o, st);
    st' := TailRuns(prog, st.pc + |x.code|, n, m, EvalCond(c, o, st.trace).truth, o, st, mid);
  }

  /** The instructions behind the condition set the register to its truth. */
  lemma TailRuns(prog: seq<Instr>, p: nat, n: nat, m: nat, truth: bool, o: Oracle, st: State, mid: State)
      returns (st': State)
    requires Unique(prog) && At(prog, p, [Load(0), Jmp(m), Lab(n), Load(1), Lab(m)])
    requires Reaches(prog, o, st, mid) && mid.pc == if truth then Find(prog, n) else p
    ensures Reaches(prog, o, st, st')
    ensures Stands(st', p + 5, mid.trace) && st'.acc == if truth then 1 else 0
  {
    TailAt(prog, p, n, m);
    StepsOver(prog, o, st, mid, prog[mid.pc]);
    var m1 := Step(prog, o, mid);
    StepsOver(prog, o, st, m1, prog[m1.pc]);
    var m2 := Step(prog, o, m1);
    StepsOver(prog, o, st, m2, Lab(m));
    st' := Step(prog, o, m2);
  }

  lemma TailAt(prog: seq<Instr>, p: nat, n: nat, m: nat)
    requires Unique(prog) && At(prog, p, [Load(0), Jmp(m), Lab(n), Load(1), Lab(m)])
    ensures p + 5 <= |prog|
    ensures prog[p] == Load(0) && prog[p + 1] == Jmp(m) && prog[p + 2] == Lab(n) && prog[p + 3] == Load(1) &&
      prog[p + 4] == Lab(m)
    ensures Find(prog, n) == p + 2 && Find(prog, m) == p + 4
  {
    var s := prog[p..p + 5];
    assert prog[p] == s[0] && prog[p + 1] == s[1] && prog[p + 2] == s[2] && prog[p + 3] == s[3] && prog[p + 4] == s[4];
    FindAt(prog, p + 2);
    FindAt(prog, p + 4);
  }

  lemma SelectAt(prog: seq<Instr>, p: nat, x: seq<Instr>, y: seq<Instr>, z: seq<Instr>, n: nat, l: nat)
    requires Unique(prog) && At(prog, p, x + y + [Jmp(l), Lab(n)] + z + [Lab(l)])
    ensures At(prog, p, x) && At(prog, p + |x|, y) && At(prog, p + |x| + |y| + 2, z)
    ensures var q := p + |x| + |y|;
      && prog[q] == Jmp(l) && prog[q + 1] == Lab(n) && Find(prog, n) == q + 1
      && prog[q + 2 + |z|] == Lab(l) && Find(prog, l) == q + 2 + |z|
  {
    var q := p + |x| + |y|;
    AtAppend(prog, p, x + y + [Jmp(l), Lab(n)] + z, [Lab(l)]);
    AtAppend(prog, p, x + y + [Jmp(l), Lab(n)], z);
    AtAppend(prog, p, x + y, [Jmp(l), Lab(n)]);
    AtAppend(prog, p, x, y);
    TwoAt(prog, q, Jmp(l), Lab(n));
    AtHead(prog, q + 2 + |z|, Lab(l), []);
    FindAt(prog, q + 1);
    FindAt(prog, q + 2 + |z|);
  }

  lemma TwoAt(prog: seq<Instr>, q: nat, a: Instr, b: Instr)
    requires At(prog, q, [a, b])
    ensures q + 1 < |prog| && prog[q] == a && prog[q + 1] == b
  {
    assert [a, b] == [a] + [b];
    AtHead(prog, q, a, [b]);
    AtHead(prog, q + 1, b, []);
  }

  lemma {:induction false} SelectRuns(v: Value, n: nat, prog: seq<Instr>, o: Oracle, st: State) returns (st': State)
    requires v.Select? && Unique(prog) && At(prog, st.pc, ValueCode(v, n).code)
    ensures Reaches(prog, o, st, st')
    ensures var x := EvalValue(v, o, st.trace);
      Stands(st', st.pc + |ValueCode(v, n).code|, x.trace) && st'.acc == x.val
    decreases v, 0
  {
    var x := CondCode(v.c, false, n, n + 1);
    var y := ValueCode(v.thn, x.next);
    var z := ValueCode(v.els, y.next + 1);
    SelectAt(prog, st.pc, x.code, y.code, z.code, n, y.next);
    var mid := CondRuns(v.c, false, n, n + 1, prog, o, st);
    st' := ArmRuns(v, EvalCond(v.c, o, st.trace).truth, x.next, y.next, n, prog, o, st, mid);
  }

  /** The selected arm, from where the condition leads. */
  lemma {:induction false} ArmRuns(v: Value, truth: bool, k: nat, l: nat, n: nat, prog: seq<Instr>, o: Oracle,
                                   st: State, mid: State) returns (st': State)
    requires v.Select? && Unique(prog) && Reaches(prog, o, st, mid) && l == ValueCode(v.thn, k).next
    requires truth ==>
      At(prog, mid.pc, ValueCode(v.thn, k).code) && JumpsTo(prog, mid.pc + |ValueCode(v.thn, k).code|, l)
    requires !truth ==>
      && mid.pc < |prog| && prog[mid.pc] == Lab(n) && At(prog, mid.pc + 1, ValueCode(v.els, l + 1).code)
      && Find(prog, l) == mid.pc + 1 + |ValueCode(v.els, l + 1).code| < |prog|
    requires Find(prog, l) < |prog| && prog[Find(prog, l)] == Lab(l)
    ensures Reaches(prog, o, st, st')
    ensures var x := EvalValue(if truth then v.thn else v.els, o, mid.trace);
      Stands(st', Find(prog, l) + 1, x.trace) && st'.acc == x.val
    decreases v, 0, 0
  {
    if truth {
      var m1 := ValueRuns(v.thn, k, prog, o, mid);
      ReachesTrans(prog, o, st, mid, m1);
      st' := LeavesThen(prog, o, st, m1, l);
    } else {
      var m0 := PassesLabel(prog, o, st, mid, n);
      var m1 := ValueRuns(v.els, l + 1, prog, o, m0);
      ReachesTrans(prog, o, st, m0, m1);
      st' := PassesLabel(prog, o, st, m1, l);
    }
  }

  predicate JumpsTo(prog: seq<Instr>, p: nat, l: nat) { p < |prog| && prog[p] == Jmp(l) }

  lemma PassesLabel(prog: seq<Instr>, o: Oracle, st: State, mid: State, l: nat) returns (st': State)
    requires Reaches(prog, o, st, mid) && mid.pc < |prog| && prog[mid.pc] == Lab(l)
    ensures Reaches(prog, o, st, st')
    ensures Stands(st', mid.pc + 1, mid.trace) && st'.acc == mid.acc
  {
    StepsOver(prog, o, st, mid, Lab(l));
    st' := Step(prog, o, mid);
  }

  /** The jump behind the first arm. */
  lemma LeavesThen(prog: seq<Instr>, o: Oracle, st: State, mid: State, l: nat) returns (st': State)
    requires Reaches(prog, o, st, mid) && mid.pc < |prog| && prog[mid.pc] == Jmp(l)
    requires Find(prog, l) < |prog| && prog[Find(prog, l)] == Lab(l)
    ensures Reaches(prog, o, st, st')
    ensures Stands(st', Find(prog, l) + 1, mid.trace) && st'.acc == mid.acc
  {
    StepsOver(prog, o, st, mid, Jmp(l));
    var m1 := Step(prog, o, mid);
    StepsOver(prog, o, st, m1, Lab(l));
    st' := Step(prog, o, m1);
  }

  // ---- the emitter ----

  /** The code generator's output and its label counter. */
  class Emitter {
    var code: seq<Instr>
    var nextlabel: nat

    ghost predicate Valid()
      reads this
    {
      FreshLabels(code, 0, nextlabel)
    }

    constructor ()
      ensures Valid() && code == [] && nextlabel == 10000
    {
      code, nextlabel := [], 10000;
    }

    method Out(i: Instr)
      modifies this
      ensures code == old(code) + [i] && nextlabel == old(nextlabel)
    {
      code := code + [i];
    }

    method NewLabel() returns (lab: nat)
      modifies this
      ensures lab == old(nextlabel) && nextlabel == lab + 1 && code == old(code)
    {
      lab := nextlabel;
      nextlabel := nextlabel + 1;
    }

    method Condbr(c: Cond, dir: bool, lab: nat)
      modifies this
      ensures var g := CondCode(c, dir, lab, old(nextlabel));
        code == old(code) + g.code && nextlabel == g.next
      ensures old(Valid()) ==> Valid()
      decreases c, 1
    {
      CondLabels(c, dir, lab, nextlabel);
      ghost var g := CondCode(c, dir, lab, nextlabel);
      if Valid() {
        FreshAppend(code, g.code, 0, nextlabel, g.next);
      }
      match c
      case Const(v) =>
        if v == 0 {
          if !dir {
            Out(Jmp(lab));
          }
        } else if dir {
          Out(Jmp(lab));
        }
      case Not(c1) =>
        Condbr(c1, !dir, lab);
      case And(l, r) =>
        Junction(c, l, r, !dir, dir, lab);
      case Or(l, r) =>
        Junction(c, l, r, dir, dir, lab);
      case Seq(e, c1) =>
        Scodegen(e);
        Condbr(c1, dir, lab);
      case Rel(op, wide, uns, a, b) =>
        Out(Cmp(wide, a, b));
        var op' := if dir then op else Inverted(op);
        Out(Jcc(Branch(op', uns), lab));
      case Test(v) =>
        Scodegen(v);
        Out(Tst);
        var op' := if dir then NE else Inverted(NE);
        Out(Jcc(Branch(op', false), lab));
    }

    /** && with its direction turned round is treated like ||. */
    method Junction(ghost c: Cond, l: Cond, r: Cond, dir: bool, subdir: bool, lab: nat)
      requires (c == And(l, r) && dir == !subdir) || (c == Or(l, r) && dir == subdir)
      modifies this
      ensures var g := CondCode(c, subdir, lab, old(nextlabel));
        code == old(code) + g.code && nextlabel == g.next
      decreases c, 0
    {
      if !dir {
        var lab1 := NewLabel();
        Condbr(l, !subdir, lab1);
        Condbr(r, subdir, lab);
        Out(Lab(lab1));
      } else {
        Condbr(l, subdir, lab);
        Condbr(r, subdir, lab);
      }
    }

    /** A condition wanted as a value. */
    method Hardrel(c: Cond)
      modifies this
      ensures var g := ValueCode(Truth(c), old(nextlabel));
        code == old(code) + g.code && nextlabel == g.next
      decreases c, 2
    {
      var lab1 := NewLabel();
      Condbr(c, true, lab1);
      Out(Load(0));
      var lab2 := NewLabel();
      Out(Jmp(lab2));
      Out(Lab(lab1));
      Out(Load(1));
      Out(Lab(lab2));
    }

    /** A conditional expression. */
    method Cqmark(v: Value)
      requires v.Select?
      modifies this
      ensures var g := ValueCode(v, old(nextlabel));
        code == old(code) + g.code && nextlabel == g.next
      decreases v, 0
    {
      ghost var c0 := code;
      var lab1 := NewLabel();
      ghost var x := CondCode(v.c, false, lab1, lab1 + 1);
      Condbr(v.c, false, lab1);
      ghost var y := ValueCode(v.thn, nextlabel);
      Scodegen(v.thn);
      var lab2 := NewLabel();
      Out(Jmp(lab2));
      Out(Lab(lab1));
      ghost var z := ValueCode(v.els, nextlabel);
      Scodegen(v.els);
      Out(Lab(lab2));
      SelectJoined(c0, x.code, y.code, z.code, lab1, lab2);
    }

    method Scodegen(v: Value)
      modifies this
      ensures var g := ValueCode(v, old(nextlabel));
        code == old(code) + g.code && nextlabel == g.next
      ensures old(Valid()) ==> Valid()
      decreases v, 1
    {
      ValueLabels(v, nextlabel);
      ghost var g := ValueCode(v, nextlabel);
      if Valid() {
        FreshAppend(code, g.code, 0, nextlabel, g.next);
      }
      match v
      case Leaf(id) =>
        Out(Get(id));
      case Truth(c) =>
        Hardrel(c);
      case Select(_, _, _) =>
        Cqmark(v);
      case Both(v1, v2) =>
        Scodegen(v1);
        Scodegen(v2);
    }
  }

  lemma SelectJoined(c0: seq<Instr>, x: seq<Instr>, y: seq<Instr>, z: seq<Instr>, n: nat, l: nat)
    ensures c0 + x + y + [Jmp(l)] + [Lab(n)] + z + [Lab(l)] == c0 + (x + y + [Jmp(l), Lab(n)] + z + [Lab(l)])
  {
  }

  /** A compiled expression, followed by any code with labels of its own, runs to
      its end with the expression's value. */
  lemma Compiled(v: Value, n: nat, rest: seq<Instr>, m: nat, o: Oracle, st: State) returns (st': State)
    requires ValueCode(v, n).next <= m && FreshLabels(rest, ValueCode(v, n).next, m) && st.pc == 0
    ensures Reaches(ValueCode(v, n).code + rest, o, st, st')
    ensures Stands(st', |ValueCode(v, n).code|, EvalValue(v, o, st.trace).trace)
    ensures st'.acc == EvalValue(v, o, st.trace).val
  {
    var g := ValueCode(v, n);
    ValueLabels(v, n);
    FreshAppend(g.code, rest, n, g.next, m);
    assert (g.code + rest)[0..|g.code|] == g.code;
    st' := ValueRuns(v, n, g.code + rest, o, st);
  }
}
