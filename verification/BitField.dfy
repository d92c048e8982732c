/** Lowering of bit-field reads and assignments to masks and shifts on the
    16-bit word that holds the field. */
module BitField {
  import opened Word
  import opened Icode

  datatype Asgop = ASSIGN | Compound(op: Bop)

  /** Expressions that may read fields, and assignments to a field or a word. */
  datatype Expr =
    | Plain(tree: Tree)
    | Field(word: nat, off: nat, len: nat)
    | Unary(uop: Uop, ty: Ty, arg: Expr)
    | Binary(op: Bop, ty: Ty, left: Expr, right: Expr)

  datatype Store = Store(aop: Asgop, word: nat, off: nat, len: nat, rhs: Expr)

  datatype WordStore = WordStore(aop: Asgop, word: nat, rhs: Tree)

  predicate Inside(off: nat, len: nat) { 1 <= len && off + len <= 16 }

  function WordSym(word: nat): Tree { Sym(word, INT, false, 0) }

  /** (1 << len) - 1 as a 16-bit word: -1 when the field is the whole word. */
  function Fmask(len: nat): int { Wrap16(Pow2(len) - 1) }

  /** ~(fmask << off) as a 16-bit word. */
  function Hole(off: nat, len: nat): int { Wrap16(-(Fmask(len) * Pow2(off)) - 1) }

  function FixRead(word: nat, off: nat, len: nat): Tree {
    Bin(AND, INT, Bin(RSH, INT, WordSym(word), Cint(off, 0), 0), Cint(Fmask(len), 0), 0)
  }

  function FixExpr(e: Expr): Tree {
    match e
    case Plain(t) => t
    case Field(w, off, len) => FixRead(w, off, len)
    case Unary(op, ty, a) => Un(op, ty, FixExpr(a), 0)
    case Binary(op, ty, l, r) => Bin(op, ty, FixExpr(l), FixExpr(r), 0)
  }

  /** (w & ~(fmask << off)) | ((x & fmask) << off) */
  function Merge(word: nat, off: nat, len: nat, x: Tree): Tree {
    Bin(OR, INT,
        Bin(AND, INT, WordSym(word), Cint(Hole(off, len), 0), 0),
        Bin(LSH, INT, Bin(AND, INT, x, Cint(Fmask(len), 0), 0), Cint(off, 0), 0), 0)
  }

  /** The rewriting of a field assignment, shortcuts first. */
  function FixStore(s: Store): WordStore {
    var r, fmask := FixExpr(s.rhs), Fmask(s.len);
    if r.Cint? && s.aop == Compound(XOR) then
      WordStore(s.aop, s.word, Cint(Wrap16(r.val * Pow2(s.off)), r.su))
    else if r.Cint? && s.aop == ASSIGN && r.val == 0 then
      WordStore(Compound(AND), s.word, Cint(Hole(s.off, s.len), r.su))
    else if r.Cint? && s.aop == ASSIGN && BitOp(BAnd, 15, r.val, fmask) == fmask then
      WordStore(Compound(OR), s.word, Cint(Wrap16(fmask * Pow2(s.off)), r.su))
    else if fmask == -1 then
      WordStore(s.aop, s.word, r)
    else
      var x := if s.aop == ASSIGN then r else Bin(s.aop.op, INT, FixRead(s.word, s.off, s.len), r, 0);
      WordStore(ASSIGN, s.word, Merge(s.word, s.off, s.len, x))
  }

  /** The word after the lowered assignment. */
  function Stored(s: WordStore, env: Env): int {
    if s.aop == ASSIGN then Eval(s.rhs, env)
    else Meaning2(s.aop.op, INT, Eval(WordSym(s.word), env), Eval(s.rhs, env))
  }

  // ---- fields ----

  /** The value of len bits from off on. */
  function FieldOf(w: int, off: nat, len: nat): int { (w / Pow2(off)) % Pow2(len) }

  /** w' is w with v in the field, and nothing else changed. */
  predicate FieldSet(w: int, w': int, off: nat, len: nat, v: int) {
    forall i :: 0 <= i < 16 ==>
      BitAt(w', i) == (if off <= i < off + len then BitAt(v, i - off) else BitAt(w, i))
  }

  function WordOf(env: Env, word: nat): (w: int)
    ensures In16(w)
  {
    Eval(WordSym(word), env)
  }

  lemma In16Fits(n: nat, x: int)
    requires n == 15
    ensures In16(x) <==> Fits(n, x)
  {
    Pow2Values();
  }

  lemma AndAt(ty: Ty, a: int, b: int, i: nat)
    requires ty == INT && In16(a) && In16(b)
    ensures BitAt(Meaning2(AND, ty, a, b), i) == (BitAt(a, i) && BitAt(b, i))
    ensures In16(Meaning2(AND, ty, a, b))
  {
    var n := Msb(ty);
    In16Fits(n, a);
    In16Fits(n, b);
    BitOpAt(BAnd, n, a, b, i);
    BitOpFits(BAnd, n, a, b);
    In16Fits(n, BitOp(BAnd, n, a, b));
  }

  lemma OrAt(ty: Ty, a: int, b: int, i: nat)
    requires ty == INT && In16(a) && In16(b)
    ensures BitAt(Meaning2(OR, ty, a, b), i) == (BitAt(a, i) || BitAt(b, i))
  {
    var n := Msb(ty);
    In16Fits(n, a);
    In16Fits(n, b);
    BitOpAt(BOr, n, a, b, i);
  }

  lemma XorAt(ty: Ty, a: int, b: int, i: nat)
    requires ty == INT && In16(a) && In16(b)
    ensures BitAt(Meaning2(XOR, ty, a, b), i) == (BitAt(a, i) != BitAt(b, i))
  {
    var n := Msb(ty);
    In16Fits(n, a);
    In16Fits(n, b);
    BitOpAt(BXor, n, a, b, i);
  }

  lemma FmaskAt(len: nat, i: nat)
    requires i < 16
    ensures BitAt(Fmask(len), i) <==> i < len
  {
    WrapAt(Pow2(len) - 1, i);
    MaskAt(len, i);
  }

  lemma PlacedAt(x: int, off: nat, i: nat)
    requires i < 16
    ensures BitAt(Wrap16(x * Pow2(off)), i) <==> i >= off && BitAt(x, i - off)
  {
    WrapAt(x * Pow2(off), i);
    ShiftAt(x, off, i);
  }

  lemma HoleAt(off: nat, len: nat, i: nat)
    requires i < 16
    ensures BitAt(Hole(off, len), i) <==> !(off <= i < off + len)
  {
    var m := Fmask(len) * Pow2(off);
    WrapAt(-m - 1, i);
    ComplementAt(m, i);
    ShiftAt(Fmask(len), off, i);
    if i >= off {
      FmaskAt(len, i - off);
    }
  }

  // ---- reading ----

  /** What reading a field gives: its bits as a non-negative number, or the
      signed word itself when the field is the whole word. */
  function FieldRead(w: int, off: nat, len: nat): int {
    if len == 16 then w else FieldOf(w, off, len)
  }

  lemma ShiftedIn16(w: int, off: nat)
    requires In16(w)
    ensures In16(w / Pow2(off))
  {
    var p := Pow2(off);
    var q, r := w / p, w % p;
    assert w == p * q + r;
    if q >= 0 {
      MulAtLeast(p, q);
    } else {
      MulAtLeast(p, -q - 1);
      assert p * (-q - 1) == -(p * q) - p;
    }
  }

  lemma WholeMask()
    ensures Fmask(16) == -1 && forall len :: 1 <= len < 16 ==> Fmask(len) == Pow2(len) - 1 && Fmask(len) >= 1
  {
    Pow2Values();
    forall len | 1 <= len < 16 ensures Fmask(len) == Pow2(len) - 1 && Fmask(len) >= 1 {
      PowBelow(len, 15);
      Wrap16Id(Pow2(len) - 1);
    }
  }

  lemma {:induction false} PowBelow(m: nat, n: nat)
    requires m <= n
    ensures Pow2(m) <= Pow2(n)
    decreases n
  {
    if m < n {
      PowBelow(m, n - 1);
    }
  }

  lemma MaskMeans(ty: Ty, x: int, len: nat)
    requires ty == INT && In16(x) && 1 <= len <= 16
    ensures Meaning2(AND, ty, x, Fmask(len)) == (if len == 16 then x else x % Pow2(len))
  {
    In16Fits(Msb(ty), x);
    WholeMask();
    if len == 16 {
      BitOpUnits(Msb(ty), x);
    } else {
      MaskIsRemainder(Msb(ty), x, len);
    }
  }

  lemma BinEval(op: Bop, ty: Ty, l: Tree, r: Tree, env: Env)
    ensures Eval(Bin(op, ty, l, r, 0), env) == Meaning2(op, ty, Eval(l, env), Eval(r, env))
  {
  }

  lemma RshMeans(w: int, off: nat)
    requires In16(w)
    ensures Meaning2(RSH, INT, w, off) == w / Pow2(off) && In16(w / Pow2(off))
  {
    ShiftedIn16(w, off);
    Wrap16Id(w / Pow2(off));
  }

  lemma ReadMeans(word: nat, off: nat, len: nat, env: Env)
    requires Inside(off, len)
    ensures Eval(FixRead(word, off, len), env) == FieldRead(WordOf(env, word), off, len)
  {
    var w := WordOf(env, word);
    var shifted := Bin(RSH, INT, WordSym(word), Cint(off, 0), 0);
    BinEval(RSH, INT, WordSym(word), Cint(off, 0), env);
    BinEval(AND, INT, shifted, Cint(Fmask(len), 0), env);
    RshMeans(w, off);
    MaskMeans(INT, w / Pow2(off), len);
  }

  predicate ExprInside(e: Expr) {
    match e
    case Plain(_) => true
    case Field(_, off, len) => Inside(off, len)
    case Unary(_, _, a) => ExprInside(a)
    case Binary(_, _, l, r) => ExprInside(l) && ExprInside(r)
  }

  /** The meaning of an expression with fields. */
  function EvalExpr(e: Expr, env: Env): int {
    match e
    case Plain(t) => Eval(t, env)
    case Field(w, off, len) => FieldRead(WordOf(env, w), off, len)
    case Unary(op, ty, a) => Meaning1(op, ty, EvalExpr(a, env))
    case Binary(op, ty, l, r) => Meaning2(op, ty, EvalExpr(l, env), EvalExpr(r, env))
  }

  /** Lowering keeps the value of every expression. */
  lemma {:induction false} FixExprMeans(e: Expr, env: Env)
    requires ExprInside(e)
    ensures Eval(FixExpr(e), env) == EvalExpr(e, env)
  {
    match e
    case Plain(_) =>
    case Field(w, off, len) =>
      ReadMeans(w, off, len, env);
    case Unary(_, _, a) =>
      FixExprMeans(a, env);
    case Binary(_, _, l, r) =>
      FixExprMeans(l, env);
      FixExprMeans(r, env);
  }

  // ---- writing ----

  lemma LshMeans(x: int, off: nat)
    ensures Meaning2(LSH, INT, x, off) == Wrap16(x * Pow2(off))
  {
  }

  lemma MergeAt(w: int, v: int, off: nat, len: nat, i: nat)
    requires In16(w) && In16(v) && i < 16
    ensures BitAt(Meaning2(OR, INT, Meaning2(AND, INT, w, Hole(off, len)),
                           Meaning2(LSH, INT, Meaning2(AND, INT, v, Fmask(len)), off)), i)
      == (if off <= i < off + len then BitAt(v, i - off) else BitAt(w, i))
  {
    var kept := Meaning2(AND, INT, w, Hole(off, len));
    var part := Meaning2(AND, INT, v, Fmask(len));
    LshMeans(part, off);
    AndAt(INT, w, Hole(off, len), i);
    OrAt(INT, kept, Wrap16(part * Pow2(off)), i);
    HoleAt(off, len, i);
    PlacedAt(part, off, i);
    if i >= off {
      AndAt(INT, v, Fmask(len), i - off);
      FmaskAt(len, i - off);
    }
  }

  lemma MergeEval(word: nat, off: nat, len: nat, x: Tree, env: Env)
    ensures Eval(Merge(word, off, len, x), env) ==
      Meaning2(OR, INT, Meaning2(AND, INT, WordOf(env, word), Hole(off, len)),
               Meaning2(LSH, INT, Meaning2(AND, INT, Eval(x, env), Fmask(len)), off))
  {
    var l := Bin(AND, INT, WordSym(word), Cint(Hole(off, len), 0), 0);
    var m := Bin(AND, INT, x, Cint(Fmask(len), 0), 0);
    var r := Bin(LSH, INT, m, Cint(off, 0), 0);
    BinEval(OR, INT, l, r, env);
    BinEval(AND, INT, WordSym(word), Cint(Hole(off, len), 0), env);
    BinEval(LSH, INT, m, Cint(off, 0), env);
    BinEval(AND, INT, x, Cint(Fmask(len), 0), env);
  }

  lemma MergeSets(word: nat, off: nat, len: nat, x: Tree, env: Env)
    requires Inside(off, len) && In16(Eval(x, env))
    ensures FieldSet(WordOf(env, word), Eval(Merge(word, off, len, x), env), off, len, Eval(x, env))
  {
    MergeEval(word, off, len, x, env);
    forall i | 0 <= i < 16
      ensures BitAt(Eval(Merge(word, off, len, x), env), i)
        == (if off <= i < off + len then BitAt(Eval(x, env), i - off) else BitAt(WordOf(env, word), i))
    {
      MergeAt(WordOf(env, word), Eval(x, env), off, len, i);
    }
  }

  predicate AsgBop(op: Bop) { op in {ADD, SUB, MULT, DIV, MOD, RSH, LSH, AND, OR, XOR} }

  predicate StoreOk(s: Store, env: Env) {
    && Inside(s.off, s.len) && ExprInside(s.rhs) && In16(EvalExpr(s.rhs, env))
    && (s.aop.Compound? ==> AsgBop(s.aop.op))
  }

  /** The value the source program assigns to the field. */
  function Assigned(s: Store, env: Env): int {
    if s.aop == ASSIGN then EvalExpr(s.rhs, env)
    else Meaning2(s.aop.op, INT, FieldRead(WordOf(env, s.word), s.off, s.len), EvalExpr(s.rhs, env))
  }

  lemma FieldReadIn16(w: int, off: nat, len: nat)
    requires In16(w) && Inside(off, len)
    ensures In16(FieldRead(w, off, len))
  {
    Pow2Values();
    if len < 16 {
      PowBelow(len, 15);
    }
  }

  lemma WordOpIn16(op: Bop, x: int, y: int)
    requires AsgBop(op) && In16(x) && In16(y)
    ensures In16(Meaning2(op, INT, x, y))
  {
    if op in {AND, OR, XOR} {
      BitwiseInKind(if op == AND then BAnd else if op == OR then BOr else BXor, INT, x, y);
    }
  }

  lemma AssignedIn16(s: Store, env: Env)
    requires StoreOk(s, env)
    ensures In16(Assigned(s, env))
  {
    FieldReadIn16(WordOf(env, s.word), s.off, s.len);
    if s.aop.Compound? {
      WordOpIn16(s.aop.op, FieldRead(WordOf(env, s.word), s.off, s.len), EvalExpr(s.rhs, env));
    }
  }

  /** The shortcut for f ^= c does not mask the constant. */
  predicate XorShortcut(s: Store) { s.aop == Compound(XOR) && FixExpr(s.rhs).Cint? }

  /** No bit of the constant lies in the word above the field. */
  predicate XorFits(c: int, off: nat, len: nat) {
    forall i :: len <= i < 16 - off ==> !BitAt(c, i)
  }

  lemma ZeroSets(s: Store, env: Env)
    requires StoreOk(s, env) && s.aop == ASSIGN && FixExpr(s.rhs).Cint? && FixExpr(s.rhs).val == 0
    ensures FieldSet(WordOf(env, s.word), Stored(FixStore(s), env), s.off, s.len, 0)
  {
    var w, w' := WordOf(env, s.word), Stored(FixStore(s), env);
    forall i | 0 <= i < 16
      ensures BitAt(w', i) == (if s.off <= i < s.off + s.len then BitAt(0, i - s.off) else BitAt(w, i))
    {
      AndAt(INT, w, Hole(s.off, s.len), i);
      HoleAt(s.off, s.len, i);
      if i >= s.off {
        SignBits(0, i - s.off);
      }
    }
  }

  /** Bits shared with the mask are set in a constant that covers it. */
  lemma CoversMask(c: int, len: nat, i: nat)
    requires In16(c) && Meaning2(AND, INT, c, Fmask(len)) == Fmask(len) && i < len && i < 16
    ensures BitAt(c, i)
  {
    AndAt(INT, c, Fmask(len), i);
    FmaskAt(len, i);
  }

  lemma OnesSets(w: int, c: int, off: nat, len: nat)
    requires Inside(off, len) && In16(w) && In16(c) && Meaning2(AND, INT, c, Fmask(len)) == Fmask(len)
    ensures FieldSet(w, Meaning2(OR, INT, w, Wrap16(Fmask(len) * Pow2(off))), off, len, c)
  {
    var ones := Wrap16(Fmask(len) * Pow2(off));
    forall i | 0 <= i < 16
      ensures BitAt(Meaning2(OR, INT, w, ones), i)
        == (if off <= i < off + len then BitAt(c, i - off) else BitAt(w, i))
    {
      OrAt(INT, w, ones, i);
      PlacedAt(Fmask(len), off, i);
      if i >= off {
        FmaskAt(len, i - off);
        if i - off < len {
          CoversMask(c, len, i - off);
        }
      }
    }
  }

  lemma ReadAt(w: int, off: nat, len: nat, i: nat)
    requires In16(w) && Inside(off, len) && i < 16
    ensures BitAt(FieldRead(w, off, len), i) == (i < len && BitAt(w, off + i))
  {
    RshMeans(w, off);
    MaskMeans(INT, w / Pow2(off), len);
    AndAt(INT, w / Pow2(off), Fmask(len), i);
    FmaskAt(len, i);
    DropAt(w, off, i);
  }

  lemma XorSets(w: int, c: int, off: nat, len: nat, i: nat)
    requires Inside(off, len) && In16(w) && In16(c) && i < 16
    ensures BitAt(Meaning2(XOR, INT, w, Wrap16(c * Pow2(off))), i)
      == (if off <= i < off + len then BitAt(Meaning2(XOR, INT, FieldRead(w, off, len), c), i - off)
          else if i < off then BitAt(w, i)
          else BitAt(w, i) != BitAt(c, i - off))
  {
    XorAt(INT, w, Wrap16(c * Pow2(off)), i);
    PlacedAt(c, off, i);
    if off <= i {
      FieldReadIn16(w, off, len);
      XorAt(INT, FieldRead(w, off, len), c, i - off);
      ReadAt(w, off, len, i - off);
    }
  }

  /** f ^= c leaves the rest of the word alone exactly when c has no bits there. */
  lemma XorSetsIff(w: int, c: int, off: nat, len: nat)
    requires Inside(off, len) && In16(w) && In16(c)
    ensures var w', v := Meaning2(XOR, INT, w, Wrap16(c * Pow2(off))), Meaning2(XOR, INT, FieldRead(w, off, len), c);
      FieldSet(w, w', off, len, v) <==> XorFits(c, off, len)
  {
    var w', v := Meaning2(XOR, INT, w, Wrap16(c * Pow2(off))), Meaning2(XOR, INT, FieldRead(w, off, len), c);
    forall i | 0 <= i < 16
      ensures (BitAt(w', i) == if off <= i < off + len then BitAt(v, i - off) else BitAt(w, i))
        <==> !(i >= off + len && BitAt(c, i - off))
    {
      XorSets(w, c, off, len, i);
    }
    if FieldSet(w, w', off, len, v) {
      forall i | len <= i < 16 - off ensures !BitAt(c, i) {
        assert BitAt(w', i + off) == BitAt(w, i + off);
      }
    }
  }

  lemma WholeWord(len: nat, off: nat)
    requires Inside(off, len)
    ensures Fmask(len) == -1 <==> len == 16
  {
    WholeMask();
  }

  /** A whole-word field is the word. */
  lemma WholeSets(s: Store, env: Env)
    requires StoreOk(s, env) && s.len == 16
    ensures s.off == 0 && FieldSet(WordOf(env, s.word), Assigned(s, env), s.off, s.len, Assigned(s, env))
  {
  }

  lemma GeneralSets(s: Store, env: Env)
    requires StoreOk(s, env)
    ensures var r := FixExpr(s.rhs);
      var x := if s.aop == ASSIGN then r else Bin(s.aop.op, INT, FixRead(s.word, s.off, s.len), r, 0);
      FieldSet(WordOf(env, s.word), Eval(Merge(s.word, s.off, s.len, x), env), s.off, s.len, Assigned(s, env))
  {
    var r := FixExpr(s.rhs);
    FixExprMeans(s.rhs, env);
    AssignedIn16(s, env);
    if s.aop == ASSIGN {
      MergeSets(s.word, s.off, s.len, r, env);
    } else {
      ReadMeans(s.word, s.off, s.len, env);
      BinEval(s.aop.op, INT, FixRead(s.word, s.off, s.len), r, env);
      MergeSets(s.word, s.off, s.len, Bin(s.aop.op, INT, FixRead(s.word, s.off, s.len), r, 0), env);
    }
  }

  /** Every lowered assignment stores the assigned value modulo the field and
      leaves the other bits alone, except that f ^= c does so exactly when the
      constant has no bit in the word above the field. */
  lemma StoreSets(s: Store, env: Env)
    requires StoreOk(s, env)
    ensures FieldSet(WordOf(env, s.word), Stored(FixStore(s), env), s.off, s.len, Assigned(s, env))
      <==> (XorShortcut(s) ==> XorFits(FixExpr(s.rhs).val, s.off, s.len))
  {
    var r := FixExpr(s.rhs);
    FixExprMeans(s.rhs, env);
    WholeWord(s.len, s.off);
    if XorShortcut(s) {
      XorSetsIff(WordOf(env, s.word), r.val, s.off, s.len);
    } else if r.Cint? && s.aop == ASSIGN && r.val == 0 {
      ZeroSets(s, env);
    } else if r.Cint? && s.aop == ASSIGN && BitOp(BAnd, 15, r.val, Fmask(s.len)) == Fmask(s.len) {
      OnesSets(WordOf(env, s.word), r.val, s.off, s.len);
    } else if s.len == 16 {
      WholeSets(s, env);
      WholeStored(s, env);
    } else {
      GeneralSets(s, env);
    }
  }

  lemma WholeStored(s: Store, env: Env)
    requires StoreOk(s, env) && s.len == 16 && !XorShortcut(s)
    requires FixStore(s) == WordStore(s.aop, s.word, FixExpr(s.rhs))
    ensures Stored(FixStore(s), env) == Assigned(s, env)
  {
    FixExprMeans(s.rhs, env);
  }

  /** What reading any field gives after a store: the stored value modulo its
      length, or, for a field beside it, what was there before. */
  lemma {:induction false} ReadBack(w: int, w': int, off: nat, len: nat, v: int, off': nat, len': nat)
    requires FieldSet(w, w', off, len, v) && Inside(off, len) && Inside(off', len')
    ensures off' == off && len' == len ==> FieldOf(w', off', len') == v % Pow2(len)
    ensures off' >= off + len || off >= off' + len' ==> FieldOf(w', off', len') == FieldOf(w, off', len')
  {
    forall i | 0 <= i < len'
      ensures BitAt(w' / Pow2(off'), i) == BitAt(w', i + off')
      ensures BitAt(w / Pow2(off'), i) == BitAt(w, i + off')
    {
      DropAt(w', off', i);
      DropAt(w, off', i);
    }
    if off' == off && len' == len {
      SameLowBits(w' / Pow2(off), v, len);
    }
    if off' >= off + len || off >= off' + len' {
      SameLowBits(w' / Pow2(off'), w / Pow2(off'), len');
    }
  }

  lemma SetsWrapped(w: int, w': int, off: nat, len: nat, v: int)
    requires FieldSet(w, w', off, len, v)
    ensures FieldSet(w, Wrap16(w'), off, len, v)
  {
    forall i | 0 <= i < 16 ensures BitAt(Wrap16(w'), i) == BitAt(w', i) {
      WrapAt(w', i);
    }
  }

  /** Store, then read: the field gives the assigned value modulo 2^len, and any
      field beside it reads as before. */
  lemma StoreThenRead(s: Store, env: Env, off: nat, len: nat)
    requires StoreOk(s, env) && s.word < |env| && Inside(off, len)
    requires XorShortcut(s) ==> XorFits(FixExpr(s.rhs).val, s.off, s.len)
    ensures var env' := env[s.word := Stored(FixStore(s), env)];
      && (off == s.off && len == s.len ==>
            Eval(FixRead(s.word, off, len), env') % Pow2(len) == Assigned(s, env) % Pow2(len))
      && (off >= s.off + s.len || s.off >= off + len ==>
            Eval(FixRead(s.word, off, len), env') == Eval(FixRead(s.word, off, len), env))
  {
    var w := WordOf(env, s.word);
    var env' := env[s.word := Stored(FixStore(s), env)];
    var w' := WordOf(env', s.word);
    StoreSets(s, env);
    SetsWrapped(w, Stored(FixStore(s), env), s.off, s.len, Assigned(s, env));
    ReadMeans(s.word, off, len, env);
    ReadMeans(s.word, off, len, env');
    ReadBack(w, w', s.off, s.len, Assigned(s, env), off, len);
    ReadModulo(w', off, len);
  }

  lemma ReadModulo(w: int, off: nat, len: nat)
    requires Inside(off, len)
    ensures FieldRead(w, off, len) % Pow2(len) == FieldOf(w, off, len)
  {
    if len < 16 {
      var q := w / Pow2(off);
      RemainderTwice(q, Pow2(len));
    }
  }

  lemma RemainderTwice(q: int, p: nat)
    requires p >= 1
    ensures (q % p) % p == q % p
  {
    DivModUnique(q % p, p, 0, q % p);
  }

  // ---- the value of an assignment ----

  lemma MergeIn16(word: nat, off: nat, len: nat, x: Tree, env: Env)
    requires Inside(off, len) && In16(Eval(x, env))
    ensures In16(Eval(Merge(word, off, len, x), env))
  {
    var w, v := WordOf(env, word), Eval(x, env);
    MergeEval(word, off, len, x, env);
    WordOpIn16(AND, w, Hole(off, len));
    WordOpIn16(AND, v, Fmask(len));
    var part := Meaning2(AND, INT, v, Fmask(len));
    LshMeans(part, off);
    WordOpIn16(OR, Meaning2(AND, INT, w, Hole(off, len)), Wrap16(part * Pow2(off)));
  }

  lemma GeneralIn16(s: Store, env: Env)
    requires StoreOk(s, env)
    ensures var r := FixExpr(s.rhs);
      var x := if s.aop == ASSIGN then r else Bin(s.aop.op, INT, FixRead(s.word, s.off, s.len), r, 0);
      In16(Eval(Merge(s.word, s.off, s.len, x), env))
  {
    var r, read := FixExpr(s.rhs), FixRead(s.word, s.off, s.len);
    FixExprMeans(s.rhs, env);
    AssignedIn16(s, env);
    if s.aop == ASSIGN {
      MergeIn16(s.word, s.off, s.len, r, env);
    } else {
      ReadMeans(s.word, s.off, s.len, env);
      BinEval(s.aop.op, INT, read, r, env);
      MergeIn16(s.word, s.off, s.len, Bin(s.aop.op, INT, read, r, 0), env);
    }
  }

  lemma StoredIn16(s: Store, env: Env)
    requires StoreOk(s, env)
    ensures In16(Stored(FixStore(s), env))
  {
    var r, w := FixExpr(s.rhs), WordOf(env, s.word);
    FixExprMeans(s.rhs, env);
    WholeWord(s.len, s.off);
    if XorShortcut(s) {
      WordOpIn16(XOR, w, Wrap16(r.val * Pow2(s.off)));
    } else if r.Cint? && s.aop == ASSIGN && r.val == 0 {
      WordOpIn16(AND, w, Hole(s.off, s.len));
    } else if r.Cint? && s.aop == ASSIGN && BitOp(BAnd, 15, r.val, Fmask(s.len)) == Fmask(s.len) {
      WordOpIn16(OR, w, Wrap16(Fmask(s.len) * Pow2(s.off)));
    } else if s.len == 16 {
      if s.aop.Compound? {
        WordOpIn16(s.aop.op, w, Eval(r, env));
      }
    } else {
      GeneralIn16(s, env);
    }
  }

  /** The lowered assignment flips this bit of the word, which is not in the field. */
  predicate Flips(s: Store, i: nat) {
    XorShortcut(s) && i >= s.off + s.len && BitAt(FixExpr(s.rhs).val, i - s.off)
  }

  lemma StoredAt(s: Store, env: Env, i: nat)
    requires StoreOk(s, env) && i < 16
    ensures BitAt(Stored(FixStore(s), env), i) ==
      if s.off <= i < s.off + s.len then BitAt(Assigned(s, env), i - s.off)
      else BitAt(WordOf(env, s.word), i) != Flips(s, i)
  {
    FixExprMeans(s.rhs, env);
    if XorShortcut(s) {
      XorSets(WordOf(env, s.word), FixExpr(s.rhs).val, s.off, s.len, i);
    } else {
      StoreSets(s, env);
    }
  }

  lemma SameWord(x: int, y: int)
    requires In16(x) && In16(y) && forall i :: 0 <= i < 16 ==> BitAt(x, i) == BitAt(y, i)
    ensures x == y
  {
    Pow2Values();
    SameLowBits(x, y, 16);
  }

  /** No bit beside the field is set. */
  predicate FieldOnly(w: int, off: nat, len: nat) {
    forall i :: 0 <= i < 16 && !(off <= i < off + len) ==> !BitAt(w, i)
  }

  lemma FieldIsWord(w: int, off: nat, len: nat)
    requires In16(w) && Inside(off, len) && FieldOnly(w, off, len) && (off == 0 || FieldRead(w, off, len) == 0)
    ensures w == FieldRead(w, off, len)
  {
    var f := FieldRead(w, off, len);
    FieldReadIn16(w, off, len);
    forall i | 0 <= i < 16 ensures BitAt(w, i) == BitAt(f, i) {
      ReadAt(w, off, len, i);
      SignBits(0, i);
      if off <= i < off + len {
        ReadAt(w, off, len, i - off);
        SignBits(0, i - off);
      }
    }
    SameWord(w, f);
  }

  lemma WordIsField(w: int, off: nat, len: nat)
    requires In16(w) && Inside(off, len) && w == FieldRead(w, off, len) && len < 16
    ensures FieldOnly(w, off, len) && (off == 0 || w == 0)
  {
    if off > 0 {
      PowBelow(1, off);
      HighField(w, Pow2(off), Pow2(len));
    }
    forall i | 0 <= i < 16 && !(off <= i < off + len) ensures !BitAt(w, i) {
      if off == 0 {
        ReadAt(w, 0, len, i);
      } else {
        SignBits(0, i);
      }
    }
  }

  lemma StoredRead(s: Store, env: Env)
    requires StoreOk(s, env)
    ensures FieldRead(Stored(FixStore(s), env), s.off, s.len)
      == (if s.len == 16 then Assigned(s, env) else Assigned(s, env) % Pow2(s.len))
  {
    var w, v := Stored(FixStore(s), env), Assigned(s, env);
    StoredIn16(s, env);
    AssignedIn16(s, env);
    forall i | 0 <= i < s.len
      ensures BitAt(w / Pow2(s.off), i) == BitAt(v, i) && (s.len == 16 ==> BitAt(w, i) == BitAt(v, i))
    {
      StoredAt(s, env, i + s.off);
      DropAt(w, s.off, i);
    }
    if s.len == 16 {
      SameWord(w, v);
    } else {
      SameLowBits(w / Pow2(s.off), v, s.len);
    }
  }

  /** The bits beside the field are those that the lowered assignment flips, so that
      none is left: they are clear, but for f ^= c, whose constant changes the ones
      above the field. */
  predicate BesideFlipped(s: Store, w: int) {
    forall i :: 0 <= i < 16 && !(s.off <= i < s.off + s.len) ==> BitAt(w, i) == Flips(s, i)
  }

  /** The value of a field assignment is what the field then holds; a lowered one
      has the whole word as its value.  They agree exactly when the field is the
      word, or when no bit beside the field is left set and the field starts at bit
      0 or is assigned 0 modulo its length. */
  lemma AssignmentValue(s: Store, env: Env)
    requires StoreOk(s, env)
    ensures var field := if s.len == 16 then Assigned(s, env) else Assigned(s, env) % Pow2(s.len);
      Stored(FixStore(s), env) == field <==>
        s.len == 16 || (BesideFlipped(s, WordOf(env, s.word)) && (s.off == 0 || field == 0))
  {
    var w := Stored(FixStore(s), env);
    StoredIn16(s, env);
    StoredRead(s, env);
    forall i | 0 <= i < 16 && !(s.off <= i < s.off + s.len)
      ensures !BitAt(w, i) <==> BitAt(WordOf(env, s.word), i) == Flips(s, i)
    {
      StoredAt(s, env, i);
    }
    if FieldOnly(w, s.off, s.len) && (s.off == 0 || FieldRead(w, s.off, s.len) == 0) {
      FieldIsWord(w, s.off, s.len);
    }
    if s.len < 16 && w == FieldRead(w, s.off, s.len) {
      WordIsField(w, s.off, s.len);
    }
  }

  lemma SmallRemainder(w: int, m: int)
    requires m >= 1
    ensures w % m == w <==> 0 <= w < m
  {
    if 0 <= w < m {
      DivModUnique(w, m, 0, w);
    }
  }

  lemma HighField(w: int, p: int, m: int)
    requires p >= 2 && m >= 1
    ensures w == (w / p) % m <==> w == 0
  {
    var q := w / p;
    var r := w - p * q;
    assert w == p * q + r && 0 <= r < p;
    if w == 0 {
      DivModUnique(0, p, 0, 0);
      SmallRemainder(0, m);
    } else if w > 0 {
      QuotientBelow(w, p, q, r);
      RemainderBelow(q, m);
    }
  }

  lemma QuotientBelow(w: int, p: int, q: int, r: int)
    requires w > 0 && p >= 2 && w == p * q + r && 0 <= r < p
    ensures 0 <= q < w
  {
    if q < 0 {
      NegativeQuotient(p, q, r);
    } else {
      MulAtLeast(p - 1, q);
      assert p * q == (p - 1) * q + q;
    }
  }

  lemma NegativeQuotient(p: int, q: int, r: int)
    requires p >= 1 && 0 <= r < p && q < 0
    ensures p * q + r < 0
  {
    MulAtLeast(p, 0 - q - 1);
    assert p * q == 0 - p * (0 - q - 1) - p;
  }

  lemma RemainderBelow(q: int, m: int)
    requires q >= 0 && m >= 1
    ensures 0 <= q % m <= q
  {
    if q < m {
      DivModUnique(q, m, 0, q);
    }
  }
}
