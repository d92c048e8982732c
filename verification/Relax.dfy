/** Branch relaxation in the 68000 assembler: one forward pass shortens calls
    and branches, deletes branches to the next instruction, and slides the
    symbols behind; the second pass must find every decision still right. */
module Relax {
  import opened SymChains

  datatype Kind = Other | Bra | Bsr | Jsr

  /** A text symbol; one of the data or bss section, which no shrinking moves; or
      anything absolute, external or of no known value, which the pass leaves alone. */
  datatype Target = Label(sym: nat) | Fixed(value: int) | Foreign

  /** len: bytes after pass one, -1 for a deleted statement; loc: where pass one
      put it; word: the branch was written without a size. */
  datatype Stmt = Stmt(kind: Kind, target: Target, word: bool, len: int, loc: int)

  function Len(s: Stmt): (n: nat) { if s.len < 0 then 0 else s.len }

  /** The address of statement p, when all before it have their lengths. */
  function Addr(code: seq<Stmt>, p: nat): (a: nat)
    requires p <= |code|
  {
    if p == 0 then 0 else Addr(code, p - 1) + Len(code[p - 1])
  }

  lemma {:induction false} AddrMono(code: seq<Stmt>, p: nat, q: nat)
    requires p <= q <= |code|
    ensures Addr(code, p) <= Addr(code, q)
    ensures p < q ==> Addr(code, p) + Len(code[p]) <= Addr(code, q)
    decreases q
  {
    if p < q {
      AddrMono(code, p, q - 1);
    }
  }

  /** Shrinking statement i moves what lies behind it, and nothing else. */
  lemma {:induction false} AddrShrunk(code: seq<Stmt>, i: nat, s: Stmt, p: nat)
    requires i < |code| && p <= |code|
    ensures Addr(code[i := s], p) == if p <= i then Addr(code, p) else Addr(code, p) - Len(code[i]) + Len(s)
    decreases p
  {
    if p > 0 {
      AddrShrunk(code, i, s, p - 1);
    }
  }

  /** The displacement of statement i from its own address plus 2. */
  function Disp(code: seq<Stmt>, i: nat, p: nat): int
    requires i <= |code| && p <= |code|
  {
    Addr(code, p) - (Addr(code, i) + 2)
  }

  predicate Short(d: int) { -128 <= d <= 127 }
  predicate Word(d: int) { -32768 <= d <= 32767 }

  /** What the machine reads in a field whose sign bit counts sign. */
  function Extended(x: nat, sign: nat): int { if x < sign then x else x - 2 * sign }

  /** d is what the machine reads when the low 8, or 16, bits of d are stored. */
  predicate InByte(d: int) { Extended(d % 0x100, 0x80) == d }
  predicate InWord(d: int) { Extended(d % 0x1_0000, 0x8000) == d }

  /** The tests of the two passes hold exactly for the distances that can be stored. */
  lemma Storable(d: int)
    ensures Short(d) <==> InByte(d)
    ensures Word(d) <==> InWord(d)
  {
  }

  predicate Shortened(s: Stmt, o: Stmt) { s == o.(kind := if o.kind == Jsr then Bsr else o.kind, len := 2) }

  /** Statement i, once o, is one of: as it was; short and in range; a call that
      became a word branch in range; a branch deleted at its own target.  With a
      target in another section it has the form its distance from there asks for. */
  predicate Settled(code: seq<Stmt>, i: nat, o: Stmt, p: nat)
    requires i < |code| && p <= |code|
  {
    var s, d := code[i], Disp(code, i, p);
    if o.target.Fixed? then s == Decide(o, o.target.value - (Addr(code, i) + 2)) else
    || s == o
    || (Shortened(s, o) && o.kind != Other && InByte(d))
    || (o.kind == Jsr && s == o.(kind := Bsr, len := 4) && InWord(d))
    || (o.kind == Bra && o.len == 4 && s == o.(len := -1) && Addr(code, p) == Addr(code, i))
  }

  /** A later shrink leaves a settled statement settled. */
  lemma SettledStays(code: seq<Stmt>, j: nat, o: Stmt, p: nat, i: nat, s: Stmt)
    requires j < i < |code| && p <= |code| && Settled(code, j, o, p)
    requires Len(s) < Len(code[i])
    ensures Settled(code[i := s], j, o, p)
  {
    AddrShrunk(code, i, s, p);
    AddrShrunk(code, i, s, j);
    if p > j {
      AddrMono(code[i := s], j, p);
      AddrMono(code, j, i);
      AddrMono(code, i, if p > i then p else i);
    }
  }

  /** The decision itself settles the statement. */
  lemma SettledNow(code: seq<Stmt>, i: nat, p: nat, s: Stmt)
    requires i < |code| && p <= |code| && code[i].kind != Other && !code[i].target.Fixed?
    requires var o, d := code[i], Disp(code, i, p);
      || (Shortened(s, o) && InByte(d) && o.len > 2)
      || (o.kind == Jsr && s == o.(kind := Bsr, len := 4) && InWord(d) && o.len > 4)
      || (o.kind == Bra && o.len == 4 && s == o.(len := -1) && d == 2)
    ensures Settled(code[i := s], i, code[i], p)
  {
    AddrShrunk(code, i, s, p);
    AddrShrunk(code, i, s, i);
    if p > i {
      AddrMono(code[i := s], i, p);
    } else {
      AddrMono(code, p, i);
    }
  }

  /** Sliding moves exactly the symbols behind the statement. */
  lemma SlidAddr(code: seq<Stmt>, i: nat, s: Stmt, p: nat)
    requires i < |code| && p <= |code| && Len(s) < Len(code[i])
    ensures Slid(true, Addr(code, p), Addr(code, i), Len(code[i]) - Len(s)) == Addr(code[i := s], p)
  {
    AddrShrunk(code, i, s, p);
    if p > i {
      AddrMono(code, i, p);
    } else {
      AddrMono(code, p, i);
    }
  }

  // ---- the symbols ----

  /** pos: the statement each text symbol labels. */
  predicate SymOk(s: nat, text: seq<bool>, pos: seq<nat>, n: nat) {
    s < |text| && s < |pos| && text[s] && pos[s] <= n
  }

  predicate TargetOk(t: Target, text: seq<bool>, pos: seq<nat>, n: nat) {
    t.Label? ==> SymOk(t.sym, text, pos, n)
  }

  predicate Placed(code: seq<Stmt>, vl: seq<int>, text: seq<bool>, pos: seq<nat>, n: nat) {
    |code| == n && forall s: nat {:trigger SymOk(s, text, pos, n)} :: s < |vl| && SymOk(s, text, pos, n) ==>
      vl[s] == Addr(code, pos[s])
  }

  function PosOf(t: Target, pos: seq<nat>, n: nat): (p: nat)
    ensures p <= n
  {
    if t.Label? && t.sym < |pos| && pos[t.sym] <= n then pos[t.sym] else 0
  }

  /** What pass one leaves: sizes of at least two bytes for calls and branches,
      and locations that are the sums of the sizes. */
  predicate FromPass1(code: seq<Stmt>, text: seq<bool>, pos: seq<nat>) {
    forall i {:trigger Guessed(code, i, text, pos)} :: 0 <= i < |code| ==> Guessed(code, i, text, pos)
  }

  predicate Guessed(code: seq<Stmt>, i: nat, text: seq<bool>, pos: seq<nat>)
    requires i < |code|
  {
    && code[i].len >= 0 && code[i].loc == Addr(code, i)
    && TargetOk(code[i].target, text, pos, |code|)
    && (code[i].kind == Jsr ==> code[i].len == 4 || code[i].len == 6)
  }

  /** The new form of a statement whose target is d bytes from its address plus 2. */
  function Decide(s: Stmt, d: int): Stmt {
    if s.target.Foreign? || s.kind == Other || (s.kind != Jsr && s.len != 4) then s
    else if s.kind == Jsr then
      if Short(d) then Shrunk(s.(kind := Bsr), s.len - 2)
      else if Word(d) && s.len != 4 then Shrunk(s.(kind := Bsr), s.len - 4)
      else s
    else if Short(d) && s.word then
      if d != 2 then Shrunk(s, 2)
      else if s.kind == Bsr then s
      else Shrunk(s, 4)
    else s
  }

  /** A call or branch is made short exactly when its distance can be stored in a byte,
      a call a word branch when it can in a word but not in a byte and that saves
      something; and a branch written without a size to the next instruction, no
      call, is deleted. */
  lemma DecidesExactly(s: Stmt, d: int)
    requires !s.target.Foreign? && s.kind != Other && (s.kind == Jsr ==> s.len == 4 || s.len == 6)
    ensures var t, byte, word := Decide(s, d), Extended(d % 0x100, 0x80) == d, Extended(d % 0x1_0000, 0x8000) == d;
      if s.kind == Jsr then
        t == if byte then s.(kind := Bsr, len := 2) else if word && s.len == 6 then s.(kind := Bsr, len := 4) else s
      else if s.len != 4 || !s.word || !byte then t == s
      else t == if d != 2 then s.(len := 2) else if s.kind == Bra then s.(len := -1) else s
  {
    Storable(d);
  }

  function Shrunk(s: Stmt, i: int): Stmt { s.(len := if s.len == i then -1 else s.len - i) }

  /** The distance of statement i from its target, from its address plus 2. */
  function DistAt(code: seq<Stmt>, i: nat, pos: seq<nat>): int
    requires i < |code|
  {
    if code[i].target.Fixed? then code[i].target.value - (Addr(code, i) + 2)
    else Disp(code, i, PosOf(code[i].target, pos, |code|))
  }

  lemma Decided(code: seq<Stmt>, i: nat, pos: seq<nat>)
    requires i < |code| && code[i].len >= 0
    requires code[i].kind == Jsr ==> code[i].len == 4 || code[i].len == 6
    ensures Shrinks(code, i, Decide(code[i], DistAt(code, i, pos)), pos)
  {
    var s, p := Decide(code[i], DistAt(code, i, pos)), PosOf(code[i].target, pos, |code|);
    AddrShrunk(code, i, s, i);
    if s == code[i] {
      assert code[i := s] == code;
    } else if !code[i].target.Fixed? {
      SettledNow(code, i, p, s);
    }
  }

  // ---- the pass ----

  /** s, no longer than statement i, settles it. */
  predicate Shrinks(code: seq<Stmt>, i: nat, s: Stmt, pos: seq<nat>)
    requires i < |code|
  {
    && (s == code[i] || Len(s) < Len(code[i]))
    && Settled(code[i := s], i, code[i], PosOf(code[i].target, pos, |code|))
  }

  predicate SettledAt(orig: seq<Stmt>, code: seq<Stmt>, pos: seq<nat>, j: nat)
    requires j < |code| == |orig|
  {
    Settled(code, j, orig[j], PosOf(orig[j].target, pos, |code|))
  }

  /** All statements before i are settled, the others are as pass one left them. */
  predicate Progress(orig: seq<Stmt>, code: seq<Stmt>, pos: seq<nat>, i: nat) {
    && |code| == |orig| && i <= |code|
    && (forall j {:trigger SettledAt(orig, code, pos, j)} :: 0 <= j < i ==> SettledAt(orig, code, pos, j))
    && (forall j :: i <= j < |code| ==> code[j] == orig[j])
  }

  lemma Advance(orig: seq<Stmt>, code: seq<Stmt>, pos: seq<nat>, i: nat, s: Stmt)
    requires Progress(orig, code, pos, i) && i < |code| && Shrinks(code, i, s, pos)
    ensures Progress(orig, code[i := s], pos, i + 1)
  {
    var code' := code[i := s];
    assert SettledAt(orig, code', pos, i);
    if s == code[i] {
      assert code' == code;
    } else {
      forall j | 0 <= j < i ensures SettledAt(orig, code', pos, j) {
        assert SettledAt(orig, code, pos, j);
        SettledStays(code, j, orig[j], PosOf(orig[j].target, pos, |code|), i, s);
      }
    }
  }

  /** Every symbol that labels a statement has slid. */
  predicate AllSlid(vl: seq<int>, vl': seq<int>, text: seq<bool>, pos: seq<nat>, n: nat, loctr: int, gone: int) {
    |vl'| == |vl| && forall x: nat {:trigger SymOk(x, text, pos, n)} :: x < |vl| && SymOk(x, text, pos, n) ==>
      vl'[x] == Slid(true, vl[x], loctr, gone)
  }

  lemma SlidPlaced(code: seq<Stmt>, vl: seq<int>, vl': seq<int>, text: seq<bool>, pos: seq<nat>, i: nat, s: Stmt)
    requires Placed(code, vl, text, pos, |code|) && i < |code| && Len(s) < Len(code[i])
    requires AllSlid(vl, vl', text, pos, |code|, Addr(code, i), Len(code[i]) - Len(s))
    ensures Placed(code[i := s], vl', text, pos, |code|)
  {
    forall x: nat | x < |vl'| && SymOk(x, text, pos, |code|) ensures vl'[x] == Addr(code[i := s], pos[x]) {
      SlidAddr(code, i, s, pos[x]);
    }
  }

  /** Every labelling symbol is a text symbol of the table. */
  ghost predicate LabelsIn(tab: Table, pos: seq<nat>, n: nat)
    reads tab
  {
    && |pos| == tab.lmte && |tab.home| == tab.lmte + 1
    && forall s: nat :: s < |pos| ==> SymOk(s, tab.text, pos, n) ==> tab.InGroup(s)
  }

  /** Statement i decided at present addresses. */
  function RelaxAt(code: seq<Stmt>, i: nat, pos: seq<nat>): (r: seq<Stmt>)
    requires i < |code|
    ensures |r| == |code|
  {
    code[i := Decide(code[i], DistAt(code, i, pos))]
  }

  /** The statements from i on decided one after the other. */
  function RelaxFrom(code: seq<Stmt>, i: nat, pos: seq<nat>): (r: seq<Stmt>)
    requires i <= |code|
    ensures |r| == |code|
    decreases |code| - i
  {
    if i == |code| then code else RelaxFrom(RelaxAt(code, i, pos), i + 1, pos)
  }

  /** The state of the pass before statement i. */
  predicate Inv(orig: seq<Stmt>, code: seq<Stmt>, vl: seq<int>, text: seq<bool>, pos: seq<nat>, i: nat, reduced: int) {
    && Progress(orig, code, pos, i) && Placed(code, vl, text, pos, |code|)
    && reduced == Addr(orig, i) - Addr(code, i)
  }

  lemma Unchanged(orig: seq<Stmt>, code: seq<Stmt>, vl: seq<int>, text: seq<bool>, pos: seq<nat>, i: nat, reduced: int)
    requires Inv(orig, code, vl, text, pos, i, reduced) && i < |code| && Shrinks(code, i, code[i], pos)
    ensures Inv(orig, code, vl, text, pos, i + 1, reduced)
  {
    Advance(orig, code, pos, i, code[i]);
    assert code[i := code[i]] == code;
  }

  lemma ReducedBy(orig: seq<Stmt>, code: seq<Stmt>, i: nat, t: Stmt)
    requires i < |code| == |orig| && code[i] == orig[i] && Len(t) < Len(code[i])
    ensures Addr(orig, i + 1) - Addr(code[i := t], i + 1) == Addr(orig, i) - Addr(code, i) + Len(code[i]) - Len(t)
  {
    AddrShrunk(code, i, t, i + 1);
  }

  /** The statement at i decided, with every symbol behind it slid. */
  lemma Changed(orig: seq<Stmt>, code: seq<Stmt>, vl: seq<int>, vl': seq<int>, text: seq<bool>, pos: seq<nat>,
                i: nat, t: Stmt, reduced: int)
    requires Inv(orig, code, vl, text, pos, i, reduced) && i < |code|
    requires Len(t) < Len(code[i]) && Shrinks(code, i, t, pos)
    requires AllSlid(vl, vl', text, pos, |code|, Addr(code, i), Len(code[i]) - Len(t))
    ensures Inv(orig, code[i := t], vl', text, pos, i + 1, reduced + Len(code[i]) - Len(t))
  {
    SlidPlaced(code, vl, vl', text, pos, i, t);
    Advance(orig, code, pos, i, t);
    assert code[i] == orig[i];
    ReducedBy(orig, code, i, t);
  }

  /** The value the pass finds for a target. */
  function ValueOf(t: Target, vl: seq<int>): int
    requires t.Label? ==> t.sym < |vl|
  {
    match t
    case Label(sym) => vl[sym]
    case Fixed(v) => v
    case Foreign => 0
  }

  /** The distance the pass computes is the one at present addresses. */
  lemma Distance(orig: seq<Stmt>, code: seq<Stmt>, vl: seq<int>, text: seq<bool>, pos: seq<nat>, i: nat, reduced: int)
    requires Inv(orig, code, vl, text, pos, i, reduced) && i < |code| && FromPass1(orig, text, pos)
    requires !code[i].target.Foreign? && (code[i].target.Label? ==> code[i].target.sym < |vl|)
    ensures code[i].loc - reduced == Addr(code, i)
    ensures ValueOf(code[i].target, vl) - (Addr(code, i) + 2) == DistAt(code, i, pos)
  {
    assert code[i] == orig[i] && Guessed(orig, i, text, pos);
  }

  lemma Start(code: seq<Stmt>, vl: seq<int>, text: seq<bool>, pos: seq<nat>)
    requires Placed(code, vl, text, pos, |code|)
    ensures Inv(code, code, vl, text, pos, 0, 0)
  {
  }

  /** One statement. */
  method RelaxOne(code: array<Stmt>, tab: Table, i: nat, reduced: int,
                  ghost orig: seq<Stmt>, ghost pos: seq<nat>) returns (reduced': int)
    requires tab.Valid() && LabelsIn(tab, pos, code.Length) && i < code.Length
    requires Inv(orig, code[..], tab.vl1, tab.text, pos, i, reduced) && FromPass1(orig, tab.text, pos)
    modifies code, tab`vl1
    ensures tab.Valid()
    ensures Inv(orig, code[..], tab.vl1, tab.text, pos, i + 1, reduced')
    ensures code[..] == RelaxAt(old(code[..]), i, pos)
  {
    ghost var cur, v0 := code[..], tab.vl1;
    reduced' := reduced;
    var s := code[i];
    assert s == orig[i] && Guessed(orig, i, tab.text, pos);
    Decided(cur, i, pos);
    if !s.target.Foreign? {
      Distance(orig, cur, v0, tab.text, pos, i, reduced);
      var loctr := s.loc - reduced;
      var t := Decide(s, ValueOf(s.target, tab.vl1) - (loctr + 2));
      if t != s {
        tab.FixSyadr(loctr, Len(s) - Len(t));
        reduced' := reduced + (Len(s) - Len(t));
        code[i] := t;
        assert code[..] == cur[i := t];
        Changed(orig, cur, v0, tab.vl1, tab.text, pos, i, t, reduced);
        return;
      }
    }
    assert cur[i := s] == cur;
    Unchanged(orig, cur, v0, tab.text, pos, i, reduced);
  }

  /** The pass.  Afterwards every symbol has the address of the statement it
      labels, and every statement is settled at these addresses. */
  method Pass1a(code: array<Stmt>, tab: Table, ghost pos: seq<nat>) returns (reduced: int)
    requires tab.Valid() && LabelsIn(tab, pos, code.Length)
    requires FromPass1(code[..], tab.text, pos)
    requires Placed(code[..], tab.vl1, tab.text, pos, code.Length)
    modifies code, tab`vl1
    ensures tab.Valid()
    ensures Placed(code[..], tab.vl1, tab.text, pos, code.Length)
    ensures code[..] == RelaxFrom(old(code[..]), 0, pos)
    ensures Progress(old(code[..]), code[..], pos, code.Length)
    ensures reduced == Addr(old(code[..]), code.Length) - Addr(code[..], code.Length)
  {
    ghost var orig := code[..];
    reduced := 0;
    Start(orig, tab.vl1, tab.text, pos);
    for i := 0 to code.Length
      invariant tab.Valid()
      invariant Inv(orig, code[..], tab.vl1, tab.text, pos, i, reduced)
      invariant RelaxFrom(code[..], i, pos) == RelaxFrom(orig, 0, pos)
    {
      reduced := RelaxOne(code, tab, i, reduced, orig, pos);
    }
  }

  // ---- the second pass ----

  datatype Code = Bad | ShortDisp(byte: nat) | WordDisp(word: nat) | OneNop | TwoNops

  /** What the second pass makes of a branch of this size. */
  function Relbr(kind: Kind, len: int, d: int): Code {
    if len == 4 then
      if !Word(d) then Bad
      else if d == 2 && kind != Bsr then TwoNops
      else WordDisp(d % 0x1_0000)
    else if !Short(d) then Bad
    else if d != 0 then ShortDisp(d % 0x100)
    else if kind == Bsr then Bad
    else OneNop
  }

  /** Where the machine goes from an instruction at this address. */
  function Goes(addr: int, c: Code): int {
    match c
    case ShortDisp(b) => addr + 2 + Extended(b, 0x80)
    case WordDisp(w) => addr + 2 + Extended(w, 0x8000)
    case OneNop => addr + 2
    case TwoNops => addr + 4
    case Bad => addr
  }

  predicate Branching(s: Stmt) { s.kind in {Bra, Bsr} && s.target.Label? && (s.len == 2 || s.len == 4) }

  /** What the second pass makes of a statement at this distance from its target: a
      target in another section is refused. */
  function Encoded(s: Stmt, d: int): Code { if s.target.Fixed? then Bad else Relbr(s.kind, s.len, d) }

  /** Everything the pass changed for a label of its own section is encoded without
      error and goes there, except a call whose short displacement has shrunk to
      zero; and a deleted branch stood at its own target. */
  lemma ChangedReachTargets(orig: seq<Stmt>, code: seq<Stmt>, pos: seq<nat>, i: nat)
    requires Progress(orig, code, pos, |code|) && i < |code| && code[i] != orig[i] && !orig[i].target.Fixed?
    ensures var p := PosOf(orig[i].target, pos, |code|);
      if code[i].len < 0 then Addr(code, i) == Addr(code, p)
      else
        var e := Relbr(code[i].kind, code[i].len, Disp(code, i, p));
        && code[i].kind in {Bra, Bsr}
        && (e.Bad? <==> code[i].kind == Bsr && code[i].len == 2 && Disp(code, i, p) == 0)
        && (!e.Bad? ==> Goes(Addr(code, i), e) == Addr(code, p))
  {
    assert SettledAt(orig, code, pos, i);
  }

  /** Branches take two bytes at least, calls four. */
  predicate Sized(code: seq<Stmt>) {
    forall j :: 0 <= j < |code| && code[j].kind != Other ==> code[j].len >= if code[j].kind == Jsr then 4 else 2
  }

  lemma {:induction false} GapShrinks(orig: seq<Stmt>, code: seq<Stmt>, pos: seq<nat>, p: nat, q: nat)
    requires Progress(orig, code, pos, |code|) && p <= q <= |code|
    requires Sized(orig)
    ensures Addr(code, q) - Addr(code, p) <= Addr(orig, q) - Addr(orig, p)
    decreases q
  {
    if p < q {
      GapShrinks(orig, code, pos, p, q - 1);
      assert SettledAt(orig, code, pos, q - 1);
    }
  }

  /** A word branch the pass left alone still reaches, if it did before. */
  lemma LeftReachTargets(orig: seq<Stmt>, code: seq<Stmt>, pos: seq<nat>, i: nat)
    requires Progress(orig, code, pos, |code|) && i < |code| && code[i] == orig[i]
    requires Sized(orig)
    requires Branching(orig[i]) && orig[i].len == 4
    requires InWord(Disp(orig, i, PosOf(orig[i].target, pos, |code|)))
    ensures var p := PosOf(orig[i].target, pos, |code|);
      var e := Relbr(code[i].kind, code[i].len, Disp(code, i, p));
      !e.Bad? && Goes(Addr(code, i), e) == Addr(code, p)
  {
    var p := PosOf(orig[i].target, pos, |code|);
    if p <= i {
      GapShrinks(orig, code, pos, p, i);
      AddrMono(code, p, i);
    } else {
      GapShrinks(orig, code, pos, i, p);
      AddrMono(code, i, p);
    }
  }

  // ---- the calls that are reported ----

  lemma {:induction false} RelaxKeeps(code: seq<Stmt>, i: nat, pos: seq<nat>, j: nat)
    requires j < i <= |code|
    ensures RelaxFrom(code, i, pos)[j] == code[j]
    decreases |code| - i
  {
    if i < |code| {
      RelaxKeeps(RelaxAt(code, i, pos), i + 1, pos, j);
    }
  }

  predicate SameFrom(code: seq<Stmt>, cur: seq<Stmt>, i: nat) {
    |cur| == |code| && i <= |code| && forall j :: i <= j < |code| ==> cur[j] == code[j]
  }

  /** The code when the pass comes to statement i. */
  lemma {:induction false} RelaxReaches(code: seq<Stmt>, k: nat, i: nat, pos: seq<nat>) returns (cur: seq<Stmt>)
    requires k <= i < |code|
    ensures SameFrom(code, cur, i) && RelaxFrom(code, k, pos) == RelaxFrom(cur, i, pos)
    decreases i - k
  {
    if k == i {
      cur := code;
    } else {
      cur := RelaxReaches(RelaxAt(code, k, pos), k + 1, i, pos);
    }
  }

  lemma {:induction false} SameGap(code: seq<Stmt>, cur: seq<Stmt>, i: nat, p: nat)
    requires SameFrom(code, cur, i) && i <= p <= |code|
    ensures Addr(cur, p) - Addr(cur, i) == Addr(code, p) - Addr(code, i)
    decreases p
  {
    if p > i {
      SameGap(code, cur, i, p - 1);
    }
  }

  /** What becomes of a statement depends, for a target behind it, on the lengths
      before the pass; a target before it is never at distance 0 or 2. */
  lemma FinalForm(orig: seq<Stmt>, pos: seq<nat>, i: nat) returns (d: int)
    requires i < |orig| && !orig[i].target.Fixed?
    ensures RelaxFrom(orig, 0, pos)[i] == Decide(orig[i], d)
    ensures var p := PosOf(orig[i].target, pos, |orig|); if p > i then d == Disp(orig, i, p) else d <= -2
  {
    var cur := RelaxReaches(orig, 0, i, pos);
    var p := PosOf(orig[i].target, pos, |orig|);
    d := Disp(cur, i, p);
    RelaxKeeps(RelaxAt(cur, i, pos), i + 1, pos, i);
    if p > i {
      SameGap(orig, cur, i, p);
    } else {
      AddrMono(cur, p, i);
    }
  }

  lemma {:induction false} RelaxProgress(orig: seq<Stmt>, code: seq<Stmt>, text: seq<bool>, pos: seq<nat>, i: nat)
    requires FromPass1(orig, text, pos) && Progress(orig, code, pos, i)
    ensures Progress(orig, RelaxFrom(code, i, pos), pos, |orig|)
    decreases |code| - i
  {
    if i < |code| {
      assert Guessed(orig, i, text, pos) && code[i] == orig[i];
      Decided(code, i, pos);
      Advance(orig, code, pos, i, Decide(code[i], DistAt(code, i, pos)));
      RelaxProgress(orig, RelaxAt(code, i, pos), text, pos, i + 1);
    }
  }

  /** What becomes of a statement with a target in another section depends on the
      address it gets. */
  lemma FixedForm(orig: seq<Stmt>, text: seq<bool>, pos: seq<nat>, i: nat)
    requires FromPass1(orig, text, pos) && i < |orig| && orig[i].target.Fixed?
    ensures var code := RelaxFrom(orig, 0, pos); code[i] == Decide(orig[i], DistAt(code, i, pos))
    ensures RelaxFrom(orig, 0, pos)[i].target == orig[i].target
  {
    RelaxProgress(orig, orig, text, pos, 0);
    assert SettledAt(orig, RelaxFrom(orig, 0, pos), pos, i);
  }

  predicate Empty(code: seq<Stmt>, a: nat, b: nat)
    requires b <= |code|
  {
    forall j {:trigger Len(code[j])} :: a <= j < b ==> Len(code[j]) == 0
  }

  lemma {:induction false} NoGap(code: seq<Stmt>, a: nat, b: nat)
    requires a <= b <= |code|
    ensures Addr(code, b) == Addr(code, a) <==> Empty(code, a, b)
    decreases b
  {
    if a < b {
      NoGap(code, a, b - 1);
      AddrMono(code, a, b - 1);
    }
  }

  /** A statement of no length, or a branch written without a size to the
      instruction after it, or to a label of another section with that value. */
  predicate Vanishes(orig: seq<Stmt>, pos: seq<nat>, j: nat)
    requires j < |orig|
  {
    var s := orig[j];
    s.len == 0 ||
    (s.kind == Bra && s.word && s.len == 4 &&
     if s.target.Fixed? then s.target.value == Addr(RelaxFrom(orig, 0, pos), j) + 4
     else Addr(orig, PosOf(s.target, pos, |orig|)) == Addr(orig, j) + 4)
  }

  lemma VanishesIff(orig: seq<Stmt>, text: seq<bool>, pos: seq<nat>, j: nat)
    requires FromPass1(orig, text, pos) && j < |orig|
    ensures Len(RelaxFrom(orig, 0, pos)[j]) == 0 <==> Vanishes(orig, pos, j)
  {
    assert Guessed(orig, j, text, pos);
    if orig[j].target.Fixed? {
      FixedForm(orig, text, pos, j);
    } else {
      var d := FinalForm(orig, pos, j);
      var p := PosOf(orig[j].target, pos, |orig|);
      if p <= j {
        AddrMono(orig, p, j);
      }
    }
  }

  /** A call in short range of a label behind it, with nothing between them but
      what vanishes. */
  predicate CallsOverNothing(orig: seq<Stmt>, pos: seq<nat>, i: nat)
    requires i < |orig|
  {
    var s, p := orig[i], PosOf(orig[i].target, pos, |orig|);
    && p > i && InByte(Disp(orig, i, p))
    && (s.kind == Jsr || (s.kind == Bsr && s.word && s.len == 4 && Disp(orig, i, p) != 2))
    && forall j {:trigger Vanishes(orig, pos, j)} :: i < j < p ==> Vanishes(orig, pos, j)
  }

  lemma BetweenIff(orig: seq<Stmt>, text: seq<bool>, pos: seq<nat>, i: nat, p: nat)
    requires FromPass1(orig, text, pos) && i < p <= |orig|
    ensures var code := RelaxFrom(orig, 0, pos);
      Addr(code, p) == Addr(code, i + 1) <==>
        forall j {:trigger Vanishes(orig, pos, j)} :: i < j < p ==> Vanishes(orig, pos, j)
  {
    var code := RelaxFrom(orig, 0, pos);
    NoGap(code, i + 1, p);
    forall j | i < j < p ensures Len(code[j]) == 0 <==> Vanishes(orig, pos, j) {
      VanishesIff(orig, text, pos, j);
    }
  }

  /** A shortened call is reported when nothing is left between it and its label. */
  lemma ShortCall(orig: seq<Stmt>, text: seq<bool>, pos: seq<nat>, i: nat)
    requires FromPass1(orig, text, pos) && i < |orig| && !orig[i].target.Fixed?
    ensures var code, p := RelaxFrom(orig, 0, pos), PosOf(orig[i].target, pos, |orig|);
      code[i] != orig[i] && Relbr(code[i].kind, code[i].len, Disp(code, i, p)).Bad? <==>
        code[i] != orig[i] && code[i].kind == Bsr && code[i].len == 2 && p > i && Addr(code, p) == Addr(code, i + 1)
  {
    var code, p := RelaxFrom(orig, 0, pos), PosOf(orig[i].target, pos, |orig|);
    RelaxProgress(orig, orig, text, pos, 0);
    if p <= i {
      AddrMono(code, p, i);
    }
    if code[i] != orig[i] {
      ChangedReachTargets(orig, code, pos, i);
    }
  }

  /** The pass shortens this statement at distance d, and does not delete it. */
  predicate Reached(s: Stmt, d: int) {
    if s.kind == Jsr then InByte(d) || (InWord(d) && s.len != 4)
    else s.kind != Other && s.len == 4 && s.word && InByte(d) && d != 2
  }

  lemma LabelReported(orig: seq<Stmt>, text: seq<bool>, pos: seq<nat>, i: nat)
    requires FromPass1(orig, text, pos) && i < |orig| && !orig[i].target.Fixed?
    ensures var code := RelaxFrom(orig, 0, pos);
      && code[i].target == orig[i].target
      && (code[i] != orig[i] && Encoded(code[i], DistAt(code, i, pos)).Bad? <==> CallsOverNothing(orig, pos, i))
      && (code[i].len < 0 ==> !CallsOverNothing(orig, pos, i))
  {
    var p := PosOf(orig[i].target, pos, |orig|);
    var d := FinalForm(orig, pos, i);
    assert Guessed(orig, i, text, pos);
    ShortCall(orig, text, pos, i);
    if p > i {
      BetweenIff(orig, text, pos, i, p);
    }
  }

  /** Of what the pass changed and did not delete, the second pass reports exactly
      the calls over nothing and whatever has its target in another section. */
  lemma ReportedCalls(orig: seq<Stmt>, text: seq<bool>, pos: seq<nat>, i: nat)
    requires FromPass1(orig, text, pos) && i < |orig|
    ensures var code, t := RelaxFrom(orig, 0, pos), orig[i].target;
      code[i] != orig[i] && code[i].len >= 0 && Encoded(code[i], DistAt(code, i, pos)).Bad? <==>
        if t.Fixed? then Reached(orig[i], t.value - (Addr(code, i) + 2)) else CallsOverNothing(orig, pos, i)
  {
    assert Guessed(orig, i, text, pos);
    if orig[i].target.Fixed? {
      FixedForm(orig, text, pos, i);
    } else {
      LabelReported(orig, text, pos, i);
    }
  }

  /** So a call of the next instruction always becomes a short bsr with
      displacement zero, and is reported. */
  lemma CallOfNext(orig: seq<Stmt>, text: seq<bool>, pos: seq<nat>, i: nat)
    requires FromPass1(orig, text, pos) && i < |orig| && orig[i].kind == Jsr
    requires orig[i].target.Label? && PosOf(orig[i].target, pos, |orig|) == i + 1
    ensures var s := RelaxFrom(orig, 0, pos); Relbr(s[i].kind, s[i].len, Disp(s, i, i + 1)).Bad?
  {
    assert Guessed(orig, i, text, pos) && Disp(orig, i, i + 1) == orig[i].len - 2;
    LabelReported(orig, text, pos, i);
  }
}
