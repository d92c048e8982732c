/** Conditional text as a stack of booleans, one for each open conditional: the
    simple machine that the assembler's two counters and the preprocessor's skip
    count stand for. */
module Conditionals {

  datatype Line = If(cond: bool) | Else | Endif | Text(s: string)

  /** Every enclosing branch is live. */
  predicate Live(stack: seq<bool>) { forall i :: 0 <= i < |stack| ==> stack[i] }

  datatype State = State(stack: seq<bool>, out: seq<string>, errors: nat)

  /** A condition in skipped text is not evaluated and counts as false. */
  function Step(st: State, l: Line): State {
    var k := |st.stack|;
    match l
    case If(c) => st.(stack := st.stack + [Live(st.stack) && c])
    case Else => if k == 0 then st.(errors := st.errors + 1) else st.(stack := st.stack[k - 1 := !st.stack[k - 1]])
    case Endif => if k == 0 then st.(errors := st.errors + 1) else st.(stack := st.stack[..k - 1])
    case Text(s) => if Live(st.stack) then st.(out := st.out + [s]) else st
  }

  function Run(st: State, lines: seq<Line>): State {
    if |lines| == 0 then st else Step(Run(st, lines[..|lines| - 1]), lines[|lines| - 1])
  }

  lemma {:induction false} RunAppend(st: State, a: seq<Line>, b: seq<Line>)
    ensures Run(st, a + b) == Run(Run(st, a), b)
  {
    if |b| == 0 {
      assert a + b == a;
    } else {
      RunAppend(st, a, b[..|b| - 1]);
      assert (a + b)[..|a + b| - 1] == a + b[..|b| - 1];
    }
  }

  // ---- properly nested text ----

  datatype Item = Plain(s: string) | Choice(cond: bool, thn: Items, els: Else_)
  datatype Items = Nil | Cons(head: Item, tail: Items)
  /** Every further Else takes the other side again. */
  datatype Else_ = NoElse | WithElse(body: Items, more: Else_)

  function Render(x: Items): seq<Line> {
    match x
    case Nil => []
    case Cons(h, t) => RenderItem(h) + Render(t)
  }

  function RenderItem(i: Item): seq<Line> {
    match i
    case Plain(s) => [Text(s)]
    case Choice(c, thn, els) => [If(c)] + Render(thn) + RenderElse(els) + [Endif]
  }

  function RenderElse(e: Else_): seq<Line> {
    match e
    case NoElse => []
    case WithElse(b, more) => [Else] + Render(b) + RenderElse(more)
  }

  /** The text of the chosen branches. */
  function Chosen(x: Items): seq<string>
    decreases x
  {
    match x
    case Nil => []
    case Cons(h, t) => ChosenItem(h) + Chosen(t)
  }

  function ChosenItem(i: Item): seq<string>
    decreases i
  {
    match i
    case Plain(s) => [s]
    case Choice(c, thn, els) => (if c then Chosen(thn) else []) + ChosenElse(!c, els)
  }

  function ChosenElse(live: bool, e: Else_): seq<string>
    decreases e
  {
    match e
    case NoElse => []
    case WithElse(b, more) => (if live then Chosen(b) else []) + ChosenElse(!live, more)
  }

  function Adding(st: State, more: seq<string>): State { st.(out := st.out + more) }

  lemma AddingTwice(st: State, a: seq<string>, b: seq<string>)
    ensures Adding(Adding(st, a), b) == Adding(st, a + b)
    ensures Adding(st, []) == st
  {
    assert st.out + a + b == st.out + (a + b) && st.out + [] == st.out;
  }

  lemma RunOne(st: State, l: Line)
    ensures Run(st, [l]) == Step(st, l)
  {
    assert [l][..0] == [] && Run(st, []) == st;
  }

  lemma LivePush(stack: seq<bool>, b: bool)
    ensures Live(stack + [b]) <==> Live(stack) && b
  {
    if Live(stack + [b]) {
      forall i | 0 <= i < |stack| ensures stack[i] { assert (stack + [b])[i]; }
      assert (stack + [b])[|stack|];
    }
  }

  /** Properly nested text gives the chosen branches where it is live, nothing
      where it is not, no error, and leaves the stack as it was. */
  lemma {:induction false} RunRender(st: State, x: Items)
    ensures Run(st, Render(x)) == Adding(st, if Live(st.stack) then Chosen(x) else [])
    decreases x, 0
  {
    match x
    case Nil =>
    case Cons(h, t) =>
      var l := Live(st.stack);
      var u, v := if l then ChosenItem(h) else [], if l then Chosen(t) else [];
      RunAppend(st, RenderItem(h), Render(t));
      RunItem(st, h);
      RunRender(Adding(st, u), t);
      AddingTwice(st, u, v);
      assert u + v == if l then Chosen(x) else [];
  }

  lemma {:induction false} RunItem(st: State, i: Item)
    ensures Run(st, RenderItem(i)) == Adding(st, if Live(st.stack) then ChosenItem(i) else [])
    decreases i, 0
  {
    match i
    case Plain(s) =>
      RunOne(st, Text(s));
    case Choice(c, thn, els) =>
      var l, b := Live(st.stack), Live(st.stack) && c;
      var u, v := if b then Chosen(thn) else [], if l then ChosenElse(!b, els) else [];
      RunBranch(st, c, thn);
      RunElses(st, Adding(st.(stack := st.stack + [b]), u), b, els);
      RunAppend(st, [If(c)] + Render(thn), RenderElse(els));
      AddingTwice(st.(stack := st.stack + [LastSide(b, els)]), u, v);
      RunClose(st, [If(c)] + Render(thn) + RenderElse(els));
      assert u + v == if l then ChosenItem(i) else [];
  }

  /** The side taken when the conditional ends. */
  function LastSide(b: bool, e: Else_): bool
    decreases e
  {
    match e
    case NoElse => b
    case WithElse(_, more) => LastSide(!b, more)
  }

  lemma {:induction false} RunElses(st: State, st2: State, b: bool, e: Else_)
    requires st2.stack == st.stack + [b]
    ensures Run(st2, RenderElse(e)) ==
      Adding(st2.(stack := st.stack + [LastSide(b, e)]), if Live(st.stack) then ChosenElse(!b, e) else [])
    decreases e, 2
  {
    match e
    case NoElse =>
      AddingTwice(st2, [], []);
    case WithElse(body, more) =>
      var l := Live(st.stack);
      var u, v := if l && !b then Chosen(body) else [], if l then ChosenElse(b, more) else [];
      var st3 := Adding(st2.(stack := st.stack + [!b]), u);
      RunElse(st, st2, !b, body);
      RunElses(st, st3, !b, more);
      RunAppend(st2, [Else] + Render(body), RenderElse(more));
      AddingTwice(st2.(stack := st.stack + [LastSide(!b, more)]), u, v);
      assert u + v == if l then ChosenElse(!b, e) else [];
  }

  lemma {:induction false} RunBranch(st: State, c: bool, thn: Items)
    ensures var b := Live(st.stack) && c;
      Run(st, [If(c)] + Render(thn)) == Adding(st.(stack := st.stack + [b]), if b then Chosen(thn) else [])
    decreases thn, 1
  {
    var b := Live(st.stack) && c;
    LivePush(st.stack, b);
    RunOne(st, If(c));
    RunAppend(st, [If(c)], Render(thn));
    RunRender(st.(stack := st.stack + [b]), thn);
  }

  lemma RunClose(st: State, body: seq<Line>)
    requires |Run(st, body).stack| == |st.stack| + 1 && Run(st, body).stack[..|st.stack|] == st.stack
    ensures Run(st, body + [Endif]) == Run(st, body).(stack := st.stack)
  {
    RunAppend(st, body, [Endif]);
    RunOne(Run(st, body), Endif);
  }

  lemma {:induction false} RunElse(st: State, st2: State, b: bool, e: Items)
    requires st2.stack == st.stack + [!b]
    ensures Run(st2, [Else] + Render(e)) ==
      Adding(st2.(stack := st.stack + [b]), if Live(st.stack) && b then Chosen(e) else [])
    decreases e, 1
  {
    RunOne(st2, Else);
    RunAppend(st2, [Else], Render(e));
    assert st2.stack[|st.stack| := b] == st.stack + [b];
    LivePush(st.stack, b);
    RunRender(st2.(stack := st.stack + [b]), e);
  }

  // ---- unmatched lines ----

  /** How deep the text is nested behind these lines. */
  function Depth(d: nat, lines: seq<Line>): nat {
    if |lines| == 0 then d
    else
      var n := Depth(d, lines[..|lines| - 1]);
      if lines[|lines| - 1].If? then n + 1 else if lines[|lines| - 1].Endif? && n > 0 then n - 1 else n
  }

  /** How many of them have no conditional to belong to. */
  function Unmatched(d: nat, lines: seq<Line>): nat {
    if |lines| == 0 then 0
    else
      var rest, l := lines[..|lines| - 1], lines[|lines| - 1];
      Unmatched(d, rest) + if (l.Else? || l.Endif?) && Depth(d, rest) == 0 then 1 else 0
  }

  /** On any lines at all, each Else and Endif outside of conditionals is an error, and
      nothing else is. */
  lemma {:induction false} ErrorsAre(st: State, lines: seq<Line>)
    ensures |Run(st, lines).stack| == Depth(|st.stack|, lines)
    ensures Run(st, lines).errors == st.errors + Unmatched(|st.stack|, lines)
  {
    if |lines| > 0 {
      ErrorsAre(st, lines[..|lines| - 1]);
    }
  }
}
