/** The preprocessor's conditionals: a bounded stack of skip marks and a count
    of the marks on it. */
module CppCond {
  import opened Conditionals

  const CSTKSIZE := 20
  const SKIP := 0
  const NOSKIP := 1

  /** How many entries say skip. */
  function Skips(s: seq<int>): nat {
    if |s| == 0 then 0 else Skips(s[..|s| - 1]) + (if s[|s| - 1] == SKIP then 1 else 0)
  }

  predicate Marks(s: seq<int>, stack: seq<bool>) {
    |s| == |stack| && forall i :: 0 <= i < |s| ==> s[i] == if stack[i] then NOSKIP else SKIP
  }

  lemma {:induction false} SkipsLive(s: seq<int>, stack: seq<bool>)
    requires Marks(s, stack)
    ensures Skips(s) == 0 <==> Live(stack)
  {
    if |s| > 0 {
      var n := |s| - 1;
      SkipsLive(s[..n], stack[..n]);
      if Live(stack[..n]) && stack[n] {
        forall i | 0 <= i < |stack| ensures stack[i] {
          assert i < n ==> stack[..n][i];
        }
      }
      if Live(stack) {
        forall i | 0 <= i < n ensures stack[..n][i] {}
      }
    }
  }

  /** The marks stand for the stack, and skip counts them. */
  predicate Stands(s: seq<int>, skip: nat, stack: seq<bool>) {
    Marks(s, stack) && skip == Skips(s)
  }

  lemma StandsPush(s: seq<int>, skip: nat, stack: seq<bool>, s': seq<int>, b: bool)
    requires Stands(s, skip, stack) && s' == s + [if b then NOSKIP else SKIP]
    ensures Stands(s', skip + (if b then 0 else 1), stack + [b])
  {
    assert s'[..|s|] == s;
  }

  lemma StandsPop(s: seq<int>, skip: nat, stack: seq<bool>, s': seq<int>, val: int)
    requires Stands(s, skip, stack) && s == s' + [val]
    ensures |stack| > 0 && val == (if stack[|stack| - 1] then NOSKIP else SKIP)
    ensures val == SKIP ==> skip > 0
    ensures Stands(s', if val == SKIP then skip - 1 else skip, stack[..|stack| - 1])
  {
    assert s[..|s'|] == s';
  }

  lemma TopFlipped(stack: seq<bool>, b: bool)
    requires |stack| > 0 && stack[|stack| - 1] == !b
    ensures stack[|stack| - 1 := !stack[|stack| - 1]] == stack[..|stack| - 1] + [b]
  {
  }

  class Preprocessor {
    const cstack: array<int>
    var cstkptr: nat
    var skip: nat
    var out: seq<string>
    var errors: nat
    var overflow: bool
    ghost var st: State

    ghost predicate Valid()
      reads this, cstack
    {
      && cstack.Length == CSTKSIZE && cstkptr <= CSTKSIZE
      && Stands(cstack[..cstkptr], skip, st.stack)
      && out == st.out && errors == st.errors
    }

    constructor ()
      ensures Valid() && st == State([], [], 0) && !overflow && fresh(cstack)
    {
      cstack := new int[CSTKSIZE](_ => 0);
      cstkptr, skip, out, errors, overflow := 0, 0, [], 0, false;
      st := State([], [], 0);
    }

    /** Too deep a nesting ends the run. */
    method Push(val: int)
      requires cstack.Length == CSTKSIZE && cstkptr <= CSTKSIZE && !overflow
      modifies this`cstkptr, this`overflow, cstack
      ensures overflow <==> old(cstkptr) == CSTKSIZE
      ensures if overflow then cstkptr == old(cstkptr) && cstack[..cstkptr] == old(cstack[..cstkptr])
        else cstkptr == old(cstkptr) + 1 && cstack[..cstkptr] == old(cstack[..cstkptr]) + [val]
    {
      if cstkptr >= CSTKSIZE {
        overflow := true;
        return;
      }
      cstack[cstkptr] := val;
      cstkptr := cstkptr + 1;
    }

    method Pop() returns (val: int)
      requires cstack.Length == CSTKSIZE && cstkptr <= CSTKSIZE
      modifies this`cstkptr
      ensures if old(cstkptr) == 0 then val == -1 && cstkptr == 0
        else cstkptr == old(cstkptr) - 1 && old(cstack[..cstkptr]) == cstack[..cstkptr] + [val]
    {
      if cstkptr == 0 {
        return -1;
      }
      cstkptr := cstkptr - 1;
      val := cstack[cstkptr];
    }

    /** #if: the condition is evaluated only when nothing is skipped. */
    method DoIf(c: bool)
      requires Valid() && !overflow
      modifies this`cstkptr, this`overflow, this`skip, this`st, cstack
      ensures overflow <==> |old(st).stack| == 20
      ensures !overflow ==> Valid() && st == Step(old(st), If(c))
    {
      ghost var s0 := cstack[..cstkptr];
      SkipsLive(s0, st.stack);
      var live := skip == 0 && c;
      if live {
        Push(NOSKIP);
      } else {
        Push(SKIP);
        skip := skip + 1;
      }
      if !overflow {
        StandsPush(s0, if live then skip else skip - 1, st.stack, cstack[..cstkptr], live);
      }
      st := Step(st, If(c));
    }

    /** #endif */
    method DoEndif()
      requires Valid() && !overflow
      modifies this`cstkptr, this`skip, this`errors, this`st
      ensures Valid() && st == Step(old(st), Endif)
    {
      ghost var s0, skip0 := cstack[..cstkptr], skip;
      var i := Pop();
      if |s0| > 0 {
        StandsPop(s0, skip0, st.stack, cstack[..cstkptr], i);
      }
      if i == SKIP {
        skip := skip - 1;
      } else if i != NOSKIP {
        errors := errors + 1;
      }
      st := Step(st, Endif);
    }

    /** #else */
    method DoElse()
      requires Valid() && !overflow
      modifies this`cstkptr, this`overflow, this`skip, this`errors, this`st, cstack
      ensures !overflow && Valid() && st == Step(old(st), Else)
    {
      ghost var s0, skip0 := cstack[..cstkptr], skip;
      var i := Pop();
      ghost var s1 := cstack[..cstkptr];
      if |s0| > 0 {
        StandsPop(s0, skip0, st.stack, s1, i);
      }
      if i == SKIP {
        skip := skip - 1;
        Push(NOSKIP);
      } else if i == NOSKIP {
        skip := skip + 1;
        Push(SKIP);
      } else {
        errors := errors + 1;
      }
      if |s0| > 0 {
        StandsPush(s1, if i == SKIP then skip else skip - 1, st.stack[..|st.stack| - 1], cstack[..cstkptr], i == SKIP);
        TopFlipped(st.stack, i == SKIP);
      }
      st := Step(st, Else);
    }

    /** One line. */
    method Getaline(l: Line)
      requires Valid() && !overflow
      modifies this, cstack
      ensures overflow <==> l.If? && |old(st).stack| == 20
      ensures !overflow ==> Valid() && st == Step(old(st), l)
    {
      match l
      case If(c) =>
        DoIf(c);
      case Else =>
        DoElse();
      case Endif =>
        DoEndif();
      case Text(s) =>
        SkipsLive(cstack[..cstkptr], st.stack);
        if skip == 0 {
          out := out + [s];
        }
        st := Step(st, l);
    }

    /** The whole text, unless it nests too deeply. */
    method Domacro(lines: seq<Line>)
      requires Valid() && !overflow
      modifies this, cstack
      ensures !overflow ==> Valid() && st == Run(old(st), lines)
      ensures overflow ==> exists k :: 0 <= k < |lines| && lines[k].If? && |Run(old(st), lines[..k]).stack| == 20
    {
      var i := 0;
      while i < |lines| && !overflow
        invariant 0 <= i <= |lines|
        invariant !overflow ==> Valid() && st == Run(old(st), lines[..i])
        invariant overflow ==> i > 0 && lines[i - 1].If? && |Run(old(st), lines[..i - 1]).stack| == CSTKSIZE
        decreases |lines| - i
      {
        Getaline(lines[i]);
        assert lines[..i + 1][..i] == lines[..i];
        i := i + 1;
      }
      assert lines[..|lines|] == lines;
    }
  }
}
