/** The Z8000 assembler's conditionals: two counters, the nesting depth and the
    depth down to which every condition is true. */
module CondAsm {
  import opened Conditionals

  /** The number of true conditions before the first false one. */
  function TruePrefix(stack: seq<bool>): (n: nat)
    ensures n <= |stack|
    ensures forall i :: 0 <= i < n ==> stack[i]
    ensures n < |stack| ==> !stack[n]
  {
    if |stack| == 0 || !stack[0] then 0 else 1 + TruePrefix(stack[1..])
  }

  lemma TruePrefixIs(stack: seq<bool>, n: nat)
    requires n <= |stack| && (forall i :: 0 <= i < n ==> stack[i]) && (n < |stack| ==> !stack[n])
    ensures TruePrefix(stack) == n
  {
  }

  lemma LivePrefix(stack: seq<bool>)
    ensures Live(stack) <==> TruePrefix(stack) == |stack|
  {
  }

  lemma Pushed(stack: seq<bool>, b: bool)
    ensures TruePrefix(stack + [b]) == if Live(stack) && b then |stack| + 1 else TruePrefix(stack)
  {
    var n := TruePrefix(stack);
    LivePrefix(stack);
    TruePrefixIs(stack + [b], if Live(stack) && b then |stack| + 1 else n);
  }

  lemma Flipped(stack: seq<bool>)
    requires |stack| > 0
    ensures var k, n := |stack|, TruePrefix(stack);
      TruePrefix(stack[k - 1 := !stack[k - 1]]) == if n == k then k - 1 else if n == k - 1 then k else n
  {
    var k, n := |stack|, TruePrefix(stack);
    TruePrefixIs(stack[k - 1 := !stack[k - 1]], if n == k then k - 1 else if n == k - 1 then k else n);
  }

  lemma Popped(stack: seq<bool>)
    requires |stack| > 0
    ensures var k, n := |stack|, TruePrefix(stack);
      TruePrefix(stack[..k - 1]) == if n == k then k - 1 else n
  {
    var k, n := |stack|, TruePrefix(stack);
    TruePrefixIs(stack[..k - 1], if n == k then k - 1 else n);
  }

  class Assembler {
    var condlev: nat
    var truelev: nat
    var out: seq<string>
    var errors: nat
    ghost var st: State

    /** The counters stand for the stack. */
    ghost predicate Valid()
      reads this
    {
      && condlev == |st.stack| && truelev == TruePrefix(st.stack)
      && out == st.out && errors == st.errors
    }

    constructor ()
      ensures Valid() && st == State([], [], 0)
    {
      condlev, truelev, out, errors := 0, 0, [], 0;
      st := State([], [], 0);
    }

    /** A statement while assembling. */
    method Assem1(l: Line)
      requires Valid() && condlev <= truelev
      modifies this
      ensures Valid() && st == Step(old(st), l)
    {
      LivePrefix(st.stack);
      match l
      case If(c) =>
        Pushed(st.stack, c);
        condlev := condlev + 1;
        if c {
          truelev := truelev + 1;
        }
        st := Step(st, l);
      case Else =>
        if truelev > 0 {
          Flipped(st.stack);
          truelev := truelev - 1;
        } else {
          errors := errors + 1;
        }
        st := Step(st, l);
      case Endif =>
        if condlev > 0 {
          Popped(st.stack);
          condlev := condlev - 1;
          truelev := truelev - 1;
        } else {
          errors := errors + 1;
        }
        st := Step(st, l);
      case Text(s) =>
        out := out + [s];
        st := Step(st, l);
    }

    /** A statement while skipping. */
    method Skip1(l: Line)
      requires Valid() && condlev > truelev
      modifies this
      ensures Valid() && st == Step(old(st), l)
    {
      LivePrefix(st.stack);
      match l
      case If(c) =>
        Pushed(st.stack, false);
        condlev := condlev + 1;
        st := Step(st, l);
      case Else =>
        Flipped(st.stack);
        if truelev == condlev - 1 {
          truelev := truelev + 1;
        }
        st := Step(st, l);
      case Endif =>
        Popped(st.stack);
        condlev := condlev - 1;
        st := Step(st, l);
      case Text(_) =>
        st := Step(st, l);
    }

    /** A pass over the source. */
    method Dopass(lines: seq<Line>)
      requires Valid()
      modifies this
      ensures Valid() && st == Run(old(st), lines) && truelev <= condlev
    {
      for i := 0 to |lines|
        invariant Valid() && st == Run(old(st), lines[..i])
      {
        if condlev > truelev {
          Skip1(lines[i]);
        } else {
          Assem1(lines[i]);
        }
        assert lines[..i + 1][..i] == lines[..i];
      }
      assert lines[..|lines|] == lines;
    }
  }
}
