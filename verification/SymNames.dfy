/** The order on symbols that the Z8000 assembler's chains and sort rely on. */
module SymNames {

  const SYMSIZ := 8

  /** A symbol: one to eight characters, none of them NUL. */
  predicate Symbol(s: string) { 1 <= |s| <= 8 && '\0' !in s }

  /** The character at place i of a symbol's field; NUL behind its end. */
  function CharAt(s: string, i: nat): int { if i < |s| then s[i] as int else 0 }

  /** Negative, zero or positive as a is before, at or behind b. */
  function Cmp(a: string, b: string): int {
    if |a| == 0 || |b| == 0 then CharAt(a, 0) - CharAt(b, 0)
    else if a[0] != b[0] then a[0] as int - b[0] as int
    else Cmp(a[1..], b[1..])
  }

  predicate NoNul(s: string) { '\0' !in s }

  lemma {:induction false} CmpTail(a: string, b: string, i: nat)
    requires i <= |a| && i <= |b| && a[..i] == b[..i]
    ensures Cmp(a, b) == Cmp(a[i..], b[i..])
    decreases i
  {
    if i == 0 {
      assert a[0..] == a && b[0..] == b;
    } else {
      assert a[0] == a[..i][0] == b[..i][0] == b[0];
      assert a[1..][..i - 1] == a[..i][1..] == b[..i][1..] == b[1..][..i - 1];
      CmpTail(a[1..], b[1..], i - 1);
      assert a[1..][i - 1..] == a[i..] && b[1..][i - 1..] == b[i..];
    }
  }

  /** The symbols agree in their first k characters; a ends there before b does, or
      has the smaller character there. */
  predicate SplitsAt(a: string, b: string, k: nat) {
    k <= |a| && k < |b| && a[..k] == b[..k] && (k == |a| || a[k] < b[k])
  }

  /** a comes before b in the alphabet. */
  predicate Earlier(a: string, b: string) { exists k :: 0 <= k <= |a| && SplitsAt(a, b, k) }

  lemma EarlierTail(a: string, b: string)
    requires |a| > 0 && |b| > 0 && a[0] == b[0]
    ensures Earlier(a, b) <==> Earlier(a[1..], b[1..])
  {
    if Earlier(a, b) {
      var k :| 0 <= k <= |a| && SplitsAt(a, b, k);
      assert a[1..][..k - 1] == a[..k][1..] && b[1..][..k - 1] == b[..k][1..];
      assert SplitsAt(a[1..], b[1..], k - 1);
    }
    if Earlier(a[1..], b[1..]) {
      var k :| 0 <= k <= |a[1..]| && SplitsAt(a[1..], b[1..], k);
      assert a[..k + 1] == [a[0]] + a[1..][..k] && b[..k + 1] == [b[0]] + b[1..][..k];
      assert SplitsAt(a, b, k + 1);
    }
  }

  /** The sign of the comparison is the order of the alphabet. */
  lemma {:induction false} CmpOrders(a: string, b: string)
    requires NoNul(a) && NoNul(b)
    ensures Cmp(a, b) < 0 <==> Earlier(a, b)
  {
    if |a| > 0 { NoNulTail(a); }
    if |b| > 0 { NoNulTail(b); }
    if |a| > 0 && |b| > 0 && a[0] == b[0] {
      CmpOrders(a[1..], b[1..]);
      EarlierTail(a, b);
    } else {
      assert |b| > 0 && (|a| == 0 || a[0] < b[0]) <==> SplitsAt(a, b, 0);
      forall k | 0 < k <= |a| ensures !SplitsAt(a, b, k) {
        assert k <= |b| ==> a[..k][0] == a[0] && b[..k][0] == b[0];
      }
    }
  }

  /** Compares at most SYMSIZ characters, stopping at the end of both. */
  method Symcmp(a: string, b: string) returns (r: int)
    requires |a| <= 8 && |b| <= 8 && NoNul(a) && NoNul(b)
    ensures r == Cmp(a, b)
    ensures (r < 0 <==> Earlier(a, b)) && (r == 0 <==> a == b) && (r > 0 <==> Earlier(b, a))
  {
    CmpOrders(a, b);
    CmpOrders(b, a);
    CmpZero(a, b);
    CmpAnti(a, b);
    var i := 0;
    while i < SYMSIZ && CharAt(a, i) == CharAt(b, i)
      invariant 0 <= i <= |a| && i <= |b| && i <= SYMSIZ && a[..i] == b[..i]
    {
      CmpTail(a, b, i);
      if CharAt(a, i) == 0 {
        NulAtEnd(a, i);
        NulAtEnd(b, i);
        return 0;
      }
      NulAtEnd(a, i);
      NulAtEnd(b, i);
      assert a[..i + 1] == a[..i] + [a[i]] && b[..i + 1] == b[..i] + [b[i]];
      i := i + 1;
    }
    CmpTail(a, b, i);
    r := if i == SYMSIZ then 0 else CharAt(a, i) - CharAt(b, i);
    if i < |a| && i < |b| {
      assert a[i..][0] == a[i] && b[i..][0] == b[i];
    }
  }

  lemma NulAtEnd(s: string, i: nat)
    requires NoNul(s) && i <= |s|
    ensures CharAt(s, i) == 0 <==> i == |s|
  {
    if i < |s| {
      assert s[i] in s;
    }
  }

  lemma NoNulTail(s: string)
    requires NoNul(s) && |s| > 0
    ensures NoNul(s[1..]) && s[0] as int > 0
  {
    assert s[0] in s;
    forall c | c in s[1..] ensures c in s {}
  }

  /** Only equal symbols compare equal. */
  lemma {:induction false} CmpZero(a: string, b: string)
    requires NoNul(a) && NoNul(b)
    ensures Cmp(a, b) == 0 <==> a == b
  {
    if |a| > 0 { NoNulTail(a); }
    if |b| > 0 { NoNulTail(b); }
    if |a| > 0 && |b| > 0 && a[0] == b[0] {
      CmpZero(a[1..], b[1..]);
      assert a == [a[0]] + a[1..] && b == [b[0]] + b[1..];
    }
  }

  lemma {:induction false} CmpAnti(a: string, b: string)
    ensures Cmp(b, a) == -Cmp(a, b)
  {
    if |a| > 0 && |b| > 0 && a[0] == b[0] {
      CmpAnti(a[1..], b[1..]);
    }
  }

  lemma {:induction false} CmpTrans(a: string, b: string, c: string)
    requires NoNul(a) && NoNul(b) && NoNul(c) && Cmp(a, b) < 0 && Cmp(b, c) < 0
    ensures Cmp(a, c) < 0
  {
    if |b| > 0 { NoNulTail(b); }
    if |c| > 0 { NoNulTail(c); }
    if |a| > 0 {
      NoNulTail(a);
      if |b| > 0 && |c| > 0 && a[0] == b[0] == c[0] {
        CmpTrans(a[1..], b[1..], c[1..]);
      }
    }
  }
}
