/** Cross references: one circular list for each symbol, entered at its rear,
    handled through pointers into a buffer pool of three buffers or more. */
module Xref {
  import Store = PagedStore

  /** The records of one symbol in the order they were made, rear last. */
  predicate Ring(c: seq<nat>, lnk: map<nat, nat>, rear: nat) {
    && (if |c| == 0 then rear == 0 else rear == c[|c| - 1])
    && (forall j, k :: 0 <= j < k < |c| ==> c[j] != c[k])
    && (forall k :: 0 <= k < |c| ==> c[k] in lnk && c[k] != 0)
    && (forall k {:trigger lnk[c[k]]} :: 0 <= k < |c| ==> lnk[c[k]] == c[if k + 1 < |c| then k + 1 else 0])
  }

  lemma RingAt(c: seq<nat>, lnk: map<nat, nat>, rear: nat, k: nat)
    requires Ring(c, lnk, rear) && k < |c|
    ensures c[k] in lnk && lnk[c[k]] == c[if k + 1 < |c| then k + 1 else 0]
  {
    assert lnk[c[k]] == lnk[c[k]];
  }

  lemma RingEnd(c: seq<nat>, lnk: map<nat, nat>, rear: nat, k: nat)
    requires Ring(c, lnk, rear) && k < |c|
    ensures c[k] == rear <==> k == |c| - 1
  {
  }

  /** A record put in behind the rear. */
  lemma RingAppend(c: seq<nat>, lnk: map<nat, nat>, rear: nat, r: nat)
    requires Ring(c, lnk, rear) && r != 0 && r !in lnk
    ensures |c| == 0 ==> Ring([r], lnk[r := r], r)
    ensures |c| > 0 ==> rear in lnk && Ring(c + [r], lnk[r := lnk[rear]][rear := r], r)
  {
    if |c| > 0 {
      var d, l := c + [r], lnk[r := lnk[rear]][rear := r];
      RingAt(c, lnk, rear, |c| - 1);
      forall k | 0 <= k < |d| ensures d[k] in l && d[k] != 0 && l[d[k]] == d[if k + 1 < |d| then k + 1 else 0] {
        if k < |c| {
          RingAt(c, lnk, rear, k);
        }
      }
    }
  }

  /** A ring does not notice changes outside it. */
  lemma RingKept(c: seq<nat>, lnk: map<nat, nat>, lnk': map<nat, nat>, rear: nat)
    requires Ring(c, lnk, rear) && forall x :: x in c ==> x in lnk ==> x in lnk' && lnk'[x] == lnk[x]
    ensures Ring(c, lnk', rear)
  {
    forall k | 0 <= k < |c| ensures c[k] in lnk' && lnk'[c[k]] == c[if k + 1 < |c| then k + 1 else 0] {
      RingAt(c, lnk, rear, k);
    }
  }

  predicate Owned(c: seq<nat>, owner: map<nat, nat>, sym: nat) {
    forall x :: x in c ==> x in owner && owner[x] == sym
  }

  predicate SymOk(sym: nat, rings: map<nat, seq<nat>>, lnk: map<nat, nat>, rear: map<nat, nat>, owner: map<nat, nat>) {
    sym in rings && sym in rear && Ring(rings[sym], lnk, rear[sym]) && Owned(rings[sym], owner, sym)
  }

  predicate AllOk(rings: map<nat, seq<nat>>, lnk: map<nat, nat>, rear: map<nat, nat>, owner: map<nat, nat>) {
    && rings.Keys == rear.Keys && owner.Keys <= lnk.Keys
    && forall sym {:trigger SymOk(sym, rings, lnk, rear, owner)} :: sym in rings ==> SymOk(sym, rings, lnk, rear, owner)
  }

  /** One symbol's ring has grown by r. */
  lemma AllGrown(rings: map<nat, seq<nat>>, lnk: map<nat, nat>, rear: map<nat, nat>, owner: map<nat, nat>,
                 sym: nat, r: nat, rings': map<nat, seq<nat>>, lnk': map<nat, nat>, rear': map<nat, nat>,
                 owner': map<nat, nat>)
    requires AllOk(rings, lnk, rear, owner) && sym in rings && r != 0 && r !in lnk
    requires rings' == rings[sym := rings[sym] + [r]] && rear' == rear[sym := r] && owner' == owner[r := sym]
    requires if rear[sym] == 0 then lnk' == lnk[r := r]
      else rear[sym] in lnk && lnk' == lnk[r := lnk[rear[sym]]][rear[sym] := r]
    ensures AllOk(rings', lnk', rear', owner')
  {
    forall s | s in rings' ensures SymOk(s, rings', lnk', rear', owner') {
      assert SymOk(s, rings, lnk, rear, owner);
      if s == sym {
        RingAppend(rings[s], lnk, rear[s], r);
        assert rings[s] == [] ==> rings[s] + [r] == [r];
      } else {
        assert SymOk(sym, rings, lnk, rear, owner);
        forall x | x in rings[s] ensures x in lnk' && lnk'[x] == lnk[x] {}
        RingKept(rings[s], lnk, lnk', rear[s]);
      }
    }
  }

  function LineAt(pl: map<nat, int>, r: nat): int { if r in pl then pl[r] else 0 }

  function Lines(c: seq<nat>, pl: map<nat, int>): (s: seq<int>)
    ensures |s| == |c|
  {
    if |c| == 0 then [] else Lines(c[..|c| - 1], pl) + [LineAt(pl, c[|c| - 1])]
  }

  lemma {:induction false} LinesKept(c: seq<nat>, pl: map<nat, int>, pl': map<nat, int>)
    requires forall x :: x in c ==> LineAt(pl', x) == LineAt(pl, x)
    ensures Lines(c, pl') == Lines(c, pl)
  {
    if |c| > 0 {
      LinesKept(c[..|c| - 1], pl, pl');
    }
  }

  class Xrefs {
    const nbuf: nat
    var rear: map<nat, nat>
    var lnk: map<nat, nat>
    var pl: map<nat, int>
    var virtop: nat
    ghost var trace: seq<int>
    ghost var rings: map<nat, seq<nat>>
    ghost var owner: map<nat, nat>

    ghost predicate Valid()
      reads `rings, `lnk, `rear, `owner, `pl, `virtop
    {
      && AllOk(rings, lnk, rear, owner) && lnk.Keys == pl.Keys
      && virtop >= 2 && forall x :: x in lnk ==> 0 < x < virtop
    }

    /** The lines entered for the symbol, in order. */
    ghost function Entries(sym: nat): seq<int>
      requires sym in rings
      reads `rings, `pl
    {
      Lines(rings[sym], pl)
    }

    /** The symbol's last line is this one. */
    ghost predicate Last(sym: nat, line: int)
      reads this
    {
      sym in rear && rear[sym] != 0 && LineAt(pl, rear[sym]) == line
    }

    constructor (nbuf: nat, syms: set<nat>)
      ensures Valid() && this.nbuf == nbuf && rings.Keys == syms
    {
      this.nbuf := nbuf;
      rear := map s | s in syms :: 0;
      rings := map s | s in syms :: [];
      lnk, pl, owner, virtop, trace := map[], map[], map[], 2, [];
    }

    ghost predicate Live(adr: nat, at: nat)
      reads this
    {
      at <= |trace| && |Store.Others(trace[at..], adr / Store.BLOCK)| < nbuf
    }

    method Wfetch(adr: nat) returns (ghost at: nat)
      modifies this`trace
      ensures at == |trace| == old(|trace|) + 1 && trace == old(trace) + [adr / Store.BLOCK]
    {
      trace := trace + [adr / Store.BLOCK];
      at := |trace|;
    }

    method Rear(sym: nat, ghost at: nat) returns (r: nat)
      requires Live(sym, at) && sym in rear
      ensures r == rear[sym]
    {
      r := rear[sym];
    }

    /** A new record, aligned. */
    method NewRecord() returns (r: nat)
      requires virtop >= 2
      modifies this`virtop
      ensures r >= old(virtop) && virtop == r + 4
    {
      if virtop % 2 == 1 {
        virtop := virtop + 1;
      }
      var alloc := new Store.Allocator();
      alloc.virtop := virtop;
      r := alloc.Vmalloc(4);
      virtop := alloc.virtop;
    }

    /** The first record of a symbol, a ring by itself. */
    method FirstRecord() returns (r: nat)
      requires virtop >= 2 && nbuf >= 1
      modifies this`virtop, this`trace, this`lnk
      ensures r >= old(virtop) && virtop == r + 4 && lnk == old(lnk)[r := r] && |trace| == old(|trace|) + 1
    {
      r := NewRecord();
      ghost var nt: nat := Wfetch(r);
      Store.OthersCount(trace[nt..], r / Store.BLOCK);
      assert Live(r, nt);
      lnk := lnk[r := r];
    }

    /** A record put in between the rear and the first. */
    method NextRecord(tail: nat, ghost ot: nat) returns (r: nat)
      requires virtop >= 2 && nbuf >= 2 && tail in lnk && ot == |trace|
      modifies this`virtop, this`trace, this`lnk
      ensures r >= old(virtop) && virtop == r + 4 && |trace| == old(|trace|) + 1
      ensures lnk == old(lnk)[r := old(lnk)[tail]][tail := r]
    {
      r := NewRecord();
      ghost var nt: nat := Wfetch(r);
      Store.OthersCount(trace[nt..], r / Store.BLOCK);
      Store.OthersCount(trace[ot..], tail / Store.BLOCK);
      assert Live(r, nt) && Live(tail, ot);
      lnk := lnk[r := lnk[tail]][tail := r];
    }

    /** The record for the line; none if the last one entered is for it already. */
    method Record(sym: nat, line: int, ghost st: nat) returns (r: nat)
      requires Valid() && sym in rings && nbuf >= 3 && st == |trace|
      modifies this`virtop, this`trace, this`lnk
      ensures virtop >= old(virtop) && |trace| <= st + 2 && st <= |trace|
      ensures r == 0 <==> Last(sym, line)
      ensures r == 0 ==> lnk == old(lnk) && virtop == old(virtop)
      ensures r != 0 ==> r !in old(lnk) && r < virtop && sym in rear && (rear[sym] != 0 ==> rear[sym] in old(lnk))
      ensures r != 0 ==> lnk == if rear[sym] == 0 then old(lnk)[r := r]
        else old(lnk)[r := old(lnk)[rear[sym]]][rear[sym] := r]
    {
      assert SymOk(sym, rings, lnk, rear, owner);
      Store.OthersCount(trace[st..], sym / Store.BLOCK);
      var tail := Rear(sym, st);
      if tail == 0 {
        r := FirstRecord();
      } else {
        ghost var ot: nat := Wfetch(tail);
        Store.OthersCount(trace[ot..], tail / Store.BLOCK);
        assert Live(tail, ot);
        if pl[tail] == line {
          return 0;
        }
        r := NextRecord(tail, ot);
      }
    }

    /** Makes the record the symbol's last. */
    method Commit(sym: nat, r: nat, line: int, ghost st: nat, ghost lnk0: map<nat, nat>)
      requires AllOk(rings, lnk0, rear, owner) && lnk0.Keys == pl.Keys && sym in rings && r != 0 && r !in lnk0
      requires sym in rear && (rear[sym] != 0 ==> rear[sym] in lnk0) && Live(sym, st) && virtop >= 2
      requires lnk == if rear[sym] == 0 then lnk0[r := r] else lnk0[r := lnk0[rear[sym]]][rear[sym] := r]
      requires forall x :: x in lnk ==> 0 < x < virtop
      modifies this`pl, this`rear, this`rings, this`owner
      ensures Valid() && rings == old(rings)[sym := old(rings)[sym] + [r]] && pl == old(pl)[r := line]
    {
      ghost var rings0, rear0, owner0 := rings, rear, owner;
      pl := pl[r := line];
      rear := rear[sym := r];
      rings, owner := rings[sym := rings[sym] + [r]], owner[r := sym];
      AllGrown(rings0, lnk0, rear0, owner0, sym, r, rings, lnk, rear, owner);
    }

    /** Enters a line for the symbol, unless it is the one entered last. */
    method Enter(sym: nat, line: int)
      requires Valid() && sym in rings && nbuf >= 3
      modifies this
      ensures Valid() && rings.Keys == old(rings.Keys)
      ensures Entries(sym) == Extended(old(Entries(sym)), line)
      ensures forall s :: s in rings && s != sym ==> Entries(s) == old(Entries(s))
    {
      LastLine(rings, lnk, rear, owner, pl, sym, line);
      ghost var rings0, lnk0, rear0, owner0, pl0 := rings, lnk, rear, owner, pl;
      ghost var st: nat := Wfetch(sym);
      var r := Record(sym, line, st);
      if r != 0 {
        Store.OthersCount(trace[st..], sym / Store.BLOCK);
        Commit(sym, r, line, st, lnk0);
        Entered(rings0, lnk0, rear0, owner0, pl0, rings, pl, sym, r, line);
      }
    }

    /** Follows a record's link and reads the record there. */
    method NextLine(xr: nat, ghost at: nat, ghost c: seq<nat>, ghost tail: nat, ghost i: nat)
        returns (nx: nat, line: int, ghost at': nat)
      requires Ring(c, lnk, tail) && i < |c| && xr == c[i] && at == |trace| && nbuf >= 1 && lnk.Keys == pl.Keys
      modifies this`trace
      ensures nx == c[if i + 1 < |c| then i + 1 else 0] && line == LineAt(pl, nx) && at' == |trace|
    {
      Store.OthersCount(trace[at..], xr / Store.BLOCK);
      assert Live(xr, at);
      RingAt(c, lnk, tail, i);
      nx := lnk[xr];
      at' := Wfetch(nx);
      Store.OthersCount(trace[at'..], nx / Store.BLOCK);
      assert Live(nx, at');
      line := pl[nx];
    }

    /** The listing of one symbol: once round the ring, from behind the rear. */
    method Putxref(sym: nat) returns (out: seq<int>)
      requires Valid() && sym in rings && nbuf >= 1
      modifies this`trace
      ensures Valid() && out == Entries(sym)
    {
      assert SymOk(sym, rings, lnk, rear, owner);
      ghost var st: nat := Wfetch(sym);
      Store.OthersCount(trace[st..], sym / Store.BLOCK);
      var tail := Rear(sym, st);
      out := [];
      if tail != 0 {
        out := PutRing(rings[sym], tail);
      }
    }

    /** Once round a ring that is not empty. */
    method PutRing(ghost c: seq<nat>, tail: nat) returns (out: seq<int>)
      requires Ring(c, lnk, tail) && |c| > 0 && lnk.Keys == pl.Keys && nbuf >= 1
      modifies this`trace
      ensures out == Lines(c, pl)
    {
      ghost var at: nat := Wfetch(tail);
      var xr := tail;
      ghost var k := 0;
      out := [];
      while true
        invariant 0 <= k < |c| && at == |trace| && xr == c[if k == 0 then |c| - 1 else k - 1]
        invariant out == Lines(c[..k], pl)
        decreases |c| - k
      {
        var line;
        xr, line, at := NextLine(xr, at, c, tail, if k == 0 then |c| - 1 else k - 1);
        out := out + [line];
        assert c[..k + 1][..k] == c[..k];
        RingEnd(c, lnk, tail, k);
        k := k + 1;
        if xr == tail {
          break;
        }
      }
      assert c[..k] == c;
    }
  }

  lemma LastLine(rings: map<nat, seq<nat>>, lnk: map<nat, nat>, rear: map<nat, nat>, owner: map<nat, nat>,
                 pl: map<nat, int>, sym: nat, line: int)
    requires AllOk(rings, lnk, rear, owner) && sym in rings
    ensures sym in rear
    ensures Extended(Lines(rings[sym], pl), line) ==
      if rear[sym] != 0 && LineAt(pl, rear[sym]) == line then Lines(rings[sym], pl) else Lines(rings[sym], pl) + [line]
  {
    assert SymOk(sym, rings, lnk, rear, owner);
  }

  /** A line is not entered twice in a row. */
  function Extended(e: seq<int>, line: int): seq<int> {
    if |e| > 0 && e[|e| - 1] == line then e else e + [line]
  }

  lemma Entered(rings: map<nat, seq<nat>>, lnk: map<nat, nat>, rear: map<nat, nat>, owner: map<nat, nat>,
            pl: map<nat, int>,
                rings': map<nat, seq<nat>>, pl': map<nat, int>, sym: nat, r: nat, line: int)
    requires AllOk(rings, lnk, rear, owner) && sym in rings && r !in lnk && lnk.Keys == pl.Keys
    requires rings' == rings[sym := rings[sym] + [r]] && pl' == pl[r := line]
    ensures Lines(rings'[sym], pl') == Lines(rings[sym], pl) + [line]
    ensures forall s :: s in rings && s != sym ==> Lines(rings'[s], pl') == Lines(rings[s], pl)
  {
    forall s | s in rings ensures Lines(rings[s], pl') == Lines(rings[s], pl) {
      assert SymOk(s, rings, lnk, rear, owner);
      LinesKept(rings[s], pl, pl');
    }
    assert rings'[sym][..|rings[sym]|] == rings[sym];
  }
}
