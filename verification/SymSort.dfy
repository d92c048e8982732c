/** Sorting the whole symbol table: the hash chains are merged pairwise in
    place, through pointers into the buffer pool that must not go stale. */
module SymSort {
  import opened SymNames
  import Store = PagedStore
  import Index = SymIndex

  function Next(c: seq<nat>, k: nat): nat { if k < |c| then c[k] else 0 }

  // ---- links ----

  predicate LinkOk(c: seq<nat>, links: map<nat, nat>, k: nat)
    requires k < |c|
  {
    c[k] in links && c[k] != 0 && links[c[k]] == Next(c, k + 1)
  }

  /** From first on, the links lead along c and end in 0. */
  predicate Path(c: seq<nat>, links: map<nat, nat>, first: nat) {
    && first == Next(c, 0)
    && forall k {:trigger LinkOk(c, links, k)} :: 0 <= k < |c| ==> LinkOk(c, links, k)
  }

  lemma PathAt(c: seq<nat>, links: map<nat, nat>, first: nat, k: nat)
    requires Path(c, links, first) && k < |c|
    ensures c[k] in links && c[k] != 0 && links[c[k]] == Next(c, k + 1)
  {
    assert LinkOk(c, links, k);
  }

  lemma PathTail(c: seq<nat>, d: seq<nat>, links: map<nat, nat>, first: nat)
    requires Path(c + d, links, first)
    ensures Path(d, links, Next(d, 0))
  {
    forall k | 0 <= k < |d| ensures LinkOk(d, links, k) {
      PathAt(c + d, links, first, |c| + k);
    }
  }

  predicate Distinct(c: seq<nat>) { forall j, k :: 0 <= j < k < |c| ==> c[j] != c[k] }

  /** Redirecting the end of d from x to y. */
  lemma PathJoin(d: seq<nat>, x: seq<nat>, y: seq<nat>, links: map<nat, nat>, r: nat, b: nat)
    requires |d| >= 1 && Path(d + x, links, r) && Path(y, links, b) && Distinct(d + x)
    requires d[|d| - 1] !in y
    ensures var links' := links[d[|d| - 1] := b]; Path(d + y, links', r) && Path(x, links', Next(x, 0))
  {
    var n := |d| - 1;
    var s, u, links' := d + x, d + y, links[d[n] := b];
    forall k | 0 <= k < |u| ensures LinkOk(u, links', k) {
      if k < |d| {
        PathAt(s, links, r, k);
        assert k < n ==> s[k] != s[n];
      } else {
        PathAt(y, links, b, k - |d|);
      }
    }
    PathTail(d, x, links, r);
    forall k | 0 <= k < |x| ensures LinkOk(x, links', k) {
      PathAt(x, links, Next(x, 0), k);
      assert s[|d| + k] == x[k] && s[n] == d[n];
    }
  }

  // ---- order ----

  predicate Named(c: seq<nat>, names: map<nat, string>) {
    forall k :: 0 <= k < |c| ==> c[k] in names && Symbol(names[c[k]])
  }

  function Name(names: map<nat, string>, x: nat): string { if x in names then names[x] else "" }

  predicate Less(names: map<nat, string>, x: nat, y: nat) { Cmp(Name(names, x), Name(names, y)) < 0 }

  predicate Ascending(c: seq<nat>, names: map<nat, string>) {
    forall j, k :: 0 <= j < k < |c| ==> Less(names, c[j], c[k])
  }

  /** Every name stands before the later ones in the alphabet. */
  predicate Alphabetical(c: seq<nat>, names: map<nat, string>) {
    forall j, k :: 0 <= j < k < |c| ==> Earlier(Name(names, c[j]), Name(names, c[k]))
  }

  lemma AscendingAlphabetical(c: seq<nat>, names: map<nat, string>)
    requires Named(c, names) && Ascending(c, names)
    ensures Alphabetical(c, names)
  {
    forall j, k | 0 <= j < k < |c| ensures Earlier(Name(names, c[j]), Name(names, c[k])) {
      assert Less(names, c[j], c[k]);
      CmpOrders(Name(names, c[j]), Name(names, c[k]));
    }
  }

  predicate Before(c: seq<nat>, d: seq<nat>, names: map<nat, string>) {
    forall j, k :: 0 <= j < |c| && 0 <= k < |d| ==> Less(names, c[j], d[k])
  }

  lemma LessTrans(names: map<nat, string>, x: nat, y: nat, z: nat)
    requires Less(names, x, y) && Less(names, y, z)
    requires NoNul(Name(names, x)) && NoNul(Name(names, y)) && NoNul(Name(names, z))
    ensures Less(names, x, z)
  {
    CmpTrans(Name(names, x), Name(names, y), Name(names, z));
  }

  lemma AscendingDistinct(c: seq<nat>, names: map<nat, string>)
    requires Ascending(c, names)
    ensures Distinct(c)
  {
    forall j, k | 0 <= j < k < |c| ensures c[j] != c[k] {
      assert Less(names, c[j], c[k]);
      Index.CmpSelf(Name(names, c[j]));
    }
  }

  lemma AscendingParts(c: seq<nat>, d: seq<nat>, names: map<nat, string>)
    ensures Ascending(c + d, names) <==> Ascending(c, names) && Ascending(d, names) && Before(c, d, names)
  {
    var s := c + d;
    if Ascending(s, names) {
      forall j, k | 0 <= j < k < |c| ensures Less(names, c[j], c[k]) { assert Less(names, s[j], s[k]); }
      forall j, k | 0 <= j < k < |d| ensures Less(names, d[j], d[k]) { assert Less(names, s[|c| + j], s[|c| + k]); }
      forall j, k | 0 <= j < |c| && 0 <= k < |d| ensures Less(names, c[j], d[k]) {
        assert Less(names, s[j], s[|c| + k]);
      }
    }
  }

  /** What lies before the first of an ascending sequence lies before all of it. */
  lemma BeforeFirst(x: nat, d: seq<nat>, names: map<nat, string>)
    requires |d| >= 1 && Named([x], names) && Named(d, names) && Ascending(d, names) && Less(names, x, d[0])
    ensures Before([x], d, names)
  {
    assert [x][0] == x;
    forall k | 0 <= k < |d| ensures Less(names, x, d[k]) {
      if k > 0 {
        LessTrans(names, x, d[0], d[k]);
      }
    }
  }

  lemma BeforeAppend(c: seq<nat>, x: nat, d: seq<nat>, names: map<nat, string>)
    requires Before(c, d, names) && Before([x], d, names)
    ensures Before(c + [x], d, names)
  {
    forall j, k | 0 <= j < |c + [x]| && 0 <= k < |d| ensures Less(names, (c + [x])[j], d[k]) {
      if j == |c| {
        assert Less(names, [x][0], d[k]);
      }
    }
  }

  /** No name occurs in both. */
  predicate Unlike(c: seq<nat>, d: seq<nat>, names: map<nat, string>) {
    forall x, y :: x in c && y in d ==> Name(names, x) != Name(names, y)
  }

  // ---- the merge ----

  /** Where the merge stands: done is finished, x follows it from a, y is the other
      chain, from b, and begins behind the first of x. */
  predicate Merging(done: seq<nat>, x: seq<nat>, y: seq<nat>, names: map<nat, string>, links: map<nat, nat>,
                    r: nat, a: nat, b: nat) {
    && Path(done + x, links, r) && Path(y, links, b) && a == Next(x, 0)
    && Ordered(done, x, y, names) && |x| >= 1 && |y| >= 1 && Less(names, x[0], y[0])
  }

  predicate Ordered(done: seq<nat>, x: seq<nat>, y: seq<nat>, names: map<nat, string>) {
    && Named(done, names) && Named(x, names) && Named(y, names)
    && Ascending(done + x, names) && Ascending(y, names) && Before(done, y, names) && Unlike(x, y, names)
  }

  /** x[0] joins what is done. */
  lemma Walked(done: seq<nat>, x: seq<nat>, y: seq<nat>, names: map<nat, string>)
    requires Ordered(done, x, y, names) && |x| >= 1 && |y| >= 1 && Less(names, x[0], y[0])
    ensures done + [x[0]] + x[1..] == done + x
    ensures Ordered(done + [x[0]], x[1..], y, names)
  {
    assert done + [x[0]] + x[1..] == done + x;
    BeforeFirst(x[0], y, names);
    BeforeAppend(done, x[0], y, names);
  }

  /** y now follows what is done, and x is the other chain. */
  lemma Exchanged(d: seq<nat>, x: seq<nat>, y: seq<nat>, names: map<nat, string>)
    requires Ordered(d, x, y, names)
    ensures Ordered(d, y, x, names)
  {
    AscendingParts(d, x, names);
    AscendingParts(d, y, names);
  }

  lemma EndApart(d: seq<nat>, y: seq<nat>, names: map<nat, string>)
    requires |d| >= 1 && Before(d, y, names)
    ensures d[|d| - 1] !in y
  {
    if d[|d| - 1] in y {
      var k :| 0 <= k < |y| && y[k] == d[|d| - 1];
      assert Less(names, d[|d| - 1], y[k]);
      Index.CmpSelf(Name(names, y[k]));
    }
  }

  /** The loop behind the walk: y is linked behind done, and the chains change roles. */
  lemma Linked(done: seq<nat>, x: seq<nat>, y: seq<nat>, names: map<nat, string>, links: map<nat, nat>, r: nat, b: nat)
    requires |done| >= 1 && Path(done + x, links, r) && Path(y, links, b) && Ordered(done, x, y, names)
    ensures var links' := links[done[|done| - 1] := b];
      Path(done + y, links', r) && Path(x, links', Next(x, 0)) && Ordered(done, y, x, names)
  {
    AscendingDistinct(done + x, names);
    EndApart(done, y, names);
    PathJoin(done, x, y, links, r, b);
    Exchanged(done, x, y, names);
  }

  /** Entries outside c have kept their links. */
  predicate Kept(links: map<nat, nat>, links': map<nat, nat>, c: multiset<nat>) {
    links'.Keys == links.Keys && forall x :: x in links && x !in c ==> links'[x] == links[x]
  }

  lemma SplitCount(done: seq<nat>, x: seq<nat>, y: seq<nat>)
    requires |x| >= 1
    ensures multiset(done + [x[0]]) + multiset(x[1..]) + multiset(y) == multiset(done) + multiset(x) + multiset(y)
  {
    assert x == [x[0]] + x[1..];
  }

  /** The symbol table in virtual memory.  An entry is reached by an address and
      the time it was fetched; the pointer is good while fewer other blocks have
      been fetched since than there are buffers. */
  class Symtab {
    const nbuf: nat
    const names: map<nat, string>
    var links: map<nat, nat>
    var syhtab: seq<nat>
    ghost var trace: seq<int>

    constructor (nbuf: nat, names: map<nat, string>, links: map<nat, nat>, syhtab: seq<nat>)
      ensures this.nbuf == nbuf && this.names == names && this.links == links && this.syhtab == syhtab
    {
      this.nbuf, this.names, this.links, this.syhtab := nbuf, names, links, syhtab;
      trace := [];
    }

    ghost predicate Live(adr: nat, at: nat)
      reads this
    {
      at <= |trace| && |Store.Others(trace[at..], adr / Store.BLOCK)| < nbuf
    }

    method Rfetch(adr: nat) returns (ghost at: nat)
      modifies this`trace
      ensures at == |trace| == old(|trace|) + 1 && trace[..old(|trace|)] == old(trace)
      ensures trace[old(|trace|)] == adr / Store.BLOCK
    {
      trace := trace + [adr / Store.BLOCK];
      at := |trace|;
    }

    /** The two fetches of one comparison.  They are arguments of one call, and C
        does not say which of them is made first. */
    method FetchBoth(a: nat, b: nat) returns (ghost at: nat, ghost bt: nat)
      modifies this`trace
      ensures at <= |trace| <= at + 1 && bt <= |trace| <= bt + 1
    {
      if * {
        at := Rfetch(a);
        bt := Rfetch(b);
      } else {
        bt := Rfetch(b);
        at := Rfetch(a);
      }
    }

    method Link(adr: nat, ghost at: nat) returns (l: nat)
      requires Live(adr, at) && adr in links
      ensures l == links[adr]
    {
      l := links[adr];
    }

    method Str(adr: nat, ghost at: nat) returns (s: string)
      requires Live(adr, at) && adr in names
      ensures s == names[adr]
    {
      s := names[adr];
    }

    method SetLink(adr: nat, ghost at: nat, l: nat)
      requires Live(adr, at) && adr in links
      modifies this`links
      ensures links == old(links)[adr := l]
    {
      links := links[adr := l];
    }

    /** Compares the entries two pointers lead to. */
    method Compare(ap: nat, ghost at: nat, bp: nat, ghost bt: nat) returns (cmp: int)
      requires Live(ap, at) && Live(bp, bt) && ap in names && bp in names && Symbol(names[ap]) && Symbol(names[bp])
      ensures cmp < 0 <==> Less(names, ap, bp)
      ensures cmp > 0 <==> Less(names, bp, ap)
      ensures cmp == 0 <==> names[ap] == names[bp]
    {
      var sa := Str(ap, at);
      var sb := Str(bp, bt);
      CmpZero(sa, sb);
      CmpAnti(sa, sb);
      cmp := Symcmp(sa, sb);
    }

    /** Walks along chain x as long as its entries come before the other chain. */
    method Walk(a0: nat, b: nat, ghost at0: nat, ghost r: nat, ghost done0: seq<nat>, ghost x0: seq<nat>,
                ghost y: seq<nat>)
        returns (pa: nat, a: nat, ghost bt: nat, ghost done: seq<nat>, ghost x: seq<nat>)
      requires nbuf >= 3 && Merging(done0, x0, y, names, links, r, a0, b) && at0 <= |trace| <= at0 + 2
      modifies this`trace
      ensures |done| > |done0| && pa == done[|done| - 1] && a == Next(x, 0) && done + x == done0 + x0
      ensures Ordered(done, x, y, names)
      ensures a != 0 ==> |x| >= 1 && Less(names, y[0], x[0]) && bt <= |trace| <= bt + 1
      ensures multiset(done) + multiset(x) + multiset(y) == multiset(done0) + multiset(x0) + multiset(y)
    {
      ghost var at: nat := at0;
      a, bt, done, x := a0, 0, done0, x0;
      while true
        invariant Path(done + x, links, r) && Ordered(done, x, y, names) && done + x == done0 + x0
        invariant |done| >= |done0|
        invariant |x| >= 1 && a == x[0] && Less(names, x[0], y[0]) && at <= |trace| <= at + 2
        invariant multiset(done) + multiset(x) + multiset(y) == multiset(done0) + multiset(x0) + multiset(y)
        decreases |x|
      {
        pa := a;
        Store.OthersCount(trace[at..], a / Store.BLOCK);
        PathAt(done + x, links, r, |done|);
        a := Link(pa, at);
        Walked(done, x, y, names);
        SplitCount(done, x, y);
        done, x := done + [x[0]], x[1..];
        assert a == Next(x, 0);
        if a == 0 {
          break;
        }
        PathAt(done + x, links, r, |done|);
        at, bt := FetchBoth(a, b);
        Store.OthersCount(trace[at..], a / Store.BLOCK);
        Store.OthersCount(trace[bt..], b / Store.BLOCK);
        var cmp := Compare(a, at, b, bt);
        assert Name(names, x[0]) != Name(names, y[0]);
        if cmp > 0 {
          break;
        }
      }
    }

    /** Walks, links the other chain behind, and lets the chains change roles. */
    method Round(a0: nat, b0: nat, ghost at0: nat, ghost r: nat, ghost done0: seq<nat>, ghost x0: seq<nat>,
              ghost y0: seq<nat>)
        returns (a: nat, b: nat, ghost at: nat, ghost done: seq<nat>, ghost x: seq<nat>, ghost y: seq<nat>)
      requires nbuf >= 3 && Merging(done0, x0, y0, names, links, r, a0, b0) && at0 <= |trace| <= at0 + 2
      modifies this`trace, this`links
      ensures Path(done + x, links, r) && Path(y, links, b) && a == Next(x, 0) && Ordered(done, x, y, names)
      ensures |x| >= 1 && |x| + |y| < |x0| + |y0|
      ensures y != [] ==> Less(names, x[0], y[0]) && at <= |trace| <= at + 2
      ensures multiset(done) + multiset(x) + multiset(y) == multiset(done0) + multiset(x0) + multiset(y0)
      ensures Kept(old(links), links, multiset(done) + multiset(x) + multiset(y))
    {
      var pa;
      ghost var wt: nat;
      pa, b, at, done, y := Walk(a0, b0, at0, r, done0, x0, y0);
      Longer(done, y, done0, x0);
      if y != [] {
        PathAt(done + y, links, r, |done|);
      }
      x := y0;
      PathAt(done + y, links, r, |done| - 1);
      wt := Rfetch(pa);
      Store.OthersCount(trace[wt..], pa / Store.BLOCK);
      ghost var links0 := links;
      SetLink(pa, wt, b0);
      a := b0;
      KeptMore(links0, links0, links, multiset(done) + multiset(x) + multiset(y), done, y, x, pa);
      Linked(done, y, x, names, links0, r, b0);
    }

    /** The first comparison: x starts with the smaller symbol. */
    method Start(a0: nat, b0: nat, ghost ca: seq<nat>, ghost cb: seq<nat>)
        returns (a: nat, b: nat, ghost at: nat, ghost x: seq<nat>, ghost y: seq<nat>)
      requires nbuf >= 3 && Path(ca, links, a0) && Path(cb, links, b0) && Ordered([], ca, cb, names)
      requires a0 != 0 && b0 != 0
      modifies this`trace
      ensures Merging([], x, y, names, links, a, a, b) && at <= |trace| <= at + 2
      ensures (x == ca && y == cb) || (x == cb && y == ca)
    {
      a, b, x, y := a0, b0, ca, cb;
      ghost var bt: nat;
      at, bt := FetchBoth(a, b);
      Store.OthersCount(trace[at..], a / Store.BLOCK);
      Store.OthersCount(trace[bt..], b / Store.BLOCK);
      var cmp := Compare(a, at, b, bt);
      assert Name(names, x[0]) != Name(names, y[0]);
      if cmp > 0 {
        Exchanged([], x, y, names);
        a, b, at := b, a, bt;
        x, y := y, x;
      }
      assert [] + x == x;
    }

    /** Merges two sorted chains in place. */
    method Symerge(a0: nat, b0: nat, ghost ca: seq<nat>, ghost cb: seq<nat>) returns (r: nat, ghost d: seq<nat>)
      requires nbuf >= 3 && Path(ca, links, a0) && Path(cb, links, b0) && Ordered([], ca, cb, names)
      modifies this`trace, this`links
      ensures Path(d, links, r) && Named(d, names) && Ascending(d, names)
      ensures multiset(d) == multiset(ca) + multiset(cb)
      ensures Kept(old(links), links, multiset(ca) + multiset(cb))
    {
      assert [] + ca == ca;
      if a0 == 0 {
        EmptyPath(cb, ca, links);
        return b0, cb;
      }
      if b0 == 0 {
        EmptyPath(ca, cb, links);
        return a0, ca;
      }
      var a: nat, b: nat;
      ghost var at: nat;
      ghost var done, x, y;
      a, b, at, x, y := Start(a0, b0, ca, cb);
      done := [];
      r := a;
      while b != 0
        invariant Path(done + x, links, r) && Path(y, links, b) && a == Next(x, 0) && Ordered(done, x, y, names)
        invariant |x| >= 1 && (y != [] ==> Less(names, x[0], y[0]) && at <= |trace| <= at + 2)
        invariant multiset(done) + multiset(x) + multiset(y) == multiset(ca) + multiset(cb)
        invariant Kept(old(links), links, multiset(ca) + multiset(cb))
        decreases |x| + |y|
      {
        ghost var links0 := links;
        a, b, at, done, x, y := Round(a, b, at, r, done, x, y);
        KeptTrans(old(links), links0, links, multiset(ca) + multiset(cb));
      }
      EmptyPath(x, y, links);
      d := done + x;
      AscendingParts(done, x, names);
    }

    /** Merges the chains of the upper half into those of the lower. */
    method MergeHalves(half: nat, ghost cs: seq<seq<nat>>) returns (ghost ds: seq<seq<nat>>)
      requires nbuf >= 3 && |cs| == 2 * half <= |syhtab| && Heads(cs, links, syhtab, names)
      modifies this
      ensures |syhtab| == old(|syhtab|) && |ds| == half && Heads(ds, links, syhtab, names)
      ensures AllOf(ds) == AllOf(cs)
    {
      ds := [];
      for j := 0 to half
        invariant |syhtab| == old(|syhtab|) && |ds| == j && Halfway(half, cs, ds, links, syhtab, names)
      {
        ghost var links0, heads0 := links, syhtab;
        ghost var d;
        var r;
        HalfwayPair(half, cs, ds, links, syhtab, names);
        r, d := Symerge(syhtab[j], syhtab[j + half], cs[j], cs[j + half]);
        syhtab := syhtab[j := r];
        HalfwayStep(half, cs, ds, links0, heads0, links, syhtab, names, d);
        ds := ds + [d];
      }
      HalvesDone(half, cs, ds, links, syhtab, names);
    }

    /** Halves the number of chains until one is left. */
    method Sysort(ghost chains: seq<seq<nat>>) returns (ghost d: seq<nat>)
      requires nbuf >= 3 && |syhtab| == |chains| == Index.HASHSIZE && Heads(chains, links, syhtab, names)
      modifies this
      ensures |syhtab| == Index.HASHSIZE && Path(d, links, syhtab[0]) && Named(d, names) && Ascending(d, names)
      ensures Alphabetical(d, names)
      ensures multiset(d) == AllOf(chains)
    {
      var i := Index.HASHSIZE;
      ghost var cs := chains;
      while i > 1
        invariant |syhtab| == Index.HASHSIZE && |cs| == i && i in {1, 2, 4, 8, 16, 32, 64, 128, 256, 512}
        invariant Heads(cs, links, syhtab, names) && AllOf(cs) == AllOf(chains)
        decreases i
      {
        var halfi := i / 2;
        cs := MergeHalves(halfi, cs);
        i := halfi;
      }
      d := cs[0];
      assert HeadOk(0, cs, links, syhtab, names);
      assert cs[..0] == [];
      AscendingAlphabetical(d, names);
    }
  }

  /** With two buffers only, fetching the entry to be relinked drives out the block
      the merge goes on from, b's, when b was fetched first of the two in the last
      comparison; it does not when b was fetched last. */
  lemma TwoBuffers(s: seq<int>, a: int, b: int, pa: int)
    requires |s| == 2 && a != b && a != pa && b != pa
    ensures Store.TouchAll(s, [b, a, pa]) == [pa, a]
    ensures Store.TouchAll(s, [a, b, pa]) == [pa, b]
  {
    LastThree(s, b, a, pa);
    LastThree(s, a, b, pa);
  }

  lemma LastThree(s: seq<int>, x: int, y: int, z: int)
    requires |s| == 2 && x != y && y != z
    ensures Store.TouchAll(s, [x, y, z]) == [z, y]
  {
    assert [x, y, z][..2] == [x, y] && [x, y][..1] == [x] && [x][..0] == [];
    assert Store.TouchAll(s, [x]) == Store.Touch(s, x) by {
      assert Store.TouchAll(s, []) == s;
    }
    TouchPair(Store.Touch(s, x), y);
    TouchPair(Store.Touch(Store.Touch(s, x), y), z);
  }

  lemma TouchPair(s: seq<int>, v: int)
    requires |s| == 2 && s[0] != v
    ensures Store.Touch(s, v) == [v, s[0]]
  {
    assert Store.IndexOf(s, v) != 0;
  }

  lemma EmptyPath(c: seq<nat>, d: seq<nat>, links: map<nat, nat>)
    requires Path(d, links, 0)
    ensures d == [] && c + d == c && multiset(d) == multiset{}
  {
    if |d| > 0 {
      PathAt(d, links, 0, 0);
    }
  }

  lemma Longer(done: seq<nat>, x: seq<nat>, done0: seq<nat>, x0: seq<nat>)
    requires done + x == done0 + x0 && |done| > |done0|
    ensures |x| < |x0|
  {
    assert |done| + |x| == |done + x| == |done0 + x0| == |done0| + |x0|;
  }

  lemma KeptTrans(links0: map<nat, nat>, links: map<nat, nat>, links': map<nat, nat>, m: multiset<nat>)
    requires Kept(links0, links, m) && Kept(links, links', m)
    ensures Kept(links0, links', m)
  {
  }

  lemma KeptMore(links0: map<nat, nat>, links: map<nat, nat>, links': map<nat, nat>, m: multiset<nat>,
                 done: seq<nat>, x: seq<nat>, y: seq<nat>, pa: nat)
    requires Kept(links0, links, m) && pa in links && pa in done
    requires links'.Keys == links.Keys && forall z :: z in links && z != pa ==> links'[z] == links[z]
    requires multiset(done) + multiset(x) + multiset(y) == m
    ensures Kept(links0, links', m)
  {
    assert pa in multiset(done);
    assert pa in m;
  }

  // ---- halving the table ----

  predicate HeadOk(h: nat, cs: seq<seq<nat>>, links: map<nat, nat>, heads: seq<nat>, names: map<nat, string>) {
    h < |cs| && h < |heads| && Path(cs[h], links, heads[h]) && Named(cs[h], names) && Ascending(cs[h], names)
  }

  predicate AllUnlike(cs: seq<seq<nat>>, names: map<nat, string>) {
    forall h, h' :: 0 <= h < h' < |cs| ==> Unlike(cs[h], cs[h'], names)
  }

  /** Every chain is in order, and no name is on two. */
  predicate Heads(cs: seq<seq<nat>>, links: map<nat, nat>, heads: seq<nat>, names: map<nat, string>) {
    && (forall h: nat {:trigger HeadOk(h, cs, links, heads, names)} :: h < |cs| ==> HeadOk(h, cs, links, heads, names))
    && AllUnlike(cs, names)
  }

  function AllOf(cs: seq<seq<nat>>): multiset<nat> {
    if |cs| == 0 then multiset{} else AllOf(cs[..|cs| - 1]) + multiset(cs[|cs| - 1])
  }

  /** The first |ds| pairs are merged. */
  predicate Halfway(half: nat, cs: seq<seq<nat>>, ds: seq<seq<nat>>, links: map<nat, nat>, heads: seq<nat>,
                    names: map<nat, string>) {
    && |cs| == 2 * half && |ds| <= half && AllUnlike(cs, names)
    && (forall h: nat {:trigger HeadOk(h, ds, links, heads, names)} :: h < |ds| ==>
          HeadOk(h, ds, links, heads, names) && multiset(ds[h]) == multiset(cs[h]) + multiset(cs[h + half]))
    && (forall h: nat {:trigger HeadOk(h, cs, links, heads, names)} ::
          h < |cs| && (|ds| <= h < half || |ds| + half <= h) ==> HeadOk(h, cs, links, heads, names))
  }

  lemma HalfwayPair(half: nat, cs: seq<seq<nat>>, ds: seq<seq<nat>>, links: map<nat, nat>, heads: seq<nat>,
                    names: map<nat, string>)
    requires Halfway(half, cs, ds, links, heads, names) && |ds| < half
    ensures var j := |ds|;
      && j + half < |heads| && Path(cs[j], links, heads[j]) && Path(cs[j + half], links, heads[j + half])
      && Ordered([], cs[j], cs[j + half], names)
  {
    var j := |ds|;
    assert HeadOk(j, cs, links, heads, names) && HeadOk(j + half, cs, links, heads, names);
    assert [] + cs[j] == cs[j];
  }

  lemma PathKept(c: seq<nat>, links: map<nat, nat>, links': map<nat, nat>, first: nat, m: multiset<nat>)
    requires Path(c, links, first) && Kept(links, links', m) && forall x :: x in c ==> x !in m
    ensures Path(c, links', first)
  {
    forall k | 0 <= k < |c| ensures LinkOk(c, links', k) {
      PathAt(c, links, first, k);
    }
  }

  lemma UnlikeApart(c: seq<nat>, d: seq<nat>, names: map<nat, string>)
    requires Unlike(c, d, names) || Unlike(d, c, names)
    ensures forall x :: x in c ==> x !in d
  {
  }

  lemma OthersKept(h: nat, j: nat, half: nat, cs: seq<seq<nat>>, links: map<nat, nat>, links': map<nat, nat>,
                   heads: seq<nat>, heads': seq<nat>, names: map<nat, string>)
    requires |cs| == 2 * half && j < half && h < |cs| && h != j && h != j + half && AllUnlike(cs, names)
    requires HeadOk(h, cs, links, heads, names) && |heads'| == |heads| && heads'[h] == heads[h]
    requires Kept(links, links', multiset(cs[j]) + multiset(cs[j + half]))
    ensures HeadOk(h, cs, links', heads', names)
  {
    UnlikeApart(cs[h], cs[j], names);
    UnlikeApart(cs[h], cs[j + half], names);
    PathKept(cs[h], links, links', heads[h], multiset(cs[j]) + multiset(cs[j + half]));
  }

  lemma MergedKept(h: nat, j: nat, half: nat, cs: seq<seq<nat>>, ds: seq<seq<nat>>, ds': seq<seq<nat>>,
                   links: map<nat, nat>, links': map<nat, nat>,
                   heads: seq<nat>, heads': seq<nat>, names: map<nat, string>)
    requires |cs| == 2 * half && h < j < half && AllUnlike(cs, names) && h < |ds| <= |ds'| && ds'[h] == ds[h]
    requires multiset(ds[h]) == multiset(cs[h]) + multiset(cs[h + half])
    requires HeadOk(h, ds, links, heads, names) && |heads'| == |heads| && heads'[h] == heads[h]
    requires Kept(links, links', multiset(cs[j]) + multiset(cs[j + half]))
    ensures HeadOk(h, ds', links', heads', names)
  {
    UnlikeApart(cs[h], cs[j], names);
    UnlikeApart(cs[h], cs[j + half], names);
    UnlikeApart(cs[h + half], cs[j], names);
    UnlikeApart(cs[h + half], cs[j + half], names);
    forall x | x in ds[h] ensures x !in multiset(cs[j]) + multiset(cs[j + half]) {
      assert x in multiset(ds[h]);
    }
    PathKept(ds[h], links, links', heads[h], multiset(cs[j]) + multiset(cs[j + half]));
  }

  lemma HalfwayStep(half: nat, cs: seq<seq<nat>>, ds: seq<seq<nat>>, links: map<nat, nat>, heads: seq<nat>,
                    links': map<nat, nat>, heads': seq<nat>, names: map<nat, string>, d: seq<nat>)
    requires Halfway(half, cs, ds, links, heads, names) && |ds| < half && |ds| + half < |heads|
    requires |heads'| == |heads| && forall h :: 0 <= h < |heads| && h != |ds| ==> heads'[h] == heads[h]
    requires Kept(links, links', multiset(cs[|ds|]) + multiset(cs[|ds| + half]))
    requires Path(d, links', heads'[|ds|]) && Named(d, names) && Ascending(d, names)
    requires multiset(d) == multiset(cs[|ds|]) + multiset(cs[|ds| + half])
    ensures Halfway(half, cs, ds + [d], links', heads', names)
  {
    var j, ds' := |ds|, ds + [d];
    forall h: nat | h < |ds'|
      ensures HeadOk(h, ds', links', heads', names) && multiset(ds'[h]) == multiset(cs[h]) + multiset(cs[h + half])
    {
      if h < j {
        assert HeadOk(h, ds, links, heads, names);
        MergedKept(h, j, half, cs, ds, ds', links, links', heads, heads', names);
      }
    }
    forall h: nat | j + 1 <= h < half || j + 1 + half <= h < |cs| ensures HeadOk(h, cs, links', heads', names) {
      assert HeadOk(h, cs, links, heads, names);
      OthersKept(h, j, half, cs, links, links', heads, heads', names);
    }
  }

  lemma {:induction false} AllOfAppend(c: seq<seq<nat>>, d: seq<seq<nat>>)
    ensures AllOf(c + d) == AllOf(c) + AllOf(d)
  {
    if |d| == 0 {
      assert c + d == c;
    } else {
      AllOfAppend(c, d[..|d| - 1]);
      assert (c + d)[..|c + d| - 1] == c + d[..|d| - 1];
    }
  }

  lemma {:induction false} AllOfPairs(c: seq<seq<nat>>, d: seq<seq<nat>>, e: seq<seq<nat>>)
    requires |c| == |d| == |e| && forall h :: 0 <= h < |c| ==> multiset(e[h]) == multiset(c[h]) + multiset(d[h])
    ensures AllOf(e) == AllOf(c) + AllOf(d)
  {
    if |c| > 0 {
      var n := |c| - 1;
      AllOfPairs(c[..n], d[..n], e[..n]);
    }
  }

  lemma HalvesDone(half: nat, cs: seq<seq<nat>>, ds: seq<seq<nat>>, links: map<nat, nat>, heads: seq<nat>,
                   names: map<nat, string>)
    requires Halfway(half, cs, ds, links, heads, names) && |ds| == half
    ensures Heads(ds, links, heads, names) && AllOf(ds) == AllOf(cs)
  {
    assert cs == cs[..half] + cs[half..];
    AllOfAppend(cs[..half], cs[half..]);
    forall h: nat | h < half ensures multiset(ds[h]) == multiset(cs[..half][h]) + multiset(cs[half..][h]) {
      assert HeadOk(h, ds, links, heads, names);
    }
    AllOfPairs(cs[..half], cs[half..], ds);
    forall h, h' | 0 <= h < h' < |ds| ensures Unlike(ds[h], ds[h'], names) {
      assert HeadOk(h, ds, links, heads, names) && HeadOk(h', ds, links, heads, names);
      PairsUnlike(half, cs, ds[h], ds[h'], h, h', names);
    }
  }

  lemma PairsUnlike(half: nat, cs: seq<seq<nat>>, c: seq<nat>, d: seq<nat>, h: nat, h': nat, names: map<nat, string>)
    requires |cs| == 2 * half && h < h' < half && AllUnlike(cs, names)
    requires multiset(c) == multiset(cs[h]) + multiset(cs[h + half])
    requires multiset(d) == multiset(cs[h']) + multiset(cs[h' + half])
    ensures Unlike(c, d, names)
  {
    forall x, y | x in c && y in d ensures Name(names, x) != Name(names, y) {
      assert x in multiset(c) && y in multiset(d);
      assert x in cs[h] || x in cs[h + half];
      assert y in cs[h'] || y in cs[h' + half];
      assert Unlike(cs[h], cs[h'], names) && Unlike(cs[h], cs[h' + half], names);
      assert Unlike(cs[h'], cs[h + half], names) && Unlike(cs[h + half], cs[h' + half], names);
    }
  }

  // ---- the table as lookups leave it ----

  function NamesOf(mem: map<nat, Index.Entry>): map<nat, string> { map x | x in mem :: mem[x].str }

  function LinksOf(mem: map<nat, Index.Entry>): map<nat, nat> { map x | x in mem :: mem[x].lnk }

  /** The chains that lookups build are what the sort starts from, and it leaves
      every symbol of the table on its one chain. */
  lemma IndexedHeads(chains: seq<seq<nat>>, mem: map<nat, Index.Entry>, heads: seq<nat>, table: map<string, nat>)
    requires Index.ChainsOk(chains, mem, heads, table)
    ensures Heads(chains, LinksOf(mem), heads, NamesOf(mem))
    ensures forall s :: s in table ==> table[s] in AllOf(chains)
  {
    var links, names := LinksOf(mem), NamesOf(mem);
    forall h: nat | h < |chains| ensures HeadOk(h, chains, links, heads, names) {
      assert Index.At(h, chains, mem, heads, table);
      IndexedHead(h, chains[h], mem, heads[h], table);
    }
    forall h, h' | 0 <= h < h' < |chains| ensures Unlike(chains[h], chains[h'], names) {
      assert Index.At(h, chains, mem, heads, table) && Index.At(h', chains, mem, heads, table);
      HashesUnlike(h, chains[h], h', chains[h'], mem, table);
    }
    forall s | s in table ensures table[s] in AllOf(chains) {
      assert Index.Entered(s, chains, mem, table);
      OnChain(chains, Index.Hash(s), table[s]);
    }
  }

  lemma IndexedHead(h: nat, c: seq<nat>, mem: map<nat, Index.Entry>, first: nat, table: map<string, nat>)
    requires Index.ChainOk(h, c, mem, first, table)
    ensures Path(c, LinksOf(mem), first) && Named(c, NamesOf(mem)) && Ascending(c, NamesOf(mem))
  {
    forall k | 0 <= k < |c| ensures LinkOk(c, LinksOf(mem), k) {
      assert mem[c[k]].lnk == Index.Next(c, k + 1);
    }
  }

  lemma HashesUnlike(h: nat, c: seq<nat>, h': nat, d: seq<nat>, mem: map<nat, Index.Entry>, table: map<string, nat>)
    requires h != h' && Index.Listed(c, mem, table, h) && Index.Listed(d, mem, table, h')
    ensures Unlike(c, d, NamesOf(mem))
  {
    forall x, y | x in c && y in d ensures Name(NamesOf(mem), x) != Name(NamesOf(mem), y) {
      var j :| 0 <= j < |c| && c[j] == x;
      var k :| 0 <= k < |d| && d[k] == y;
    }
  }

  lemma {:induction false} OnChain(chains: seq<seq<nat>>, h: nat, x: nat)
    requires h < |chains| && x in chains[h]
    ensures x in AllOf(chains)
  {
    var n := |chains| - 1;
    if h < n {
      assert chains[..n][h] == chains[h];
      OnChain(chains[..n], h, x);
    } else {
      assert x in multiset(chains[n]);
    }
  }
}
