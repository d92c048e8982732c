/** The Z8000 assembler's symbol index: a small list of recent answers, moved to
    the front at each hit, over sorted hash chains in virtual memory. */
module SymIndex {
  import opened SymNames
  import opened Word
  import Store = PagedStore

  const HASHSIZE := 512

  /** The size of a symbol table entry in virtual memory. */
  const ENTRY := 20

  function HashSum(s: string): (h: nat)
    ensures h < FULL16
  {
    if |s| == 0 then 0 else (2 * HashSum(s[..|s| - 1]) + s[|s| - 1] as nat) % FULL16
  }

  /** The nine high bits of the scrambled sum. */
  function Hash(s: string): (h: nat)
    ensures h < HASHSIZE
  {
    HashSum(s) * 40143 % FULL16 / 128
  }

  method HashOf(s: string) returns (h: nat)
    ensures h == Hash(s)
  {
    var sum := 0;
    for i := 0 to |s|
      invariant sum == HashSum(s[..i])
    {
      assert s[..i + 1][..i] == s[..i];
      sum := (2 * sum + s[i] as nat) % FULL16;
    }
    assert s[..|s|] == s;
    h := sum * 40143 % FULL16 / 128;
  }

  /** The first character counts 2^(n - 1), the last one 1. */
  function Weighted(s: string): nat {
    if |s| == 0 then 0 else s[0] as nat * Pow2(|s| - 1) + Weighted(s[1..])
  }

  lemma {:induction false} WeightedLast(s: string, x: char)
    ensures Weighted(s + [x]) == 2 * Weighted(s) + x as nat
  {
    var t := s + [x];
    if |s| > 0 {
      WeightedLast(s[1..], x);
      assert t[1..] == s[1..] + [x];
      var a, p := s[0] as nat, Pow2(|s| - 1);
      assert t[0] as nat * Pow2(|s|) == 2 * (a * p) by {
        assert a * (2 * p) == 2 * (a * p);
      }
    } else {
      assert t[1..] == [];
    }
  }

  lemma {:induction false} SumWeighted(s: string)
    ensures HashSum(s) == Weighted(s) % FULL16
  {
    if |s| > 0 {
      var u, x := s[..|s| - 1], s[|s| - 1] as nat;
      SumWeighted(u);
      assert s == u + [s[|s| - 1]];
      WeightedLast(u, s[|s| - 1]);
      var w := Weighted(u);
      var q := w / FULL16;
      assert w == FULL16 * q + w % FULL16;
      DivModUnique(2 * w + x, FULL16, 2 * q + (2 * (w % FULL16) + x) / FULL16, (2 * (w % FULL16) + x) % FULL16);
    }
  }

  /** The hash is bits 7 to 15 of 40143 times the weighted sum of the characters. */
  lemma HashWeighted(s: string)
    ensures Hash(s) == 40143 * Weighted(s) / 128 % 512
  {
    SumWeighted(s);
    var w := Weighted(s);
    var q, r := w / FULL16, w % FULL16;
    assert w == FULL16 * q + r;
    var x := 40143 * r;
    assert 40143 * w == FULL16 * (40143 * q) + x;
    var h, l := x / FULL16, x % FULL16;
    assert x == FULL16 * h + l;
    DivModUnique(40143 * w, 128, 512 * (40143 * q + h) + l / 128, l % 128);
    DivModUnique(512 * (40143 * q + h) + l / 128, 512, 40143 * q + h, l / 128);
  }

  datatype Entry = Entry(lnk: nat, str: string)

  // ---- chains ----

  /** c is the chain from the address first on, ending at 0. */
  predicate Chain(c: seq<nat>, mem: map<nat, Entry>, first: nat) {
    && (if |c| == 0 then first == 0 else first == c[0])
    && (forall k :: 0 <= k < |c| ==> c[k] in mem && c[k] != 0)
    && (forall k {:trigger mem[c[k]].lnk} :: 0 <= k < |c| ==> mem[c[k]].lnk == if k + 1 < |c| then c[k + 1] else 0)
  }

  predicate InMem(c: seq<nat>, mem: map<nat, Entry>) {
    forall k :: 0 <= k < |c| ==> c[k] in mem
  }

  /** Strictly ascending. */
  predicate Sorted(c: seq<nat>, mem: map<nat, Entry>)
    requires InMem(c, mem)
  {
    forall j, k :: 0 <= j < k < |c| ==> Cmp(mem[c[j]].str, mem[c[k]].str) < 0
  }

  /** The chain holds symbols of its hash, entered in the table. */
  predicate Listed(c: seq<nat>, mem: map<nat, Entry>, table: map<string, nat>, h: nat) {
    forall k :: 0 <= k < |c| ==>
      && c[k] in mem && Symbol(mem[c[k]].str) && Hash(mem[c[k]].str) == h
      && mem[c[k]].str in table && table[mem[c[k]].str] == c[k]
  }

  predicate ChainOk(h: nat, c: seq<nat>, mem: map<nat, Entry>, first: nat, table: map<string, nat>) {
    Chain(c, mem, first) && InMem(c, mem) && Sorted(c, mem) && Listed(c, mem, table, h)
  }

  predicate At(h: nat, chains: seq<seq<nat>>, mem: map<nat, Entry>, heads: seq<nat>, table: map<string, nat>) {
    h < |chains| && h < |heads| && ChainOk(h, chains[h], mem, heads[h], table)
  }

  /** The symbol's entry is on its chain. */
  predicate Entered(s: string, chains: seq<seq<nat>>, mem: map<nat, Entry>, table: map<string, nat>) {
    && s in table && Symbol(s) && table[s] in mem && mem[table[s]].str == s
    && Hash(s) < |chains| && table[s] in chains[Hash(s)]
  }

  /** All chains are in order, and each symbol of the table is on its chain. */
  predicate ChainsOk(chains: seq<seq<nat>>, mem: map<nat, Entry>, heads: seq<nat>, table: map<string, nat>) {
    && |chains| == |heads| == HASHSIZE
    && (forall h: nat {:trigger At(h, chains, mem, heads, table)} :: h < HASHSIZE ==> At(h, chains, mem, heads, table))
    && (forall s {:trigger Entered(s, chains, mem, table)} :: s in table ==> Entered(s, chains, mem, table))
  }

  // ---- the list of recent answers ----

  predicate AsideOk(strs: seq<string>, syms: seq<nat>, table: map<string, nat>) {
    && |strs| == |syms|
    && forall i :: 0 <= i < |strs| ==> strs[i] == "" || (strs[i] in table && syms[i] == table[strs[i]])
  }

  /** Distinct symbols have distinct entries. */
  lemma Injective(chains: seq<seq<nat>>, mem: map<nat, Entry>, heads: seq<nat>, table: map<string, nat>,
                  s: string, u: string)
    requires ChainsOk(chains, mem, heads, table) && s in table && u in table && table[s] == table[u]
    ensures s == u
  {
    assert Entered(s, chains, mem, table) && Entered(u, chains, mem, table);
  }

  // ---- searching and inserting ----

  /** The place of s in the sorted chain, from place k on: a symbol met there is
      not after it. */
  lemma AbsentFrom(c: seq<nat>, mem: map<nat, Entry>, first: nat, table: map<string, nat>, s: string, k: nat,
                   chains: seq<seq<nat>>, heads: seq<nat>)
    requires ChainsOk(chains, mem, heads, table) && Symbol(s) && c == chains[Hash(s)] && k <= |c|
    requires forall j :: 0 <= j < k ==> c[j] in mem && Cmp(s, mem[c[j]].str) > 0
    requires k < |c| ==> c[k] in mem && Cmp(s, mem[c[k]].str) < 0
    ensures s !in table
  {
    if s in table {
      assert At(Hash(s), chains, mem, heads, table) && Entered(s, chains, mem, table);
      var i :| 0 <= i < |c| && c[i] == table[s];
      CmpZero(s, s);
      if i > k {
        CmpAnti(mem[c[k]].str, s);
      }
    }
  }

  function Inserted(c: seq<nat>, k: nat, r: nat): seq<nat>
    requires k <= |c|
  {
    c[..k] + [r] + c[k..]
  }

  lemma InsertedElem(c: seq<nat>, k: nat, r: nat, j: nat)
    requires k <= |c| && j <= |c|
    ensures Inserted(c, k, r)[j] == if j < k then c[j] else if j == k then r else c[j - 1]
  {
  }

  /** The memory after linking the new entry r behind p (0: no predecessor). */
  function Linked(mem: map<nat, Entry>, r: nat, s: string, q: nat, p: nat): map<nat, Entry>
    requires p != 0 ==> p in mem && p != r
  {
    var m := mem[r := Entry(q, s)];
    if p == 0 then m else m[p := m[p].(lnk := r)]
  }

  lemma LinkedAt(mem: map<nat, Entry>, r: nat, s: string, q: nat, p: nat, x: nat)
    requires (p != 0 ==> p in mem) && r !in mem && x in mem
    ensures var m := Linked(mem, r, s, q, p);
      && x in m && m[x].str == mem[x].str && m[x].lnk == (if x == p && p != 0 then r else mem[x].lnk)
      && r in m && m[r] == Entry(q, s)
  {
  }

  /** An insertion: s goes to place k of the chain, its entry to address r. */
  predicate Inserting(h: nat, c: seq<nat>, mem: map<nat, Entry>, first: nat, table: map<string, nat>,
                      s: string, k: nat, r: nat) {
    && ChainOk(h, c, mem, first, table) && Symbol(s) && Hash(s) == h && k <= |c| && s !in table
    && r != 0 && r !in mem
    && (forall j :: 0 <= j < k ==> Cmp(s, mem[c[j]].str) > 0)
    && (k < |c| ==> Cmp(s, mem[c[k]].str) < 0)
  }

  lemma EvenPlace(v: nat, r: nat)
    requires v % 2 == 0 && (r == v || r % 512 == 0)
    ensures r % 2 == 0
  {
    assert r % 512 == 0 ==> r == 2 * (256 * (r / 512));
  }

  /** Where the walk along a chain stops without the symbol, it can be inserted. */
  lemma Stops(chains: seq<seq<nat>>, mem: map<nat, Entry>, heads: seq<nat>, table: map<string, nat>, s: string,
              k: nat, r: nat)
    requires ChainsOk(chains, mem, heads, table) && Symbol(s) && k <= |chains[Hash(s)]| && r != 0 && r !in mem
    requires var c := chains[Hash(s)]; forall j :: 0 <= j < k ==> c[j] in mem && Cmp(s, mem[c[j]].str) > 0
    requires var c := chains[Hash(s)]; k < |c| ==> c[k] in mem && Cmp(s, mem[c[k]].str) < 0
    ensures Inserting(Hash(s), chains[Hash(s)], mem, heads[Hash(s)], table, s, k, r)
  {
    assert At(Hash(s), chains, mem, heads, table);
    AbsentFrom(chains[Hash(s)], mem, heads[Hash(s)], table, s, k, chains, heads);
  }

  function Next(c: seq<nat>, k: nat): nat { if k < |c| then c[k] else 0 }

  function Prev(c: seq<nat>, k: nat): nat
    requires k <= |c|
  {
    if k == 0 then 0 else c[k - 1]
  }

  /** What the links of the old entries need of the chain. */
  predicate LinkAt(c: seq<nat>, mem: map<nat, Entry>, k: nat, r: nat, i: nat)
    requires i < |c| && k <= |c|
  {
    && c[i] in mem && c[i] != 0 && mem[c[i]].lnk == Next(c, i + 1)
    && (k > 0 ==> c[k - 1] in mem && c[k - 1] != 0 && (c[i] == c[k - 1] <==> i == k - 1))
  }

  lemma LinkFacts(h: nat, c: seq<nat>, mem: map<nat, Entry>, first: nat, table: map<string, nat>,
                  s: string, k: nat, r: nat, i: nat)
    requires Inserting(h, c, mem, first, table, s, k, r) && i < |c|
    ensures LinkAt(c, mem, k, r, i)
  {
    if k > 0 {
      SameName(c, mem, i, k - 1);
    }
    assert mem[c[i]].lnk == Next(c, i + 1);
  }

  predicate LinkIn(d: seq<nat>, m: map<nat, Entry>, j: nat)
    requires j < |d|
  {
    d[j] in m && d[j] != 0 && m[d[j]].lnk == Next(d, j + 1)
  }

  /** The links after an insertion: of the old entries only the one before the
      new entry has another. */
  lemma LinkPlaced(c: seq<nat>, mem: map<nat, Entry>, s: string, k: nat, r: nat, j: nat)
    requires j <= |c| && k <= |c| && r !in mem && r != 0
    requires j != k ==> LinkAt(c, mem, k, r, if j < k then j else j - 1)
    requires k > 0 ==> c[k - 1] in mem
    ensures LinkIn(Inserted(c, k, r), Linked(mem, r, s, Next(c, k), Prev(c, k)), j)
  {
    InsertedElem(c, k, r, j);
    if j < |c| {
      InsertedElem(c, k, r, j + 1);
    }
    if j != k {
      LinkedAt(mem, r, s, Next(c, k), Prev(c, k), c[if j < k then j else j - 1]);
    } else if k > 0 {
      LinkedAt(mem, r, s, Next(c, k), Prev(c, k), c[k - 1]);
    }
  }

  lemma InsertedLink(h: nat, c: seq<nat>, mem: map<nat, Entry>, first: nat, table: map<string, nat>,
                     s: string, k: nat, r: nat, j: nat)
    requires Inserting(h, c, mem, first, table, s, k, r) && j <= |c|
    ensures LinkIn(Inserted(c, k, r), Linked(mem, r, s, Next(c, k), Prev(c, k)), j)
  {
    if j != k {
      LinkFacts(h, c, mem, first, table, s, k, r, if j < k then j else j - 1);
    }
    LinkPlaced(c, mem, s, k, r, j);
  }

  /** The symbols after an insertion. */
  lemma InsertedName(h: nat, c: seq<nat>, mem: map<nat, Entry>, first: nat, table: map<string, nat>,
                     s: string, k: nat, r: nat, j: nat)
    requires Inserting(h, c, mem, first, table, s, k, r) && j <= |c|
    ensures var d, m, t := Inserted(c, k, r), Linked(mem, r, s, Next(c, k), Prev(c, k)), table[s := r];
      && d[j] in m && m[d[j]].str == (if j == k then s else mem[c[if j < k then j else j - 1]].str)
      && Symbol(m[d[j]].str) && Hash(m[d[j]].str) == h && m[d[j]].str in t && t[m[d[j]].str] == d[j]
  {
    InsertedElem(c, k, r, j);
    if j != k {
      LinkedAt(mem, r, s, Next(c, k), Prev(c, k), c[if j < k then j else j - 1]);
    }
  }

  lemma InsertedBefore(h: nat, c: seq<nat>, mem: map<nat, Entry>, first: nat, table: map<string, nat>,
                       s: string, k: nat, r: nat, i: nat, j: nat)
    requires Inserting(h, c, mem, first, table, s, k, r) && i < j <= |c|
    ensures var d, m := Inserted(c, k, r), Linked(mem, r, s, Next(c, k), Prev(c, k));
      d[i] in m && d[j] in m && Cmp(m[d[i]].str, m[d[j]].str) < 0
  {
    InsertedName(h, c, mem, first, table, s, k, r, i);
    InsertedName(h, c, mem, first, table, s, k, r, j);
    if j == k {
      CmpAnti(s, mem[c[i]].str);
    } else if i == k && j > k + 1 {
      CmpTrans(s, mem[c[k]].str, mem[c[j - 1]].str);
    }
  }

  /** The new entry put in its place on its chain. */
  lemma InsertedChain(h: nat, c: seq<nat>, mem: map<nat, Entry>, first: nat, table: map<string, nat>,
                      s: string, k: nat, r: nat)
    requires Inserting(h, c, mem, first, table, s, k, r)
    ensures ChainOk(h, Inserted(c, k, r), Linked(mem, r, s, Next(c, k), Prev(c, k)),
                    if k == 0 then r else first, table[s := r])
  {
    var d, m, t := Inserted(c, k, r), Linked(mem, r, s, Next(c, k), Prev(c, k)), table[s := r];
    InsertedElem(c, k, r, 0);
    forall j | 0 <= j < |d|
      ensures d[j] in m && d[j] != 0 && m[d[j]].lnk == (if j + 1 < |d| then d[j + 1] else 0)
    {
      InsertedLink(h, c, mem, first, table, s, k, r, j);
    }
    assert Chain(d, m, if k == 0 then r else first);
    forall j | 0 <= j < |d|
      ensures d[j] in m && Symbol(m[d[j]].str) && Hash(m[d[j]].str) == h && m[d[j]].str in t && t[m[d[j]].str] == d[j]
    {
      InsertedName(h, c, mem, first, table, s, k, r, j);
    }
    assert Listed(d, m, t, h);
    forall i, j | 0 <= i < j < |d| ensures Cmp(m[d[i]].str, m[d[j]].str) < 0 {
      InsertedBefore(h, c, mem, first, table, s, k, r, i, j);
    }
  }

  lemma SameName(c: seq<nat>, mem: map<nat, Entry>, i: nat, j: nat)
    requires InMem(c, mem) && Sorted(c, mem) && i < |c| && j < |c|
    ensures c[i] == c[j] <==> i == j
  {
    CmpSelf(mem[c[i]].str);
  }

  lemma {:induction false} CmpSelf(a: string)
    ensures Cmp(a, a) == 0
  {
    if |a| > 0 {
      CmpSelf(a[1..]);
    }
  }

  /** A chain of another hash does not notice the insertion. */
  lemma OtherChain(h: nat, c: seq<nat>, mem: map<nat, Entry>, first: nat, table: map<string, nat>,
                   s: string, k: nat, r: nat, h': nat, c': seq<nat>, first': nat)
    requires Inserting(h, c, mem, first, table, s, k, r) && ChainOk(h', c', mem, first', table) && h' != h
    ensures ChainOk(h', c', Linked(mem, r, s, Next(c, k), Prev(c, k)), first', table[s := r])
  {
    var m := Linked(mem, r, s, Next(c, k), Prev(c, k));
    forall j | 0 <= j < |c'| ensures c'[j] in m && m[c'[j]] == mem[c'[j]] {
      assert Hash(mem[c'[j]].str) == h';
      if k > 0 {
        assert Hash(mem[c[k - 1]].str) == h;
      }
    }
  }

  lemma AllInserted(chains: seq<seq<nat>>, mem: map<nat, Entry>, heads: seq<nat>, table: map<string, nat>,
                    s: string, k: nat, r: nat, chains': seq<seq<nat>>, mem': map<nat, Entry>, heads': seq<nat>)
    requires ChainsOk(chains, mem, heads, table) && Symbol(s)
    requires Inserting(Hash(s), chains[Hash(s)], mem, heads[Hash(s)], table, s, k, r)
    requires var h, c := Hash(s), chains[Hash(s)];
      && chains' == chains[h := Inserted(c, k, r)] && mem' == Linked(mem, r, s, Next(c, k), Prev(c, k))
      && heads' == if k == 0 then heads[h := r] else heads
    ensures ChainsOk(chains', mem', heads', table[s := r])
  {
    var h, c, table' := Hash(s), chains[Hash(s)], table[s := r];
    forall i: nat | i < HASHSIZE ensures At(i, chains', mem', heads', table') {
      assert At(i, chains, mem, heads, table);
      if i == h {
        InsertedChain(h, c, mem, heads[h], table, s, k, r);
      } else {
        OtherChain(h, c, mem, heads[h], table, s, k, r, i, chains[i], heads[i]);
      }
    }
    forall u | u in table' ensures Entered(u, chains', mem', table') {
      if u == s {
        NewInserted(c, mem, s, k, r);
      } else {
        assert Entered(u, chains, mem, table);
        LinkedAt(mem, r, s, Next(c, k), Prev(c, k), table[u]);
        StillIn(c, k, r, table[u]);
      }
    }
  }

  lemma NewInserted(c: seq<nat>, mem: map<nat, Entry>, s: string, k: nat, r: nat)
    requires k <= |c| && InMem(c, mem) && r !in mem
    ensures r in Inserted(c, k, r)
    ensures var m := Linked(mem, r, s, Next(c, k), Prev(c, k)); r in m && m[r].str == s
  {
    InsertedElem(c, k, r, k);
    if k > 0 {
      LinkedAt(mem, r, s, Next(c, k), Prev(c, k), c[k - 1]);
    }
    assert Inserted(c, k, r)[k] in Inserted(c, k, r);
  }

  lemma StillIn(c: seq<nat>, k: nat, r: nat, x: nat)
    requires k <= |c|
    ensures x in c ==> x in Inserted(c, k, r)
  {
    assert c == c[..k] + c[k..];
  }

  class Index {
    // the list of recent answers
    var lnk: seq<int>
    var strs: seq<string>
    var syms: seq<nat>
    var ashead: int
    ghost var order: seq<nat>
    // the hash chains
    var mem: map<nat, Entry>
    var syhtab: seq<nat>
    var virtop: nat
    ghost var chains: seq<seq<nat>>
    ghost var table: map<string, nat>

    ghost predicate AsideValid()
      reads this
    {
      && Store.LinksOk(order, lnk, ashead) && |strs| == |order| && AsideOk(strs, syms, table)
    }

    ghost predicate ChainsValid()
      reads this
    {
      ChainsOk(chains, mem, syhtab, table) && virtop >= 2 && forall a :: a in mem ==> 0 < a < virtop
    }

    ghost predicate Valid()
      reads this
    {
      AsideValid() && ChainsValid()
    }

    constructor (n: nat)
      requires n > 0
      ensures Valid() && table == map[]
    {
      lnk := seq(n, i => if i + 1 < n then i + 1 else -1);
      order := seq(n, i => i);
      strs := seq(n, _ => "");
      syms := seq(n, _ => 0);
      ashead := 0;
      mem, table, virtop := map[], map[], 2;
      syhtab := seq(HASHSIZE, _ => 0);
      chains := seq(HASHSIZE, _ => []);
      new;
      forall i: nat | i < |order| ensures i in order {
        assert order[i] == i;
      }
    }

    /** The place k of the symbol in the list of recent answers, or the last. */
    method FindAside(s: string) returns (apt: nat, lpt: int, hit: bool, ghost k: nat)
      requires AsideValid() && Symbol(s) && NamesOk(strs)
      ensures k < |order| && apt == order[k] && lpt == if k == 0 then -1 else order[k - 1]
      ensures apt < |strs| && (hit <==> strs[apt] == s) && (hit <==> s in strs) && (!hit ==> k == |order| - 1)
    {
      apt, lpt, k := ashead, -1, 0;
      var cmp := CompareTo(strs[apt], s);
      while cmp != 0 && lnk[apt] != -1
        invariant 0 <= k < |order| && apt == order[k] && lpt == (if k == 0 then -1 else order[k - 1])
        invariant cmp == 0 <==> strs[apt] == s
        invariant forall j :: 0 <= j < k ==> strs[order[j]] != s
        decreases |order| - k
      {
        assert k < |order| - 1 && lnk[order[k]] == order[k + 1];
        lpt := apt;
        apt := lnk[apt];
        k := k + 1;
        cmp := CompareTo(strs[apt], s);
      }
      hit := cmp == 0;
      NotBehind(order, strs, s, k, hit);
    }

    /** Finds the symbol in the list of recent answers, or the least recently
        used place, and moves that place to the front. */
    method Aside(s: string) returns (apt: nat, hit: bool)
      requires AsideValid() && Symbol(s) && NamesOk(strs)
      modifies this`lnk, this`ashead, this`order
      ensures AsideValid() && apt < |strs| && ashead == apt && |order| == old(|order|)
      ensures (hit <==> strs[apt] == s) && (hit <==> s in strs) && (!hit ==> apt == old(order)[|order| - 1])
      ensures exists k :: 0 <= k < |order| && InFront(old(order), k, apt, order)
    {
      var lpt;
      ghost var k;
      apt, lpt, hit, k := FindAside(s);
      ghost var order0, lnk0, head0 := order, lnk, ashead;
      if lpt == -1 {
        ashead := lnk[apt];
      } else {
        lnk := lnk[lpt := lnk[apt]];
      }
      lnk := lnk[apt := ashead];
      ashead := apt;
      order := Store.Moved(order, k);
      assert InFront(order0, k, apt, order);
      Store.MovedLinks(order0, lnk0, head0, k);
    }

    /** Follows the chain to the symbol or to the place where it belongs. */
    method Search(s: string) returns (p: nat, q: nat, found: bool, ghost k: nat)
      requires ChainsValid() && Symbol(s)
      ensures k <= |chains[Hash(s)]|
      ensures p == Prev(chains[Hash(s)], k) && q == Next(chains[Hash(s)], k)
      ensures if found then s in table && q == table[s]
        else Inserting(Hash(s), chains[Hash(s)], mem, syhtab[Hash(s)], table, s, k, virtop)
    {
      var h := HashOf(s);
      ghost var c := chains[h];
      assert At(h, chains, mem, syhtab, table);
      p, q, k := 0, syhtab[h], 0;
      var cmp := 1;
      if q != 0 {
        cmp := Symcmp(s, mem[q].str);
      }
      while q != 0 && cmp > 0
        invariant 0 <= k <= |c| && p == Prev(c, k) && q == Next(c, k)
        invariant forall j :: 0 <= j < k ==> Cmp(s, mem[c[j]].str) > 0
        invariant q != 0 ==> cmp == Cmp(s, mem[q].str)
        decreases |c| - k
      {
        assert q == c[k];
        p := q;
        q := mem[q].lnk;
        k := k + 1;
        if q != 0 {
          cmp := Symcmp(s, mem[q].str);
        }
      }
      found := q != 0 && cmp == 0;
      if found {
        CmpZero(s, mem[q].str);
      } else {
        Stops(chains, mem, syhtab, table, s, k, virtop);
      }
    }

    /** A new entry, linked in at its place. */
    method AddEntry(s: string, p: nat, q: nat, ghost k: nat) returns (r: nat)
      requires ChainsValid() && Symbol(s)
      requires Inserting(Hash(s), chains[Hash(s)], mem, syhtab[Hash(s)], table, s, k, virtop)
      requires p == Prev(chains[Hash(s)], k) && q == Next(chains[Hash(s)], k)
      modifies this`mem, this`syhtab, this`virtop, this`chains, this`table
      ensures ChainsValid() && table == old(table)[s := r] && r >= old(virtop) && r % 2 == 0 && virtop == r + 20
    {
      var h := HashOf(s);
      ghost var chains0, mem0, heads0, table0 := chains, mem, syhtab, table;
      r := Reserve();
      PutIn(h, r, s, p, q);
      chains := chains[h := Inserted(chains[h], k, r)];
      table := table[s := r];
      assert forall a :: a in mem ==> 0 < a < virtop;
      AllInserted(chains0, mem0, heads0, table0, s, k, r, chains, mem, syhtab);
    }

    /** Writes the entry and makes its predecessor, or the hash table, point to it. */
    method PutIn(h: nat, r: nat, s: string, p: nat, q: nat)
      requires h < |syhtab| && (p != 0 ==> p in mem && p != r)
      modifies this`mem, this`syhtab
      ensures mem == Linked(old(mem), r, s, q, p)
      ensures syhtab == if p == 0 then old(syhtab)[h := r] else old(syhtab)
    {
      mem := mem[r := Entry(q, s)];
      if p != 0 {
        mem := mem[p := mem[p].(lnk := r)];
      } else {
        syhtab := syhtab[h := r];
      }
    }

    /** Aligned virtual memory for one entry. */
    method Reserve() returns (r: nat)
      modifies this`virtop
      ensures r >= old(virtop) && r % 2 == 0 && virtop == r + 20
    {
      if virtop % 2 == 1 {
        virtop := virtop + 1;
      }
      var alloc := new Store.Allocator();
      alloc.virtop := virtop;
      r := alloc.Vmalloc(ENTRY);
      EvenPlace(virtop, r);
      virtop := alloc.virtop;
    }

    /** The entry of the symbol, made if there is none.  The table grows and is
        never changed. */
    method Sylook(s: string) returns (r: nat)
      requires Valid() && Symbol(s)
      modifies this
      ensures Valid() && s in table && r == table[s]
      ensures if s in old(table) then table == old(table)
        else table == old(table)[s := r] && r >= old(virtop) && r % 2 == 0 && virtop == r + 20
    {
      AsideNames(strs, syms, chains, mem, syhtab, table);
      var apt, hit := Aside(s);
      if hit {
        return syms[apt];
      }
      ghost var strs0, table0 := strs, table;
      strs := strs[apt := s];
      var p, q, found;
      ghost var k;
      p, q, found, k := Search(s);
      if found {
        r := q;
      } else {
        r := AddEntry(s, p, q, k);
      }
      AsideSet(strs0, syms, table0, table, apt, s, r);
      syms := syms[apt := r];
    }
  }

  /** Place k, which is apt, goes before the others, which stay in order. */
  predicate InFront(order: seq<nat>, k: nat, apt: nat, order': seq<nat>)
    requires k < |order|
  {
    order[k] == apt && order' == [apt] + order[..k] + order[k + 1..]
  }

  /** When the last place has been looked at, all have. */
  lemma NotBehind(order: seq<nat>, strs: seq<string>, s: string, k: nat, hit: bool)
    requires |order| == |strs| && k < |order| && (forall j :: 0 <= j < |order| ==> order[j] < |strs|)
    requires forall i: nat :: i < |order| ==> i in order
    requires forall j :: 0 <= j < k ==> strs[order[j]] != s
    requires if hit then strs[order[k]] == s else strs[order[k]] != s && k == |order| - 1
    ensures hit <==> s in strs
  {
    if s in strs {
      var i: nat :| i < |strs| && strs[i] == s;
      assert i in order;
    }
  }

  predicate NamesOk(strs: seq<string>) {
    forall i :: 0 <= i < |strs| ==> strs[i] == "" || Symbol(strs[i])
  }

  lemma AsideNames(strs: seq<string>, syms: seq<nat>, chains: seq<seq<nat>>, mem: map<nat, Entry>,
                   heads: seq<nat>, table: map<string, nat>)
    requires AsideOk(strs, syms, table) && ChainsOk(chains, mem, heads, table)
    ensures NamesOk(strs)
  {
    forall i | 0 <= i < |strs| ensures strs[i] == "" || Symbol(strs[i]) {
      if strs[i] != "" {
        assert Entered(strs[i], chains, mem, table);
      }
    }
  }

  lemma AsideSet(strs: seq<string>, syms: seq<nat>, table: map<string, nat>, table': map<string, nat>,
                 apt: nat, s: string, r: nat)
    requires AsideOk(strs, syms, table) && apt < |strs| && s in table' && table'[s] == r
    requires forall u :: u in table ==> u in table' && table'[u] == table[u]
    ensures AsideOk(strs[apt := s], syms[apt := r], table')
  {
  }

  /** An empty place matches no symbol. */
  method CompareTo(a: string, s: string) returns (cmp: int)
    requires Symbol(s) && (a == "" || Symbol(a))
    ensures cmp == 0 <==> a == s
  {
    CmpZero(a, s);
    cmp := Symcmp(a, s);
  }
}
