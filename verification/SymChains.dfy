/** The 68000 assembler's symbol table: hash chains that are not terminated but
    end at the chain's last entry, with the next free entry as the sentinel of a
    search.  Two groups of chains (symbols, opcodes) share that entry.  Entries
    are numbered in the order of the main table; a link is an entry's number. */
module SymChains {

  const SZIRT := 128

  /** The null pointer. */
  const NONE := -1

  function CharSum(s: string): nat {
    if |s| == 0 then 0 else CharSum(s[..|s| - 1]) + s[|s| - 1] as nat
  }

  function Hash(name: string): (h: nat)
    ensures h < SZIRT
  {
    CharSum(name) % SZIRT
  }

  /** Local names, entered afresh each time. */
  predicate Forced(name: string) {
    |name| >= 2 && name[0] == '~' && name[1] != '~' && name[1] != '.'
  }

  /** The characters of the name, added up. */
  method HashOf(name: string) returns (h: nat)
    ensures h == Hash(name)
  {
    var sum := 0;
    for i := 0 to |name|
      invariant sum == CharSum(name[..i])
    {
      assert name[..i + 1][..i] == name[..i];
      sum := sum + name[i] as nat;
    }
    assert name[..|name|] == name;
    h := sum % SZIRT;
  }

  lemma {:induction false} SumAdds(a: string, b: string)
    ensures CharSum(a + b) == CharSum(a) + CharSum(b)
  {
    if |b| == 0 {
      assert a + b == a;
    } else {
      var s, u := a + b, b[..|b| - 1];
      assert s[..|s| - 1] == a + u;
      SumAdds(a, u);
    }
  }

  /** The hash of one character is its code, that of a name the sum over its parts. */
  lemma HashAdds(a: string, b: string, x: char)
    ensures Hash([x]) == x as nat % 128 && Hash(a + b) == (Hash(a) + Hash(b)) % 128
  {
    SumAdds(a, b);
    var s := [x];
    assert s[..|s| - 1] == [] && CharSum(s) == CharSum([]) + x as nat;
  }

  // ---- chains ----

  /** c is the chain from first to last; the last link may be anything. */
  predicate Chain(c: seq<nat>, tlnk: seq<int>, first: int, last: int) {
    if |c| == 0 then first == NONE
    else
      && first == c[0] && last == c[|c| - 1]
      && (forall k :: 0 <= k < |c| ==> c[k] < |tlnk|)
      && (forall k {:trigger tlnk[c[k]]} :: 0 <= k < |c| - 1 ==> tlnk[c[k]] == c[k + 1])
  }

  predicate Increasing(c: seq<nat>, bound: nat) {
    && (forall k :: 0 <= k < |c| ==> c[k] < bound)
    && (forall j, k :: 0 <= j < k < |c| ==> c[j] < c[k])
  }

  /** Names on one chain: all of its hash, and each once unless it is local. */
  predicate NamesOk(c: seq<nat>, names: seq<string>, h: nat) {
    && (forall k :: 0 <= k < |c| ==> c[k] < |names| && Hash(names[c[k]]) == h % SZIRT)
    && (forall j, k :: 0 <= j < k < |c| && c[j] < |names| && c[k] < |names| && names[c[j]] == names[c[k]] ==>
          Forced(names[c[k]]))
  }

  predicate HomeOk(c: seq<nat>, home: seq<nat>, h: nat) {
    forall k :: 0 <= k < |c| ==> c[k] < |home| && home[c[k]] == h
  }

  predicate Has(c: seq<nat>, names: seq<string>, name: string) {
    exists k :: 0 <= k < |c| && c[k] < |names| && names[c[k]] == name
  }

  /** Everything about chain h. */
  predicate ChainOk(h: nat, c: seq<nat>, home: seq<nat>, names: seq<string>, tlnk: seq<int>,
                    first: int, last: int, lmte: nat) {
    Chain(c, tlnk, first, last) && Increasing(c, lmte) && NamesOk(c, names, h) && HomeOk(c, home, h)
  }

  predicate ChainsOk(chains: seq<seq<nat>>, home: seq<nat>, names: seq<string>, tlnk: seq<int>,
                     irfe: seq<int>, irle: seq<int>, lmte: nat) {
    && |irfe| == |irle| == |chains| == 2 * SZIRT
    && forall h: nat {:trigger ChainOk(h, chains[h], home, names, tlnk, irfe[h], irle[h], lmte)} :: h < |chains| ==>
         ChainOk(h, chains[h], home, names, tlnk, irfe[h], irle[h], lmte)
  }

  /** The chain ends at the free entry. */
  predicate EndsAt(c: seq<nat>, tlnk: seq<int>, lmte: nat) {
    c != [] ==> c[|c| - 1] < |tlnk| && tlnk[c[|c| - 1]] == lmte
  }

  function Slid(text: bool, vl: int, loctr: int, al: int): int {
    if text && vl > loctr then vl - al else vl
  }

  class Table {
    var names: seq<string>
    var text: seq<bool>
    var vl1: seq<int>
    var tlnk: seq<int>
    var irfe: seq<int>
    var irle: seq<int>
    var lmte: nat
    var pirt: nat
    ghost var chains: seq<seq<nat>>
    ghost var home: seq<nat>

    ghost predicate Valid()
      reads this
    {
      && |names| == |text| == |vl1| == |tlnk| == |home| == lmte + 1
      && ChainsOk(chains, home, names, tlnk, irfe, irle, lmte)
    }

    /** The chain searched last ends at the free entry. */
    ghost predicate Linked()
      reads this
    {
      pirt < |chains| && EndsAt(chains[pirt], tlnk, lmte)
    }

    constructor ()
      ensures Valid() && lmte == 0
      ensures forall h :: 0 <= h < |chains| ==> chains[h] == []
    {
      names, text, vl1, tlnk, home := [""], [false], [0], [NONE], [0];
      irfe := seq(2 * SZIRT, _ => NONE);
      irle := seq(2 * SZIRT, _ => NONE);
      lmte, pirt := 0, 0;
      chains := seq(2 * SZIRT, _ => []);
    }

    /** Looks the free entry's name up, in the group of chains at base. */
    method Lemt(base: nat) returns (mtpt: nat)
      requires Valid() && (base == 0 || base == SZIRT)
      modifies this`pirt, this`tlnk
      ensures Valid() && Linked() && pirt == base + Hash(names[lmte])
      ensures mtpt <= lmte && (mtpt == lmte <==> Forced(names[lmte]) || !Has(chains[pirt], names, names[lmte]))
      ensures mtpt != lmte ==> mtpt in chains[pirt] && names[mtpt] == names[lmte]
    {
      var h := HashOf(names[lmte]);
      pirt := base + h;
      assert ChainOk(pirt, chains[pirt], home, names, tlnk, irfe[pirt], irle[pirt], lmte);
      mtpt := lmte;
      if irfe[pirt] != NONE {
        mtpt := irfe[pirt];
        LinkedLast(pirt, chains, home, names, tlnk, irfe, irle, lmte);
        tlnk := tlnk[irle[pirt] := lmte];
      }
      if Forced(names[lmte]) {
        return lmte;
      }
      ghost var c := chains[pirt];
      ghost var k := 0;
      assert ChainOk(pirt, c, home, names, tlnk, irfe[pirt], irle[pirt], lmte);
      while names[mtpt] != names[lmte]
        invariant 0 <= k <= |c| && mtpt == (if k < |c| then c[k] else lmte)
        invariant forall j :: 0 <= j < k ==> names[c[j]] != names[lmte]
        decreases |c| - k
      {
        assert tlnk[mtpt] == if k + 1 < |c| then c[k + 1] else lmte;
        mtpt := tlnk[mtpt];
        k := k + 1;
      }
    }

    /** A new free entry at the end of the main table. */
    method Allocsy()
      modifies this`names, this`text, this`vl1, this`tlnk, this`lmte
      ensures names == old(names) + [""] && text == old(text) + [false]
      ensures vl1 == old(vl1) + [0] && tlnk == old(tlnk) + [NONE] && lmte == old(lmte) + 1
    {
      names, text, vl1, tlnk := names + [""], text + [false], vl1 + [0], tlnk + [NONE];
      lmte := lmte + 1;
    }

    /** Enters the free entry at the end of the chain searched last. */
    method Mmte()
      requires Valid() && Linked() && pirt % SZIRT == Hash(names[lmte])
      requires Forced(names[lmte]) || !Has(chains[pirt], names, names[lmte])
      modifies this
      ensures Valid() && pirt == old(pirt) && lmte == old(lmte) + 1
      ensures chains == old(chains)[pirt := old(chains)[pirt] + [old(lmte)]]
      ensures names == old(names) + [""] && vl1 == old(vl1) + [0] && text == old(text) + [false]
    {
      ghost var chains0, home0, irfe0, irle0, names0, tlnk0 := chains, home, irfe, irle, names, tlnk;
      irle := irle[pirt := lmte];
      irfe := if irfe[pirt] == NONE then irfe[pirt := lmte] else irfe;
      chains, home := chains[pirt := chains[pirt] + [lmte]], home[lmte := pirt] + [0];
      Allocsy();
      assert |names| == |text| == |vl1| == |tlnk| == |home| == lmte + 1;
      Entered(pirt, chains0, home0, names0, tlnk0, irfe0, irle0, lmte - 1, chains, home, irfe);
    }

    /** Writes the name to look up into the free entry. */
    method Pack(name: string)
      requires Valid()
      modifies this`names
      ensures Valid() && names == old(names)[lmte := name]
      ensures forall h: nat :: h < |chains| ==> Has(chains[h], names, name) == Has(chains[h], old(names), name)
    {
      ghost var names0 := names;
      names := names[lmte := name];
      Renamed(chains, home, names0, tlnk, irfe, irle, lmte, name);
      SameHas(chains, home, names0, tlnk, irfe, irle, lmte, name);
    }

    /** Looks a symbol up and enters it if it is not there, or is local. */
    method Enter(name: string, base: nat) returns (e: nat)
      requires Valid() && (base == 0 || base == SZIRT)
      modifies this
      ensures Valid() && e < lmte && names[e] == name
      ensures pirt == base + Hash(name) && e in chains[pirt]
      ensures var local := |name| >= 2 && name[0] == '~' && name[1] != '~' && name[1] != '.';
        if !local && Has(old(chains)[pirt], old(names), name) then chains == old(chains)
        else e == old(lmte) && chains == old(chains)[pirt := old(chains)[pirt] + [e]]
    {
      Pack(name);
      e := Lemt(base);
      if e == lmte {
        Mmte();
      }
    }

    /** The entry is on a chain of the symbol group. */
    ghost predicate InGroup(s: nat)
      reads this
      requires s < |home|
    {
      home[s] < SZIRT && home[s] < |chains| && s in chains[home[s]]
    }

    /** Slides every text symbol above loctr down by al, each exactly once. */
    method FixSyadr(loctr: int, al: int)
      requires Valid()
      modifies this`vl1
      ensures Valid()
      ensures forall s: nat :: s < lmte ==>
        vl1[s] == if InGroup(s) then Slid(text[s], old(vl1)[s], loctr, al) else old(vl1)[s]
    {
      ghost var v0 := vl1;
      for x := 0 to SZIRT
        invariant Valid()
        invariant forall s: nat :: s < lmte ==>
          vl1[s] == if InGroup(s) && home[s] < x then Slid(text[s], v0[s], loctr, al) else v0[s]
      {
        assert ChainOk(x, chains[x], home, names, tlnk, irfe[x], irle[x], lmte);
        if irfe[x] != NONE {
          FixChain(x, loctr, al);
        }
      }
    }

    /** The walk along one chain, from its first to its last entry. */
    method FixChain(x: nat, loctr: int, al: int)
      requires Valid() && x < SZIRT && chains[x] != []
      modifies this`vl1
      ensures Valid()
      ensures forall s: nat :: s <= lmte ==>
        vl1[s] == if s in chains[x] then Slid(text[s], old(vl1)[s], loctr, al) else old(vl1)[s]
    {
      ghost var v0, c, k := vl1, chains[x], 0;
      assert ChainOk(x, c, home, names, tlnk, irfe[x], irle[x], lmte);
      var sx: nat := irfe[x];
      while true
        invariant |vl1| == lmte + 1 && 0 <= k < |c| && sx == c[k]
        invariant forall s: nat :: s <= lmte ==>
          vl1[s] == if s in c[..k] then Slid(text[s], v0[s], loctr, al) else v0[s]
        decreases |c| - k
      {
        if text[sx] && vl1[sx] > loctr {
          vl1 := vl1[sx := vl1[sx] - al];
        }
        assert c[..k + 1] == c[..k] + [c[k]];
        if sx == irle[x] {
          assert k == |c| - 1 && c[..k + 1] == c;
          break;
        }
        assert k < |c| - 1 && tlnk[sx] == c[k + 1];
        sx := tlnk[sx];
        k := k + 1;
      }
    }
  }

  /** Pointing the last entry of one chain to the free one disturbs no chain. */
  lemma LinkedLast(p: nat, chains: seq<seq<nat>>, home: seq<nat>, names: seq<string>, tlnk: seq<int>,
                   irfe: seq<int>, irle: seq<int>, lmte: nat)
    requires ChainsOk(chains, home, names, tlnk, irfe, irle, lmte) && p < |chains| && chains[p] != []
    requires |tlnk| == lmte + 1
    ensures 0 <= irle[p] < lmte
    ensures ChainsOk(chains, home, names, tlnk[irle[p] := lmte], irfe, irle, lmte)
    ensures EndsAt(chains[p], tlnk[irle[p] := lmte], lmte)
  {
    assert ChainOk(p, chains[p], home, names, tlnk, irfe[p], irle[p], lmte);
    forall h: nat | h < |chains|
      ensures ChainOk(h, chains[h], home, names, tlnk[irle[p] := lmte], irfe[h], irle[h], lmte)
    {
      assert ChainOk(h, chains[h], home, names, tlnk, irfe[h], irle[h], lmte);
    }
  }

  lemma Entered(p: nat, chains: seq<seq<nat>>, home: seq<nat>, names: seq<string>, tlnk: seq<int>,
                irfe: seq<int>, irle: seq<int>, lmte: nat, chains': seq<seq<nat>>, home': seq<nat>, irfe': seq<int>)
    requires ChainsOk(chains, home, names, tlnk, irfe, irle, lmte) && p < |chains|
    requires |names| == |tlnk| == |home| == lmte + 1 && EndsAt(chains[p], tlnk, lmte)
    requires Hash(names[lmte]) == p % SZIRT && (Forced(names[lmte]) || !Has(chains[p], names, names[lmte]))
    requires chains' == chains[p := chains[p] + [lmte]] && home' == home[lmte := p] + [0]
    requires irfe' == if irfe[p] == NONE then irfe[p := lmte] else irfe
    ensures ChainsOk(chains', home', names + [""], tlnk + [NONE], irfe', irle[p := lmte], lmte + 1)
  {
    forall h: nat | h < |chains'|
      ensures ChainOk(h, chains'[h], home', names + [""], tlnk + [NONE], irfe'[h], irle[p := lmte][h], lmte + 1)
    {
      assert ChainOk(h, chains[h], home, names, tlnk, irfe[h], irle[h], lmte);
      if h == p {
        Appended(h, chains[h], home, names, tlnk, irfe[h], irle[h], lmte);
      } else {
        Untouched(h, p, chains[h], home, names, tlnk, irfe[h], irle[h], lmte);
      }
    }
  }

  lemma Untouched(h: nat, p: nat, c: seq<nat>, home: seq<nat>, names: seq<string>, tlnk: seq<int>,
                  first: int, last: int, lmte: nat)
    requires ChainOk(h, c, home, names, tlnk, first, last, lmte) && |names| == |tlnk| == |home| == lmte + 1
    ensures ChainOk(h, c, home[lmte := p] + [0], names + [""], tlnk + [NONE], first, last, lmte + 1)
  {
  }

  /** The free entry, put at the end of the chain whose last link leads to it. */
  lemma Appended(h: nat, c: seq<nat>, home: seq<nat>, names: seq<string>, tlnk: seq<int>,
                 first: int, last: int, lmte: nat)
    requires ChainOk(h, c, home, names, tlnk, first, last, lmte) && |names| == |tlnk| == |home| == lmte + 1
    requires EndsAt(c, tlnk, lmte)
    requires Hash(names[lmte]) == h % SZIRT && (Forced(names[lmte]) || !Has(c, names, names[lmte]))
    ensures ChainOk(h, c + [lmte], home[lmte := h] + [0], names + [""], tlnk + [NONE],
                    if first == NONE then lmte else first, lmte, lmte + 1)
  {
  }

  lemma Renamed(chains: seq<seq<nat>>, home: seq<nat>, names: seq<string>, tlnk: seq<int>,
                irfe: seq<int>, irle: seq<int>, lmte: nat, name: string)
    requires ChainsOk(chains, home, names, tlnk, irfe, irle, lmte) && lmte < |names|
    ensures ChainsOk(chains, home, names[lmte := name], tlnk, irfe, irle, lmte)
  {
    forall h: nat | h < |chains|
      ensures ChainOk(h, chains[h], home, names[lmte := name], tlnk, irfe[h], irle[h], lmte)
    {
      assert ChainOk(h, chains[h], home, names, tlnk, irfe[h], irle[h], lmte);
    }
  }

  lemma SameHas(chains: seq<seq<nat>>, home: seq<nat>, names: seq<string>, tlnk: seq<int>,
                irfe: seq<int>, irle: seq<int>, lmte: nat, name: string)
    requires ChainsOk(chains, home, names, tlnk, irfe, irle, lmte) && lmte < |names|
    ensures forall h: nat :: h < |chains| ==> Has(chains[h], names[lmte := name], name) == Has(chains[h], names, name)
  {
    forall h: nat | h < |chains|
      ensures Has(chains[h], names[lmte := name], name) == Has(chains[h], names, name)
    {
      assert ChainOk(h, chains[h], home, names, tlnk, irfe[h], irle[h], lmte);
      var c := chains[h];
      forall k | 0 <= k < |c| ensures names[lmte := name][c[k]] == names[c[k]] {}
    }
  }

  /** No entry is on two chains, or twice on one. */
  lemma OnOneChain(chains: seq<seq<nat>>, home: seq<nat>, names: seq<string>, tlnk: seq<int>,
                   irfe: seq<int>, irle: seq<int>, lmte: nat, h: nat, k: nat, h': nat, k': nat)
    requires ChainsOk(chains, home, names, tlnk, irfe, irle, lmte)
    requires h < |chains| && h' < |chains| && k < |chains[h]| && k' < |chains[h']|
    requires chains[h][k] == chains[h'][k']
    ensures h == h' && k == k'
  {
    assert ChainOk(h, chains[h], home, names, tlnk, irfe[h], irle[h], lmte);
    assert ChainOk(h', chains[h'], home, names, tlnk, irfe[h'], irle[h'], lmte);
  }
}
