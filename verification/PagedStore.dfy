/** The Z8000 assembler's virtual memory: a pool of block buffers in least
    recently used order over a file, written back when a dirty buffer is taken
    over.  It must behave as one flat memory. */
module PagedStore {

  const BLOCK := 512

  type Byte = x: int | 0 <= x < 256

  // ---- the recency list ----

  function IndexOf(s: seq<int>, v: int): (k: nat)
    ensures k <= |s| && (k < |s| ==> s[k] == v)
    ensures forall j :: 0 <= j < k ==> s[j] != v
    ensures v in s <==> k < |s|
  {
    if |s| == 0 || s[0] == v then 0 else 1 + IndexOf(s[1..], v)
  }

  /** v is touched: moved to the front, or put there in place of the last. */
  function Touch(s: seq<int>, v: int): (r: seq<int>)
    requires |s| > 0
    ensures |r| == |s|
  {
    var k := IndexOf(s, v);
    if k < |s| then [v] + s[..k] + s[k + 1..] else [v] + s[..|s| - 1]
  }

  function TouchAll(s: seq<int>, vs: seq<int>): (r: seq<int>)
    requires |s| > 0
    ensures |r| == |s|
  {
    if |vs| == 0 then s else Touch(TouchAll(s, vs[..|vs| - 1]), vs[|vs| - 1])
  }

  /** The blocks other than x among those touched. */
  function Others(vs: seq<int>, x: int): set<int> {
    set v | v in vs && v != x
  }

  /** Everything before x has been touched since x was in front. */
  predicate Recent(s: seq<int>, others: set<int>, x: int) {
    var k := IndexOf(s, x);
    && k < |s|
    && (forall j :: 0 <= j < k ==> s[j] in others)
    && (forall i, j :: 0 <= i < j < k ==> s[i] != s[j])
  }

  lemma {:induction false} DistinctCount(s: seq<int>, k: nat, others: set<int>)
    requires k <= |s| && (forall j :: 0 <= j < k ==> s[j] in others)
    requires forall i, j :: 0 <= i < j < k ==> s[i] != s[j]
    ensures k <= |others|
  {
    if k > 0 {
      DistinctCount(s, k - 1, others - {s[k - 1]});
    }
  }

  lemma TouchIndex(s: seq<int>, v: int, x: int)
    requires |s| > 0 && IndexOf(s, x) < |s|
    ensures var k, r := IndexOf(s, x), Touch(s, v);
      if v == x then IndexOf(r, x) == 0
      else if IndexOf(s, v) < k then IndexOf(r, x) == k
      else k + 1 < |s| ==> IndexOf(r, x) == k + 1
  {
    var k, r := IndexOf(s, x), Touch(s, v);
    var kv := IndexOf(s, v);
    if v != x && kv > k && k + 1 < |s| {
      assert r[k + 1] == s[k];
      forall j | 0 <= j < k + 1 ensures r[j] != x {
        if j > 0 { assert r[j] == s[j - 1]; }
      }
    } else if v != x && kv < k {
      assert r[k] == s[k];
      forall j | 0 <= j < k ensures r[j] != x {
        if 0 < j <= kv { assert r[j] == s[j - 1]; }
        if j > kv { assert r[j] == s[j]; }
      }
    }
  }

  lemma TouchElem(s: seq<int>, v: int, j: nat)
    requires 0 < j < |s|
    ensures Touch(s, v)[j] == if j <= IndexOf(s, v) then s[j - 1] else s[j]
    ensures Touch(s, v)[0] == v
  {
    var k := IndexOf(s, v);
    if k < |s| {
      FrontElem(s, v, k, j);
    } else {
      assert ([v] + s[..|s| - 1])[j] == s[j - 1];
    }
  }

  lemma FrontElem(s: seq<int>, v: int, k: nat, j: nat)
    requires k < |s| && 0 < j < |s|
    ensures ([v] + s[..k] + s[k + 1..])[j] == if j <= k then s[j - 1] else s[j]
  {
  }

  lemma TouchOthers(s: seq<int>, v: int, others: set<int>, x: int, j: nat)
    requires |s| > 0 && Recent(s, others, x) && v != x && v in others
    requires j < IndexOf(Touch(s, v), x) && IndexOf(Touch(s, v), x) < |s|
    requires IndexOf(s, x) + (if IndexOf(s, v) < IndexOf(s, x) then 0 else 1) < |s|
    ensures Touch(s, v)[j] in others
  {
    TouchIndex(s, v, x);
    if j > 0 {
      TouchElem(s, v, j);
    }
  }

  lemma TouchDistinct(s: seq<int>, v: int, others: set<int>, x: int, i: nat, j: nat)
    requires |s| > 0 && Recent(s, others, x) && v != x
    requires i < j < IndexOf(Touch(s, v), x) && IndexOf(Touch(s, v), x) < |s|
    requires IndexOf(s, x) + (if IndexOf(s, v) < IndexOf(s, x) then 0 else 1) < |s|
    ensures Touch(s, v)[i] != Touch(s, v)[j]
  {
    TouchIndex(s, v, x);
    TouchElem(s, v, j);
    if i > 0 {
      TouchElem(s, v, i);
      var j0 := if j <= IndexOf(s, v) then j - 1 else j;
      var i0 := if i <= IndexOf(s, v) then i - 1 else i;
      assert s[i0] != s[j0];
    } else {
      assert j <= IndexOf(s, v) ==> s[j - 1] != v;
    }
  }

  lemma TouchRecent(s: seq<int>, v: int, others: set<int>, x: int)
    requires |s| > 0 && Recent(s, others, x)
    requires v != x ==> v in others && IndexOf(s, x) + (if IndexOf(s, v) < IndexOf(s, x) then 0 else 1) < |s|
    ensures Recent(Touch(s, v), others, x)
  {
    TouchIndex(s, v, x);
    if v != x {
      var r := Touch(s, v);
      forall j | 0 <= j < IndexOf(r, x) ensures r[j] in others {
        TouchOthers(s, v, others, x, j);
      }
      forall i, j | 0 <= i < j < IndexOf(r, x) ensures r[i] != r[j] {
        TouchDistinct(s, v, others, x, i, j);
      }
    }
  }

  /** A block stays in the pool until as many other blocks have been fetched as
      there are buffers. */
  lemma {:induction false} Survives(s: seq<int>, vs: seq<int>, x: int)
    requires |s| > 0 && s[0] == x && |Others(vs, x)| < |s|
    ensures x in TouchAll(s, vs) && Recent(TouchAll(s, vs), Others(vs, x), x)
    decreases |vs|
  {
    if |vs| > 0 {
      var vs0, v := vs[..|vs| - 1], vs[|vs| - 1];
      var o0, o := Others(vs0, x), Others(vs, x);
      assert vs == vs0 + [v];
      assert o0 <= o;
      SubsetSize(o0, o);
      Survives(s, vs0, x);
      MoreOthers(TouchAll(s, vs0), o0, o, x);
      if v != x {
        assert v in o;
        RoomFor(TouchAll(s, vs0), v, o, x);
      }
      TouchRecent(TouchAll(s, vs0), v, o, x);
    }
  }

  lemma MoreOthers(t: seq<int>, o0: set<int>, o: set<int>, x: int)
    requires Recent(t, o0, x) && o0 <= o
    ensures Recent(t, o, x)
  {
  }

  /** Touching another block does not push x off the end. */
  lemma RoomFor(t: seq<int>, v: int, o: set<int>, x: int)
    requires Recent(t, o, x) && v in o && |o| < |t|
    ensures IndexOf(t, x) + (if IndexOf(t, v) < IndexOf(t, x) then 0 else 1) < |t|
  {
    var k := IndexOf(t, x);
    if IndexOf(t, v) >= k {
      assert v !in t[..k];
      var u := t[..k] + [v];
      forall i, j | 0 <= i < j < k + 1 ensures u[i] != u[j] {}
      DistinctCount(u, k + 1, o);
    }
  }

  lemma SubsetSize(a: set<int>, b: set<int>)
    requires a <= b
    ensures |a| <= |b|
  {
    assert b == a + (b - a);
  }

  predicate Distinct(vs: seq<int>) { forall i, j :: 0 <= i < j < |vs| ==> vs[i] != vs[j] }

  predicate Outside(vs: seq<int>, s: seq<int>) { forall j :: 0 <= j < |vs| ==> vs[j] !in s }

  predicate Once(s: seq<int>, x: int) { forall i, j :: 0 <= i < j < |s| && s[i] == x ==> s[j] != x }

  /** After n fetches at most n other blocks have been fetched. */
  lemma {:induction false} OthersCount(vs: seq<int>, x: int)
    ensures |Others(vs, x)| <= |vs|
  {
    if |vs| == 0 {
      assert Others(vs, x) == {};
    } else {
      var n := |vs| - 1;
      OthersCount(vs[..n], x);
      assert vs == vs[..n] + [vs[n]];
      assert Others(vs, x) <= Others(vs[..n], x) + {vs[n]};
      SubsetSize(Others(vs, x), Others(vs[..n], x) + {vs[n]});
    }
  }

  /** The bound is exact: as many distinct other blocks drive it out. */
  lemma {:induction false} DrivenOut(s: seq<int>, vs: seq<int>, x: int, k: nat)
    requires |s| > 0 && IndexOf(s, x) == k < |s| && |vs| == |s| - k
    requires Outside(vs, s) && Distinct(vs) && Once(s, x)
    ensures x !in TouchAll(s, vs)
    decreases |vs|
  {
    TouchAllFirst(s, vs);
    assert vs[0] !in s;
    if k == |s| - 1 {
      assert vs[1..] == [];
      LastDropped(s, vs[0], x);
    } else {
      TouchIndex(s, vs[0], x);
      NewTouched(s, vs, x);
      DrivenOut(Touch(s, vs[0]), vs[1..], x, k + 1);
    }
  }

  lemma LastDropped(s: seq<int>, v: int, x: int)
    requires |s| > 0 && IndexOf(s, x) == |s| - 1 && v !in s
    ensures x !in Touch(s, v)
  {
    forall j | 0 < j < |s| ensures Touch(s, v)[j] != x {
      TouchElem(s, v, j);
    }
  }

  lemma NewTouched(s: seq<int>, vs: seq<int>, x: int)
    requires |s| > 0 && |vs| > 0 && Outside(vs, s) && Distinct(vs) && x in s && Once(s, x)
    ensures Once(Touch(s, vs[0]), x) && Outside(vs[1..], Touch(s, vs[0])) && Distinct(vs[1..])
  {
    var r := Touch(s, vs[0]);
    assert vs[0] !in s;
    forall i, j | 0 <= i < j < |r| && r[i] == x ensures r[j] != x {
      TouchElem(s, vs[0], j);
      if i > 0 { TouchElem(s, vs[0], i); }
    }
    forall j | 0 <= j < |vs[1..]| ensures vs[1..][j] !in r {
      assert vs[1..][j] == vs[j + 1] && vs[j + 1] !in s;
    }
  }

  lemma {:induction false} TouchAllFirst(s: seq<int>, vs: seq<int>)
    requires |s| > 0 && |vs| > 0
    ensures TouchAll(s, vs) == TouchAll(Touch(s, vs[0]), vs[1..])
    decreases |vs|
  {
    if |vs| > 1 {
      TouchAllFirst(s, vs[..|vs| - 1]);
      assert vs[..|vs| - 1][1..] == vs[1..][..|vs| - 2];
    } else {
      assert vs[..0] == [] && TouchAll(s, []) == s;
    }
  }

  // ---- the pool ----

  /** The buffers from most to least recently used, as they are linked. */
  predicate LinksOk(order: seq<nat>, lnk: seq<int>, head: int) {
    && |order| == |lnk| > 0 && order[0] == head
    && (forall k :: 0 <= k < |order| ==> order[k] < |lnk|)
    && (forall j, k :: 0 <= j < k < |order| ==> order[j] != order[k])
    && (forall i: nat :: i < |order| ==> i in order)
    && (forall k {:trigger lnk[order[k]]} :: 0 <= k < |order| - 1 ==> lnk[order[k]] == order[k + 1])
    && lnk[order[|order| - 1]] == -1
  }

  /** No block is in two buffers, and an empty buffer is not dirty. */
  predicate BlocksOk(blk: seq<int>, dirty: seq<bool>, n: nat) {
    && |blk| == |dirty| == n
    && (forall i :: 0 <= i < n && dirty[i] ==> blk[i] >= 0)
    && (forall i :: 0 <= i < n ==> blk[i] >= -1)
    && (forall i, j :: 0 <= i < j < n && blk[i] == blk[j] ==> blk[i] == -1)
  }

  /** No buffer holds unwritten changes to the block. */
  predicate Clean(blk: seq<int>, dirty: seq<bool>, v: int) {
    forall i :: 0 <= i < |blk| && i < |dirty| && blk[i] == v ==> !dirty[i]
  }

  predicate MemOk(flat: map<nat, Byte>, blk: seq<int>, mem: seq<seq<Byte>>) {
    && |mem| == |blk| && (forall i :: 0 <= i < |mem| ==> |mem[i]| == BLOCK)
    && forall a, i :: a in flat && 0 <= i < |blk| && blk[i] == a / BLOCK ==> mem[i][a % BLOCK] == flat[a]
  }

  predicate DiskOk(flat: map<nat, Byte>, blk: seq<int>, dirty: seq<bool>, disk: map<int, seq<Byte>>, limblk: int) {
    && (forall k :: k in disk ==> |disk[k]| == BLOCK && k < limblk)
    && forall a :: a in flat && Clean(blk, dirty, a / BLOCK) ==>
         a / BLOCK in disk && disk[a / BLOCK][a % BLOCK] == flat[a]
  }

  function BlocksOf(order: seq<nat>, blk: seq<int>): (s: seq<int>)
    requires forall k :: 0 <= k < |order| ==> order[k] < |blk|
    ensures |s| == |order| && forall k :: 0 <= k < |s| ==> s[k] == blk[order[k]]
  {
    seq(|order|, k requires 0 <= k < |order| => blk[order[k]])
  }

  function Moved(order: seq<nat>, k: nat): seq<nat>
    requires k < |order|
  {
    [order[k]] + order[..k] + order[k + 1..]
  }

  lemma WrittenBack(flat: map<nat, Byte>, blk: seq<int>, dirty: seq<bool>, mem: seq<seq<Byte>>,
                    disk: map<int, seq<Byte>>, limblk: int, cb: nat)
    requires BlocksOk(blk, dirty, |blk|) && MemOk(flat, blk, mem) && DiskOk(flat, blk, dirty, disk, limblk)
    requires cb < |blk| && blk[cb] >= 0
    ensures DiskOk(flat, blk, dirty[cb := false], disk[blk[cb] := mem[cb]],
                   if blk[cb] >= limblk then blk[cb] + 1 else limblk)
  {
    var disk' := disk[blk[cb] := mem[cb]];
    forall a | a in flat && Clean(blk, dirty[cb := false], a / BLOCK)
      ensures a / BLOCK in disk' && disk'[a / BLOCK][a % BLOCK] == flat[a]
    {
      if a / BLOCK != blk[cb] {
        assert Clean(blk, dirty, a / BLOCK);
      }
    }
  }

  /** A clean buffer takes a block over that is in no buffer. */
  lemma Replaced(flat: map<nat, Byte>, blk: seq<int>, dirty: seq<bool>, mem: seq<seq<Byte>>,
                 disk: map<int, seq<Byte>>, limblk: int, cb: nat, vbn: int, b: seq<Byte>)
    requires BlocksOk(blk, dirty, |blk|) && MemOk(flat, blk, mem) && DiskOk(flat, blk, dirty, disk, limblk)
    requires cb < |blk| && !dirty[cb] && vbn >= 0 && vbn !in blk
    requires b == if vbn < limblk && vbn in disk then disk[vbn] else mem[cb]
    ensures BlocksOk(blk[cb := vbn], dirty, |blk|)
    ensures MemOk(flat, blk[cb := vbn], mem[cb := b]) && DiskOk(flat, blk[cb := vbn], dirty, disk, limblk)
  {
    var blk', mem' := blk[cb := vbn], mem[cb := b];
    forall a, i | a in flat && 0 <= i < |blk'| && blk'[i] == a / BLOCK ensures mem'[i][a % BLOCK] == flat[a] {
      if i == cb {
        assert Clean(blk, dirty, vbn);
      }
    }
    forall a | a in flat && Clean(blk', dirty, a / BLOCK)
      ensures a / BLOCK in disk && disk[a / BLOCK][a % BLOCK] == flat[a]
    {
      forall i | 0 <= i < |blk| && blk[i] == a / BLOCK ensures !dirty[i] {
        assert i != cb ==> blk'[i] == a / BLOCK;
      }
      assert Clean(blk, dirty, a / BLOCK);
    }
  }

  lemma MovedElem(order: seq<nat>, k: nat, j: nat)
    requires k < |order| && j < |order|
    ensures Moved(order, k)[j] == if j == 0 then order[k] else if j <= k then order[j - 1] else order[j]
  {
  }

  lemma IndexIs(s: seq<int>, v: int, k: nat)
    requires k < |s| && (forall j :: 0 <= j < k ==> s[j] != v)
    ensures IndexOf(s, v) == k <==> s[k] == v
    ensures k == |s| - 1 && s[k] != v ==> IndexOf(s, v) == |s|
  {
  }

  predicate Apart(order: seq<nat>) { forall j, k :: 0 <= j < k < |order| ==> order[j] != order[k] }

  predicate Within(order: seq<nat>, n: nat) { forall k :: 0 <= k < |order| ==> order[k] < n }

  /** The buffers' blocks, in order of use, after vbn was touched. */
  predicate Recency(order: seq<nat>, blk: seq<int>, vbn: int, order': seq<nat>, blk': seq<int>) {
    && |order| == |order'| > 0 && Within(order, |blk|) && Within(order', |blk'|)
    && BlocksOf(order', blk') == Touch(BlocksOf(order, blk), vbn)
  }

  lemma TouchedAt(order: seq<nat>, blk: seq<int>, blk': seq<int>, vbn: int, k: nat, j: nat)
    requires |blk'| == |blk| && Within(order, |blk|) && Apart(order) && j < |order|
    requires k < |order| && (forall i :: 0 <= i < k ==> blk[order[i]] != vbn)
    requires if blk[order[k]] == vbn then blk' == blk else k == |order| - 1 && blk' == blk[order[k] := vbn]
    ensures Moved(order, k)[j] < |blk'|
    ensures blk'[Moved(order, k)[j]] == Touch(BlocksOf(order, blk), vbn)[j]
  {
    var s := BlocksOf(order, blk);
    IndexIs(s, vbn, k);
    MovedElem(order, k, j);
    if j > 0 {
      TouchElem(s, vbn, j);
    }
  }

  /** The block found at place k, or the last buffer given to it, moves to the
      front exactly as in the recency list. */
  lemma Touched(order: seq<nat>, blk: seq<int>, order': seq<nat>, blk': seq<int>, vbn: int, k: nat)
    requires k < |order| && order' == Moved(order, k)
    requires |blk'| == |blk| && Within(order, |blk|) && Apart(order)
    requires k < |order| && (forall i :: 0 <= i < k ==> blk[order[i]] != vbn)
    requires if blk[order[k]] == vbn then blk' == blk else k == |order| - 1 && blk' == blk[order[k] := vbn]
    ensures Recency(order, blk, vbn, order', blk')
  {
    var m, t := Moved(order, k), Touch(BlocksOf(order, blk), vbn);
    forall j | 0 <= j < |order| ensures m[j] < |blk'| && blk'[m[j]] == t[j] {
      TouchedAt(order, blk, blk', vbn, k, j);
    }
    assert BlocksOf(m, blk') == t;
  }

  /** The link fields after relinking the buffer at place k to the front. */
  function Relinked(order: seq<nat>, lnk: seq<int>, head: int, k: nat): seq<int>
    requires k < |order| && Within(order, |lnk|)
  {
    var cb := order[k];
    if k == 0 then lnk[cb := lnk[cb]] else lnk[order[k - 1] := lnk[cb]][cb := head]
  }

  lemma LinkAt(order: seq<nat>, lnk: seq<int>, head: int, k: nat, j: nat)
    requires LinksOk(order, lnk, head) && k < |order| && j < |order|
    ensures var l, m := Relinked(order, lnk, head, k), Moved(order, k);
      m[j] < |l| && l[m[j]] == if j + 1 < |order| then m[j + 1] else -1
  {
    MovedElem(order, k, j);
    if j + 1 < |order| {
      MovedElem(order, k, j + 1);
    }
    if j == k > 0 && j + 1 < |order| {
      assert lnk[order[j]] == order[j + 1];
    }
  }

  lemma MovedApart(order: seq<nat>, k: nat, i: nat, j: nat)
    requires Apart(order) && k < |order| && i < j < |order|
    ensures Moved(order, k)[i] != Moved(order, k)[j]
  {
    MovedElem(order, k, i);
    MovedElem(order, k, j);
  }

  lemma MovedAll(order: seq<nat>, k: nat, i: nat)
    requires k < |order| && i in order
    ensures i in Moved(order, k)
  {
    assert order == order[..k] + [order[k]] + order[k + 1..];
  }

  /** A block that no linked buffer holds is in no buffer. */
  lemma NotThere(order: seq<nat>, blk: seq<int>, vbn: int)
    requires |blk| == |order| && Within(order, |blk|) && (forall i: nat :: i < |order| ==> i in order)
    requires forall k :: 0 <= k < |order| ==> blk[order[k]] != vbn
    ensures vbn !in blk
  {
    forall i: nat | i < |blk| ensures blk[i] != vbn {
      assert i in order;
    }
  }

  /** Relinking one buffer to the front. */
  lemma MovedLinks(order: seq<nat>, lnk: seq<int>, head: int, k: nat)
    requires LinksOk(order, lnk, head) && k < |order|
    ensures LinksOk(Moved(order, k), Relinked(order, lnk, head, k), order[k])
  {
    var m, l := Moved(order, k), Relinked(order, lnk, head, k);
    forall j | 0 <= j < |m| ensures m[j] < |l| && l[m[j]] == if j + 1 < |m| then m[j + 1] else -1 {
      LinkAt(order, lnk, head, k, j);
    }
    forall i, j | 0 <= i < j < |m| ensures m[i] != m[j] {
      MovedApart(order, k, i, j);
    }
    forall i: nat | i < |m| ensures i in m {
      MovedAll(order, k, i);
    }
  }

  class Pool {
    var lnk: seq<int>
    var blk: seq<int>
    var dirty: seq<bool>
    var mem: seq<seq<Byte>>
    var head: int
    var limblk: int
    var disk: map<int, seq<Byte>>
    ghost var order: seq<nat>
    ghost var flat: map<nat, Byte>

    ghost predicate Valid()
      reads this
    {
      && LinksOk(order, lnk, head) && BlocksOk(blk, dirty, |order|) && limblk >= 0
      && MemOk(flat, blk, mem) && DiskOk(flat, blk, dirty, disk, limblk)
    }

    constructor (n: nat)
      requires n > 0
      ensures Valid() && |order| == n && flat == map[]
    {
      lnk := seq(n, i => if i + 1 < n then i + 1 else -1);
      order := seq(n, i => i);
      blk := seq(n, _ => -1);
      dirty := seq(n, _ => false);
      mem := seq(n, _ => seq(BLOCK, _ => 0));
      head, limblk, disk, flat := 0, 0, map[], map[];
      new;
      forall i: nat | i < |order| ensures i in order {
        assert order[i] == i;
      }
    }

    /** Walks the list to the buffer of the block, or to its end. */
    method Walk(vbn: int) returns (pb: int, cb: nat, ghost k: nat)
      requires Valid() && vbn >= 0
      ensures k < |order| && cb == order[k] && pb == (if k == 0 then -1 else order[k - 1])
      ensures forall j :: 0 <= j < k ==> blk[order[j]] != vbn
      ensures blk[cb] != vbn ==> k == |order| - 1 && vbn !in blk
    {
      pb, cb, k := -1, head, 0;
      while blk[cb] != vbn && lnk[cb] != -1
        invariant 0 <= k < |order| && cb == order[k] && pb == (if k == 0 then -1 else order[k - 1])
        invariant forall j :: 0 <= j < k ==> blk[order[j]] != vbn
        decreases |order| - k
      {
        assert k < |order| - 1;
        pb := cb;
        cb := lnk[cb];
        k := k + 1;
      }
      if blk[cb] != vbn {
        NotThere(order, blk, vbn);
      }
    }

    /** Writes the old contents out if need be and reads the new ones in. */
    method Commandeer(cb: nat, vbn: int)
      requires Valid() && cb < |order| && vbn >= 0 && vbn !in blk
      modifies this`dirty, this`mem, this`blk, this`disk, this`limblk
      ensures Valid() && blk == old(blk)[cb := vbn]
      ensures forall i :: 0 <= i < |order| && i != cb ==> mem[i] == old(mem)[i] && dirty[i] == old(dirty)[i]
    {
      if dirty[cb] {
        WriteBack(cb);
      }
      assert !dirty[cb];
      var b := mem[cb];
      if vbn < limblk {
        if vbn in disk {
          b := disk[vbn];
        }
      }
      Replaced(flat, blk, dirty, mem, disk, limblk, cb, vbn, b);
      mem := mem[cb := b];
      blk := blk[cb := vbn];
    }

    method WriteBack(cb: nat)
      requires Valid() && cb < |order| && dirty[cb]
      modifies this`dirty, this`disk, this`limblk
      ensures Valid() && dirty == old(dirty)[cb := false]
    {
      WrittenBack(flat, blk, dirty, mem, disk, limblk, cb);
      disk := disk[blk[cb] := mem[cb]];
      if blk[cb] >= limblk {
        limblk := blk[cb] + 1;
      }
      dirty := dirty[cb := false];
    }

    /** Takes the buffer out of the list and puts it in front. */
    method ToFront(pb: int, cb: nat, ghost k: nat)
      requires Valid() && k < |order| && cb == order[k] && pb == (if k == 0 then -1 else order[k - 1])
      modifies this`lnk, this`head, this`order
      ensures Valid() && order == Moved(old(order), k)
    {
      MovedLinks(order, lnk, head, k);
      if pb == -1 {
        head := lnk[cb];
      } else {
        lnk := lnk[pb := lnk[cb]];
      }
      lnk := lnk[cb := head];
      head := cb;
      order := Moved(order, k);
    }

    /** The buffer holding the address, now the most recently used. */
    method Getbuf(adr: nat) returns (cb: nat)
      requires Valid()
      modifies this`lnk, this`blk, this`dirty, this`mem, this`head, this`limblk, this`disk, this`order
      ensures Valid() && cb < |order| && blk[cb] == adr / BLOCK && order[0] == cb
      ensures |order| == old(|order|) && Recency(old(order), old(blk), adr / BLOCK, order, blk)
      ensures forall i :: 0 <= i < |order| && i != cb ==>
        blk[i] == old(blk)[i] && mem[i] == old(mem)[i] && dirty[i] == old(dirty)[i]
      ensures adr / BLOCK in old(blk) ==> blk == old(blk) && mem == old(mem) && dirty == old(dirty)
    {
      var vbn := adr / BLOCK;
      var pb;
      ghost var k;
      pb, cb, k := Walk(vbn);
      ghost var order0, blk0 := order, blk;
      if blk[cb] != vbn {
        Commandeer(cb, vbn);
      }
      ToFront(pb, cb, k);
      Touched(order0, blk0, order, blk, vbn, k);
    }

    /** The pointer is into the buffer that holds this address. */
    ghost predicate Points(p: Ptr, adr: nat)
      reads this
    {
      p.buf < |blk| && blk[p.buf] == adr / BLOCK && p.off == adr % BLOCK
    }

    method Rfetch(adr: nat) returns (p: Ptr)
      requires Valid()
      modifies this`lnk, this`blk, this`dirty, this`mem, this`head, this`limblk, this`disk, this`order
      ensures Valid() && Points(p, adr) && |order| == old(|order|) && order[0] == p.buf
      ensures Recency(old(order), old(blk), adr / BLOCK, order, blk)
      ensures forall i :: 0 <= i < |order| && i != p.buf ==> blk[i] == old(blk)[i]
    {
      var cb := Getbuf(adr);
      p := Ptr(cb, adr % BLOCK);
    }

    method Wfetch(adr: nat) returns (p: Ptr)
      requires Valid()
      modifies this`lnk, this`blk, this`dirty, this`mem, this`head, this`limblk, this`disk, this`order
      ensures Valid() && Points(p, adr) && dirty[p.buf] && |order| == old(|order|) && order[0] == p.buf
      ensures Recency(old(order), old(blk), adr / BLOCK, order, blk)
      ensures forall i :: 0 <= i < |order| && i != p.buf ==> blk[i] == old(blk)[i]
    {
      var cb := Getbuf(adr);
      Dirtied(flat, blk, dirty, disk, limblk, cb);
      dirty := dirty[cb := true];
      p := Ptr(cb, adr % BLOCK);
    }

    /** Reading through a pointer whose buffer still holds its block. */
    method Peek(p: Ptr, ghost adr: nat) returns (v: Byte)
      requires Valid() && Points(p, adr)
      ensures adr in flat ==> v == flat[adr]
    {
      v := mem[p.buf][p.off];
    }

    /** Writing through a pointer got for writing. */
    method Poke(p: Ptr, ghost adr: nat, v: Byte)
      requires Valid() && Points(p, adr) && dirty[p.buf]
      modifies this`mem, this`flat
      ensures Valid() && flat == old(flat)[adr := v]
    {
      Poked(flat, blk, dirty, mem, disk, limblk, p.buf, adr, v);
      mem := mem[p.buf := SetByte(mem[p.buf], p.off, v)];
      flat := flat[adr := v];
    }

    /** A byte once stored is loaded with its last value. */
    method LoadByte(adr: nat) returns (v: Byte)
      requires Valid()
      modifies this`lnk, this`blk, this`dirty, this`mem, this`head, this`limblk, this`disk, this`order
      ensures Valid() && flat == old(flat)
      ensures adr in flat ==> v == flat[adr]
    {
      var p := Rfetch(adr);
      v := Peek(p, adr);
    }

    method StoreByte(adr: nat, v: Byte)
      requires Valid()
      modifies this`lnk, this`blk, this`dirty, this`mem, this`head, this`limblk, this`disk, this`order, this`flat
      ensures Valid() && flat == old(flat)[adr := v]
    {
      var p := Wfetch(adr);
      Poke(p, adr, v);
    }

    /** Fetch after fetch, the newest pointer stays good as long as fewer other
        blocks have been fetched than there are buffers. */
    method FetchAll(adrs: seq<nat>, ghost p: Ptr, ghost adr: nat)
      requires Valid() && Points(p, adr) && order[0] == p.buf
      requires |Others(Blocks(adrs), adr / BLOCK)| < |order|
      modifies this`lnk, this`blk, this`dirty, this`mem, this`head, this`limblk, this`disk, this`order
      ensures Valid() && flat == old(flat) && Points(p, adr)
    {
      ghost var x, vs, s0 := adr / BLOCK, Blocks(adrs), BlocksOf(order, blk);
      for i := 0 to |adrs|
        invariant Valid() && flat == old(flat) && |order| == |s0| && Points(p, adr)
        invariant Within(order, |blk|) && BlocksOf(order, blk) == TouchAll(s0, vs[..i])
      {
        ghost var blk0 := blk;
        assert vs[..i + 1] == vs[..i] + [adrs[i] / BLOCK];
        var q := Rfetch(adrs[i]);
        FewerOthers(vs, i + 1, x);
        Survives(s0, vs[..i + 1], x);
        StillThere(order, blk0, blk, p.buf, q.buf, x);
      }
    }
  }

  datatype Ptr = Ptr(buf: nat, off: nat)

  function Blocks(adrs: seq<nat>): (vs: seq<int>)
    ensures |vs| == |adrs| && forall i :: 0 <= i < |vs| ==> vs[i] == adrs[i] / BLOCK
  {
    seq(|adrs|, i requires 0 <= i < |adrs| => adrs[i] / BLOCK)
  }

  lemma FewerOthers(vs: seq<int>, i: nat, x: int)
    requires i <= |vs|
    ensures |Others(vs[..i], x)| <= |Others(vs, x)|
  {
    assert Others(vs[..i], x) <= Others(vs, x);
    SubsetSize(Others(vs[..i], x), Others(vs, x));
  }

  /** A block that is still in the pool is still in its buffer. */
  lemma StillThere(order: seq<nat>, blk: seq<int>, blk': seq<int>, b: nat, cb: nat, x: int)
    requires Within(order, |blk'|) && |blk'| == |blk| && b < |blk| && cb < |blk| && blk[b] == x >= 0
    requires forall i, j :: 0 <= i < j < |blk| && blk[i] == blk[j] ==> blk[i] == -1
    requires forall i :: 0 <= i < |blk| && i != cb ==> blk'[i] == blk[i]
    requires x in BlocksOf(order, blk')
    ensures blk'[b] == x
  {
    var s := BlocksOf(order, blk');
    var k :| 0 <= k < |s| && s[k] == x;
    assert blk'[order[k]] == x;
  }

  function SetByte(row: seq<Byte>, off: nat, v: Byte): (r: seq<Byte>)
    requires off < |row|
    ensures |r| == |row| && r[off] == v && forall i :: 0 <= i < |row| && i != off ==> r[i] == row[i]
  {
    row[..off] + [v] + row[off + 1..]
  }

  lemma Dirtied(flat: map<nat, Byte>, blk: seq<int>, dirty: seq<bool>, disk: map<int, seq<Byte>>, limblk: int, cb: nat)
    requires cb < |dirty| == |blk| && DiskOk(flat, blk, dirty, disk, limblk)
    ensures DiskOk(flat, blk, dirty[cb := true], disk, limblk)
  {
    forall a | a in flat && Clean(blk, dirty[cb := true], a / BLOCK)
      ensures a / BLOCK in disk && disk[a / BLOCK][a % BLOCK] == flat[a]
    {
      forall i | 0 <= i < |blk| && blk[i] == a / BLOCK ensures !dirty[i] {
        assert !dirty[cb := true][i];
      }
      assert Clean(blk, dirty, a / BLOCK);
    }
  }

  lemma Poked(flat: map<nat, Byte>, blk: seq<int>, dirty: seq<bool>, mem: seq<seq<Byte>>,
              disk: map<int, seq<Byte>>, limblk: int, b: nat, adr: nat, v: Byte)
    requires BlocksOk(blk, dirty, |blk|) && MemOk(flat, blk, mem) && DiskOk(flat, blk, dirty, disk, limblk)
    requires b < |blk| && blk[b] == adr / BLOCK && dirty[b]
    ensures MemOk(flat[adr := v], blk, mem[b := SetByte(mem[b], adr % BLOCK, v)])
    ensures DiskOk(flat[adr := v], blk, dirty, disk, limblk)
  {
    var mem' := mem[b := SetByte(mem[b], adr % BLOCK, v)];
    forall a, i | a in flat[adr := v] && 0 <= i < |blk| && blk[i] == a / BLOCK
      ensures mem'[i][a % BLOCK] == flat[adr := v][a]
    {
      if i == b && a != adr {
        assert a % BLOCK != adr % BLOCK;
      }
    }
  }

  /** Allocation of regions that lie inside one block. */
  class Allocator {
    var virtop: nat

    constructor ()
      ensures virtop == 2
    {
      virtop := 2;
    }

    method Vmalloc(size: nat) returns (base: nat)
      modifies this
      ensures base >= old(virtop) && virtop == base + size
      ensures 0 < size <= BLOCK ==> base / BLOCK == (base + size - 1) / BLOCK
      ensures base == old(virtop) || base % BLOCK == 0
      ensures base == old(virtop) <==> old(virtop) % 512 + size <= 512
      ensures base != old(virtop) ==> base - old(virtop) == 512 - old(virtop) % 512
    {
      var blklim := virtop / BLOCK * BLOCK + BLOCK;
      if virtop + size > blklim {
        virtop := blklim;
      }
      base := virtop;
      virtop := virtop + size;
    }
  }
}
