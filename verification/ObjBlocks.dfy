/** The object writer: text bytes and relocation entries grow toward each other
    in one buffer, which is written out as a block when it is full. */
module ObjBlocks {

  const OBJSIZ := 255
  const SYMSIZ := 8
  const OBTXT := 6
  const HEADER := 6
  const FULL32 := 0x1_0000_0000

  type Byte = x: int | 0 <= x < 256

  /** A relocation word: an action in the high four bits, a base in the others. */
  datatype Reloc = Reloc(action: nat, base: nat) {
    predicate Ok() { action < 16 && base < 0x1000 }

    /** No action, or the absolute base: nothing to relocate. */
    predicate None() { action == 0 || base == 0 }

    function Word(): nat { action * 0x1000 + base }
  }

  const NONE := Reloc(0, 0)

  // ---- what a file means ----

  /** A byte of code at its place, and a relocation of the item there. */
  datatype Cell = Cell(sec: int, addr: int, val: Byte)
  datatype Rel = Rel(sec: int, addr: int, reloc: int)

  /** A block as it is written: its type, its length, its bytes. */
  datatype Block = Block(typ: Byte, len: int, body: seq<Byte>)

  predicate Measured(bs: seq<Block>) { forall i :: 0 <= i < |bs| ==> bs[i].len == |bs[i].body| }

  /** The number these bytes spell, low byte first. */
  function Le(b: seq<Byte>): int {
    if |b| == 0 then 0 else (b[0] as int) + 0x100 * Le(b[1..])
  }

  function StartOf(b: seq<Byte>): int
    requires |b| >= 4
  {
    Le(b[..4])
  }

  /** The data bytes, placed from addr on. */
  function CellsAt(sec: int, addr: int, data: seq<Byte>): (s: seq<Cell>)
    ensures |s| == |data|
  {
    if |data| == 0 then []
    else CellsAt(sec, addr, data[..|data| - 1]) + [Cell(sec, addr + |data| - 1, data[|data| - 1])]
  }

  /** The relocation entries, newest first in the block. */
  function RelsAt(sec: int, addr: int, rel: seq<Byte>): seq<Rel> {
    if |rel| < 3 then []
    else
      RelsAt(sec, addr, rel[3..]) +
        [Rel(sec, addr + (rel[0] as int) - HEADER, rel[1] as int + 0x100 * (rel[2] as int))]
  }

  predicate WholeText(b: seq<Byte>) { |b| >= HEADER && |b| >= HEADER + b[5] }

  function TextCells(b: seq<Byte>): seq<Cell> {
    if WholeText(b) then CellsAt(b[4], StartOf(b), b[HEADER..HEADER + b[5]]) else []
  }

  function TextRels(b: seq<Byte>): seq<Rel> {
    if WholeText(b) then RelsAt(b[4], StartOf(b), b[HEADER + b[5]..]) else []
  }

  function BlockCells(b: Block): seq<Cell> { if b.typ == OBTXT then TextCells(b.body) else [] }

  function BlockRels(b: Block): seq<Rel> { if b.typ == OBTXT then TextRels(b.body) else [] }

  function AllCells(bs: seq<Block>): seq<Cell> {
    if |bs| == 0 then [] else AllCells(bs[..|bs| - 1]) + BlockCells(bs[|bs| - 1])
  }

  function AllRels(bs: seq<Block>): seq<Rel> {
    if |bs| == 0 then [] else AllRels(bs[..|bs| - 1]) + BlockRels(bs[|bs| - 1])
  }

  function BlockBytes(b: Block): seq<int> { [b.typ as int, b.len] + b.body }

  /** The bytes of the file. */
  function FileOf(bs: seq<Block>): seq<int> {
    if |bs| == 0 then [] else FileOf(bs[..|bs| - 1]) + BlockBytes(bs[|bs| - 1])
  }

  lemma FileGrows(bs: seq<Block>, b: Block)
    ensures FileOf(bs + [b]) == FileOf(bs) + ([b.typ as int, b.len] + b.body)
  {
    assert (bs + [b])[..|bs|] == bs;
  }

  predicate IsByte(x: int) { 0 <= x < 256 }

  predicate AllBytes(s: seq<int>) { forall i :: 0 <= i < |s| ==> IsByte(s[i]) }

  function AsBytes(s: seq<int>): (b: seq<Byte>)
    requires AllBytes(s)
    ensures |b| == |s| && forall i :: 0 <= i < |s| ==> b[i] == s[i]
  {
    seq(|s|, i requires 0 <= i < |s| => s[i])
  }

  /** Reading the blocks back. */
  function Parse(f: seq<int>): seq<Block> {
    if |f| < 2 || f[1] < 0 || |f| < 2 + f[1] || !IsByte(f[0]) || !AllBytes(f[2..2 + f[1]]) then []
    else [Block(f[0], f[1], AsBytes(f[2..2 + f[1]]))] + Parse(f[2 + f[1]..])
  }

  lemma ParseOne(b: Block, rest: seq<int>)
    requires b.len == |b.body|
    ensures Parse(BlockBytes(b) + rest) == [b] + Parse(rest)
  {
    var f := BlockBytes(b) + rest;
    assert f[0] == b.typ && f[1] == |b.body|;
    var d := f[2..2 + f[1]];
    assert d == b.body;
    forall i | 0 <= i < |d| ensures IsByte(d[i]) {
      assert d[i] == b.body[i];
    }
    assert AsBytes(d) == b.body;
    assert f[2 + f[1]..] == rest;
  }

  lemma Regrouped<T>(x: seq<T>, y: seq<T>, z: seq<T>)
    ensures x + y + z == x + (y + z)
  {
  }

  /** Reading a file back gives the blocks written. */
  lemma {:induction false} ParseFile(bs: seq<Block>, rest: seq<int>)
    requires Measured(bs)
    ensures Parse(FileOf(bs) + rest) == bs + Parse(rest)
  {
    if |bs| == 0 {
      assert FileOf(bs) + rest == rest && bs + Parse(rest) == Parse(rest);
    } else {
      var n := |bs| - 1;
      var b := bs[n];
      Regrouped(FileOf(bs[..n]), BlockBytes(b), rest);
      ParseFile(bs[..n], BlockBytes(b) + rest);
      ParseOne(b, rest);
      assert bs == bs[..n] + [b];
      Regrouped(bs[..n], [b], Parse(rest));
    }
  }

  /** Entry k: where its item starts in the block, and its word, low byte first. */
  function RelEntry(sec: int, addr: int, rel: seq<Byte>, k: nat): Rel
    requires k < |rel| / 3
  {
    Rel(sec, addr + (rel[3 * k] as int) - 6, rel[3 * k + 1] as int + 0x100 * (rel[3 * k + 2] as int))
  }

  /** A text block as it stands in the file: four bytes of address, low byte first, the
      section, the number of code bytes, these bytes, and three bytes for each relocation,
      newest first. */
  lemma TextLayout(a: seq<Byte>, sec: Byte, data: seq<Byte>, rel: seq<Byte>, len: int)
    requires |a| == 4 && |data| < 256
    ensures var b := Block(6, len, a + [sec, |data| as Byte] + data + rel);
      var at := a[0] as int + 0x100 * (a[1] as int) + 0x1_0000 * (a[2] as int) + 0x100_0000 * (a[3] as int);
      && |BlockCells(b)| == |data| && |BlockRels(b)| == |rel| / 3
      && (forall i :: 0 <= i < |data| ==> BlockCells(b)[i] == Cell(sec as int, at + i, data[i]))
      && (forall k {:trigger RelEntry(sec as int, at, rel, k)} :: 0 <= k < |rel| / 3 ==>
            BlockRels(b)[|rel| / 3 - 1 - k] == RelEntry(sec as int, at, rel, k))
  {
    hide Le, CellsAt, RelsAt;
    var body := a + [sec, |data| as Byte] + data + rel;
    assert body[..4] == a && body[HEADER..HEADER + body[5]] == data && body[HEADER + body[5]..] == rel;
    FourBytes(a);
    CellsLaid(sec as int, StartOf(body), data);
    RelsLaid(sec as int, StartOf(body), rel);
  }

  lemma FourBytes(a: seq<Byte>)
    requires |a| == 4
    ensures Le(a) == a[0] as int + 0x100 * (a[1] as int) + 0x1_0000 * (a[2] as int) + 0x100_0000 * (a[3] as int)
  {
    assert a[1..][1..] == a[2..] && a[2..][1..] == a[3..] && a[3..][1..] == [];
    assert Le(a[3..]) == a[3] as int;
    assert Le(a[2..]) == (a[2] as int) + 0x100 * (a[3] as int);
    assert Le(a[1..]) == (a[1] as int) + 0x100 * Le(a[2..]);
    assert Le(a) == (a[0] as int) + 0x100 * Le(a[1..]);
  }

  lemma {:induction false} CellsLaid(sec: int, addr: int, data: seq<Byte>)
    ensures forall i :: 0 <= i < |data| ==> CellsAt(sec, addr, data)[i] == Cell(sec, addr + i, data[i])
  {
    if |data| > 0 {
      CellsLaid(sec, addr, data[..|data| - 1]);
    }
  }

  lemma {:induction false} RelsLaid(sec: int, addr: int, rel: seq<Byte>)
    ensures |RelsAt(sec, addr, rel)| == |rel| / 3
    ensures forall k {:trigger RelEntry(sec, addr, rel, k)} :: 0 <= k < |rel| / 3 ==>
      RelsAt(sec, addr, rel)[|rel| / 3 - 1 - k] == RelEntry(sec, addr, rel, k)
  {
    if |rel| >= 3 {
      var rest := rel[3..];
      RelsLaid(sec, addr, rest);
      forall k | 0 <= k < |rel| / 3
        ensures RelsAt(sec, addr, rel)[|rel| / 3 - 1 - k] == RelEntry(sec, addr, rel, k)
      {
        if k > 0 {
          assert rest[3 * (k - 1)] == rel[3 * k] && rest[3 * (k - 1) + 1] == rel[3 * k + 1];
          assert rest[3 * (k - 1) + 2] == rel[3 * k + 2];
          assert RelEntry(sec, addr, rest, k - 1) == RelEntry(sec, addr, rel, k);
        }
      }
    }
  }

  // ---- the buffer ----

  /** A text block under construction: its data and relocation parts. */
  predicate TextOk(lo: seq<Byte>, sec: int, next: int) {
    && |lo| >= HEADER && lo[5] == |lo| - HEADER && lo[4] == sec
    && StartOf(lo) + lo[5] == next
  }

  function CurCells(typ: int, lo: seq<Byte>): seq<Cell> {
    if typ == OBTXT && |lo| >= HEADER then CellsAt(lo[4], StartOf(lo), lo[HEADER..]) else []
  }

  function CurRels(typ: int, lo: seq<Byte>, hi: seq<Byte>): seq<Rel> {
    if typ == OBTXT && |lo| >= HEADER then RelsAt(lo[4], StartOf(lo), hi) else []
  }

  /** A finished block reads as the two parts did. */
  lemma Finished(lo: seq<Byte>, hi: seq<Byte>, sec: int, next: int, typ: Byte, len: int)
    requires typ == OBTXT ==> TextOk(lo, sec, next)
    ensures BlockCells(Block(typ, len, lo + hi)) == CurCells(typ, lo)
    ensures BlockRels(Block(typ, len, lo + hi)) == CurRels(typ, lo, hi)
  {
    if typ == OBTXT {
      var b := lo + hi;
      assert b[HEADER..HEADER + b[5]] == lo[HEADER..] && b[HEADER + b[5]..] == hi;
      assert b[..4] == lo[..4];
    }
  }

  /** What a reader of the file, then of the open block, finds. */
  function CellsOf(bs: seq<Block>, typ: int, lo: seq<Byte>): seq<Cell> { AllCells(bs) + CurCells(typ, lo) }

  function RelsOf(bs: seq<Block>, typ: int, lo: seq<Byte>, hi: seq<Byte>): seq<Rel> {
    AllRels(bs) + CurRels(typ, lo, hi)
  }

  /** The blocks written and the parts of the open one hold the cells and relocations emitted. */
  predicate Consistent(bs: seq<Block>, typ: int, lo: seq<Byte>, hi: seq<Byte>, sec: int, next: int,
                       cells: seq<Cell>, rels: seq<Rel>) {
    && Measured(bs) && (typ == OBTXT ==> TextOk(lo, sec, next))
    && cells == CellsOf(bs, typ, lo) && rels == RelsOf(bs, typ, lo, hi)
  }

  /** Writing a block out changes nothing for a reader. */
  lemma Flushed(bs: seq<Block>, typ: Byte, lo: seq<Byte>, hi: seq<Byte>, sec: int, next: int,
                cells: seq<Cell>, rels: seq<Rel>)
    requires Consistent(bs, typ as int, lo, hi, sec, next, cells, rels)
    ensures var bs' := bs + [Block(typ, |lo| + |hi|, lo + hi)];
      Measured(bs') && AllCells(bs') == cells && AllRels(bs') == rels
  {
    Finished(lo, hi, sec, next, typ, |lo| + |hi|);
    AllAppend(bs, Block(typ, |lo| + |hi|, lo + hi));
  }

  /** A block that is not of text, or holds nothing yet, adds nothing. */
  lemma NothingOpen(bs: seq<Block>, typ: int, lo: seq<Byte>, hi: seq<Byte>, sec: int, next: int,
                    cells: seq<Cell>, rels: seq<Rel>)
    requires CurCells(typ, lo) == [] && CurRels(typ, lo, hi) == [] && (typ == OBTXT ==> TextOk(lo, sec, next))
    ensures Measured(bs) && cells == AllCells(bs) && rels == AllRels(bs) <==>
            Consistent(bs, typ, lo, hi, sec, next, cells, rels)
  {
  }

  /** Nor does a table block. */
  lemma TableOpen(bs: seq<Block>, typ: Byte, lo: seq<Byte>, hi: seq<Byte>, sec: int, next: int,
                  cells: seq<Cell>, rels: seq<Rel>)
    requires typ != OBTXT && Measured(bs) && cells == AllCells(bs) && rels == AllRels(bs)
    ensures Consistent(bs, typ as int, lo, hi, sec, next, cells, rels)
  {
    NothingOpen(bs, typ as int, lo, hi, sec, next, cells, rels);
  }

  lemma Deposited(bs: seq<Block>, lo: seq<Byte>, hi: seq<Byte>, lo': seq<Byte>, hi': seq<Byte>, c: Cell, rs: seq<Rel>)
    requires CurCells(OBTXT, lo') == CurCells(OBTXT, lo) + [c]
    requires CurRels(OBTXT, lo', hi') == CurRels(OBTXT, lo, hi) + rs
    ensures CellsOf(bs, OBTXT, lo') == CellsOf(bs, OBTXT, lo) + [c]
    ensures RelsOf(bs, OBTXT, lo', hi') == RelsOf(bs, OBTXT, lo, hi) + rs
  {
  }

  lemma AllAppend(bs: seq<Block>, b: Block)
    ensures AllCells(bs + [b]) == AllCells(bs) + BlockCells(b)
    ensures AllRels(bs + [b]) == AllRels(bs) + BlockRels(b)
  {
    assert (bs + [b])[..|bs|] == bs;
  }

  /** One more data byte, and its count. */
  lemma MoreData(lo: seq<Byte>, hi: seq<Byte>, sec: int, next: int, v: Byte)
    requires TextOk(lo, sec, next) && lo[5] < 255
    ensures var lo' := (lo + [v])[5 := lo[5] + 1];
      && TextOk(lo', sec, next + 1)
      && CurCells(OBTXT, lo') == CurCells(OBTXT, lo) + [Cell(sec, next, v)]
      && CurRels(OBTXT, lo', hi) == CurRels(OBTXT, lo, hi)
  {
    var lo' := (lo + [v])[5 := lo[5] + 1];
    assert lo'[..4] == lo[..4];
    assert lo'[HEADER..][..|lo| - HEADER] == lo[HEADER..];
  }

  /** One more relocation, of the next data byte. */
  lemma MoreRel(lo: seq<Byte>, hi: seq<Byte>, sec: int, next: int, reloc: nat)
    requires TextOk(lo, sec, next) && |lo| < 256 && reloc < 0x1_0000
    ensures var hi' := [|lo|, reloc % 0x100, reloc / 0x100] + hi;
      && TextOk(lo, sec, next)
      && CurRels(OBTXT, lo, hi') == CurRels(OBTXT, lo, hi) + [Rel(sec, next, reloc)]
  {
    var hi': seq<Byte> := [|lo|, reloc % 0x100, reloc / 0x100] + hi;
    assert hi'[3..] == hi;
  }

  /** The relocation actually recorded; 0 for none. */
  function Effective(reloc: Reloc): (r: nat)
    requires reloc.Ok()
    ensures r < 0x1_0000 && (r == 0 <==> reloc.None())
  {
    if reloc.None() then 0 else reloc.Word()
  }

  /** The word recorded has the action in its high 4 bits and the base in its low 12;
      nothing is recorded for no action or the absolute base. */
  lemma RecordedWord(reloc: Reloc)
    requires reloc.Ok()
    ensures var w := Effective(reloc);
      if reloc.action == 0 || reloc.base == 0 then w == 0
      else w != 0 && w / 0x1000 == reloc.action && w % 0x1000 == reloc.base
  {
  }

  function RelOf(sec: int, addr: int, rel: nat): seq<Rel> { if rel == 0 then [] else [Rel(sec, addr, rel)] }

  /** These bytes have been added, placed from addr on. */
  predicate Grown(c0: seq<Cell>, c1: seq<Cell>, sec: int, addr: int, bytes: seq<Byte>) {
    c1 == c0 + CellsAt(sec, addr, bytes)
  }

  lemma GrownTwice(c0: seq<Cell>, c1: seq<Cell>, c2: seq<Cell>, sec: int, addr: int, mid: int, x: seq<Byte>,
            y: seq<Byte>)
    requires Grown(c0, c1, sec, addr, x) && Grown(c1, c2, sec, mid, y) && mid == addr + |x|
    ensures Grown(c0, c2, sec, addr, x + y)
  {
    CellsAppend(sec, addr, x, y);
  }

  function OneByte(v: int): (b: seq<Byte>)
    ensures |b| == 1
  {
    [v % 0x100]
  }

  lemma GrownByte(c0: seq<Cell>, sec: int, addr: int, v: int)
    ensures Grown(c0, c0 + [Cell(sec, addr, (v % 0x100) as Byte)], sec, addr, OneByte(v))
  {
    assert OneByte(v)[..0] == [];
  }

  type Buffer = s: seq<Byte> | |s| == OBJSIZ witness seq(OBJSIZ, _ => 0)

  type Place = x: int | 0 <= x <= OBJSIZ

  class Writer {
    var objbuf: Buffer
    var objtop: Place
    var relbot: Place
    var objtyp: Byte
    var curloc: int
    var cursec: Byte
    var nxtloc: int
    var nxtsec: int
    var file: seq<Block>
    // the code emitted so far, as a reader of the finished file will see it
    ghost var cells: seq<Cell>
    ghost var rels: seq<Rel>

    ghost function Lo(): seq<Byte>
      reads this
    {
      objbuf[..objtop]
    }

    ghost function Hi(): seq<Byte>
      reads this
    {
      objbuf[relbot..]
    }

    ghost predicate Valid()
      reads this
    {
      && objtop <= relbot && 0 <= curloc < FULL32
      && (objtyp == 0 ==> objtop == 0 && relbot == OBJSIZ)
      && Consistent(file, objtyp as int, Lo(), Hi(), nxtsec, nxtloc, cells, rels)
    }

    constructor ()
      ensures Valid() && cells == [] && rels == []
    {
      objbuf := seq(OBJSIZ, _ => 0);
      objtop, relbot, objtyp := 0, OBJSIZ, 0;
      curloc, cursec, nxtloc, nxtsec := 0, 0, 0, 0;
      file, cells, rels := [], [], [];
    }

    /** Appends the block to the file. */
    method WriteBlock()
      requires Valid() && objtyp != 0
      modifies this`file
      ensures Measured(file) && file == old(file) + [Block(objtyp, |Lo()| + |Hi()|, Lo() + Hi())]
      ensures AllCells(file) == cells && AllRels(file) == rels
    {
      ghost var f0, lo, hi := file, Lo(), Hi();
      file := file + [Block(objtyp, OBJSIZ - (relbot - objtop), objbuf[..objtop] + objbuf[relbot..])];
      Flushed(f0, objtyp, lo, hi, nxtsec, nxtloc, cells, rels);
    }

    /** Writes the block out, if there is one. */
    method Oflush()
      requires Valid()
      modifies this`file, this`objtop, this`relbot, this`objtyp
      ensures Valid() && objtyp == 0 && Closed() && objtop == 0 && relbot == 255
      ensures file == if old(objtyp) == 0 then old(file)
        else old(file) + [Block(old(objtyp), old(|Lo()| + |Hi()|), old(Lo() + Hi()))]
      ensures FileOf(file) == old(FileOf(file)) + if old(objtyp) == 0 then []
        else [old(objtyp) as int, old(|Lo()| + |Hi()|)] + old(Lo() + Hi())
    {
      if objtyp != 0 {
        FileGrows(file, Block(objtyp, |Lo()| + |Hi()|, Lo() + Hi()));
        WriteBlock();
      } else {
        NothingOpen(file, 0, Lo(), Hi(), nxtsec, nxtloc, cells, rels);
      }
      objtop, relbot, objtyp := 0, OBJSIZ, 0;
      NothingOpen(file, 0, Lo(), Hi(), nxtsec, nxtloc, cells, rels);
    }

    /** The overflow exit of the original is the precondition here. */
    method Oputb(c: int)
      requires objtop < relbot
      modifies this`objtop, this`objbuf
      ensures objtop == old(objtop) + 1 && Lo() == old(Lo()) + [(c % 0x100) as Byte] && Hi() == old(Hi())
    {
      objbuf := objbuf[objtop := c % 0x100];
      objtop := objtop + 1;
    }

    method Oputw(w: int)
      requires objtop + 2 <= relbot
      modifies this`objtop, this`objbuf
      ensures objtop == old(objtop) + 2 && Hi() == old(Hi())
      ensures Lo() == old(Lo()) + WordBytes(w)
    {
      Oputb(w);
      Oputb(w / 0x100);
    }

    method Oputl(l: int)
      requires objtop + 4 <= relbot
      modifies this`objtop, this`objbuf
      ensures objtop == old(objtop) + 4 && Hi() == old(Hi())
      ensures Lo() == old(Lo()) + LongBytes(l)
    {
      Oputw(l);
      Oputw(l / 0x1_0000);
    }

    /** Starts a text block unless the open one continues here. */
    method Setorg()
      requires Valid() && curloc + 1 < FULL32
      modifies this`file, this`objtop, this`relbot, this`objtyp, this`nxtloc, this`nxtsec, this`objbuf
      ensures Valid() && objtyp == OBTXT && nxtloc == curloc && nxtsec == cursec as int
      ensures if old(objtyp) == OBTXT && old(nxtloc) == curloc && old(nxtsec) == cursec as int
        then objtop == old(objtop) && relbot == old(relbot) && Lo() == old(Lo()) && Hi() == old(Hi()) &&
          file == old(file)
        else objtop == 6 && relbot == 255 && (file == old(file) <==> old(objtyp) == 0)
    {
      if objtyp != OBTXT || nxtloc != curloc || nxtsec != cursec as int {
        NewBlock();
      }
    }

    /** Writes the open block out and starts a text block here. */
    method NewBlock()
      requires Valid()
      modifies this`file, this`objtop, this`relbot, this`objtyp, this`nxtloc, this`nxtsec, this`objbuf
      ensures Valid() && objtyp == OBTXT && nxtloc == curloc && nxtsec == cursec as int
      ensures objtop == HEADER && relbot == OBJSIZ && (file == old(file) <==> old(objtyp) == 0)
    {
      Oflush();
      nxtloc, nxtsec, objtyp := curloc, cursec as int, OBTXT;
      Header();
      NothingOpen(file, OBTXT, Lo(), Hi(), nxtsec, nxtloc, cells, rels);
    }

    /** An empty text block that starts here. */
    method Header()
      requires objtop == 0 && relbot == OBJSIZ && 0 <= curloc < FULL32
      modifies this`objtop, this`objbuf
      ensures objtop == HEADER && TextOk(Lo(), cursec as int, curloc)
      ensures CurCells(OBTXT, Lo()) == [] && CurRels(OBTXT, Lo(), Hi()) == []
    {
      Oputl(curloc);
      Oputb(cursec as int);
      Oputb(0);
      assert Lo() == LongBytes(curloc) + [cursec, 0] && Hi() == [];
      HeaderOf(curloc, cursec, Lo());
    }

    /** Puts the byte, and its relocation if any, into the open block. */
    method Deposit(value: int, rel: nat)
      requires TextOk(Lo(), cursec as int, curloc) && rel < 0x1_0000
      requires relbot - objtop >= if rel != 0 then 4 else 1
      modifies this`relbot, this`objtop, this`objbuf
      ensures TextOk(Lo(), cursec as int, curloc + 1)
      ensures CurCells(OBTXT, Lo()) ==
        old(CurCells(OBTXT, Lo())) + [Cell(cursec as int, curloc, (value % 0x100) as Byte)]
      ensures CurRels(OBTXT, Lo(), Hi()) == old(CurRels(OBTXT, Lo(), Hi())) + RelOf(cursec as int, curloc, rel)
      ensures objtop == old(objtop) + 1 && relbot == old(relbot) - (if rel != 0 then 3 else 0)
      ensures rel == 0 ==> Hi() == old(Hi())
      ensures rel != 0 ==> |Hi()| >= 3 && Hi()[0] as int == objtop - 1
    {
      ghost var lo0, hi0 := Lo(), Hi();
      if rel != 0 {
        PutRel(rel);
        MoreRel(lo0, hi0, cursec as int, curloc, rel);
      }
      ghost var hi := Hi();
      PutData(value);
      MoreData(lo0, hi, cursec as int, curloc, value % 0x100);
    }

    /** Makes room for the byte and, if it starts a relocated item, for the rest of
        the item and its relocation. */
    method MakeRoom(rel: nat)
      requires Valid() && curloc + 1 < FULL32
      modifies this`file, this`objtop, this`relbot, this`objtyp, this`nxtloc, this`nxtsec, this`objbuf
      ensures Valid() && objtyp == OBTXT && nxtloc == curloc && nxtsec == cursec as int
      ensures relbot - objtop >= if rel != 0 then 7 else 1
      ensures file == old(file) <==> old(objtyp == 0 || GoesOn(if rel != 0 then 7 else 1))
      ensures rel == 0 && old(Continues()) ==>
        && file == old(file) && objtop == old(objtop) && relbot == old(relbot)
        && Hi() == old(Hi())
    {
      hide Consistent;
      if relbot - objtop < (if rel != 0 then 7 else 1) {
        Oflush();
      }
      Setorg();
    }

    /** The open text block goes on at the present location and has room. */
    ghost predicate Continues()
      reads this
    {
      relbot - objtop >= 1 && objtyp == OBTXT && nxtloc == curloc && nxtsec == cursec as int
    }

    /** So much goes into the open text block at the present location. */
    ghost predicate GoesOn(room: nat)
      reads this
    {
      relbot - objtop >= room && objtyp == 6 && nxtloc == curloc && nxtsec == cursec as int
    }

    /** The newest relocation is that of the last k bytes of the open block. */
    ghost predicate ItemAtEnd(k: nat)
      reads this
    {
      objtyp == OBTXT && objtop >= HEADER + k && |Hi()| >= 3 && Hi()[0] as int == objtop - k
    }

    /** k bytes more in the same block, and no relocation. */
    ghost predicate Extends(file0: seq<Block>, top0: int, bot0: int, hi0: seq<Byte>, k: nat)
      reads this
    {
      file == file0 && objtop == top0 + k && relbot == bot0 && Hi() == hi0
    }

    /** Deposits a byte in the open block, which has room, and moves on. */
    method PutByte(value: int, rel: nat)
      requires Valid() && curloc + 1 < FULL32 && rel < 0x1_0000
      requires objtyp == OBTXT && nxtloc == curloc && nxtsec == cursec as int
      requires relbot - objtop >= if rel != 0 then 4 else 1
      modifies this`relbot, this`objtop, this`objbuf, this`cells, this`rels, this`curloc, this`nxtloc
      ensures Valid() && curloc == old(curloc) + 1 == nxtloc
      ensures Grown(old(cells), cells, cursec as int, old(curloc), OneByte(value))
      ensures rels == old(rels) + RelOf(cursec as int, old(curloc), rel)
      ensures objtop == old(objtop) + 1 && relbot == old(relbot) - (if rel != 0 then 3 else 0)
      ensures rel == 0 ==> Hi() == old(Hi())
      ensures rel != 0 ==> |Hi()| >= 3 && Hi()[0] as int == objtop - 1
    {
      GrownByte(cells, cursec as int, curloc, value);
      ghost var lo, hi := Lo(), Hi();
      Deposit(value, rel);
      cells := cells + [Cell(cursec as int, curloc, (value % 0x100) as Byte)];
      rels := rels + RelOf(cursec as int, curloc, rel);
      Deposited(file, lo, hi, Lo(), Hi(), Cell(cursec as int, curloc, (value % 0x100) as Byte),
                RelOf(cursec as int, curloc, rel));
      curloc := curloc + 1;
      nxtloc := curloc;
    }

    /** Emits a byte of code, with the relocation of the item that starts here. */
    method Emitb(value: int, reloc: Reloc)
      requires Valid() && curloc + 1 < 0x1_0000_0000 && reloc.Ok()
      modifies this
      ensures Valid() && objtyp == OBTXT && curloc == old(curloc) + 1 == nxtloc && cursec == old(cursec) &&
        nxtsec == cursec as int
      ensures Grown(old(cells), cells, cursec as int, old(curloc), OneByte(value))
      ensures rels == old(rels) + RelOf(cursec as int, old(curloc), Effective(reloc))
      ensures file == old(file) <==> old(objtyp == 0 || GoesOn(if reloc.action == 0 || reloc.base == 0 then 1 else 7))
      ensures !reloc.None() ==> relbot - objtop >= 3 && ItemAtEnd(1)
      ensures reloc.None() && old(Continues()) ==> Extends(old(file), old(objtop), old(relbot), old(Hi()), 1)
    {
      var rel := Effective(reloc);
      MakeRoom(rel);
      PutByte(value, rel);
    }

    /** A word, low byte first; its bytes are never parted. */
    method Emitw(value: int, reloc: Reloc)
      requires Valid() && curloc + 2 < 0x1_0000_0000 && reloc.Ok()
      modifies this
      ensures Valid() && objtyp == OBTXT && curloc == old(curloc) + 2 == nxtloc && cursec == old(cursec) &&
        nxtsec == cursec as int
      ensures Grown(old(cells), cells, cursec as int, old(curloc), WordBytes(value))
      ensures rels == old(rels) + RelOf(cursec as int, old(curloc), Effective(reloc))
      ensures !reloc.None() ==> relbot - objtop >= 2 && ItemAtEnd(2)
      ensures reloc.None() && old(Continues()) && old(relbot - objtop) >= 2 ==>
        Extends(old(file), old(objtop), old(relbot), old(Hi()), 2)
    {
      ghost var c0, a0 := cells, curloc;
      Emitb(value, reloc);
      ghost var c1, a1 := cells, curloc;
      Emitb(value / 0x100, NONE);
      GrownTwice(c0, c1, cells, cursec as int, a0, a1, OneByte(value), OneByte(value / 0x100));
    }

    /** A word, high byte first. */
    method Emitwm(value: int, reloc: Reloc)
      requires Valid() && curloc + 2 < 0x1_0000_0000 && reloc.Ok()
      modifies this
      ensures Valid() && objtyp == OBTXT && curloc == old(curloc) + 2 == nxtloc && cursec == old(cursec) &&
        nxtsec == cursec as int
      ensures Grown(old(cells), cells, cursec as int, old(curloc), MsbWord(value))
      ensures rels == old(rels) + RelOf(cursec as int, old(curloc), Effective(reloc))
      ensures !reloc.None() ==> relbot - objtop >= 2 && ItemAtEnd(2)
      ensures reloc.None() && old(Continues()) && old(relbot - objtop) >= 2 ==>
        Extends(old(file), old(objtop), old(relbot), old(Hi()), 2)
    {
      ghost var c0, a0 := cells, curloc;
      Emitb(value / 0x100, reloc);
      ghost var c1, a1 := cells, curloc;
      Emitb(value, NONE);
      GrownTwice(c0, c1, cells, cursec as int, a0, a1, OneByte(value / 0x100), OneByte(value));
    }

    /** A long, low word first; its bytes are never parted. */
    method Emitl(value: int, reloc: Reloc)
      requires Valid() && curloc + 4 < 0x1_0000_0000 && reloc.Ok()
      modifies this
      ensures Valid() && curloc == old(curloc) + 4 && cursec == old(cursec)
      ensures Grown(old(cells), cells, cursec as int, old(curloc), LongBytes(value))
      ensures rels == old(rels) + RelOf(cursec as int, old(curloc), Effective(reloc))
      ensures !reloc.None() ==> ItemAtEnd(4)
    {
      ghost var c0, a0 := cells, curloc;
      Emitw(value, reloc);
      ghost var c1, a1 := cells, curloc;
      Emitw(value / 0x1_0000, NONE);
      GrownTwice(c0, c1, cells, cursec as int, a0, a1, WordBytes(value), WordBytes(value / 0x1_0000));
    }

    /** A long, high word first. */
    method Emitlm(value: int, reloc: Reloc)
      requires Valid() && curloc + 4 < 0x1_0000_0000 && reloc.Ok()
      modifies this
      ensures Valid() && curloc == old(curloc) + 4 && cursec == old(cursec)
      ensures Grown(old(cells), cells, cursec as int, old(curloc), MsbLong(value))
      ensures rels == old(rels) + RelOf(cursec as int, old(curloc), Effective(reloc))
      ensures !reloc.None() ==> ItemAtEnd(4)
    {
      ghost var c0, a0 := cells, curloc;
      Emitwm(value / 0x1_0000, reloc);
      ghost var c1, a1 := cells, curloc;
      Emitwm(value, NONE);
      GrownTwice(c0, c1, cells, cursec as int, a0, a1, MsbWord(value / 0x1_0000), MsbWord(value));
    }

    /** Code goes on in another place. */
    method SetPlace(sec: Byte, loc: int)
      requires Valid() && 0 <= loc < FULL32
      modifies this`cursec, this`curloc
      ensures Valid() && cursec == sec && curloc == loc
    {
      cursec, curloc := sec, loc;
    }

    /** The end of the output: reading the finished file back gives exactly the
        code that was emitted, and each relocation once. */
    method Finish()
      requires Valid()
      modifies this`file, this`objtop, this`relbot, this`objtyp
      ensures Valid() && AllCells(Parse(FileOf(file))) == cells && AllRels(Parse(FileOf(file))) == rels
    {
      Oflush();
      ParseFile(file, []);
      assert FileOf(file) + [] == FileOf(file) && file + Parse([]) == file;
    }

    /** A symbol: eight characters at most and a zero. */
    method Oputs(name: string)
      requires relbot - objtop >= SYMSIZ + 1
      modifies this`objtop, this`objbuf
      ensures Lo() == old(Lo()) + NameBytes(name) && Hi() == old(Hi())
      ensures objtop <= relbot
    {
      ghost var lo := Lo();
      var j := 0;
      while j < SYMSIZ && j < |name|
        invariant 0 <= j <= SYMSIZ && j <= |name| && relbot - objtop >= SYMSIZ + 1 - j
        invariant Lo() == lo + LowBytes(Codes(name[..j])) && Hi() == old(Hi())
      {
        CodesMore(name, j);
        Oputb(name[j] as int);
        j := j + 1;
      }
      assert name[..|name|] == name;
      Oputb(0);
    }

    method OputNumbers(fixed: seq<int>)
      requires relbot - objtop >= |fixed|
      modifies this`objtop, this`objbuf
      ensures Lo() == old(Lo()) + LowBytes(fixed) && Hi() == old(Hi()) && objtop == old(objtop) + |fixed|
    {
      ghost var lo := Lo();
      for i := 0 to |fixed|
        invariant objtop == old(objtop) + i
        invariant Lo() == lo + LowBytes(fixed[..i]) && Hi() == old(Hi())
      {
        LowMore(fixed, i);
        Oputb(fixed[i]);
      }
      assert fixed[..|fixed|] == fixed;
    }

    /** A table block of this type with room for a record. */
    method OpenTable(typ: Byte)
      requires Valid() && typ != OBTXT && typ != 0
      modifies this`file, this`objtop, this`relbot, this`objtyp
      ensures Valid() && Closed() && objtyp == typ && relbot - objtop >= 15
      ensures if old(objtyp) == typ && old(relbot - objtop) >= 15 then file == old(file) && Lo() == old(Lo())
        else Lo() == []
    {
      if objtyp != typ || relbot - objtop < SYMSIZ + 7 {
        Oflush();
        objtyp := typ;
      }
      NothingOpen(file, typ as int, Lo(), Hi(), nxtsec, nxtloc, cells, rels);
    }

    /** One record of a table block; it fits after the check, so the overflow exit
        is never taken. */
    method PutRecord(typ: Byte, fixed: seq<int>, name: string)
      requires Valid() && typ != OBTXT && typ != 0 && |fixed| <= 6
      modifies this`file, this`objtop, this`relbot, this`objtyp, this`objbuf
      ensures Valid() && objtyp == typ
      ensures if old(objtyp) == typ && old(relbot - objtop) >= 15
        then file == old(file) && Lo() == old(Lo()) + LowBytes(fixed) + NameBytes(name)
        else Lo() == LowBytes(fixed) + NameBytes(name)
    {
      hide Consistent, LowBytes, NameBytes;
      OpenTable(typ);
      ghost var lo := Lo();
      OputNumbers(fixed);
      Oputs(name);
      if lo == [] {
        assert lo + LowBytes(fixed) == LowBytes(fixed);
      }
      TableOpen(file, typ, Lo(), Hi(), nxtsec, nxtloc, cells, rels);
    }

    /** No code is in the open block. */
    ghost predicate Closed()
      reads `file, `cells, `rels, `curloc
    {
      Measured(file) && 0 <= curloc < FULL32 && cells == AllCells(file) && rels == AllRels(file)
    }

    method PutRel(rel: nat)
      requires objtop + 3 <= relbot && rel < 0x1_0000
      modifies this`relbot, this`objbuf
      ensures relbot == old(relbot) - 3 && Lo() == old(Lo())
      ensures Hi() == [objtop as Byte, (rel % 0x100) as Byte, (rel / 0x100) as Byte] + old(Hi())
    {
      relbot := relbot - 1;
      objbuf := objbuf[relbot := rel / 0x100];
      relbot := relbot - 1;
      objbuf := objbuf[relbot := rel % 0x100];
      relbot := relbot - 1;
      objbuf := objbuf[relbot := objtop];
    }

    method PutData(value: int)
      requires HEADER <= objtop < relbot && objbuf[5] < 255
      modifies this`objtop, this`objbuf
      ensures objtop == old(objtop) + 1 && Hi() == old(Hi())
      ensures Lo() == (old(Lo()) + [(value % 0x100) as Byte])[5 := old(objbuf[5]) + 1]
    {
      Oputb(value);
      objbuf := objbuf[5 := objbuf[5] + 1];
    }
  }

  /** The low bytes of these numbers. */
  function LowBytes(s: seq<int>): (b: seq<Byte>)
    ensures |b| == |s| && forall i :: 0 <= i < |s| ==> b[i] == s[i] % 0x100
  {
    seq(|s|, i requires 0 <= i < |s| => s[i] % 0x100)
  }

  function Codes(s: string): (c: seq<int>)
    ensures |c| == |s| && forall i :: 0 <= i < |s| ==> c[i] == s[i] as int
  {
    seq(|s|, i requires 0 <= i < |s| => s[i] as int)
  }

  /** A name as it is put out: eight of its characters at most, and a zero. */
  function NameBytes(name: string): seq<Byte> {
    LowBytes(Codes(if |name| <= 8 then name else name[..8])) + [0]
  }

  lemma LowMore(s: seq<int>, i: nat)
    requires i < |s|
    ensures LowBytes(s[..i + 1]) == LowBytes(s[..i]) + [(s[i] % 0x100) as Byte]
  {
  }

  lemma CodesMore(s: string, i: nat)
    requires i < |s|
    ensures LowBytes(Codes(s[..i + 1])) == LowBytes(Codes(s[..i])) + [(s[i] as int % 0x100) as Byte]
  {
  }

  /** A word as its two bytes, low byte first. */
  function WordBytes(w: int): (b: seq<Byte>)
    ensures |b| == 2
  {
    OneByte(w) + OneByte(w / 0x100)
  }

  function MsbWord(w: int): (b: seq<Byte>)
    ensures |b| == 2
  {
    OneByte(w / 0x100) + OneByte(w)
  }

  /** A long as its four bytes, low byte first. */
  function LongBytes(l: int): (b: seq<Byte>)
    ensures |b| == 4
  {
    WordBytes(l) + WordBytes(l / 0x1_0000)
  }

  function MsbLong(l: int): (b: seq<Byte>)
    ensures |b| == 4
  {
    MsbWord(l / 0x1_0000) + MsbWord(l)
  }

  /** The bytes one by one. */
  lemma BytesOrder(l: int)
    requires 0 <= l < FULL32
    ensures WordBytes(l) == [l % 0x100, l / 0x100 % 0x100]
    ensures LongBytes(l) == [l % 0x100, l / 0x100 % 0x100, l / 0x1_0000 % 0x100, l / 0x100_0000]
  {
  }

  lemma LongBytesLe(l: int)
    requires 0 <= l < FULL32
    ensures Le(LongBytes(l)) == l
  {
    hide Le, LongBytes;
    BytesOrder(l);
    FourBytes(LongBytes(l));
    ByteSum(l);
  }

  lemma ByteSum(l: int)
    ensures l % 0x100 + 0x100 * (l / 0x100 % 0x100) + 0x1_0000 * (l / 0x1_0000 % 0x100)
      + 0x100_0000 * (l / 0x100_0000) == l
  {
    assert l / 0x100 == 0x100 * (l / 0x1_0000) + l / 0x100 % 0x100;
    assert l / 0x1_0000 == 0x100 * (l / 0x100_0000) + l / 0x1_0000 % 0x100;
  }

  lemma HeaderOf(l: int, sec: Byte, b: seq<Byte>)
    requires 0 <= l < FULL32 && b == LongBytes(l) + [sec, 0]
    ensures TextOk(b, sec as int, l) && CurCells(OBTXT, b) == [] && CurRels(OBTXT, b, []) == []
  {
    assert b[..4] == LongBytes(l);
    LongBytesLe(l);
  }

  function Reversed(b: seq<Byte>): (r: seq<Byte>)
    ensures |r| == |b|
  {
    if |b| == 0 then [] else Reversed(b[1..]) + [b[0]]
  }

  /** The high-byte-first forms are the low-byte-first ones reversed. */
  lemma MsbReversed(l: int)
    ensures MsbWord(l) == Reversed(WordBytes(l)) && MsbLong(l) == Reversed(LongBytes(l))
  {
    WordReversed(l);
    WordReversed(l / 0x1_0000);
    ReversedAppend(WordBytes(l), WordBytes(l / 0x1_0000));
  }

  lemma WordReversed(w: int)
    ensures MsbWord(w) == Reversed(WordBytes(w))
  {
    var b := WordBytes(w);
    assert b[1..] == [b[1]] && b[1..][1..] == [];
    assert Reversed(b[1..]) == [b[1]];
  }

  lemma {:induction false} ReversedAppend(x: seq<Byte>, y: seq<Byte>)
    ensures Reversed(x + y) == Reversed(y) + Reversed(x)
  {
    if |x| == 0 {
      assert x + y == y && Reversed(y) + [] == Reversed(y);
    } else {
      assert (x + y)[1..] == x[1..] + y;
      ReversedAppend(x[1..], y);
    }
  }

  lemma {:induction false} CellsAppend(sec: int, addr: int, x: seq<Byte>, y: seq<Byte>)
    ensures CellsAt(sec, addr, x + y) == CellsAt(sec, addr, x) + CellsAt(sec, addr + |x|, y)
  {
    if |y| == 0 {
      assert x + y == x;
    } else {
      CellsAppend(sec, addr, x, y[..|y| - 1]);
      assert (x + y)[..|x + y| - 1] == x + y[..|y| - 1];
    }
  }
}
