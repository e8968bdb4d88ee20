/** How the start-up stub maps the dynamic loader (crt_interp.c, step 3): reserve a range covering all
    PT_LOAD segments, map each segment's file pages over it, zero the rest of the last file page where
    there is bss, and put anonymous pages behind it. Sizes and addresses do not wrap: see WellFormed. */
module Loader {
  import opened Bytes

  datatype Prot = Prot(read: bool, write: bool, exec: bool)

  const NONE := Prot(false, false, false)

  /** A program header; `load` says it is a PT_LOAD. */
  datatype Phdr = Phdr(load: bool, flags: nat, offset: nat, vaddr: nat, filesz: nat, memsz: nat)

  /** One byte of the reserved range and the protection of its page. */
  datatype Cell = Cell(value: byte, prot: Prot)

  function ProtOf(flags: nat): Prot {
    Prot(flags / 4 % 2 == 1, flags / 2 % 2 == 1, flags % 2 == 1)
  }

  // ---------------------------------------------------------------- pages

  /** x rounded down and up to a page. */
  function Down(x: nat, pg: nat): nat
    requires pg > 0
  {
    x - x % pg
  }

  function Up(x: nat, pg: nat): nat
    requires pg > 0
  {
    Down(x + pg - 1, pg)
  }

  lemma DownIs(x: nat, pg: nat)
    requires pg > 0
    ensures Down(x, pg) <= x < Down(x, pg) + pg
    ensures Down(x, pg) % pg == 0
  {
    var q := x / pg;
    assert x == q * pg + x % pg;
    Multiple(q, pg);
  }

  lemma {:induction false} Multiple(q: nat, pg: nat)
    requires pg > 0
    ensures q * pg % pg == 0
  {
    if q > 0 {
      Multiple(q - 1, pg);
      assert q * pg == (q - 1) * pg + pg;
      AddPage((q - 1) * pg, pg);
    }
  }

  lemma AddPage(x: nat, pg: nat)
    requires pg > 0
    ensures (x + pg) % pg == x % pg
  {
    var q, r := x / pg, x % pg;
    assert x + pg == (q + 1) * pg + r;
    Remainder(q + 1, r, pg);
  }

  lemma Scaled(a: nat, b: nat, k: nat)
    ensures a <= b ==> a * k <= b * k
  {
  }

  lemma Remainder(q: nat, r: nat, pg: nat)
    requires r < pg
    ensures (q * pg + r) % pg == r
  {
    var x := q * pg + r;
    var p := x / pg;
    assert x == p * pg + x % pg;
    assert (p + 1) * pg == p * pg + pg && (q + 1) * pg == q * pg + pg;
    Scaled(p + 1, q, pg);
    Scaled(q + 1, p, pg);
    assert p == q;
  }

  lemma UpIs(x: nat, pg: nat)
    requires pg > 0
    ensures x <= Up(x, pg) < x + pg
    ensures Up(x, pg) % pg == 0
  {
    DownIs(x + pg - 1, pg);
  }

  /** Between a page boundary and the rounding of something above it there is room. */
  lemma {:induction false} Aligned(a: nat, b: nat, pg: nat)
    requires pg > 0 && a % pg == 0 && b % pg == 0 && a < b
    ensures a + pg <= b
  {
    var p, q := a / pg, b / pg;
    assert a == p * pg && b == q * pg;
    Scaled(q, p, pg);
    Scaled(p + 1, q, pg);
  }

  lemma DownMonotone(x: nat, y: nat, pg: nat)
    requires pg > 0 && x <= y
    ensures Down(x, pg) <= Down(y, pg)
  {
    DownIs(x, pg);
    DownIs(y, pg);
    if Down(y, pg) < Down(x, pg) {
      Aligned(Down(y, pg), Down(x, pg), pg);
    }
  }

  lemma UpMonotone(x: nat, y: nat, pg: nat)
    requires pg > 0 && x <= y
    ensures Up(x, pg) <= Up(y, pg)
  {
    DownMonotone(x + pg - 1, y + pg - 1, pg);
  }

  // ---------------------------------------------------------------- what a segment should look like

  predicate WellFormed(file: Bytes, ph: Phdr, pg: nat)
    requires pg > 0
  {
    && ph.filesz <= ph.memsz && ph.offset + ph.filesz <= |file|
    && ph.vaddr + ph.memsz + pg <= U64 && ph.vaddr % pg == ph.offset % pg
  }

  function FileEnd(ph: Phdr): nat {
    ph.vaddr + ph.filesz
  }

  function MemEnd(ph: Phdr): nat {
    ph.vaddr + ph.memsz
  }

  /** The pages of a segment. */
  predicate Covers(ph: Phdr, pg: nat, v: nat)
    requires pg > 0
  {
    Down(ph.vaddr, pg) <= v < Up(MemEnd(ph), pg)
  }

  ghost predicate Apart(phs: seq<Phdr>, pg: nat)
    requires pg > 0
  {
    forall i, j :: 0 <= i < j < |phs| && phs[i].load && phs[j].load ==>
      Up(MemEnd(phs[i]), pg) <= Down(phs[j].vaddr, pg) || Up(MemEnd(phs[j]), pg) <= Down(phs[i].vaddr, pg)
  }

  /** A byte of a file mapping; past the end of the file the page is zero. */
  function FileByte(file: Bytes, x: nat): byte {
    if x < |file| then file[x] else 0
  }

  /** The zeroing of the last file page happens. */
  predicate Zeroes(ph: Phdr) {
    MemEnd(ph) > FileEnd(ph) && ProtOf(ph.flags).write
  }

  /** What ends up at address v of the segment. */
  function Placed(file: Bytes, ph: Phdr, pg: nat, v: nat): Cell
    requires pg > 0 && Covers(ph, pg, v)
  {
    Cell(if v < FileEnd(ph) || (v < Up(FileEnd(ph), pg) && !Zeroes(ph))
         then FileByte(file, Down(ph.offset, pg) + (v - Down(ph.vaddr, pg))) else 0,
         ProtOf(ph.flags))
  }

  /** Every segment byte is the file byte its header prescribes. */
  lemma PlacedIsFile(file: Bytes, ph: Phdr, pg: nat, v: nat)
    requires pg > 0 && WellFormed(file, ph, pg) && ph.vaddr <= v < FileEnd(ph)
    ensures Covers(ph, pg, v)
    ensures Placed(file, ph, pg, v).value == file[ph.offset + (v - ph.vaddr)]
  {
    UpIs(MemEnd(ph), pg);
  }

  /** The bss: from the file's end to the end of its last page everything is zero, if and only if the
      segment is writable or what the file holds behind it up to the page's end is zero. */
  lemma BssZeroIff(file: Bytes, ph: Phdr, pg: nat)
    requires pg > 0 && WellFormed(file, ph, pg) && MemEnd(ph) > FileEnd(ph)
    ensures (forall v :: FileEnd(ph) <= v < Up(MemEnd(ph), pg) ==>
               Covers(ph, pg, v) && Placed(file, ph, pg, v).value == 0)
       <==> ProtOf(ph.flags).write ||
            forall x :: ph.offset + ph.filesz <= x < ph.offset + ph.filesz + (Up(FileEnd(ph), pg) - FileEnd(ph)) ==>
              FileByte(file, x) == 0
  {
    DownIs(ph.vaddr, pg);
    UpIs(FileEnd(ph), pg);
    UpMonotone(FileEnd(ph), MemEnd(ph), pg);
    SameShift(ph, pg);
    var d := FileEnd(ph) - (ph.offset + ph.filesz);
    if !ProtOf(ph.flags).write {
      forall v | FileEnd(ph) <= v < Up(FileEnd(ph), pg)
        ensures Covers(ph, pg, v) && Placed(file, ph, pg, v).value == FileByte(file, v - d)
      {
      }
      if forall v :: FileEnd(ph) <= v < Up(MemEnd(ph), pg) ==> Covers(ph, pg, v) && Placed(file, ph, pg, v).value == 0 {
        forall x | ph.offset + ph.filesz <= x < ph.offset + ph.filesz + (Up(FileEnd(ph), pg) - FileEnd(ph))
          ensures FileByte(file, x) == 0
        {
          assert Placed(file, ph, pg, x + d).value == FileByte(file, x);
        }
      }
    }
  }

  /** A read-only segment of one byte with a bss of one byte: the bss shows the file's next byte. */
  lemma ReadOnlyBssShowsFile(file: Bytes, ph: Phdr, pg: nat)
    requires file == [7, 9] && ph == Phdr(true, 4, 0, 0, 1, 2) && pg == 4096
    ensures WellFormed(file, ph, pg) && FileEnd(ph) == 1 < MemEnd(ph) && !ProtOf(ph.flags).write
    ensures Covers(ph, pg, 1) && Placed(file, ph, pg, 1).value == 9
  {
    hide Down, Up;
    FirstPage(pg);
    assert FileByte(file, 1) == 9;
  }

  lemma FirstPage(pg: nat)
    requires pg >= 2
    ensures Down(0, pg) == 0 && Up(1, pg) == pg && Up(2, pg) == pg
  {
    Remainder(1, 0, pg);
    Remainder(1, 1, pg);
  }

  /** Address and file offset are rounded down by the same amount. */
  lemma SameShift(ph: Phdr, pg: nat)
    requires pg > 0 && ph.vaddr % pg == ph.offset % pg
    ensures ph.vaddr - Down(ph.vaddr, pg) == ph.offset - Down(ph.offset, pg)
  {
  }

  // ---------------------------------------------------------------- the mapping itself

  /** mmap of a file with MAP_FIXED over cells [at, at + len). */
  method MapFile(mem: array<Cell>, at: nat, len: nat, prot: Prot, file: Bytes, off: nat)
    requires at + len <= mem.Length
    modifies mem
    ensures forall a :: 0 <= a < mem.Length ==>
              mem[a] == if at <= a < at + len then Cell(FileByte(file, off + (a - at)), prot) else old(mem[a])
  {
    var i := 0;
    while i < len
      invariant 0 <= i <= len
      invariant forall a :: 0 <= a < mem.Length ==>
                  mem[a] == if at <= a < at + i then Cell(FileByte(file, off + (a - at)), prot) else old(mem[a])
    {
      mem[at + i] := Cell(FileByte(file, off + i), prot);
      i := i + 1;
    }
  }

  /** Anonymous pages with MAP_FIXED. */
  method MapZero(mem: array<Cell>, from: nat, to: nat, prot: Prot)
    requires from <= to <= mem.Length
    modifies mem
    ensures forall a :: 0 <= a < mem.Length ==> mem[a] == if from <= a < to then Cell(0, prot) else old(mem[a])
  {
    var z := from;
    while z < to
      invariant from <= z <= to
      invariant forall a :: 0 <= a < mem.Length ==> mem[a] == if from <= a < z then Cell(0, prot) else old(mem[a])
    {
      mem[z] := Cell(0, prot);
      z := z + 1;
    }
  }

  /** The stores that clear the rest of the last file page: only to writable memory. */
  method Clear(mem: array<Cell>, from: nat, to: nat)
    requires from <= to <= mem.Length && forall a :: from <= a < to ==> mem[a].prot.write
    modifies mem
    ensures forall a :: 0 <= a < mem.Length ==>
            mem[a] == if from <= a < to then Cell(0, old(mem[a]).prot) else old(mem[a])
  {
    var z := from;
    while z < to
      invariant from <= z <= to
      invariant forall a :: 0 <= a < mem.Length ==>
                mem[a] == if from <= a < z then Cell(0, old(mem[a]).prot) else old(mem[a])
    {
      mem[z] := mem[z].(value := 0);
      z := z + 1;
    }
  }

  /** One round of the mapping loop; nothing outside the segment's pages is touched. */
  method MapSegment(mem: array<Cell>, lo: nat, file: Bytes, ph: Phdr, pg: nat)
    requires pg > 0 && WellFormed(file, ph, pg) && lo <= Down(ph.vaddr, pg) && Up(MemEnd(ph), pg) <= lo + mem.Length
    modifies mem
    ensures forall a :: 0 <= a < mem.Length ==>
              mem[a] == if Covers(ph, pg, lo + a) then Placed(file, ph, pg, lo + a) else old(mem[a])
  {
    hide Down, Up;
    Bounds(ph, pg);
    var start, end := Down(ph.vaddr, pg), Up(FileEnd(ph), pg);
    var prot := ProtOf(ph.flags);
    if end > start {
      MapFile(mem, start - lo, end - start, prot, file, Down(ph.offset, pg));
    }
    if MemEnd(ph) > FileEnd(ph) {
      if prot.write {
        Clear(mem, FileEnd(ph) - lo, end - lo);
      }
      if Up(MemEnd(ph), pg) > end {
        MapZero(mem, end - lo, Up(MemEnd(ph), pg) - lo, prot);
      }
    }
  }

  lemma Bounds(ph: Phdr, pg: nat)
    requires pg > 0 && ph.filesz <= ph.memsz
    ensures Down(ph.vaddr, pg) <= ph.vaddr <= FileEnd(ph) <= Up(FileEnd(ph), pg) <= Up(MemEnd(ph), pg)
    ensures MemEnd(ph) <= Up(MemEnd(ph), pg)
  {
    DownIs(ph.vaddr, pg);
    UpIs(FileEnd(ph), pg);
    UpIs(MemEnd(ph), pg);
    UpMonotone(FileEnd(ph), MemEnd(ph), pg);
  }

  /** The range the stub reserves: from the first page of some segment to the last page of some
      segment, and the pages of all of them lie in it. */
  method Range(phs: seq<Phdr>, pg: nat) returns (lo: nat, hi: nat)
    requires pg > 0 && forall i :: 0 <= i < |phs| && phs[i].load ==> phs[i].vaddr < U64
    ensures forall i :: 0 <= i < |phs| && phs[i].load ==> lo <= Down(phs[i].vaddr, pg) && Up(MemEnd(phs[i]), pg) <= hi
    ensures forall i :: 0 <= i < |phs| && phs[i].load ==> lo <= hi
    ensures (exists i :: 0 <= i < |phs| && phs[i].load) ==>
              && (exists i :: 0 <= i < |phs| && phs[i].load && lo == Down(phs[i].vaddr, pg))
              && (exists i :: 0 <= i < |phs| && phs[i].load && hi == Up(MemEnd(phs[i]), pg))
  {
    hide Down, Up;
    lo, hi := U64 - 1, 0;
    var i := 0;
    while i < |phs|
      invariant i <= |phs|
      invariant forall j :: 0 <= j < i && phs[j].load ==> lo <= phs[j].vaddr && MemEnd(phs[j]) <= hi
      invariant lo < U64
      invariant lo == U64 - 1 || exists j :: 0 <= j < i && phs[j].load && lo == phs[j].vaddr
      invariant hi == 0 || exists j :: 0 <= j < i && phs[j].load && hi == MemEnd(phs[j])
    {
      if phs[i].load {
        if phs[i].vaddr < lo {
          lo := phs[i].vaddr;
        }
        if MemEnd(phs[i]) > hi {
          hi := MemEnd(phs[i]);
        }
      }
      i := i + 1;
    }
    forall j | 0 <= j < |phs| && phs[j].load
      ensures Down(lo, pg) <= Down(phs[j].vaddr, pg) && Up(MemEnd(phs[j]), pg) <= Up(hi, pg)
      ensures Down(lo, pg) <= Up(hi, pg)
    {
      DownMonotone(lo, phs[j].vaddr, pg);
      UpMonotone(MemEnd(phs[j]), hi, pg);
      DownIs(phs[j].vaddr, pg);
      UpIs(MemEnd(phs[j]), pg);
    }
    lo, hi := Down(lo, pg), Up(hi, pg);
  }

  /** What an address holds once the first n headers are mapped: the last PT_LOAD among them with the
      address on its pages decides; without one it is as reserved. */
  function Final(file: Bytes, phs: seq<Phdr>, n: nat, pg: nat, v: nat): Cell
    requires pg > 0 && n <= |phs|
  {
    if n == 0 then Cell(0, NONE) else MappedOver(file, phs[n - 1], pg, v, Final(file, phs, n - 1, pg, v))
  }

  /** What one header makes of an address. */
  function MappedOver(file: Bytes, ph: Phdr, pg: nat, v: nat, was: Cell): Cell
    requires pg > 0
  {
    if ph.load && Covers(ph, pg, v) then Placed(file, ph, pg, v) else was
  }

  /** A segment is whole on the pages no later one is mapped over. */
  lemma {:induction false} FinalIsPlaced(file: Bytes, phs: seq<Phdr>, n: nat, pg: nat, i: nat, v: nat)
    requires pg > 0 && i < n <= |phs| && phs[i].load && Covers(phs[i], pg, v)
    requires forall j :: i < j < n && phs[j].load ==> !Covers(phs[j], pg, v)
    ensures Final(file, phs, n, pg, v) == Placed(file, phs[i], pg, v)
    decreases n
  {
    hide Down, Up, Placed;
    if i < n - 1 {
      FinalIsPlaced(file, phs, n - 1, pg, i, v);
    }
  }

  /** So is every segment of an image whose segments share no page, whatever their order. */
  lemma ApartIsWhole(file: Bytes, phs: seq<Phdr>, pg: nat, i: nat, v: nat)
    requires pg > 0 && Apart(phs, pg) && i < |phs| && phs[i].load && Covers(phs[i], pg, v)
    ensures Final(file, phs, |phs|, pg, v) == Placed(file, phs[i], pg, v)
  {
    hide Down, Up, Placed;
    FinalIsPlaced(file, phs, |phs|, pg, i, v);
  }

  /** Between the segments nothing is accessible. */
  lemma {:induction false} GapsStay(file: Bytes, phs: seq<Phdr>, n: nat, pg: nat, v: nat)
    requires pg > 0 && n <= |phs| && forall j :: 0 <= j < n && phs[j].load ==> !Covers(phs[j], pg, v)
    ensures Final(file, phs, n, pg, v) == Cell(0, NONE)
    decreases n
  {
    hide Down, Up, Placed;
    if n > 0 {
      GapsStay(file, phs, n - 1, pg, v);
    }
  }

  /** Reserve and map everything. Address v of the image is cell v - lo; the pages of every segment are
      in the range, and every address ends up as the last segment mapped over it prescribes. */
  method LoadImage(file: Bytes, phs: seq<Phdr>, pg: nat) returns (mem: array<Cell>, lo: nat)
    requires pg > 0 && exists i :: 0 <= i < |phs| && phs[i].load
    requires forall i :: 0 <= i < |phs| && phs[i].load ==> WellFormed(file, phs[i], pg)
    ensures fresh(mem)
    ensures forall i, v: nat :: 0 <= i < |phs| && phs[i].load && Covers(phs[i], pg, v) ==> lo <= v < lo + mem.Length
    ensures forall v: nat :: lo <= v < lo + mem.Length ==> mem[v - lo] == Final(file, phs, |phs|, pg, v)
  {
    hide Down, Up, Placed, Final, Covers, MappedTo;
    var hi;
    lo, hi := Range(phs, pg);
    mem := new Cell[hi - lo](_ => Cell(0, NONE));
    NothingMapped(mem[..], lo, file, phs, pg);
    var i := 0;
    while i < |phs|
      invariant i <= |phs| && MappedTo(mem[..], lo, file, phs, i, pg)
    {
      ghost var was := mem[..];
      if phs[i].load {
        MapSegment(mem, lo, file, phs[i], pg);
      }
      OneMapped(was, mem[..], lo, file, phs, i, pg);
      i := i + 1;
    }
    AllMapped(mem[..], lo, file, phs, pg);
    InRange(phs, pg, lo, hi);
  }

  /** The range holds what the first n headers make of it. */
  ghost predicate MappedTo(cells: seq<Cell>, lo: nat, file: Bytes, phs: seq<Phdr>, n: nat, pg: nat)
    requires pg > 0 && n <= |phs|
  {
    forall a :: 0 <= a < |cells| ==> cells[a] == Final(file, phs, n, pg, lo + a)
  }

  lemma NothingMapped(cells: seq<Cell>, lo: nat, file: Bytes, phs: seq<Phdr>, pg: nat)
    requires pg > 0 && forall a :: 0 <= a < |cells| ==> cells[a] == Cell(0, NONE)
    ensures MappedTo(cells, lo, file, phs, 0, pg)
  {
    hide Covers, Placed;
  }

  lemma OneMapped(was: seq<Cell>, cells: seq<Cell>, lo: nat, file: Bytes, phs: seq<Phdr>, i: nat, pg: nat)
    requires pg > 0 && i < |phs| && |cells| == |was| && MappedTo(was, lo, file, phs, i, pg)
    requires forall a :: 0 <= a < |cells| ==> cells[a] == MappedOver(file, phs[i], pg, lo + a, was[a])
    ensures MappedTo(cells, lo, file, phs, i + 1, pg)
  {
    hide MappedOver;
    forall a | 0 <= a < |cells|
      ensures cells[a] == Final(file, phs, i + 1, pg, lo + a)
    {
      assert was[a] == Final(file, phs, i, pg, lo + a);
      assert cells[a] == MappedOver(file, phs[i], pg, lo + a, was[a]);
    }
  }

  lemma AllMapped(cells: seq<Cell>, lo: nat, file: Bytes, phs: seq<Phdr>, pg: nat)
    requires pg > 0 && MappedTo(cells, lo, file, phs, |phs|, pg)
    ensures forall v: nat :: lo <= v < lo + |cells| ==> cells[v - lo] == Final(file, phs, |phs|, pg, v)
  {
    hide Final;
    forall v: nat | lo <= v < lo + |cells|
      ensures cells[v - lo] == Final(file, phs, |phs|, pg, v)
    {
      var a := v - lo;
      assert cells[a] == Final(file, phs, |phs|, pg, lo + a);
    }
  }

  lemma InRange(phs: seq<Phdr>, pg: nat, lo: nat, hi: nat)
    requires pg > 0
    requires forall i :: 0 <= i < |phs| && phs[i].load ==> lo <= Down(phs[i].vaddr, pg) && Up(MemEnd(phs[i]), pg) <= hi
    ensures forall i, v: nat :: 0 <= i < |phs| && phs[i].load && Covers(phs[i], pg, v) ==> lo <= v < hi
  {
    hide Down, Up;
  }
}
