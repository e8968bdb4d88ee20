/** The ELF half of the relocation fixup (elf_fixup.cc): NEEDED entries become paths relative to the
    file, written into the slot the padded RUNPATH string occupied. Section headers, directory listings
    and the relative spelling of each RUNPATH directory are given. */
module ElfFixup {
  import opened Bytes
  import opened Options
  import opened BinaryImage

  datatype Section = Section(kind: nat, offset: nat, size: nat, link: nat, entsize: nat)

  const SHT_DYNAMIC: nat := 6
  const SHT_NOBITS: nat := 8
  const SHT_DYNSYM: nat := 11
  const SHT_GNU_VERNEED: nat := 0x6fff_fffe
  const DT_NULL: nat := 0
  const DT_NEEDED: nat := 1
  const DT_RPATH: nat := 15
  const DT_RUNPATH: nat := 29
  const DYN_SIZE: nat := 16
  const SYM_SIZE: nat := 24
  const VERNEED_SIZE: nat := 16
  const VN_FILE: nat := 4
  const VN_NEXT: nat := 12

  function Find(sections: seq<Section>, kind: nat, from: nat): (i: nat)
    requires from <= |sections|
    ensures from <= i <= |sections| && (i < |sections| ==> sections[i].kind == kind)
    decreases |sections| - from
  {
    if from == |sections| || sections[from].kind == kind then from else Find(sections, kind, from + 1)
  }

  /** Where a section stops in the file: at its end or the image's, 0 if it starts outside. */
  function SectionEnd(n: nat, s: Section): nat {
    if s.offset >= n then 0 else if s.size <= n - s.offset then s.offset + s.size else n
  }

  // ---------------------------------------------------------------- the dynamic table

  datatype Dyn = Dyn(at: nat, tag: nat, val: nat)

  /** The entries from off on, up to DT_NULL or the end. */
  function Dyns(b: Bytes, off: nat, end: nat): seq<Dyn>
    decreases |b| - off
  {
    if off < end && off + DYN_SIZE <= |b| && Read(b, off, 8) != Some(DT_NULL)
    then [Dyn(off, UnLe(b[off..off + 8]), UnLe(b[off + 8..off + 16]))] + Dyns(b, off + DYN_SIZE, end)
    else []
  }

  datatype Vn = Vn(at: nat, file: nat)

  /** The chain of version-need entries; 0 ends it. */
  function Vns(b: Bytes, off: nat): seq<Vn>
    decreases |b| - off
  {
    if off == 0 || off + VERNEED_SIZE > |b| then []
    else
      var next := UnLe(b[off + VN_NEXT..off + VERNEED_SIZE]);
      [Vn(off, UnLe(b[off + VN_FILE..off + 8]))] + if next == 0 then [] else Vns(b, off + next)
  }

  datatype Needed = Needed(name: Bytes, valOffset: nat, vnFiles: seq<nat>)

  datatype DynamicInfo = DynamicInfo(needed: seq<Needed>, dynstr: nat, runpath: Option<nat>)

  /** An offset into the string table as a file offset, in 64 bits. */
  function StringAt(dynstr: nat, val: nat): nat {
    (dynstr + val) % U64
  }

  /** The vn_file words that name the library. */
  function VnFiles(b: Bytes, dynstr: nat, vns: seq<Vn>, name: Bytes): seq<nat>
    decreases |vns|
  {
    if vns == [] then []
    else
      var front := VnFiles(b, dynstr, vns[..|vns| - 1], name);
      var last := vns[|vns| - 1];
      if CString(b, StringAt(dynstr, last.file)) == name then front + [last.at + VN_FILE] else front
  }

  function NeededOf(b: Bytes, dynstr: nat, ds: seq<Dyn>, vns: seq<Vn>): seq<Needed>
    decreases |ds|
  {
    if ds == [] then []
    else
      var front, d := NeededOf(b, dynstr, ds[..|ds| - 1], vns), ds[|ds| - 1];
      if d.tag == DT_NEEDED then
        var name := CString(b, StringAt(dynstr, d.val));
        front + [Needed(name, d.at + 8, VnFiles(b, dynstr, vns, name))]
      else front
  }

  /** The last RUNPATH or RPATH. */
  function RunpathOf(dynstr: nat, ds: seq<Dyn>): Option<nat>
    decreases |ds|
  {
    if ds == [] then None
    else if ds[|ds| - 1].tag == DT_RUNPATH || ds[|ds| - 1].tag == DT_RPATH then Some(StringAt(dynstr, ds[|ds| - 1].val))
    else RunpathOf(dynstr, ds[..|ds| - 1])
  }

  function VnStart(sections: seq<Section>): nat {
    var v := Find(sections, SHT_GNU_VERNEED, 0);
    if v < |sections| then sections[v].offset else 0
  }

  /** There is a dynamic section with a string table in the file. */
  predicate HasDynamic(sections: seq<Section>) {
    var d := Find(sections, SHT_DYNAMIC, 0);
    d < |sections| && sections[d].link < |sections| && sections[sections[d].link].kind != SHT_NOBITS
  }

  function DynamicOf(b: Bytes, sections: seq<Section>): DynamicInfo {
    if !HasDynamic(sections) then DynamicInfo([], 0, None)
    else
      var dynamic := sections[Find(sections, SHT_DYNAMIC, 0)];
      var dynstr := sections[dynamic.link].offset;
      var ds := Dyns(b, dynamic.offset, SectionEnd(|b|, dynamic));
      DynamicInfo(NeededOf(b, dynstr, ds, Vns(b, VnStart(sections))), dynstr, RunpathOf(dynstr, ds))
  }

  /** ReadDynamic: the dynamic entries give the libraries and the RUNPATH, then each version need is noted
      with the libraries of its name. */
  method ReadDynamic(b: Bytes, sections: seq<Section>) returns (info: DynamicInfo)
    ensures info == DynamicOf(b, sections)
  {
    hide Dyns, Vns, NeededOf, RunpathOf, VnFiles;
    info := DynamicInfo([], 0, None);
    if !HasDynamic(sections) {
      return;
    }
    var dynamic := sections[Find(sections, SHT_DYNAMIC, 0)];
    var dynstr := sections[dynamic.link].offset;
    var ds := ReadDyns(b, dynamic.offset, SectionEnd(|b|, dynamic));
    var needed, runpath := ReadNeeded(b, dynstr, ds);
    var vns := ReadVns(b, VnStart(sections));
    needed := NoteVersions(b, dynstr, ds, vns, needed);
    info := DynamicInfo(needed, dynstr, runpath);
  }

  method ReadNeeded(b: Bytes, dynstr: nat, ds: seq<Dyn>) returns (needed: seq<Needed>, runpath: Option<nat>)
    ensures needed == NeededOf(b, dynstr, ds, []) && runpath == RunpathOf(dynstr, ds)
  {
    hide CString, StringAt;
    needed, runpath := [], None;
    var i := 0;
    while i < |ds|
      invariant i <= |ds|
      invariant needed == NeededOf(b, dynstr, ds[..i], []) && runpath == RunpathOf(dynstr, ds[..i])
    {
      var d := ds[i];
      assert ds[..i + 1][..i] == ds[..i];
      if d.tag == DT_NEEDED {
        needed := needed + [Needed(CString(b, StringAt(dynstr, d.val)), d.at + 8, [])];
      }
      if d.tag == DT_RUNPATH || d.tag == DT_RPATH {
        runpath := Some(StringAt(dynstr, d.val));
      }
      i := i + 1;
    }
    assert ds[..i] == ds;
  }

  method NoteVersions(b: Bytes, dynstr: nat, ghost ds: seq<Dyn>, vns: seq<Vn>, before: seq<Needed>)
    returns (needed: seq<Needed>)
    requires before == NeededOf(b, dynstr, ds, [])
    ensures needed == NeededOf(b, dynstr, ds, vns)
  {
    hide NeededOf, CString, StringAt, Noted;
    needed := before;
    var j := 0;
    while j < |vns|
      invariant j <= |vns| && needed == NeededOf(b, dynstr, ds, vns[..j])
    {
      var v := vns[j];
      NotedNext(b, dynstr, ds, vns[..j], v);
      assert vns[..j + 1] == vns[..j] + [v];
      needed := NoteOne(needed, CString(b, StringAt(dynstr, v.file)), v.at + VN_FILE);
      j := j + 1;
    }
    assert vns[..j] == vns;
  }

  /** The libraries with one more word for those of that name. */
  function Noted(needed: seq<Needed>, name: Bytes, at: nat): (more: seq<Needed>)
    ensures |more| == |needed|
  {
    seq(|needed|, i requires 0 <= i < |needed| =>
      if needed[i].name == name then needed[i].(vnFiles := needed[i].vnFiles + [at]) else needed[i])
  }

  method NoteOne(needed: seq<Needed>, name: Bytes, at: nat) returns (more: seq<Needed>)
    ensures more == Noted(needed, name, at)
  {
    more := needed;
    var i := 0;
    while i < |more|
      invariant |more| == |needed| && i <= |more|
      invariant forall x :: 0 <= x < i ==> more[x] == Noted(needed, name, at)[x]
      invariant forall x :: i <= x < |more| ==> more[x] == needed[x]
    {
      if more[i].name == name {
        more := more[i := more[i].(vnFiles := more[i].vnFiles + [at])];
      }
      i := i + 1;
    }
  }

  lemma {:induction false} NotedNext(b: Bytes, dynstr: nat, ds: seq<Dyn>, vns: seq<Vn>, v: Vn)
    ensures NeededOf(b, dynstr, ds, vns + [v])
         == Noted(NeededOf(b, dynstr, ds, vns), CString(b, StringAt(dynstr, v.file)), v.at + VN_FILE)
    decreases |ds|
  {
    hide CString, StringAt;
    if ds != [] {
      NotedNext(b, dynstr, ds[..|ds| - 1], vns, v);
      assert (vns + [v])[..|vns|] == vns;
    }
  }

  method ReadDyns(b: Bytes, start: nat, end: nat) returns (ds: seq<Dyn>)
    ensures ds == Dyns(b, start, end)
  {
    ds := [];
    var off := start;
    while off < end && off + DYN_SIZE <= |b| && Read(b, off, 8) != Some(DT_NULL)
      invariant ds + Dyns(b, off, end) == Dyns(b, start, end)
      decreases |b| - off
    {
      ds := ds + [Dyn(off, UnLe(b[off..off + 8]), UnLe(b[off + 8..off + 16]))];
      off := off + DYN_SIZE;
    }
  }

  lemma VnsStep(b: Bytes, off: nat)
    requires off != 0 && off + VERNEED_SIZE <= |b|
    ensures var next := UnLe(b[off + VN_NEXT..off + VERNEED_SIZE]);
            Vns(b, off) == [Vn(off, UnLe(b[off + VN_FILE..off + 8]))] + Vns(b, if next == 0 then 0 else off + next)
  {
  }

  method ReadVns(b: Bytes, start: nat) returns (vns: seq<Vn>)
    ensures vns == Vns(b, start)
  {
    hide UnLe;
    vns := [];
    var off := start;
    while off != 0 && off + VERNEED_SIZE <= |b|
      invariant vns + Vns(b, off) == Vns(b, start)
      decreases if off == 0 then 0 else |b| + 1 - off
    {
      hide Vns;
      VnsStep(b, off);
      var next := UnLe(b[off + VN_NEXT..off + VERNEED_SIZE]);
      vns := vns + [Vn(off, UnLe(b[off + VN_FILE..off + 8]))];
      off := if next == 0 then 0 else off + next;
    }
  }

  // ---------------------------------------------------------------- what is redirected

  /** A RUNPATH directory: its relative spelling, the libraries in it, whether libc lives there, and
      whether it stays. */
  datatype RunpathDir = RunpathDir(entry: Bytes, libs: set<Bytes>, libc: bool, keep: bool)

  const SLASH: byte := 47
  const COLON: byte := 58
  const LD_LINUX: Bytes := [108, 100, 45, 108, 105, 110, 117, 120]
  const LINUX_VDSO: Bytes := [108, 105, 110, 117, 120, 45, 118, 100, 115, 111]

  predicate Skipped(name: Bytes) {
    SLASH in name || LD_LINUX <= name || LINUX_VDSO <= name
  }

  /** The first directory that has the library. */
  function Provider(dirs: seq<RunpathDir>, name: Bytes): (i: nat)
    ensures i <= |dirs|
    decreases |dirs|
  {
    if dirs == [] || name in dirs[0].libs then 0 else 1 + Provider(dirs[1..], name)
  }

  /** A NEEDED entry to redirect, and the directory it comes from. */
  datatype Dep = Dep(lib: Needed, dir: nat)

  predicate Redirects(dirs: seq<RunpathDir>, lib: Needed) {
    !Skipped(lib.name) && Provider(dirs, lib.name) < |dirs| && !dirs[Provider(dirs, lib.name)].libc
  }

  function Direct(dirs: seq<RunpathDir>, needed: seq<Needed>): (deps: seq<Dep>)
    ensures forall d :: d in deps ==> d.dir < |dirs| && d.lib in needed
    decreases |needed|
  {
    if needed == [] then []
    else
      var front, lib := Direct(dirs, needed[..|needed| - 1]), needed[|needed| - 1];
      if Redirects(dirs, lib) then front + [Dep(lib, Provider(dirs, lib.name))] else front
  }

  /** Exactly the libraries to redirect, each with its directory. */
  lemma {:induction false} DirectIs(dirs: seq<RunpathDir>, needed: seq<Needed>)
    ensures forall d :: d in Direct(dirs, needed) ==>
              d.lib in needed && Redirects(dirs, d.lib) && d.dir == Provider(dirs, d.lib.name)
    ensures forall lib :: lib in needed && Redirects(dirs, lib) ==>
              Dep(lib, Provider(dirs, lib.name)) in Direct(dirs, needed)
    decreases |needed|
  {
    hide Redirects, Provider;
    if needed != [] {
      DirectIs(dirs, needed[..|needed| - 1]);
      assert forall lib :: lib in needed <==> lib in needed[..|needed| - 1] || lib == needed[|needed| - 1];
    }
  }

  function Used(deps: seq<Dep>): set<nat> {
    set d | d in deps :: d.dir
  }

  /** The entries that stay, in order, each once. */
  function Kept(dirs: seq<RunpathDir>, keep: set<nat>): seq<Bytes>
    decreases |dirs|
  {
    if dirs == [] then []
    else
      var front, i := Kept(dirs[..|dirs| - 1], keep), |dirs| - 1;
      if i in keep && dirs[i].entry !in front then front + [dirs[i].entry] else front
  }

  function Join(parts: seq<Bytes>): Bytes
    decreases |parts|
  {
    if parts == [] then [] else if |parts| == 1 then parts[0] else parts[0] + [COLON] + Join(parts[1..])
  }

  function Staying(dirs: seq<RunpathDir>): set<nat> {
    set i | 0 <= i < |dirs| && dirs[i].keep
  }

  function Target(dirs: seq<RunpathDir>, d: Dep): Bytes
    requires d.dir < |dirs|
  {
    dirs[d.dir].entry + [SLASH] + d.lib.name
  }

  function Targets(dirs: seq<RunpathDir>, deps: seq<Dep>): (ts: seq<Bytes>)
    requires forall d :: d in deps ==> d.dir < |dirs|
    ensures |ts| == |deps| && forall i :: 0 <= i < |ts| ==> ts[i] == Target(dirs, deps[i])
  {
    seq(|deps|, i requires 0 <= i < |deps| => Target(dirs, deps[i]))
  }

  /** The RUNPATH, then each target, NUL between them. */
  function Blob(neu: Bytes, ts: seq<Bytes>): Bytes
    decreases |ts|
  {
    if ts == [] then neu else Blob(neu, ts[..|ts| - 1]) + [0] + ts[|ts| - 1]
  }

  /** What FixRunpath writes. Without room for every target nothing is redirected. */
  datatype Plan = Plan(runpath: Bytes, deps: seq<Dep>)

  function PlanOf(dirs: seq<RunpathDir>, needed: seq<Needed>, room: nat): (p: Plan)
    ensures forall d :: d in p.deps ==> d.dir < |dirs| && d.lib in needed
  {
    var deps := Direct(dirs, needed);
    var neu := Join(Kept(dirs, Staying(dirs) - Used(deps)));
    if |Blob(neu, Targets(dirs, deps))| <= room then Plan(neu, deps)
    else Plan(Join(Kept(dirs, Staying(dirs) + Used(deps))), [])
  }

  // ---------------------------------------------------------------- the writes

  function WordEdits(ats: seq<nat>, value: nat): (es: seq<Edit>)
    ensures |es| == |ats| && forall i :: 0 <= i < |es| ==> es[i] == Edit(ats[i], Le(value, 4))
  {
    seq(|ats|, i requires 0 <= i < |ats| => Edit(ats[i], Le(value, 4)))
  }

  /** Where the i-th target starts behind the RUNPATH, counted from its start. */
  function TargetAt(neu: Bytes, ts: seq<Bytes>, i: nat): nat
    requires i <= |ts|
  {
    |Blob(neu, ts[..i])| + 1
  }

  function DepEdits(d: Dep, str: nat): seq<Edit> {
    [Edit(d.lib.valOffset, Le(str, 8))] + WordEdits(d.lib.vnFiles, str % U32)
  }

  /** The words of the first n redirected libraries. `base` is the slot's offset in the string table. */
  function Redirected(dirs: seq<RunpathDir>, p: Plan, base: nat, n: nat): seq<Edit>
    requires n <= |p.deps| && forall d :: d in p.deps ==> d.dir < |dirs|
  {
    if n == 0 then []
    else Redirected(dirs, p, base, n - 1)
         + DepEdits(p.deps[n - 1], (base + TargetAt(p.runpath, Targets(dirs, p.deps), n - 1)) % U64)
  }

  function SlotEdit(dirs: seq<RunpathDir>, p: Plan, slot: nat, room: nat): Edit
    requires (forall d :: d in p.deps ==> d.dir < |dirs|) && |Blob(p.runpath, Targets(dirs, p.deps))| <= room
  {
    Edit(slot, Padded(Blob(p.runpath, Targets(dirs, p.deps)), room + 1))
  }

  function Edits(dirs: seq<RunpathDir>, p: Plan, slot: nat, dynstr: nat, room: nat): seq<Edit>
    requires (forall d :: d in p.deps ==> d.dir < |dirs|) && |Blob(p.runpath, Targets(dirs, p.deps))| <= room
  {
    [SlotEdit(dirs, p, slot, room)] + Redirected(dirs, p, slot + U64 - dynstr % U64, |p.deps|)
  }

  // ---------------------------------------------------------------- the writes stay inside the image

  lemma {:induction false} DynsInside(b: Bytes, off: nat, end: nat)
    ensures forall d :: d in Dyns(b, off, end) ==> d.at + DYN_SIZE <= |b| && off <= d.at
    decreases |b| - off
  {
    if off < end && off + DYN_SIZE <= |b| && Read(b, off, 8) != Some(DT_NULL) {
      DynsInside(b, off + DYN_SIZE, end);
    }
  }

  lemma {:induction false} VnsInside(b: Bytes, off: nat)
    ensures forall v :: v in Vns(b, off) ==> v.at + VERNEED_SIZE <= |b| && off <= v.at
    decreases |b| - off
  {
    hide UnLe;
    if off != 0 && off + VERNEED_SIZE <= |b| {
      VnsStep(b, off);
      var next := UnLe(b[off + VN_NEXT..off + VERNEED_SIZE]);
      if next != 0 {
        VnsInside(b, off + next);
      }
    }
  }

  lemma {:induction false} VnFilesFrom(b: Bytes, dynstr: nat, vns: seq<Vn>, name: Bytes, x: nat)
    ensures x in VnFiles(b, dynstr, vns, name) <==>
              exists v :: v in vns && x == v.at + VN_FILE && CString(b, StringAt(dynstr, v.file)) == name
    decreases |vns|
  {
    hide CString;
    if vns != [] {
      VnFilesFrom(b, dynstr, vns[..|vns| - 1], name, x);
      assert forall v :: v in vns <==> v in vns[..|vns| - 1] || v == vns[|vns| - 1];
    }
  }

  lemma {:induction false} NeededFrom(b: Bytes, dynstr: nat, ds: seq<Dyn>, vns: seq<Vn>, lib: Needed)
    requires lib in NeededOf(b, dynstr, ds, vns)
    ensures exists d :: d in ds && d.tag == DT_NEEDED && lib == NeededBy(b, dynstr, d, vns)
    decreases |ds|
  {
    hide CString, VnFiles;
    var d := ds[|ds| - 1];
    if d.tag == DT_NEEDED && lib == NeededBy(b, dynstr, d, vns) {
      assert d in ds;
    } else {
      NeededFrom(b, dynstr, ds[..|ds| - 1], vns, lib);
      assert forall x :: x in ds[..|ds| - 1] ==> x in ds;
    }
  }

  function NeededBy(b: Bytes, dynstr: nat, d: Dyn, vns: seq<Vn>): Needed {
    var name := CString(b, StringAt(dynstr, d.val));
    Needed(name, d.at + 8, VnFiles(b, dynstr, vns, name))
  }

  /** The words of a NEEDED entry lie inside the image. */
  ghost predicate LibInside(n: nat, lib: Needed) {
    lib.valOffset + 8 <= n && forall x :: x in lib.vnFiles ==> x + 4 <= n
  }

  lemma LibsInside(b: Bytes, dynstr: nat, start: nat, end: nat, vnStart: nat)
    ensures forall lib :: lib in NeededOf(b, dynstr, Dyns(b, start, end), Vns(b, vnStart)) ==> LibInside(|b|, lib)
  {
    hide Dyns, Vns, NeededOf, VnFiles, CString;
    var ds, vns := Dyns(b, start, end), Vns(b, vnStart);
    DynsInside(b, start, end);
    VnsInside(b, vnStart);
    forall lib | lib in NeededOf(b, dynstr, ds, vns)
      ensures LibInside(|b|, lib)
    {
      NeededFrom(b, dynstr, ds, vns, lib);
      var d :| d in ds && lib == NeededBy(b, dynstr, d, vns);
      forall x | x in lib.vnFiles
        ensures x + 4 <= |b|
      {
        VnFilesFrom(b, dynstr, vns, lib.name, x);
      }
    }
  }

  lemma NeededInside(b: Bytes, sections: seq<Section>)
    ensures forall lib :: lib in DynamicOf(b, sections).needed ==> LibInside(|b|, lib)
  {
    hide Dyns, Vns, NeededOf, RunpathOf, LibInside;
    if HasDynamic(sections) {
      var dynamic := sections[Find(sections, SHT_DYNAMIC, 0)];
      LibsInside(b, sections[dynamic.link].offset, dynamic.offset, SectionEnd(|b|, dynamic), VnStart(sections));
    }
  }

  lemma DepFits(d: Dep, str: nat, n: nat)
    requires LibInside(n, d.lib)
    ensures AllFit(DepEdits(d, str), n)
  {
    var ws := WordEdits(d.lib.vnFiles, str % U32);
    forall i | 0 <= i < |ws|
      ensures Fits(ws[i], n)
    {
      assert d.lib.vnFiles[i] in d.lib.vnFiles;
    }
  }

  lemma {:induction false} RedirectedFits(dirs: seq<RunpathDir>, p: Plan, base: nat, n: nat, size: nat)
    requires n <= |p.deps| && forall d :: d in p.deps ==> d.dir < |dirs| && LibInside(size, d.lib)
    ensures AllFit(Redirected(dirs, p, base, n), size)
  {
    hide DepEdits, LibInside, Targets;
    if n > 0 {
      RedirectedFits(dirs, p, base, n - 1, size);
      assert p.deps[n - 1] in p.deps;
      DepFits(p.deps[n - 1], (base + TargetAt(p.runpath, Targets(dirs, p.deps), n - 1)) % U64, size);
    }
  }

  // ---------------------------------------------------------------- symbols in the slot

  /** A symbol whose name starts inside (begin, end), if there is one. */
  function SymbolFrom(b: Bytes, off: nat, stop: nat, entsize: nat, strtab: nat, begin: nat, end: nat): Option<Bytes>
    requires entsize > 0
    decreases stop - off
  {
    if off >= stop then None
    else if off + SYM_SIZE <= |b| && begin < StringAt(strtab, UnLe(b[off..off + 4])) < end
      then Some(CString(b, StringAt(strtab, UnLe(b[off..off + 4]))))
    else SymbolFrom(b, off + entsize, stop, entsize, strtab, begin, end)
  }

  function SymbolIn(b: Bytes, sections: seq<Section>, begin: nat, end: nat): Option<Bytes> {
    var i := Find(sections, SHT_DYNSYM, 0);
    if i == |sections| || sections[i].entsize < SYM_SIZE || sections[i].link >= |sections| then None
    else SymbolFrom(b, sections[i].offset, SectionEnd(|b|, sections[i]), sections[i].entsize,
                    sections[sections[i].link].offset, begin, end)
  }

  method SymbolInside(b: Bytes, sections: seq<Section>, begin: nat, end: nat) returns (name: Option<Bytes>)
    ensures name == SymbolIn(b, sections, begin, end)
  {
    var i := Find(sections, SHT_DYNSYM, 0);
    name := None;
    if i == |sections| || sections[i].entsize < SYM_SIZE || sections[i].link >= |sections| {
      return;
    }
    var dynsym, strtab := sections[i], sections[sections[i].link].offset;
    var off, stop := dynsym.offset, SectionEnd(|b|, dynsym);
    while off < stop
      invariant SymbolFrom(b, off, stop, dynsym.entsize, strtab, begin, end) == SymbolIn(b, sections, begin, end)
      decreases stop - off
    {
      if off + SYM_SIZE <= |b| {
        var at := StringAt(strtab, UnLe(b[off..off + 4]));
        if begin < at < end {
          return Some(CString(b, at));
        }
      }
      off := off + dynsym.entsize;
    }
  }

  // ---------------------------------------------------------------- FixRunpath

  /** Store one value in several words. */
  method WriteWords(image: Image, ats: seq<nat>, value: nat)
    requires forall x :: x in ats ==> x + 4 <= |image.bytes|
    modifies image
    ensures AllFit(WordEdits(ats, value), |old(image.bytes)|)
    ensures image.bytes == PatchAll(old(image.bytes), WordEdits(ats, value))
  {
    hide Patch, Le;
    ghost var b, es := image.bytes, WordEdits(ats, value);
    var i := 0;
    while i < |ats|
      invariant i <= |ats| && |image.bytes| == |b|
      invariant AllFit(es[..i], |b|) && image.bytes == PatchAll(b, es[..i])
    {
      hide PatchAll;
      assert ats[i] in ats;
      PatchMore(b, es[..i], es[i]);
      assert es[..i] + [es[i]] == es[..i + 1];
      var ok := image.WriteWord(ats[i], value, 4);
      i := i + 1;
    }
    assert es[..i] == es;
  }

  /** Store the words of one redirected library. */
  method WriteDep(image: Image, d: Dep, str: nat)
    requires LibInside(|image.bytes|, d.lib)
    modifies image
    ensures AllFit(DepEdits(d, str), |old(image.bytes)|) && image.bytes == PatchAll(old(image.bytes), DepEdits(d, str))
  {
    hide Patch, PatchAll, Le, WordEdits;
    ghost var b, first := image.bytes, Edit(d.lib.valOffset, Le(str, 8));
    PatchOne(b, first);
    var ok := image.WriteWord(d.lib.valOffset, str, 8);
    WriteWords(image, d.lib.vnFiles, str % U32);
    PatchConcat(b, [first], WordEdits(d.lib.vnFiles, str % U32));
  }

  /** What FixRunpath does to an image. */
  datatype Outcome = Untouched(ok: bool) | Patched(edits: seq<Edit>)

  function RunpathOutcome(b: Bytes, sections: seq<Section>, dirs: seq<RunpathDir>): Outcome {
    var info := DynamicOf(b, sections);
    if info.runpath.None? then Untouched(true)
    else
      var slot, text := info.runpath.value, CString(b, info.runpath.value);
      var p := PlanOf(dirs, info.needed, |text|);
      var blob := Blob(p.runpath, Targets(dirs, p.deps));
      if blob == text then Untouched(true)
      else if SymbolIn(b, sections, slot, slot + |text|).Some? then Untouched(false)
      else if |blob| > |text| || slot + |text| + 1 > |b| then Untouched(false)
      else Patched(Edits(dirs, p, slot, info.dynstr, |text|))
  }

  lemma OutcomeFits(b: Bytes, sections: seq<Section>, dirs: seq<RunpathDir>)
    ensures RunpathOutcome(b, sections, dirs).Patched? ==> AllFit(RunpathOutcome(b, sections, dirs).edits, |b|)
  {
    hide DynamicOf, CString, Blob, Targets, SymbolIn, Redirected, LibInside;
    var info := DynamicOf(b, sections);
    if RunpathOutcome(b, sections, dirs).Patched? {
      var slot, text := info.runpath.value, CString(b, info.runpath.value);
      var p := PlanOf(dirs, info.needed, |text|);
      NeededInside(b, sections);
      RedirectedFits(dirs, p, slot + U64 - info.dynstr % U64, |p.deps|, |b|);
    }
  }

  method FixRunpath(image: Image, sections: seq<Section>, dirs: seq<RunpathDir>) returns (ok: bool)
    modifies image
    ensures var out := RunpathOutcome(old(image.bytes), sections, dirs);
            match out
            case Untouched(fine) => image.bytes == old(image.bytes) && ok == fine
            case Patched(edits) => ok && AllFit(edits, |old(image.bytes)|)
                                   && image.bytes == PatchAll(old(image.bytes), edits)
  {
    hide DynamicOf, CString, Blob, SymbolIn, LibInside, PatchAll, Patch, PlanOf, Redirected;
    ghost var b := image.bytes;
    OutcomeFits(b, sections, dirs);
    var info := ReadDynamic(image.bytes, sections);
    if info.runpath.None? {
      return true;
    }
    var slot, text := info.runpath.value, CString(image.bytes, info.runpath.value);
    var p := PlanOf(dirs, info.needed, |text|);
    var ts := Targets(dirs, p.deps);
    var blob := Blob(p.runpath, ts);
    if blob == text {
      return true;
    }
    var sym := SymbolInside(image.bytes, sections, slot, slot + |text|);
    if sym.Some? {
      return false;
    }
    NeededInside(b, sections);
    ok := image.WritePadded(slot, |text| + 1, blob);
    if ok {
      var base := slot + U64 - info.dynstr % U64;
      ghost var first := SlotEdit(dirs, p, slot, |text|);
      PatchOne(b, first);
      WriteDeps(image, dirs, p, base, b, first);
    }
  }

  method WriteDeps(image: Image, dirs: seq<RunpathDir>, p: Plan, base: nat, ghost b: Bytes, ghost first: Edit)
    requires forall d :: d in p.deps ==> d.dir < |dirs| && LibInside(|b|, d.lib)
    requires Fits(first, |b|) && image.bytes == Patch(b, first)
    modifies image
    ensures AllFit([first] + Redirected(dirs, p, base, |p.deps|), |b|)
    ensures image.bytes == PatchAll(b, [first] + Redirected(dirs, p, base, |p.deps|))
  {
    hide Blob, LibInside, PatchAll, Patch, DepEdits;
    PatchOne(b, first);
    var ts := Targets(dirs, p.deps);
    var i := 0;
    assert [first] + [] == [first];
    while i < |p.deps|
      invariant i <= |p.deps| && |image.bytes| == |b|
      invariant AllFit([first] + Redirected(dirs, p, base, i), |b|)
      invariant image.bytes == PatchAll(b, [first] + Redirected(dirs, p, base, i))
    {
      assert p.deps[i] in p.deps;
      var str := (base + TargetAt(p.runpath, ts, i)) % U64;
      WriteDep(image, p.deps[i], str);
      PatchConcat(b, [first] + Redirected(dirs, p, base, i), DepEdits(p.deps[i], str));
      assert [first] + Redirected(dirs, p, base, i) + DepEdits(p.deps[i], str)
          == [first] + Redirected(dirs, p, base, i + 1);
      i := i + 1;
    }
  }
}
