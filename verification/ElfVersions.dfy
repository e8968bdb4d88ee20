/** The version needs of a fixed-up ELF image: re-reading the chain gives the same entries, each naming what
    it named before under the name that library has now. */
module ElfVersions {
  import opened Bytes
  import opened BinaryImage
  import opened ElfFixup
  import opened ElfReadBack

  // ---------------------------------------------------------------- names before and after

  /** The first redirected library of that name, |deps| if none. */
  function DepNamed(deps: seq<Dep>, name: Bytes): (k: nat)
    ensures k <= |deps| && (k < |deps| ==> deps[k].lib.name == name)
    ensures k == |deps| ==> forall j :: 0 <= j < |deps| ==> deps[j].lib.name != name
    decreases |deps|
  {
    if deps == [] || deps[0].lib.name == name then 0 else 1 + DepNamed(deps[1..], name)
  }

  /** What a library of that name is called afterwards. */
  function Renamed(dirs: seq<RunpathDir>, p: Plan, name: Bytes): Bytes
    requires forall d :: d in p.deps ==> d.dir < |dirs|
  {
    var k := DepNamed(p.deps, name);
    if k < |p.deps| then Target(dirs, p.deps[k]) else name
  }

  /** A path ends in its name: what follows the last slash. */
  lemma SameTarget(dirs: seq<RunpathDir>, c: Dep, d: Dep)
    requires c.dir < |dirs| && d.dir < |dirs| && SLASH !in c.lib.name && SLASH !in d.lib.name
    requires Target(dirs, c) == Target(dirs, d)
    ensures c.lib.name == d.lib.name
  {
    var t, a, b := Target(dirs, c), |dirs[c.dir].entry|, |dirs[d.dir].entry|;
    assert t[a] == SLASH && t[b] == SLASH;
    assert t[a + 1..] == c.lib.name && t[b + 1..] == d.lib.name;
  }

  /** Two names become the same exactly if one of them is redirected to what the other is called and stays. */
  lemma {:induction false} BecomeSameIff(dirs: seq<RunpathDir>, needed: seq<Needed>, room: nat, n: Bytes, m: Bytes)
    requires n != m
    ensures forall d :: d in PlanOf(dirs, needed, room).deps ==> d.dir < |dirs|
    ensures var p := PlanOf(dirs, needed, room);
            Renamed(dirs, p, n) == Renamed(dirs, p, m) <==>
              || (Renamed(dirs, p, n) == m && DepNamed(p.deps, m) == |p.deps|)
              || (Renamed(dirs, p, m) == n && DepNamed(p.deps, n) == |p.deps|)
  {
    hide Target, Direct, Kept, Join, Blob, Targets, Provider;
    var p := PlanOf(dirs, needed, room);
    DirectIs(dirs, needed);
    var i, j := DepNamed(p.deps, n), DepNamed(p.deps, m);
    if i < |p.deps| && j < |p.deps| && Renamed(dirs, p, n) == Renamed(dirs, p, m) {
      assert p.deps[i] in p.deps && p.deps[j] in p.deps;
      SameTarget(dirs, p.deps[i], p.deps[j]);
    }
  }

  // ---------------------------------------------------------------- the chain

  /** Where the chain goes on from an entry is the same in both images. */
  ghost predicate SameLinks(b: Bytes, c: Bytes, off: nat) {
    && |b| == |c|
    && forall v :: v in Vns(b, off) ==>
         v.at + VERNEED_SIZE <= |b| && b[v.at + VN_NEXT..v.at + VERNEED_SIZE] == c[v.at + VN_NEXT..v.at + VERNEED_SIZE]
  }

  /** Entry v as it is in c now. */
  function NowVn(c: Bytes, v: Vn): Vn
    requires v.at + VERNEED_SIZE <= |c|
  {
    Vn(v.at, UnLe(c[v.at + VN_FILE..v.at + 8]))
  }

  ghost predicate SameEntries(c: Bytes, us: seq<Vn>, vs: seq<Vn>) {
    |us| == |vs| && forall i :: 0 <= i < |vs| ==> vs[i].at + VERNEED_SIZE <= |c| && us[i] == NowVn(c, vs[i])
  }

  lemma LinksRest(b: Bytes, c: Bytes, off: nat)
    requires SameLinks(b, c, off) && off != 0 && off + VERNEED_SIZE <= |b|
    ensures |b| == |c| && b[off + VN_NEXT..off + VERNEED_SIZE] == c[off + VN_NEXT..off + VERNEED_SIZE]
    ensures var next := UnLe(b[off + VN_NEXT..off + VERNEED_SIZE]); next != 0 ==> SameLinks(b, c, off + next)
  {
    hide UnLe, Vns;
    VnsStep(b, off);
    var first := Vn(off, UnLe(b[off + VN_FILE..off + 8]));
    var next := UnLe(b[off + VN_NEXT..off + VERNEED_SIZE]);
    var rest := Vns(b, if next == 0 then 0 else off + next);
    assert first in [first] + rest && forall v :: v in rest ==> v in [first] + rest;
  }

  /** Then the same entries are found, with whatever names they have now. */
  lemma {:induction false} SameChain(b: Bytes, c: Bytes, off: nat)
    requires SameLinks(b, c, off)
    ensures SameEntries(c, Vns(c, off), Vns(b, off))
    decreases |b| - off
  {
    hide UnLe, SameLinks, Vns;
    LinksLength(b, c, off);
    if off != 0 && off + VERNEED_SIZE <= |b| {
      VnsStep(b, off);
      VnsStep(c, off);
      LinksRest(b, c, off);
      var next := UnLe(b[off + VN_NEXT..off + VERNEED_SIZE]);
      if next == 0 {
        NoChain(b);
        NoChain(c);
      } else {
        SameChain(b, c, off + next);
      }
    } else {
      ChainEnds(b, off);
      ChainEnds(c, off);
    }
  }

  lemma LinksLength(b: Bytes, c: Bytes, off: nat)
    requires SameLinks(b, c, off)
    ensures |b| == |c|
  {
  }

  lemma ChainEnds(b: Bytes, off: nat)
    requires off == 0 || off + VERNEED_SIZE > |b|
    ensures Vns(b, off) == []
  {
  }

  lemma NoChain(b: Bytes)
    ensures Vns(b, 0) == []
  {
  }

  // ---------------------------------------------------------------- what each entry names now

  /** The strings version needs name are apart from what is written. */
  ghost predicate VersionsClear(b: Bytes, q: Parts) {
    forall v :: v in Vns(b, q.vnStart) ==>
      StringClear(b, StringAt(q.dynstr, v.file), Dyns(b, q.lo, q.hi), Vns(b, q.vnStart), q.slot, q.room + 1)
  }

  /** The words of a version need that are not the name stay. */
  lemma LinkStays(b: Bytes, q: Parts, dirs: seq<RunpathDir>, p: Plan, es: seq<Edit>, v: Vn)
    requires Sound(b, q.dynstr, Dyns(b, q.lo, q.hi), Vns(b, q.vnStart), dirs, p, q.slot, q.room)
    requires Applied(b, es, dirs, p, q.slot, q.dynstr, q.room) && v in Vns(b, q.vnStart)
    ensures v.at + VERNEED_SIZE <= |b|
    ensures PatchAll(b, es)[v.at + VN_NEXT..v.at + VERNEED_SIZE] == b[v.at + VN_NEXT..v.at + VERNEED_SIZE]
  {
    hide Dyns, Vns, PatchAll, Blob, Targets, Edits, Aligned, Agreeing, NoNul, InRange, ComesFrom, SpacedDyns, VnFiles,
         CString;
    VnsInside(b, q.vnStart);
    forall k | 0 <= k < |p.deps|
      ensures Separate(v.at + VN_NEXT, 4, p.deps[k].lib.valOffset, 8)
      ensures forall y :: y in p.deps[k].lib.vnFiles ==> Separate(v.at + VN_NEXT, 4, y, 4)
    {
      var d := ValueEntry(b, q, dirs, p, k);
      forall y | y in p.deps[k].lib.vnFiles
        ensures Separate(v.at + VN_NEXT, 4, y, 4)
      {
        var u := FileEntry(b, q, dirs, p, k, y);
      }
    }
    Elsewhere(b, es, dirs, p, q.slot, q.dynstr, q.room, v.at + VN_NEXT, 4);
  }

  /** A word that was to be redirected stands in a version need of that library. */
  lemma FileEntry(b: Bytes, q: Parts, dirs: seq<RunpathDir>, p: Plan, k: nat, y: nat) returns (u: Vn)
    requires Sound(b, q.dynstr, Dyns(b, q.lo, q.hi), Vns(b, q.vnStart), dirs, p, q.slot, q.room)
    requires k < |p.deps| && y in p.deps[k].lib.vnFiles
    ensures u in Vns(b, q.vnStart) && y == u.at + VN_FILE
    ensures CString(b, StringAt(q.dynstr, u.file)) == p.deps[k].lib.name
  {
    hide Dyns, Vns, CString, VnFiles, Laid, SpacedDyns;
    var lib, vns := p.deps[k].lib, Vns(b, q.vnStart);
    assert ComesFrom(b, q.dynstr, Dyns(b, q.lo, q.hi), vns, lib);
    var d :| d in Dyns(b, q.lo, q.hi) && d.tag == DT_NEEDED && lib == NeededBy(b, q.dynstr, d, vns);
    VnFilesFrom(b, q.dynstr, vns, lib.name, y);
    u :| u in vns && y == u.at + VN_FILE && CString(b, StringAt(q.dynstr, u.file)) == lib.name;
  }

  /** A version need of a redirected library is among its words. */
  lemma ItsWord(b: Bytes, q: Parts, dirs: seq<RunpathDir>, p: Plan, k: nat, v: Vn)
    requires Sound(b, q.dynstr, Dyns(b, q.lo, q.hi), Vns(b, q.vnStart), dirs, p, q.slot, q.room)
    requires k < |p.deps| && v in Vns(b, q.vnStart) && CString(b, StringAt(q.dynstr, v.file)) == p.deps[k].lib.name
    ensures v.at + VN_FILE in p.deps[k].lib.vnFiles
  {
    hide Dyns, Vns, CString, VnFiles, Laid, SpacedDyns;
    var lib, vns := p.deps[k].lib, Vns(b, q.vnStart);
    assert ComesFrom(b, q.dynstr, Dyns(b, q.lo, q.hi), vns, lib);
    var d :| d in Dyns(b, q.lo, q.hi) && d.tag == DT_NEEDED && lib == NeededBy(b, q.dynstr, d, vns);
    VnFilesFrom(b, q.dynstr, vns, lib.name, v.at + VN_FILE);
  }

  /** The word of a version need of any other library stays. */
  lemma WordStays(b: Bytes, q: Parts, dirs: seq<RunpathDir>, p: Plan, es: seq<Edit>, v: Vn)
    requires Sound(b, q.dynstr, Dyns(b, q.lo, q.hi), Vns(b, q.vnStart), dirs, p, q.slot, q.room)
    requires Applied(b, es, dirs, p, q.slot, q.dynstr, q.room) && v in Vns(b, q.vnStart)
    requires DepNamed(p.deps, CString(b, StringAt(q.dynstr, v.file))) == |p.deps|
    ensures v.at + VERNEED_SIZE <= |b| && UnLe(PatchAll(b, es)[v.at + VN_FILE..v.at + 8]) == v.file
  {
    hide Dyns, Vns, PatchAll, Blob, Targets, Edits, Aligned, Agreeing, NoNul, InRange, ComesFrom, SpacedDyns, VnFiles,
         CString, UnLe, DepNamed;
    VnsAre(b, q.vnStart);
    Unique(b, q.lo, q.hi, q.vnStart);
    forall k | 0 <= k < |p.deps|
      ensures Separate(v.at + VN_FILE, 4, p.deps[k].lib.valOffset, 8)
      ensures forall y :: y in p.deps[k].lib.vnFiles ==> Separate(v.at + VN_FILE, 4, y, 4)
    {
      var d := ValueEntry(b, q, dirs, p, k);
      forall y | y in p.deps[k].lib.vnFiles
        ensures Separate(v.at + VN_FILE, 4, y, 4)
      {
        var u := FileEntry(b, q, dirs, p, k, y);
        assert u.at != v.at;
      }
    }
    Elsewhere(b, es, dirs, p, q.slot, q.dynstr, q.room, v.at + VN_FILE, 4);
  }

  /** Each version need names what it named before, under its new name. */
  lemma VersionReads(b: Bytes, q: Parts, dirs: seq<RunpathDir>, p: Plan, es: seq<Edit>, v: Vn)
    requires Sound(b, q.dynstr, Dyns(b, q.lo, q.hi), Vns(b, q.vnStart), dirs, p, q.slot, q.room)
    requires Applied(b, es, dirs, p, q.slot, q.dynstr, q.room) && v in Vns(b, q.vnStart)
    requires StringClear(b, StringAt(q.dynstr, v.file), Dyns(b, q.lo, q.hi), Vns(b, q.vnStart), q.slot, q.room + 1)
    ensures v.at + VERNEED_SIZE <= |b| == |PatchAll(b, es)|
    ensures CString(PatchAll(b, es), StringAt(q.dynstr, UnLe(PatchAll(b, es)[v.at + VN_FILE..v.at + 8])))
         == Renamed(dirs, p, CString(b, StringAt(q.dynstr, v.file)))
  {
    hide Dyns, Vns, PatchAll, Blob, Targets, Target, Edits, Aligned, Agreeing, NoNul, InRange, ComesFrom, SpacedDyns,
         VnFiles, CString, UnLe, DepNamed, Laid, StringClear, StringAt;
    VnsInside(b, q.vnStart);
    var k := DepNamed(p.deps, CString(b, StringAt(q.dynstr, v.file)));
    if k < |p.deps| {
      ItsWord(b, q, dirs, p, k, v);
      VnReads(b, es, dirs, p, q.slot, q.dynstr, q.room, k, v.at + VN_FILE);
    } else {
      WordStays(b, q, dirs, p, es, v);
      StringStays(b, q, dirs, p, es, StringAt(q.dynstr, v.file));
    }
  }

  // ---------------------------------------------------------------- the theorem

  lemma {:induction false} FilesOf(b: Bytes, dynstr: nat, ds: seq<Dyn>, vns: seq<Vn>)
    ensures forall i :: 0 <= i < |NeededOf(b, dynstr, ds, vns)| ==>
              NeededOf(b, dynstr, ds, vns)[i].vnFiles == VnFiles(b, dynstr, vns, NeededOf(b, dynstr, ds, vns)[i].name)
    decreases |ds|
  {
    hide CString, VnFiles, StringAt;
    if ds != [] {
      FilesOf(b, dynstr, ds[..|ds| - 1], vns);
    }
  }

  function NameOf(b: Bytes, dynstr: nat, v: Vn): Bytes {
    CString(b, StringAt(dynstr, v.file))
  }

  lemma NoFiles(b: Bytes, dynstr: nat, n: Bytes)
    ensures VnFiles(b, dynstr, [], n) == []
  {
  }

  lemma FilesStep(b: Bytes, dynstr: nat, vs: seq<Vn>, n: Bytes)
    requires |vs| > 0
    ensures var front := VnFiles(b, dynstr, vs[..|vs| - 1], n);
            VnFiles(b, dynstr, vs, n) ==
              if NameOf(b, dynstr, vs[|vs| - 1]) == n then front + [vs[|vs| - 1].at + VN_FILE] else front
  {
  }

  /** Of chains with the same entries, of which the second names the library at least where the first does:
      they have the same words for it exactly if it does nowhere else. */
  lemma {:induction false} SameFilesIff(b: Bytes, c: Bytes, dynstr: nat, vs: seq<Vn>, us: seq<Vn>, n: Bytes, m: Bytes)
    requires |us| == |vs| && forall i :: 0 <= i < |vs| ==> us[i].at == vs[i].at
    requires forall i :: 0 <= i < |vs| && NameOf(b, dynstr, vs[i]) == n ==> NameOf(c, dynstr, us[i]) == m
    ensures |VnFiles(b, dynstr, vs, n)| <= |VnFiles(c, dynstr, us, m)|
    ensures VnFiles(c, dynstr, us, m) == VnFiles(b, dynstr, vs, n) <==>
            forall i :: 0 <= i < |vs| && NameOf(c, dynstr, us[i]) == m ==> NameOf(b, dynstr, vs[i]) == n
    decreases |vs|
  {
    hide NameOf, VnFiles;
    if vs == [] {
      NoFiles(b, dynstr, n);
      NoFiles(c, dynstr, m);
    } else {
      var k := |vs| - 1;
      SameFilesIff(b, c, dynstr, vs[..k], us[..k], n, m);
      MoreFiles(b, c, dynstr, vs, us, n, m);
    }
  }

  lemma {:induction false} MoreFiles(b: Bytes, c: Bytes, dynstr: nat, vs: seq<Vn>, us: seq<Vn>, n: Bytes, m: Bytes)
    requires |us| == |vs| > 0 && us[|us| - 1].at == vs[|vs| - 1].at
    requires NameOf(b, dynstr, vs[|vs| - 1]) == n ==> NameOf(c, dynstr, us[|us| - 1]) == m
    requires |VnFiles(b, dynstr, vs[..|vs| - 1], n)| <= |VnFiles(c, dynstr, us[..|us| - 1], m)|
    ensures |VnFiles(b, dynstr, vs, n)| <= |VnFiles(c, dynstr, us, m)|
    ensures VnFiles(c, dynstr, us, m) == VnFiles(b, dynstr, vs, n) <==>
            && VnFiles(c, dynstr, us[..|us| - 1], m) == VnFiles(b, dynstr, vs[..|vs| - 1], n)
            && (NameOf(c, dynstr, us[|us| - 1]) == m ==> NameOf(b, dynstr, vs[|vs| - 1]) == n)
  {
    hide NameOf, VnFiles;
    FilesStep(b, dynstr, vs, n);
    FilesStep(c, dynstr, us, m);
    var k := |vs| - 1;
    var x, y := VnFiles(b, dynstr, vs[..k], n), VnFiles(c, dynstr, us[..k], m);
    assert y + [us[k].at + VN_FILE] == x + [vs[k].at + VN_FILE] ==> (y + [us[k].at + VN_FILE])[..|y|] == y;
    assert |x| == |y| ==> (x + [vs[k].at + VN_FILE])[..|y|] == x;
  }

  /** The plan redirects by name: all libraries of a name or none. */
  lemma {:induction false} RenamedIsNew(b: Bytes, q: Parts, dirs: seq<RunpathDir>, p: Plan, lib: Needed)
    requires p == PlanOf(dirs, NeededOf(b, q.dynstr, Dyns(b, q.lo, q.hi), Vns(b, q.vnStart)), q.room)
    requires lib in NeededOf(b, q.dynstr, Dyns(b, q.lo, q.hi), Vns(b, q.vnStart))
    ensures (forall d :: d in p.deps ==> d.dir < |dirs|) && Renamed(dirs, p, lib.name) == NewName(dirs, p, lib)
  {
    hide Dyns, Vns, NeededOf, CString, VnFiles, Direct, Kept, Join, Blob, Targets, Provider, DepNamed, DepAt;
    var needed := NeededOf(b, q.dynstr, Dyns(b, q.lo, q.hi), Vns(b, q.vnStart));
    DirectIs(dirs, needed);
    var k := DepNamed(p.deps, lib.name);
    if p.deps == Direct(dirs, needed) {
      NewNameIs(b, q, dirs, p, lib);
      if k < |p.deps| {
        assert p.deps[k] in p.deps;
      }
    }
  }

  lemma LinksStay(b: Bytes, q: Parts, dirs: seq<RunpathDir>, p: Plan, es: seq<Edit>)
    requires Sound(b, q.dynstr, Dyns(b, q.lo, q.hi), Vns(b, q.vnStart), dirs, p, q.slot, q.room)
    requires Applied(b, es, dirs, p, q.slot, q.dynstr, q.room)
    ensures SameLinks(b, PatchAll(b, es), q.vnStart)
  {
    hide Dyns, Vns, Sound, PatchAll, Blob, Targets, Edits, Aligned, Agreeing, NoNul, InRange;
    forall v | v in Vns(b, q.vnStart)
      ensures v.at + VERNEED_SIZE <= |b|
      ensures b[v.at + VN_NEXT..v.at + VERNEED_SIZE] == PatchAll(b, es)[v.at + VN_NEXT..v.at + VERNEED_SIZE]
    {
      LinkStays(b, q, dirs, p, es, v);
    }
  }

  /** What the i-th version need of an image names. */
  ghost function VersionName(b: Bytes, q: Parts, i: nat): Bytes
    requires i < |Vns(b, q.vnStart)|
  {
    NameOf(b, q.dynstr, Vns(b, q.vnStart)[i])
  }

  lemma ChainReads(b: Bytes, q: Parts, dirs: seq<RunpathDir>, p: Plan, es: seq<Edit>)
    requires Sound(b, q.dynstr, Dyns(b, q.lo, q.hi), Vns(b, q.vnStart), dirs, p, q.slot, q.room)
    requires Applied(b, es, dirs, p, q.slot, q.dynstr, q.room) && VersionsClear(b, q)
    ensures var c := PatchAll(b, es);
            && |Vns(c, q.vnStart)| == |Vns(b, q.vnStart)|
            && forall i :: 0 <= i < |Vns(b, q.vnStart)| ==>
                 && Vns(c, q.vnStart)[i].at == Vns(b, q.vnStart)[i].at
                 && VersionName(c, q, i) == Renamed(dirs, p, VersionName(b, q, i))
  {
    hide Dyns, Vns, Sound, PatchAll, Blob, Targets, Edits, Aligned, Agreeing, NoNul, InRange, CString, UnLe, SameLinks,
         StringClear, StringAt, Renamed;
    var c, vs := PatchAll(b, es), Vns(b, q.vnStart);
    LinksStay(b, q, dirs, p, es);
    SameChain(b, c, q.vnStart);
    forall i | 0 <= i < |vs|
      ensures VersionName(c, q, i) == Renamed(dirs, p, VersionName(b, q, i))
    {
      assert vs[i] in vs;
      VersionReads(b, q, dirs, p, es, vs[i]);
    }
  }

  /** No version need of another name takes on the name that this one becomes. */
  ghost predicate StaysApart(b: Bytes, q: Parts, dirs: seq<RunpathDir>, p: Plan, name: Bytes)
    requires forall d :: d in p.deps ==> d.dir < |dirs|
  {
    forall j :: 0 <= j < |Vns(b, q.vnStart)| && Renamed(dirs, p, VersionName(b, q, j)) == Renamed(dirs, p, name) ==>
      VersionName(b, q, j) == name
  }

  /** c has the version needs of b, each under its new name. */
  ghost predicate SameVersions(b: Bytes, c: Bytes, q: Parts, dirs: seq<RunpathDir>, p: Plan)
    requires forall d :: d in p.deps ==> d.dir < |dirs|
  {
    && |Vns(c, q.vnStart)| == |Vns(b, q.vnStart)|
    && forall i :: 0 <= i < |Vns(b, q.vnStart)| ==>
         && Vns(c, q.vnStart)[i].at == Vns(b, q.vnStart)[i].at
         && VersionName(c, q, i) == Renamed(dirs, p, VersionName(b, q, i))
  }

  /** Re-reading a rewritten image: the version-need chain has the same entries, each naming what it named before
      under that library's new name; and a library has exactly the version needs it had unless another name
      becomes the same. */
  lemma {:induction false} VersionsReadBack(b: Bytes, sections: seq<Section>, dirs: seq<RunpathDir>, q: Parts, p: Plan,
                                            es: seq<Edit>)
    requires Rewrites(b, sections, dirs, q, p, es) && VersionsClear(b, q)
    ensures AllFit(es, |b|) && forall d :: d in p.deps ==> d.dir < |dirs|
    ensures var c, needed := PatchAll(b, es), DynamicOf(b, sections).needed;
            && SameVersions(b, c, q, dirs, p)
            && |DynamicOf(c, sections).needed| == |needed|
            && forall i :: 0 <= i < |needed| ==>
                 (DynamicOf(c, sections).needed[i].vnFiles == needed[i].vnFiles <==>
                    StaysApart(b, q, dirs, p, needed[i].name))
  {
    hide Dyns, Vns, Sound, PatchAll, Blob, Targets, Edits, Aligned, Agreeing, NoNul, InRange, CString, SaneImage,
         NeededOf, RunpathOf, NewName, PlanOf, RunpathOutcome, VersionsClear, Renamed, VnFiles, StringAt, StaysApart;
    RewritesApplied(b, sections, dirs, q, p, es);
    ChainReads(b, q, dirs, p, es);
    ReadsBack(b, sections, dirs, q, p, es);
    var c, needed := PatchAll(b, es), DynamicOf(b, sections).needed;
    forall i | 0 <= i < |needed|
      ensures DynamicOf(c, sections).needed[i].vnFiles == needed[i].vnFiles <==>
              StaysApart(b, q, dirs, p, needed[i].name)
    {
      OneLibrary(b, c, sections, dirs, q, p, i);
    }
  }

  lemma {:induction false} OneLibrary(b: Bytes, c: Bytes, sections: seq<Section>, dirs: seq<RunpathDir>, q: Parts,
                                      p: Plan, i: nat)
    requires HasDynamic(sections) && DynamicOf(b, sections).runpath.Some? && q == PartsOf(b, sections) && |c| == |b|
    requires p == PlanOf(dirs, DynamicOf(b, sections).needed, q.room) && forall d :: d in p.deps ==> d.dir < |dirs|
    requires SameVersions(b, c, q, dirs, p)
    requires i < |DynamicOf(b, sections).needed| == |DynamicOf(c, sections).needed|
    requires DynamicOf(c, sections).needed[i].name == NewName(dirs, p, DynamicOf(b, sections).needed[i])
    ensures DynamicOf(c, sections).needed[i].vnFiles == DynamicOf(b, sections).needed[i].vnFiles <==>
            StaysApart(b, q, dirs, p, DynamicOf(b, sections).needed[i].name)
  {
    hide Dyns, Vns, CString, NeededOf, RunpathOf, NewName, PlanOf, Renamed, VnFiles, StringAt;
    var vs, us, lib := Vns(b, q.vnStart), Vns(c, q.vnStart), DynamicOf(b, sections).needed[i];
    FilesOf(b, q.dynstr, Dyns(b, q.lo, q.hi), vs);
    FilesOf(c, q.dynstr, Dyns(c, q.lo, q.hi), us);
    RenamedIsNew(b, q, dirs, p, lib);
    assert forall j :: 0 <= j < |vs| ==>
      VersionName(b, q, j) == NameOf(b, q.dynstr, vs[j]) && VersionName(c, q, j) == NameOf(c, q.dynstr, us[j]);
    SameFilesIff(b, c, q.dynstr, vs, us, lib.name, NewName(dirs, p, lib));
  }
}
