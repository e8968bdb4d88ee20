/** Reading a fixed-up ELF image back: only the RUNPATH slot and the redirected words changed, the
    RUNPATH reads as what was kept, and every redirected NEEDED and version-need entry names its path. */
module ElfReadBack {
  import opened Bytes
  import opened Options
  import opened BinaryImage
  import opened ElfFixup

  // ---------------------------------------------------------------- strings in the slot

  lemma {:induction false} BlobLonger(neu: Bytes, ts: seq<Bytes>, i: nat)
    requires i < |ts|
    ensures |Blob(neu, ts)| >= TargetAt(neu, ts, i) + |ts[i]|
    ensures Blob(neu, ts)[TargetAt(neu, ts, i)..TargetAt(neu, ts, i) + |ts[i]|] == ts[i]
    ensures TargetAt(neu, ts, i) + |ts[i]| < |Blob(neu, ts)| ==> Blob(neu, ts)[TargetAt(neu, ts, i) + |ts[i]|] == 0
    decreases |ts|
  {
    var front, t := ts[..|ts| - 1], ts[|ts| - 1];
    var blob := Blob(neu, front) + [0] + t;
    if i == |ts| - 1 {
      assert ts[..i] == front;
      assert blob[|Blob(neu, front)| + 1..] == t;
    } else {
      BlobLonger(neu, front, i);
      assert front[..i] == ts[..i];
      var x := TargetAt(neu, ts, i);
      assert blob[x..x + |ts[i]|] == Blob(neu, front)[x..x + |ts[i]|];
    }
  }

  lemma {:induction false} BlobStarts(neu: Bytes, ts: seq<Bytes>)
    ensures |neu| <= |Blob(neu, ts)| && Blob(neu, ts)[..|neu|] == neu
    ensures |neu| < |Blob(neu, ts)| ==> Blob(neu, ts)[|neu|] == 0
    decreases |ts|
  {
    if ts != [] {
      BlobStarts(neu, ts[..|ts| - 1]);
    }
  }

  /** A text inside a NUL-padded slot, followed by a NUL or the padding. */
  lemma SlotString(c: Bytes, slot: nat, blob: Bytes, room: nat, x: nat, t: Bytes)
    requires |blob| <= room && slot + room + 1 <= |c| && c[slot..slot + room + 1] == Padded(blob, room + 1)
    requires 0 !in t && x + |t| <= |blob| && blob[x..x + |t|] == t && (x + |t| < |blob| ==> blob[x + |t|] == 0)
    ensures CString(c, slot + x) == t
  {
    var d := c[slot..slot + room + 1];
    assert forall i :: 0 <= i < |blob| ==> d[i] == blob[i];
    assert forall i :: |blob| <= i < |d| ==> d[i] == 0;
    assert c[slot + x + |t|] == d[x + |t|];
    forall i | 0 <= i < |t|
      ensures c[slot + x..slot + x + |t|][i] == t[i]
    {
      assert c[slot + x + i] == d[x + i];
      assert blob[x..x + |t|][i] == blob[x + i];
    }
    CStringIs(c, slot + x, t);
  }

  // ---------------------------------------------------------------- the layout of a sane image

  ghost predicate Spaced(vns: seq<Vn>) {
    forall v, u :: v in vns && u in vns && v.at != u.at ==> Separate(v.at, VERNEED_SIZE, u.at, VERNEED_SIZE)
  }

  ghost predicate SpacedDyns(ds: seq<Dyn>) {
    forall d, e :: d in ds && e in ds && d.at != e.at ==> Separate(d.at, DYN_SIZE, e.at, DYN_SIZE)
  }

  /** The slot, the dynamic entries and the version-need entries are apart from one another. */
  ghost predicate Laid(ds: seq<Dyn>, vns: seq<Vn>, slot: nat, len: nat) {
    && Spaced(vns)
    && (forall d :: d in ds ==> Separate(d.at, DYN_SIZE, slot, len))
    && (forall v :: v in vns ==> Separate(v.at, VERNEED_SIZE, slot, len))
    && (forall d, v :: d in ds && v in vns ==> Separate(d.at, DYN_SIZE, v.at, VERNEED_SIZE))
  }

  lemma {:induction false} DynsSpaced(b: Bytes, off: nat, end: nat)
    ensures SpacedDyns(Dyns(b, off, end))
    decreases |b| - off
  {
    hide UnLe, Read;
    if off < end && off + DYN_SIZE <= |b| && Read(b, off, 8) != Some(DT_NULL) {
      DynsSpaced(b, off + DYN_SIZE, end);
      DynsInside(b, off + DYN_SIZE, end);
    }
  }

  // ---------------------------------------------------------------- what the edits are

  /** The value stored for the k-th redirected library. */
  function StrOf(dirs: seq<RunpathDir>, p: Plan, base: nat, k: nat): nat
    requires k < |p.deps| && forall d :: d in p.deps ==> d.dir < |dirs|
  {
    (base + TargetAt(p.runpath, Targets(dirs, p.deps), k)) % U64
  }

  ghost predicate WordOf(dirs: seq<RunpathDir>, p: Plan, base: nat, k: nat, e: Edit)
    requires k < |p.deps| && forall d :: d in p.deps ==> d.dir < |dirs|
  {
    var str := StrOf(dirs, p, base, k);
    e == Edit(p.deps[k].lib.valOffset, Le(str, 8)) || (e.at in p.deps[k].lib.vnFiles && e.data == Le(str % U32, 4))
  }

  lemma WordsOf(dirs: seq<RunpathDir>, p: Plan, base: nat, k: nat, e: Edit)
    requires k < |p.deps| && forall d :: d in p.deps ==> d.dir < |dirs|
    ensures e in DepEdits(p.deps[k], StrOf(dirs, p, base, k)) <==> WordOf(dirs, p, base, k, e)
  {
    hide StrOf, Le;
    var vs, str := p.deps[k].lib.vnFiles, StrOf(dirs, p, base, k);
    var ws := WordEdits(vs, str % U32);
    if e.at in vs && e.data == Le(str % U32, 4) {
      var i :| 0 <= i < |vs| && vs[i] == e.at;
      assert ws[i] == e;
    }
    if e in ws {
      var i :| 0 <= i < |ws| && ws[i] == e;
      assert vs[i] in vs;
    }
  }

  lemma {:induction false} RedirectedAre(dirs: seq<RunpathDir>, p: Plan, base: nat, n: nat, e: Edit)
    requires n <= |p.deps| && forall d :: d in p.deps ==> d.dir < |dirs|
    ensures e in Redirected(dirs, p, base, n) <==> exists k :: 0 <= k < n && WordOf(dirs, p, base, k, e)
    decreases n
  {
    hide DepEdits, WordOf, TargetAt;
    if n > 0 {
      RedirectedAre(dirs, p, base, n - 1, e);
      WordsOf(dirs, p, base, n - 1, e);
    }
  }

  // ---------------------------------------------------------------- no two writes collide

  /** Libraries of one name come from one directory. */
  ghost predicate SameDirs(deps: seq<Dep>) {
    forall i, j :: 0 <= i < |deps| && 0 <= j < |deps| && deps[i].lib.name == deps[j].lib.name ==>
      deps[i].dir == deps[j].dir
  }

  /** Everything the argument needs to know of an image and a plan. */
  ghost predicate Sound(b: Bytes, dynstr: nat, ds: seq<Dyn>, vns: seq<Vn>, dirs: seq<RunpathDir>, p: Plan, slot: nat,
                        room: nat) {
    && Laid(ds, vns, slot, room + 1) && SpacedDyns(ds)
    && SameDirs(p.deps)
    && (forall d :: d in p.deps ==> d.dir < |dirs|)
    && (forall k :: 0 <= k < |p.deps| ==> ComesFrom(b, dynstr, ds, vns, p.deps[k].lib))
  }

  ghost predicate ComesFrom(b: Bytes, dynstr: nat, ds: seq<Dyn>, vns: seq<Vn>, lib: Needed) {
    exists d :: d in ds && d.tag == DT_NEEDED && lib == NeededBy(b, dynstr, d, vns)
  }

  /** The place of a word: the value of a NEEDED entry, or the file of a version-need entry. */
  datatype Place = AtDyn(d: Dyn) | AtVn(v: Vn)

  ghost predicate PlaceOf(b: Bytes, dynstr: nat, ds: seq<Dyn>, vns: seq<Vn>, lib: Needed, e: Edit, pl: Place) {
    match pl
    case AtDyn(d) => d in ds && lib.name == CString(b, StringAt(dynstr, d.val)) && e.at == d.at + 8 && |e.data| == 8
    case AtVn(v) => v in vns && lib.name == CString(b, StringAt(dynstr, v.file)) && e.at == v.at + VN_FILE
                    && |e.data| == 4
  }

  lemma WordPlace(b: Bytes, dynstr: nat, ds: seq<Dyn>, vns: seq<Vn>, dirs: seq<RunpathDir>, p: Plan, base: nat,
                  k: nat, e: Edit)
    returns (pl: Place)
    requires k < |p.deps| && ComesFrom(b, dynstr, ds, vns, p.deps[k].lib)
    requires forall d :: d in p.deps ==> d.dir < |dirs|
    requires WordOf(dirs, p, base, k, e)
    ensures PlaceOf(b, dynstr, ds, vns, p.deps[k].lib, e, pl)
  {
    hide StrOf, CString, VnFiles;
    var lib := p.deps[k].lib;
    var d :| d in ds && d.tag == DT_NEEDED && lib == NeededBy(b, dynstr, d, vns);
    if e == Edit(lib.valOffset, Le(StrOf(dirs, p, base, k), 8)) {
      pl := AtDyn(d);
    } else {
      VnFilesFrom(b, dynstr, vns, lib.name, e.at);
      var v :| v in vns && e.at == v.at + VN_FILE && CString(b, StringAt(dynstr, v.file)) == lib.name;
      pl := AtVn(v);
    }
  }

  ghost predicate UniqueAt(ds: seq<Dyn>, vns: seq<Vn>) {
    && (forall d, e :: d in ds && e in ds && d.at == e.at ==> d == e)
    && (forall v, u :: v in vns && u in vns && v.at == u.at ==> v == u)
  }

  /** Two words stand at the same place and name the same path, or miss each other. */
  lemma WordsApart(b: Bytes, dynstr: nat, ds: seq<Dyn>, vns: seq<Vn>, dirs: seq<RunpathDir>, p: Plan, slot: nat,
                   room: nat, base: nat, k: nat, l: nat, e: Edit, f: Edit)
    requires Sound(b, dynstr, ds, vns, dirs, p, slot, room) && UniqueAt(ds, vns) && k < |p.deps| && l < |p.deps|
    requires WordOf(dirs, p, base, k, e) && WordOf(dirs, p, base, l, f)
    ensures (e.at == f.at && |e.data| == |f.data| && Target(dirs, p.deps[k]) == Target(dirs, p.deps[l]))
            || Misses(f, e.at, |e.data|)
  {
    hide StrOf, CString, Le;
    var pl := WordPlace(b, dynstr, ds, vns, dirs, p, base, k, e);
    var pm := WordPlace(b, dynstr, ds, vns, dirs, p, base, l, f);
    if pl == pm {
      assert p.deps[k].lib.name == p.deps[l].lib.name;
    }
  }

  lemma WordMissesSlot(b: Bytes, dynstr: nat, ds: seq<Dyn>, vns: seq<Vn>, dirs: seq<RunpathDir>, p: Plan, slot: nat,
                       room: nat, base: nat, k: nat, e: Edit)
    requires Sound(b, dynstr, ds, vns, dirs, p, slot, room) && k < |p.deps| && WordOf(dirs, p, base, k, e)
    ensures Separate(e.at, |e.data|, slot, room + 1)
  {
    hide StrOf, CString, WordOf;
    var pl := WordPlace(b, dynstr, ds, vns, dirs, p, base, k, e);
  }

  lemma EditsAre(dirs: seq<RunpathDir>, p: Plan, slot: nat, dynstr: nat, room: nat, e: Edit)
    requires (forall d :: d in p.deps ==> d.dir < |dirs|) && |Blob(p.runpath, Targets(dirs, p.deps))| <= room
    ensures e in Edits(dirs, p, slot, dynstr, room) <==>
              e == SlotEdit(dirs, p, slot, room)
                || exists k :: 0 <= k < |p.deps| && WordOf(dirs, p, Base(slot, dynstr), k, e)
  {
    hide Redirected, WordOf, Blob;
    RedirectedAre(dirs, p, Base(slot, dynstr), |p.deps|, e);
  }

  function Base(slot: nat, dynstr: nat): nat {
    slot + U64 - dynstr % U64
  }

  /** No word stands in the slot, and words at one place name one path. */
  ghost predicate Agreeing(dirs: seq<RunpathDir>, p: Plan, base: nat, slot: nat, room: nat)
    requires forall d :: d in p.deps ==> d.dir < |dirs|
  {
    && (forall k, e :: 0 <= k < |p.deps| && WordOf(dirs, p, base, k, e) ==> |e.data| > 0 && Misses(e, slot, room + 1))
    && (forall k, l, e, f :: 0 <= k < |p.deps| && 0 <= l < |p.deps| ==>
          WordOf(dirs, p, base, k, e) && WordOf(dirs, p, base, l, f) && e.at == f.at ==>
            |e.data| == |f.data| && Target(dirs, p.deps[k]) == Target(dirs, p.deps[l]))
  }

  lemma WordLength(dirs: seq<RunpathDir>, p: Plan, base: nat, k: nat, e: Edit)
    requires k < |p.deps| && (forall d :: d in p.deps ==> d.dir < |dirs|) && WordOf(dirs, p, base, k, e)
    ensures |e.data| == 8 || |e.data| == 4
  {
    hide StrOf;
  }

  lemma WordsAgree(b: Bytes, dynstr: nat, ds: seq<Dyn>, vns: seq<Vn>, dirs: seq<RunpathDir>, p: Plan, slot: nat,
                   room: nat)
    requires Sound(b, dynstr, ds, vns, dirs, p, slot, room) && UniqueAt(ds, vns)
    ensures Agreeing(dirs, p, Base(slot, dynstr), slot, room)
  {
    hide WordOf, UniqueAt, ComesFrom, Laid, SpacedDyns, SameDirs, Target;
    var base := Base(slot, dynstr);
    forall k, e | 0 <= k < |p.deps| && WordOf(dirs, p, base, k, e)
      ensures |e.data| > 0 && Misses(e, slot, room + 1)
    {
      WordLength(dirs, p, base, k, e);
      WordMissesSlot(b, dynstr, ds, vns, dirs, p, slot, room, base, k, e);
    }
    forall k, l, e, f | 0 <= k < |p.deps| && 0 <= l < |p.deps| && WordOf(dirs, p, base, k, e)
      && WordOf(dirs, p, base, l, f)
                        && e.at == f.at
      ensures |e.data| == |f.data| && Target(dirs, p.deps[k]) == Target(dirs, p.deps[l])
    {
      WordLength(dirs, p, base, k, e);
      WordLength(dirs, p, base, l, f);
      WordsApart(b, dynstr, ds, vns, dirs, p, slot, room, base, k, l, e, f);
    }
  }

  /** Two planned edits write the same place or do not touch. */
  lemma EditsAligned(b: Bytes, dynstr: nat, ds: seq<Dyn>, vns: seq<Vn>, dirs: seq<RunpathDir>, p: Plan, slot: nat,
                     room: nat)
    requires Sound(b, dynstr, ds, vns, dirs, p, slot, room) && UniqueAt(ds, vns)
    requires |Blob(p.runpath, Targets(dirs, p.deps))| <= room
    ensures Aligned(Edits(dirs, p, slot, dynstr, room))
  {
    hide Edits, WordOf, Blob, UniqueAt, ComesFrom, Laid, SpacedDyns, SameDirs, Target;
    var base := Base(slot, dynstr);
    forall e, f | e in Edits(dirs, p, slot, dynstr, room) && f in Edits(dirs, p, slot, dynstr, room)
      ensures (e.at == f.at && |e.data| == |f.data|) || Misses(f, e.at, |e.data|)
    {
      EditsAre(dirs, p, slot, dynstr, room, e);
      EditsAre(dirs, p, slot, dynstr, room, f);
      var s := SlotEdit(dirs, p, slot, room);
      if e == s && f != s {
        var l :| 0 <= l < |p.deps| && WordOf(dirs, p, base, l, f);
        WordMissesSlot(b, dynstr, ds, vns, dirs, p, slot, room, base, l, f);
      } else if e != s && f == s {
        var k :| 0 <= k < |p.deps| && WordOf(dirs, p, base, k, e);
        WordMissesSlot(b, dynstr, ds, vns, dirs, p, slot, room, base, k, e);
      } else if e != s && f != s {
        var k :| 0 <= k < |p.deps| && WordOf(dirs, p, base, k, e);
        var l :| 0 <= l < |p.deps| && WordOf(dirs, p, base, l, f);
        WordsApart(b, dynstr, ds, vns, dirs, p, slot, room, base, k, l, e, f);
      }
    }
  }

  // ---------------------------------------------------------------- what is read back

  /** The numbers stay in range: the string table ends below 4 GiB from its start, the image below 2^64. */
  predicate InRange(slot: nat, dynstr: nat, room: nat) {
    dynstr <= slot && slot + room < U64 && slot - dynstr + room < U32
  }

  lemma StrIs(dirs: seq<RunpathDir>, p: Plan, slot: nat, dynstr: nat, room: nat, k: nat)
    requires k < |p.deps| && (forall d :: d in p.deps ==> d.dir < |dirs|) && InRange(slot, dynstr, room)
    requires |Blob(p.runpath, Targets(dirs, p.deps))| <= room
    ensures StrOf(dirs, p, Base(slot, dynstr), k) == slot - dynstr + TargetAt(p.runpath, Targets(dirs, p.deps), k) < U32
    ensures StringAt(dynstr, StrOf(dirs, p, Base(slot, dynstr), k))
         == slot + TargetAt(p.runpath, Targets(dirs, p.deps), k)
  {
    hide Blob, Targets, TargetAt;
    var at := TargetAt(p.runpath, Targets(dirs, p.deps), k);
    BlobLonger(p.runpath, Targets(dirs, p.deps), k);
    var v := slot - dynstr + at;
    assert Base(slot, dynstr) + at == v + U64;
  }

  ghost predicate NoNul(dirs: seq<RunpathDir>, p: Plan)
    requires forall d :: d in p.deps ==> d.dir < |dirs|
  {
    0 !in p.runpath && forall k :: 0 <= k < |p.deps| ==> 0 !in Target(dirs, p.deps[k])
  }

  /** The RUNPATH reads as what was kept, and each target stands where the words will point. */
  lemma SlotReads(c: Bytes, dirs: seq<RunpathDir>, p: Plan, slot: nat, room: nat)
    requires forall d :: d in p.deps ==> d.dir < |dirs|
    requires |Blob(p.runpath, Targets(dirs, p.deps))| <= room && NoNul(dirs, p)
    requires slot + room + 1 <= |c|
    requires c[slot..slot + room + 1] == Padded(Blob(p.runpath, Targets(dirs, p.deps)), room + 1)
    ensures CString(c, slot) == p.runpath
    ensures forall k :: 0 <= k < |p.deps| ==>
              CString(c, slot + TargetAt(p.runpath, Targets(dirs, p.deps), k)) == Target(dirs, p.deps[k])
  {
    hide Blob, Padded, CString, TargetAt;
    var ts := Targets(dirs, p.deps);
    BlobStarts(p.runpath, ts);
    SlotString(c, slot, Blob(p.runpath, ts), room, 0, p.runpath);
    forall k | 0 <= k < |p.deps|
      ensures CString(c, slot + TargetAt(p.runpath, ts, k)) == Target(dirs, p.deps[k])
    {
      BlobLonger(p.runpath, ts, k);
      SlotString(c, slot, Blob(p.runpath, ts), room, TargetAt(p.runpath, ts, k), ts[k]);
    }
  }

  ghost predicate Applied(b: Bytes, es: seq<Edit>, dirs: seq<RunpathDir>, p: Plan, slot: nat, dynstr: nat, room: nat) {
    && (forall d :: d in p.deps ==> d.dir < |dirs|) && |Blob(p.runpath, Targets(dirs, p.deps))| <= room
    && es == Edits(dirs, p, slot, dynstr, room) && AllFit(es, |b|) && Aligned(es)
    && Agreeing(dirs, p, Base(slot, dynstr), slot, room)
    && NoNul(dirs, p) && InRange(slot, dynstr, room)
  }

  lemma SlotHolds(b: Bytes, es: seq<Edit>, dirs: seq<RunpathDir>, p: Plan, slot: nat, dynstr: nat, room: nat)
    requires Applied(b, es, dirs, p, slot, dynstr, room)
    ensures slot + room + 1 <= |b|
    ensures PatchAll(b, es)[slot..slot + room + 1] == Padded(Blob(p.runpath, Targets(dirs, p.deps)), room + 1)
  {
    hide PatchAll, Blob, Targets, Edits, WordOf, Target, NoNul, InRange, Aligned;
    var s := SlotEdit(dirs, p, slot, room);
    EditsAre(dirs, p, slot, dynstr, room, s);
    var f := LastLands(b, es, s);
    EditsAre(dirs, p, slot, dynstr, room, f);
  }

  /** What stands where a word was written: a word of some library that goes to the same path. */
  lemma WordLands(b: Bytes, es: seq<Edit>, dirs: seq<RunpathDir>, p: Plan, slot: nat, dynstr: nat, room: nat, k: nat,
                  e: Edit)
    returns (l: nat, f: Edit)
    requires Applied(b, es, dirs, p, slot, dynstr, room) && k < |p.deps| && WordOf(dirs, p, Base(slot, dynstr), k, e)
    ensures l < |p.deps| && WordOf(dirs, p, Base(slot, dynstr), l, f)
    ensures Target(dirs, p.deps[l]) == Target(dirs, p.deps[k])
    ensures |f.data| == |e.data| && e.at + |f.data| <= |b| && PatchAll(b, es)[e.at..e.at + |f.data|] == f.data
  {
    hide PatchAll, Blob, Targets, Edits, Target, NoNul, InRange, Aligned, WordOf;
    EditsAre(dirs, p, slot, dynstr, room, e);
    f := LastLands(b, es, e);
    EditsAre(dirs, p, slot, dynstr, room, f);
    assert Misses(e, slot, room + 1);
    l :| 0 <= l < |p.deps| && WordOf(dirs, p, Base(slot, dynstr), l, f);
  }

  /** It reads as the offset of that library's path. */
  lemma WordReads(dirs: seq<RunpathDir>, p: Plan, slot: nat, dynstr: nat, room: nat, l: nat, f: Edit)
    requires l < |p.deps| && (forall d :: d in p.deps ==> d.dir < |dirs|) && InRange(slot, dynstr, room)
    requires |Blob(p.runpath, Targets(dirs, p.deps))| <= room && WordOf(dirs, p, Base(slot, dynstr), l, f)
    ensures UnLe(f.data) == StrOf(dirs, p, Base(slot, dynstr), l)
  {
    hide Blob, Targets, InRange, StrOf, Le, UnLe, Pow256;
    var str := StrOf(dirs, p, Base(slot, dynstr), l);
    StrIs(dirs, p, slot, dynstr, room, l);
    Widths();
    LeRoundTrip(str, 8);
    LeRoundTrip(str, 4);
  }

  lemma RunpathReads(b: Bytes, es: seq<Edit>, dirs: seq<RunpathDir>, p: Plan, slot: nat, dynstr: nat, room: nat)
    requires Applied(b, es, dirs, p, slot, dynstr, room)
    ensures CString(PatchAll(b, es), slot) == p.runpath
  {
    hide PatchAll, Blob, CString, Targets, Edits, TargetAt, Aligned, Agreeing, StringAt, StrOf, InRange, NoNul;
    SlotHolds(b, es, dirs, p, slot, dynstr, room);
    SlotReads(PatchAll(b, es), dirs, p, slot, room);
  }

  lemma TargetReads(b: Bytes, es: seq<Edit>, dirs: seq<RunpathDir>, p: Plan, slot: nat, dynstr: nat, room: nat, k: nat)
    requires Applied(b, es, dirs, p, slot, dynstr, room) && k < |p.deps|
    ensures CString(PatchAll(b, es), StringAt(dynstr, StrOf(dirs, p, Base(slot, dynstr), k))) == Target(dirs, p.deps[k])
  {
    hide PatchAll, Blob, CString, Targets, Edits, TargetAt, Aligned, Agreeing, StringAt, StrOf, InRange, NoNul;
    SlotHolds(b, es, dirs, p, slot, dynstr, room);
    SlotReads(PatchAll(b, es), dirs, p, slot, room);
    StrIs(dirs, p, slot, dynstr, room, k);
  }

  /** The NEEDED entry of a redirected library names its target. */
  lemma ValReads(b: Bytes, es: seq<Edit>, dirs: seq<RunpathDir>, p: Plan, slot: nat, dynstr: nat, room: nat, k: nat)
    requires Applied(b, es, dirs, p, slot, dynstr, room) && k < |p.deps|
    ensures var c, x := PatchAll(b, es), p.deps[k].lib.valOffset;
            x + 8 <= |b| && CString(c, StringAt(dynstr, UnLe(c[x..x + 8]))) == Target(dirs, p.deps[k])
  {
    hide PatchAll, Blob, CString, Targets, Target, Edits, TargetAt, Aligned, Agreeing, Le, UnLe, StringAt, StrOf,
         InRange, NoNul;
    var base := Base(slot, dynstr);
    var e := Edit(p.deps[k].lib.valOffset, Le(StrOf(dirs, p, base, k), 8));
    assert WordOf(dirs, p, base, k, e);
    var l, f := WordLands(b, es, dirs, p, slot, dynstr, room, k, e);
    WordReads(dirs, p, slot, dynstr, room, l, f);
    TargetReads(b, es, dirs, p, slot, dynstr, room, l);
  }

  /** So does every version-need entry that named it. */
  lemma VnReads(b: Bytes, es: seq<Edit>, dirs: seq<RunpathDir>, p: Plan, slot: nat, dynstr: nat, room: nat, k: nat,
                x: nat)
    requires Applied(b, es, dirs, p, slot, dynstr, room) && k < |p.deps| && x in p.deps[k].lib.vnFiles
    ensures var c := PatchAll(b, es);
            x + 4 <= |b| && CString(c, StringAt(dynstr, UnLe(c[x..x + 4]))) == Target(dirs, p.deps[k])
  {
    hide PatchAll, Blob, CString, Targets, Target, Edits, TargetAt, Aligned, Agreeing, Le, UnLe, StringAt, StrOf,
         InRange, NoNul;
    var base := Base(slot, dynstr);
    var e := Edit(x, Le(StrOf(dirs, p, base, k) % U32, 4));
    assert WordOf(dirs, p, base, k, e);
    var l, f := WordLands(b, es, dirs, p, slot, dynstr, room, k, e);
    WordReads(dirs, p, slot, dynstr, room, l, f);
    TargetReads(b, es, dirs, p, slot, dynstr, room, l);
  }

  /** A range away from the slot and from every redirected word is untouched. */
  lemma Elsewhere(b: Bytes, es: seq<Edit>, dirs: seq<RunpathDir>, p: Plan, slot: nat, dynstr: nat, room: nat, x: nat,
                  n: nat)
    requires (forall d :: d in p.deps ==> d.dir < |dirs|) && |Blob(p.runpath, Targets(dirs, p.deps))| <= room
    requires es == Edits(dirs, p, slot, dynstr, room) && AllFit(es, |b|) && x + n <= |b|
    requires Separate(x, n, slot, room + 1)
    requires forall k :: 0 <= k < |p.deps| ==>
               && Separate(x, n, p.deps[k].lib.valOffset, 8)
               && forall y :: y in p.deps[k].lib.vnFiles ==> Separate(x, n, y, 4)
    ensures PatchAll(b, es)[x..x + n] == b[x..x + n]
  {
    hide PatchAll, Blob, Targets, Edits;
    forall i | 0 <= i < |es|
      ensures Misses(es[i], x, n)
    {
      assert es[i] in es;
      EditsAre(dirs, p, slot, dynstr, room, es[i]);
      if es[i] != SlotEdit(dirs, p, slot, room) {
        var k :| 0 <= k < |p.deps| && WordOf(dirs, p, Base(slot, dynstr), k, es[i]);
      }
    }
    AllMiss(b, es, x, n);
  }

  // ---------------------------------------------------------------- the dynamic table as a whole

  /** Where the walk over the dynamic table stops. */
  function StopAt(b: Bytes, off: nat, end: nat): nat {
    off + DYN_SIZE * |Dyns(b, off, end)|
  }

  /** The tags, the terminator included, are the same in both images. */
  ghost predicate SameTags(b: Bytes, c: Bytes, off: nat, end: nat) {
    && |b| == |c|
    && (forall d :: d in Dyns(b, off, end) ==> d.at + 8 <= |b| && b[d.at..d.at + 8] == c[d.at..d.at + 8])
    && (StopAt(b, off, end) + 8 <= |b| && StopAt(b, off, end) < end ==>
          b[StopAt(b, off, end)..StopAt(b, off, end) + 8] == c[StopAt(b, off, end)..StopAt(b, off, end) + 8])
  }

  /** Entry x as it is in c now. */
  function Now(c: Bytes, d: Dyn): Dyn
    requires d.at + DYN_SIZE <= |c|
  {
    Dyn(d.at, d.tag, UnLe(c[d.at + 8..d.at + 16]))
  }

  lemma DynsStep(b: Bytes, off: nat, end: nat)
    requires off < end && off + DYN_SIZE <= |b| && Read(b, off, 8) != Some(DT_NULL)
    ensures Dyns(b, off, end)
         == [Dyn(off, UnLe(b[off..off + 8]), UnLe(b[off + 8..off + 16]))] + Dyns(b, off + DYN_SIZE, end)
  {
  }

  lemma TagsRest(b: Bytes, c: Bytes, off: nat, end: nat)
    requires SameTags(b, c, off, end) && off < end && off + DYN_SIZE <= |b| && Read(b, off, 8) != Some(DT_NULL)
    ensures b[off..off + 8] == c[off..off + 8] && SameTags(b, c, off + DYN_SIZE, end)
  {
    hide UnLe, Read, Dyns;
    DynsStep(b, off, end);
    var first, rest := Dyn(off, UnLe(b[off..off + 8]), UnLe(b[off + 8..off + 16])), Dyns(b, off + DYN_SIZE, end);
    assert first in [first] + rest && forall d :: d in rest ==> d in [first] + rest;
  }

  lemma TagsStop(b: Bytes, c: Bytes, off: nat, end: nat)
    requires SameTags(b, c, off, end) && !(off < end && off + DYN_SIZE <= |b| && Read(b, off, 8) != Some(DT_NULL))
    ensures Dyns(b, off, end) == [] && Dyns(c, off, end) == []
  {
    hide UnLe;
    assert StopAt(b, off, end) == off;
  }

  /** Then the same entries are found, with whatever values they have now. */
  lemma {:induction false} SameDyns(b: Bytes, c: Bytes, off: nat, end: nat)
    requires SameTags(b, c, off, end)
    ensures |Dyns(c, off, end)| == |Dyns(b, off, end)|
    ensures forall i :: 0 <= i < |Dyns(b, off, end)| ==>
              Dyns(b, off, end)[i].at + DYN_SIZE <= |c| && Dyns(c, off, end)[i] == Now(c, Dyns(b, off, end)[i])
    decreases |b| - off
  {
    hide UnLe, Dyns, SameTags;
    TagsLength(b, c, off, end);
    if off < end && off + DYN_SIZE <= |b| && Read(b, off, 8) != Some(DT_NULL) {
      TagsRest(b, c, off, end);
      DynsStep(b, off, end);
      DynsStep(c, off, end);
      SameDyns(b, c, off + DYN_SIZE, end);
    } else {
      TagsStop(b, c, off, end);
    }
  }

  lemma TagsLength(b: Bytes, c: Bytes, off: nat, end: nat)
    requires SameTags(b, c, off, end)
    ensures |b| == |c|
  {
  }

  /** The redirected library whose value stands at x, |deps| if none. */
  function DepAt(deps: seq<Dep>, x: nat): (k: nat)
    ensures k <= |deps| && (k < |deps| ==> deps[k].lib.valOffset == x)
    ensures k == |deps| ==> forall j :: 0 <= j < |deps| ==> deps[j].lib.valOffset != x
    decreases |deps|
  {
    if deps == [] || deps[0].lib.valOffset == x then 0 else 1 + DepAt(deps[1..], x)
  }

  /** What a NEEDED entry is called afterwards. */
  function NewName(dirs: seq<RunpathDir>, p: Plan, lib: Needed): Bytes
    requires forall d :: d in p.deps ==> d.dir < |dirs|
  {
    var k := DepAt(p.deps, lib.valOffset);
    if k < |p.deps| then Target(dirs, p.deps[k]) else lib.name
  }

  lemma {:induction false} NeededMatch(b: Bytes, c: Bytes, dynstr: nat, ds: seq<Dyn>, es: seq<Dyn>, vns: seq<Vn>,
                                       us: seq<Vn>, dirs: seq<RunpathDir>, p: Plan)
    requires (forall d :: d in p.deps ==> d.dir < |dirs|) && |ds| == |es|
    requires forall i :: 0 <= i < |ds| ==> ds[i].at == es[i].at && ds[i].tag == es[i].tag
    requires forall i :: 0 <= i < |ds| && ds[i].tag == DT_NEEDED ==>
               CString(c, StringAt(dynstr, es[i].val)) == NewName(dirs, p, NeededBy(b, dynstr, ds[i], vns))
    ensures |NeededOf(c, dynstr, es, us)| == |NeededOf(b, dynstr, ds, vns)|
    ensures forall i :: 0 <= i < |NeededOf(b, dynstr, ds, vns)| ==>
              && NeededOf(c, dynstr, es, us)[i].valOffset == NeededOf(b, dynstr, ds, vns)[i].valOffset
              && NeededOf(c, dynstr, es, us)[i].name == NewName(dirs, p, NeededOf(b, dynstr, ds, vns)[i])
    decreases |ds|
  {
    hide CString, VnFiles, NewName, StringAt;
    if ds != [] {
      NeededMatch(b, c, dynstr, ds[..|ds| - 1], es[..|es| - 1], vns, us, dirs, p);
    }
  }

  lemma {:induction false} SameRunpath(dynstr: nat, ds: seq<Dyn>, es: seq<Dyn>)
    requires |ds| == |es| && forall i :: 0 <= i < |ds| ==> ds[i].tag == es[i].tag
    requires forall i :: 0 <= i < |ds| && ds[i].tag != DT_NEEDED ==> ds[i].val == es[i].val
    ensures RunpathOf(dynstr, es) == RunpathOf(dynstr, ds)
    decreases |ds|
  {
    if ds != [] {
      SameRunpath(dynstr, ds[..|ds| - 1], es[..|es| - 1]);
    }
  }

  // ---------------------------------------------------------------- well-formed images

  lemma {:induction false} DynsAre(b: Bytes, off: nat, end: nat)
    ensures forall d :: d in Dyns(b, off, end) ==>
              d.at + DYN_SIZE <= |b| && d == Dyn(d.at, UnLe(b[d.at..d.at + 8]), UnLe(b[d.at + 8..d.at + 16]))
    decreases |b| - off
  {
    hide UnLe;
    if Dyns(b, off, end) != [] {
      DynsAre(b, off + DYN_SIZE, end);
    }
  }

  lemma {:induction false} VnsAre(b: Bytes, off: nat)
    ensures forall v :: v in Vns(b, off) ==>
            v.at + VERNEED_SIZE <= |b| && v == Vn(v.at, UnLe(b[v.at + VN_FILE..v.at + 8]))
    decreases |b| - off
  {
    hide UnLe;
    if off != 0 && off + VERNEED_SIZE <= |b| {
      VnsStep(b, off);
      var next := UnLe(b[off + VN_NEXT..off + VERNEED_SIZE]);
      if next != 0 {
        VnsAre(b, off + next);
      }
    }
  }

  lemma Unique(b: Bytes, off: nat, end: nat, vnStart: nat)
    ensures UniqueAt(Dyns(b, off, end), Vns(b, vnStart))
  {
    hide UnLe, Dyns, Vns;
    DynsAre(b, off, end);
    VnsAre(b, vnStart);
  }

  /** A string of the table, its NUL included, is apart from what is written. */
  ghost predicate StringClear(b: Bytes, x: nat, ds: seq<Dyn>, vns: seq<Vn>, slot: nat, len: nat) {
    x < |b| ==>
      var n := StringEnd(b, x) + 1 - x;
      && Separate(x, n, slot, len)
      && (forall d :: d in ds ==> Separate(x, n, d.at, DYN_SIZE))
      && (forall v :: v in vns ==> Separate(x, n, v.at, VERNEED_SIZE))
  }

  /** The parts of an image FixRunpath works on. */
  datatype Parts = Parts(dynstr: nat, lo: nat, hi: nat, vnStart: nat, slot: nat, room: nat)

  ghost predicate SaneImage(b: Bytes, q: Parts, dirs: seq<RunpathDir>) {
    var ds, vns := Dyns(b, q.lo, q.hi), Vns(b, q.vnStart);
    && Laid(ds, vns, q.slot, q.room + 1)
    && InRange(q.slot, q.dynstr, q.room)
    && (forall d :: d in dirs ==> 0 !in d.entry)
    && Separate(StopAt(b, q.lo, q.hi), 8, q.slot, q.room + 1)
    && (forall v :: v in vns ==> Separate(StopAt(b, q.lo, q.hi), 8, v.at, VERNEED_SIZE))
    && (forall d :: d in ds && d.tag == DT_NEEDED ==>
          StringClear(b, StringAt(q.dynstr, d.val), ds, vns, q.slot, q.room + 1))
  }

  lemma {:induction false} JoinNoNul(parts: seq<Bytes>)
    requires forall x: Bytes :: x in parts ==> 0 !in x
    ensures 0 !in Join(parts)
    decreases |parts|
  {
    if |parts| > 1 {
      assert parts[0] in parts && forall x :: x in parts[1..] ==> x in parts;
      JoinNoNul(parts[1..]);
    } else if |parts| == 1 {
      assert parts[0] in parts;
    }
  }

  lemma {:induction false} KeptFrom(dirs: seq<RunpathDir>, keep: set<nat>, x: Bytes)
    requires x in Kept(dirs, keep)
    ensures exists d :: d in dirs && d.entry == x
    decreases |dirs|
  {
    var front, last := dirs[..|dirs| - 1], dirs[|dirs| - 1];
    if x in Kept(front, keep) {
      KeptFrom(front, keep, x);
      assert forall d :: d in front ==> d in dirs;
    } else {
      assert last in dirs && last.entry == x;
    }
  }

  lemma RunpathNoNul(dirs: seq<RunpathDir>, keep: set<nat>)
    requires forall d :: d in dirs ==> 0 !in d.entry
    ensures 0 !in Join(Kept(dirs, keep))
  {
    hide Join, Kept;
    forall x | x in Kept(dirs, keep)
      ensures 0 !in x
    {
      KeptFrom(dirs, keep, x);
    }
    JoinNoNul(Kept(dirs, keep));
  }

  lemma PlanNoNul(b: Bytes, q: Parts, dirs: seq<RunpathDir>, p: Plan)
    requires p == PlanOf(dirs, NeededOf(b, q.dynstr, Dyns(b, q.lo, q.hi), Vns(b, q.vnStart)), q.room)
    requires forall d :: d in dirs ==> 0 !in d.entry
    ensures (forall d :: d in p.deps ==> d.dir < |dirs|) && NoNul(dirs, p)
  {
    hide Dyns, Vns, NeededOf, Direct, Blob, Targets, Join, Kept, CString, VnFiles;
    var ds, vns := Dyns(b, q.lo, q.hi), Vns(b, q.vnStart);
    var deps := Direct(dirs, NeededOf(b, q.dynstr, ds, vns));
    RunpathNoNul(dirs, Staying(dirs) - Used(deps));
    RunpathNoNul(dirs, Staying(dirs) + Used(deps));
    forall k | 0 <= k < |p.deps|
      ensures 0 !in Target(dirs, p.deps[k])
    {
      assert p.deps[k] in p.deps;
      NeededFrom(b, q.dynstr, ds, vns, p.deps[k].lib);
      assert dirs[p.deps[k].dir] in dirs;
    }
  }

  lemma PlanSound(b: Bytes, q: Parts, dirs: seq<RunpathDir>, p: Plan)
    requires SaneImage(b, q, dirs)
    requires p == PlanOf(dirs, NeededOf(b, q.dynstr, Dyns(b, q.lo, q.hi), Vns(b, q.vnStart)), q.room)
    ensures Sound(b, q.dynstr, Dyns(b, q.lo, q.hi), Vns(b, q.vnStart), dirs, p, q.slot, q.room)
  {
    hide Dyns, Vns, NeededOf, Direct, Blob, Targets, Join, Kept, StringClear, Laid, SpacedDyns, InRange, NeededBy;
    var ds, vns := Dyns(b, q.lo, q.hi), Vns(b, q.vnStart);
    DynsSpaced(b, q.lo, q.hi);
    DirectIs(dirs, NeededOf(b, q.dynstr, ds, vns));
    assert forall k :: 0 <= k < |p.deps| ==> p.deps[k] in p.deps;
    forall k | 0 <= k < |p.deps|
      ensures ComesFrom(b, q.dynstr, ds, vns, p.deps[k].lib)
    {
      assert p.deps[k] in p.deps;
      NeededFrom(b, q.dynstr, ds, vns, p.deps[k].lib);
    }
  }

  lemma AppliedHolds(b: Bytes, q: Parts, dirs: seq<RunpathDir>, p: Plan, es: seq<Edit>)
    requires SaneImage(b, q, dirs)
    requires p == PlanOf(dirs, NeededOf(b, q.dynstr, Dyns(b, q.lo, q.hi), Vns(b, q.vnStart)), q.room)
    requires |Blob(p.runpath, Targets(dirs, p.deps))| <= q.room && es == Edits(dirs, p, q.slot, q.dynstr, q.room)
    requires AllFit(es, |b|)
    ensures Applied(b, es, dirs, p, q.slot, q.dynstr, q.room)
  {
    hide Dyns, Vns, NeededOf, PlanOf, Blob, Targets, Edits, StringClear, Laid, InRange, Sound, UniqueAt, Aligned,
         Agreeing, NoNul;
    PlanSound(b, q, dirs, p);
    PlanNoNul(b, q, dirs, p);
    Unique(b, q.lo, q.hi, q.vnStart);
    EditsAligned(b, q.dynstr, Dyns(b, q.lo, q.hi), Vns(b, q.vnStart), dirs, p, q.slot, q.room);
    WordsAgree(b, q.dynstr, Dyns(b, q.lo, q.hi), Vns(b, q.vnStart), dirs, p, q.slot, q.room);
  }

  // ---------------------------------------------------------------- the theorem

  /** A range apart from the slot, from the values of the dynamic entries and from the version-need
      entries is untouched. */
  lemma Away(b: Bytes, q: Parts, dirs: seq<RunpathDir>, p: Plan, es: seq<Edit>, x: nat, n: nat)
    requires Sound(b, q.dynstr, Dyns(b, q.lo, q.hi), Vns(b, q.vnStart), dirs, p, q.slot, q.room)
    requires Applied(b, es, dirs, p, q.slot, q.dynstr, q.room) && x + n <= |b| && Separate(x, n, q.slot, q.room + 1)
    requires forall k :: 0 <= k < |p.deps| ==> Separate(x, n, p.deps[k].lib.valOffset, 8)
    requires forall v :: v in Vns(b, q.vnStart) ==> Separate(x, n, v.at, VERNEED_SIZE)
    ensures PatchAll(b, es)[x..x + n] == b[x..x + n]
  {
    hide Dyns, Vns, Blob, Targets, Edits, PatchAll, CString, VnFiles, Laid, SpacedDyns, SameDirs, Aligned, Agreeing,
         NoNul;
    var ds, vns := Dyns(b, q.lo, q.hi), Vns(b, q.vnStart);
    forall k, y | 0 <= k < |p.deps| && y in p.deps[k].lib.vnFiles
      ensures Separate(x, n, y, 4)
    {
      var lib := p.deps[k].lib;
      assert ComesFrom(b, q.dynstr, ds, vns, lib);
      var d :| d in ds && lib == NeededBy(b, q.dynstr, d, vns);
      VnFilesFrom(b, q.dynstr, vns, lib.name, y);
    }
    Elsewhere(b, es, dirs, p, q.slot, q.dynstr, q.room, x, n);
  }

  /** Where the value of a redirected library stands: in an entry of the table. */
  lemma ValueEntry(b: Bytes, q: Parts, dirs: seq<RunpathDir>, p: Plan, k: nat) returns (d: Dyn)
    requires Sound(b, q.dynstr, Dyns(b, q.lo, q.hi), Vns(b, q.vnStart), dirs, p, q.slot, q.room) && k < |p.deps|
    ensures d in Dyns(b, q.lo, q.hi) && d.tag == DT_NEEDED && p.deps[k].lib.valOffset == d.at + 8
  {
    hide Dyns, Vns, CString, VnFiles, Laid, SpacedDyns;
    assert ComesFrom(b, q.dynstr, Dyns(b, q.lo, q.hi), Vns(b, q.vnStart), p.deps[k].lib);
    d :| d in Dyns(b, q.lo, q.hi) && d.tag == DT_NEEDED && p.deps[k].lib == NeededBy(b, q.dynstr, d, Vns(b, q.vnStart));
  }

  lemma TagStays(b: Bytes, q: Parts, dirs: seq<RunpathDir>, p: Plan, es: seq<Edit>, d: Dyn)
    requires Sound(b, q.dynstr, Dyns(b, q.lo, q.hi), Vns(b, q.vnStart), dirs, p, q.slot, q.room)
    requires Applied(b, es, dirs, p, q.slot, q.dynstr, q.room) && d in Dyns(b, q.lo, q.hi)
    ensures d.at + DYN_SIZE <= |b| && PatchAll(b, es)[d.at..d.at + 8] == b[d.at..d.at + 8]
  {
    hide Dyns, Vns, Applied, ComesFrom, PatchAll;
    DynsInside(b, q.lo, q.hi);
    forall k | 0 <= k < |p.deps|
      ensures Separate(d.at, 8, p.deps[k].lib.valOffset, 8)
    {
      var e := ValueEntry(b, q, dirs, p, k);
    }
    Away(b, q, dirs, p, es, d.at, 8);
  }

  /** An entry no library was redirected at keeps its value. */
  lemma ValueStays(b: Bytes, q: Parts, dirs: seq<RunpathDir>, p: Plan, es: seq<Edit>, d: Dyn)
    requires Sound(b, q.dynstr, Dyns(b, q.lo, q.hi), Vns(b, q.vnStart), dirs, p, q.slot, q.room)
    requires Applied(b, es, dirs, p, q.slot, q.dynstr, q.room) && d in Dyns(b, q.lo, q.hi)
    requires forall k :: 0 <= k < |p.deps| ==> p.deps[k].lib.valOffset != d.at + 8
    ensures d.at + DYN_SIZE <= |b| && UnLe(PatchAll(b, es)[d.at + 8..d.at + 16]) == d.val
  {
    hide Dyns, Vns, Applied, ComesFrom, PatchAll, UnLe;
    DynsAre(b, q.lo, q.hi);
    forall k | 0 <= k < |p.deps|
      ensures Separate(d.at + 8, 8, p.deps[k].lib.valOffset, 8)
    {
      var e := ValueEntry(b, q, dirs, p, k);
    }
    Away(b, q, dirs, p, es, d.at + 8, 8);
  }

  lemma StopStays(b: Bytes, q: Parts, dirs: seq<RunpathDir>, p: Plan, es: seq<Edit>)
    requires SaneImage(b, q, dirs)
    requires Sound(b, q.dynstr, Dyns(b, q.lo, q.hi), Vns(b, q.vnStart), dirs, p, q.slot, q.room)
    requires Applied(b, es, dirs, p, q.slot, q.dynstr, q.room) && StopAt(b, q.lo, q.hi) + 8 <= |b|
    ensures PatchAll(b, es)[StopAt(b, q.lo, q.hi)..StopAt(b, q.lo, q.hi) + 8]
         == b[StopAt(b, q.lo, q.hi)..StopAt(b, q.lo, q.hi) + 8]
  {
    hide Dyns, Vns, Applied, ComesFrom, PatchAll, StopAt, Laid, SpacedDyns, StringClear;
    var stop := StopAt(b, q.lo, q.hi);
    DynsBelow(b, q.lo, q.hi);
    forall k | 0 <= k < |p.deps|
      ensures Separate(stop, 8, p.deps[k].lib.valOffset, 8)
    {
      var e := ValueEntry(b, q, dirs, p, k);
    }
    Away(b, q, dirs, p, es, stop, 8);
  }

  lemma {:induction false} DynsBelow(b: Bytes, off: nat, end: nat)
    ensures forall d :: d in Dyns(b, off, end) ==> d.at + DYN_SIZE <= StopAt(b, off, end)
    decreases |b| - off
  {
    hide UnLe;
    if Dyns(b, off, end) != [] {
      DynsBelow(b, off + DYN_SIZE, end);
    }
  }

  lemma TagsStay(b: Bytes, q: Parts, dirs: seq<RunpathDir>, p: Plan, es: seq<Edit>)
    requires SaneImage(b, q, dirs)
    requires Sound(b, q.dynstr, Dyns(b, q.lo, q.hi), Vns(b, q.vnStart), dirs, p, q.slot, q.room)
    requires Applied(b, es, dirs, p, q.slot, q.dynstr, q.room)
    ensures SameTags(b, PatchAll(b, es), q.lo, q.hi)
  {
    hide Dyns, Vns, Sound, PatchAll, StopAt, SaneImage, Blob, Targets, Edits, Aligned, Agreeing, NoNul, InRange;
    forall d | d in Dyns(b, q.lo, q.hi)
      ensures d.at + 8 <= |b| && b[d.at..d.at + 8] == PatchAll(b, es)[d.at..d.at + 8]
    {
      TagStays(b, q, dirs, p, es, d);
    }
    if StopAt(b, q.lo, q.hi) + 8 <= |b| {
      StopStays(b, q, dirs, p, es);
    }
  }

  /** A string apart from what is written reads as before. */
  lemma StringStays(b: Bytes, q: Parts, dirs: seq<RunpathDir>, p: Plan, es: seq<Edit>, x: nat)
    requires Sound(b, q.dynstr, Dyns(b, q.lo, q.hi), Vns(b, q.vnStart), dirs, p, q.slot, q.room)
    requires Applied(b, es, dirs, p, q.slot, q.dynstr, q.room)
    requires StringClear(b, x, Dyns(b, q.lo, q.hi), Vns(b, q.vnStart), q.slot, q.room + 1)
    ensures |PatchAll(b, es)| == |b| && CString(PatchAll(b, es), x) == CString(b, x)
  {
    hide Dyns, Vns, ComesFrom, PatchAll, Laid, SpacedDyns, StringEnd, CString, Blob, Targets, Edits, Aligned, Agreeing,
         NoNul, InRange;
    var c := PatchAll(b, es);
    if x < |b| {
      var end := StringEnd(b, x);
      var n := if end < |b| then end + 1 - x else end - x;
      forall k | 0 <= k < |p.deps|
        ensures Separate(x, n, p.deps[k].lib.valOffset, 8)
      {
        var e := ValueEntry(b, q, dirs, p, k);
      }
      Away(b, q, dirs, p, es, x, n);
      forall i | x <= i < |b| && i <= end
        ensures b[i] == c[i]
      {
        assert b[x..x + n][i - x] == c[x..x + n][i - x];
      }
    }
    SameString(b, c, x);
  }

  /** A library that is not redirected is still called what it was. */
  lemma NameStays(b: Bytes, q: Parts, dirs: seq<RunpathDir>, p: Plan, es: seq<Edit>, d: Dyn)
    requires SaneImage(b, q, dirs)
    requires Sound(b, q.dynstr, Dyns(b, q.lo, q.hi), Vns(b, q.vnStart), dirs, p, q.slot, q.room)
    requires Applied(b, es, dirs, p, q.slot, q.dynstr, q.room) && d in Dyns(b, q.lo, q.hi) && d.tag == DT_NEEDED
    ensures |PatchAll(b, es)| == |b|
    ensures CString(PatchAll(b, es), StringAt(q.dynstr, d.val)) == CString(b, StringAt(q.dynstr, d.val))
  {
    hide Dyns, Vns, Sound, Applied, PatchAll, CString, StringAt, StringClear, Laid, InRange, StopAt;
    StringStays(b, q, dirs, p, es, StringAt(q.dynstr, d.val));
  }

  lemma EntryReads(b: Bytes, q: Parts, dirs: seq<RunpathDir>, p: Plan, es: seq<Edit>, d: Dyn)
    requires SaneImage(b, q, dirs)
    requires Sound(b, q.dynstr, Dyns(b, q.lo, q.hi), Vns(b, q.vnStart), dirs, p, q.slot, q.room)
    requires Applied(b, es, dirs, p, q.slot, q.dynstr, q.room) && d in Dyns(b, q.lo, q.hi) && d.tag == DT_NEEDED
    ensures d.at + DYN_SIZE <= |b| && |PatchAll(b, es)| == |b|
    ensures CString(PatchAll(b, es), StringAt(q.dynstr, UnLe(PatchAll(b, es)[d.at + 8..d.at + 16])))
         == NewName(dirs, p, NeededBy(b, q.dynstr, d, Vns(b, q.vnStart)))
  {
    hide Dyns, Vns, PatchAll, SaneImage, StringAt, CString, Blob, Targets, Edits, Aligned, Agreeing, NoNul, InRange,
         UnLe, VnFiles, Laid, SpacedDyns, ComesFrom;
    DynsInside(b, q.lo, q.hi);
    var k := DepAt(p.deps, d.at + 8);
    if k < |p.deps| {
      ValReads(b, es, dirs, p, q.slot, q.dynstr, q.room, k);
    } else {
      ValueStays(b, q, dirs, p, es, d);
      NameStays(b, q, dirs, p, es, d);
    }
  }

  lemma TableReads(b: Bytes, q: Parts, dirs: seq<RunpathDir>, p: Plan, es: seq<Edit>, us: seq<Vn>)
    requires SaneImage(b, q, dirs)
    requires Sound(b, q.dynstr, Dyns(b, q.lo, q.hi), Vns(b, q.vnStart), dirs, p, q.slot, q.room)
    requires Applied(b, es, dirs, p, q.slot, q.dynstr, q.room)
    ensures var c, needed := PatchAll(b, es), NeededOf(b, q.dynstr, Dyns(b, q.lo, q.hi), Vns(b, q.vnStart));
            var again := NeededOf(c, q.dynstr, Dyns(c, q.lo, q.hi), us);
            && RunpathOf(q.dynstr, Dyns(c, q.lo, q.hi)) == RunpathOf(q.dynstr, Dyns(b, q.lo, q.hi))
            && |again| == |needed|
            && forall i :: 0 <= i < |needed| ==>
                 again[i].valOffset == needed[i].valOffset && again[i].name == NewName(dirs, p, needed[i])
  {
    hide Dyns, Vns, PatchAll, SaneImage, StringAt, CString, Blob, Targets, Edits, Aligned, Agreeing, NoNul, InRange,
         UnLe, NeededOf, RunpathOf, NewName, SameTags, ComesFrom, Laid, SpacedDyns, NeededBy;
    var c, ds, vns := PatchAll(b, es), Dyns(b, q.lo, q.hi), Vns(b, q.vnStart);
    TagsStay(b, q, dirs, p, es);
    SameDyns(b, c, q.lo, q.hi);
    var cs := Dyns(c, q.lo, q.hi);
    forall i | 0 <= i < |ds|
      ensures ds[i].tag == DT_NEEDED ==>
              CString(c, StringAt(q.dynstr, cs[i].val)) == NewName(dirs, p, NeededBy(b, q.dynstr, ds[i], vns))
      ensures ds[i].tag != DT_NEEDED ==> cs[i].val == ds[i].val
    {
      assert ds[i] in ds;
      if ds[i].tag == DT_NEEDED {
        EntryReads(b, q, dirs, p, es, ds[i]);
      } else {
        NotAValue(b, q, dirs, p, ds[i]);
        ValueStays(b, q, dirs, p, es, ds[i]);
      }
    }
    NeededMatch(b, c, q.dynstr, ds, cs, vns, us, dirs, p);
    SameRunpath(q.dynstr, ds, cs);
  }

  lemma NotAValue(b: Bytes, q: Parts, dirs: seq<RunpathDir>, p: Plan, d: Dyn)
    requires Sound(b, q.dynstr, Dyns(b, q.lo, q.hi), Vns(b, q.vnStart), dirs, p, q.slot, q.room)
    requires d in Dyns(b, q.lo, q.hi) && d.tag != DT_NEEDED
    ensures forall k :: 0 <= k < |p.deps| ==> p.deps[k].lib.valOffset != d.at + 8
  {
    hide Dyns, Vns, ComesFrom, Laid, SpacedDyns, UniqueAt;
    Unique(b, q.lo, q.hi, q.vnStart);
    forall k | 0 <= k < |p.deps|
      ensures p.deps[k].lib.valOffset != d.at + 8
    {
      var e := ValueEntry(b, q, dirs, p, k);
      SameEntry(b, q, d, e);
    }
  }

  lemma SameEntry(b: Bytes, q: Parts, d: Dyn, e: Dyn)
    requires d in Dyns(b, q.lo, q.hi) && e in Dyns(b, q.lo, q.hi)
    ensures d.at == e.at ==> d == e
  {
    hide Dyns, Vns;
    Unique(b, q.lo, q.hi, q.vnStart);
  }

  function PartsOf(b: Bytes, sections: seq<Section>): Parts
    requires HasDynamic(sections) && DynamicOf(b, sections).runpath.Some?
  {
    var dynamic := sections[Find(sections, SHT_DYNAMIC, 0)];
    var slot := DynamicOf(b, sections).runpath.value;
    Parts(sections[dynamic.link].offset, dynamic.offset, SectionEnd(|b|, dynamic), VnStart(sections), slot,
          |CString(b, slot)|)
  }

  /** FixRunpath rewrites this well-formed image by these edits. */
  ghost predicate Rewrites(b: Bytes, sections: seq<Section>, dirs: seq<RunpathDir>, q: Parts, p: Plan, es: seq<Edit>) {
    && HasDynamic(sections) && DynamicOf(b, sections).runpath.Some?
    && q == PartsOf(b, sections) && p == PlanOf(dirs, DynamicOf(b, sections).needed, q.room)
    && SaneImage(b, q, dirs)
    && RunpathOutcome(b, sections, dirs) == Patched(es)
  }

  lemma RewritesApplied(b: Bytes, sections: seq<Section>, dirs: seq<RunpathDir>, q: Parts, p: Plan, es: seq<Edit>)
    requires Rewrites(b, sections, dirs, q, p, es)
    ensures Sound(b, q.dynstr, Dyns(b, q.lo, q.hi), Vns(b, q.vnStart), dirs, p, q.slot, q.room)
    ensures Applied(b, es, dirs, p, q.slot, q.dynstr, q.room)
  {
    hide Dyns, Vns, SaneImage, CString, Applied, NeededOf, RunpathOf, PlanOf, Blob, Targets, Edits, Sound, SymbolIn,
         AllFit;
    OutcomeFits(b, sections, dirs);
    PlanSound(b, q, dirs, p);
    AppliedHolds(b, q, dirs, p, es);
  }

  /** After FixRunpath has rewritten a well-formed image, its length is the same and nothing outside the
      RUNPATH slot and the redirected words changed. */
  lemma OnlyTheSlotAndWords(b: Bytes, sections: seq<Section>, dirs: seq<RunpathDir>, q: Parts, p: Plan, es: seq<Edit>,
                            x: nat, n: nat)
    requires Rewrites(b, sections, dirs, q, p, es) && Untouchable(p, q.slot, q.room, x, n) && x + n <= |b|
    ensures AllFit(es, |b|) && |PatchAll(b, es)| == |b| && PatchAll(b, es)[x..x + n] == b[x..x + n]
  {
    hide Rewrites, Sound, PatchAll, Untouchable, Blob, Targets, Edits, Aligned, Agreeing, NoNul, InRange;
    RewritesApplied(b, sections, dirs, q, p, es);
    UntouchableStays(b, es, dirs, p, q.slot, q.dynstr, q.room, x, n);
  }

  /** Every version-need word that named a redirected library names its path. */
  lemma VersionsFollow(b: Bytes, sections: seq<Section>, dirs: seq<RunpathDir>, q: Parts, p: Plan, es: seq<Edit>,
                       k: nat, x: nat)
    requires Rewrites(b, sections, dirs, q, p, es) && k < |p.deps| && x in p.deps[k].lib.vnFiles
    ensures AllFit(es, |b|) && p.deps[k].dir < |dirs|
    ensures var c := PatchAll(b, es);
            x + 4 <= |b| && CString(c, StringAt(q.dynstr, UnLe(c[x..x + 4]))) == Target(dirs, p.deps[k])
  {
    hide Rewrites, Sound, PatchAll, Blob, Targets, Edits, Aligned, Agreeing, NoNul, InRange, CString, StringAt, UnLe;
    RewritesApplied(b, sections, dirs, q, p, es);
    assert p.deps[k] in p.deps;
    VnReads(b, es, dirs, p, q.slot, q.dynstr, q.room, k, x);
  }

  /** Reading the dynamic section again finds the kept RUNPATH in the same place and the same NEEDED
      entries, each redirected one under its path and every other under its old name. */
  lemma ReadsBack(b: Bytes, sections: seq<Section>, dirs: seq<RunpathDir>, q: Parts, p: Plan, es: seq<Edit>)
    requires Rewrites(b, sections, dirs, q, p, es)
    ensures AllFit(es, |b|) && forall d :: d in p.deps ==> d.dir < |dirs|
    ensures var c := PatchAll(b, es);
            && DynamicOf(c, sections).runpath == Some(q.slot) && CString(c, q.slot) == p.runpath
            && |DynamicOf(c, sections).needed| == |DynamicOf(b, sections).needed|
            && forall i :: 0 <= i < |DynamicOf(b, sections).needed| ==>
                 && DynamicOf(c, sections).needed[i].valOffset == DynamicOf(b, sections).needed[i].valOffset
                 && DynamicOf(c, sections).needed[i].name == NewName(dirs, p, DynamicOf(b, sections).needed[i])
  {
    hide Dyns, Vns, Sound, PatchAll, Blob, Targets, Edits, Aligned, Agreeing, NoNul, InRange, CString, SaneImage,
         NeededOf, RunpathOf, NewName, PlanOf, RunpathOutcome;
    RewritesApplied(b, sections, dirs, q, p, es);
    RunpathReads(b, es, dirs, p, q.slot, q.dynstr, q.room);
    TableReads(b, q, dirs, p, es, Vns(PatchAll(b, es), q.vnStart));
  }

  /** [x, x + n) meets neither the slot nor a redirected word. */
  ghost predicate Untouchable(p: Plan, slot: nat, room: nat, x: nat, n: nat) {
    && Separate(x, n, slot, room + 1)
    && forall k :: 0 <= k < |p.deps| ==>
         && Separate(x, n, p.deps[k].lib.valOffset, 8)
         && forall y :: y in p.deps[k].lib.vnFiles ==> Separate(x, n, y, 4)
  }

  lemma UntouchableStays(b: Bytes, es: seq<Edit>, dirs: seq<RunpathDir>, p: Plan, slot: nat, dynstr: nat, room: nat,
                         x: nat, n: nat)
    requires Applied(b, es, dirs, p, slot, dynstr, room) && Untouchable(p, slot, room, x, n) && x + n <= |b|
    ensures PatchAll(b, es)[x..x + n] == b[x..x + n]
  {
    hide PatchAll, Blob, Targets, Edits, Aligned, Agreeing, NoNul, InRange;
    Elsewhere(b, es, dirs, p, slot, dynstr, room, x, n);
  }

  /** With enough room, exactly the libraries a RUNPATH directory other than libc's provides get a path:
      that directory's relative spelling, a slash and the name. */
  lemma NewNameIs(b: Bytes, q: Parts, dirs: seq<RunpathDir>, p: Plan, lib: Needed)
    requires lib in NeededOf(b, q.dynstr, Dyns(b, q.lo, q.hi), Vns(b, q.vnStart))
    requires p.deps == Direct(dirs, NeededOf(b, q.dynstr, Dyns(b, q.lo, q.hi), Vns(b, q.vnStart)))
    ensures NewName(dirs, p, lib) ==
            if Redirects(dirs, lib) then dirs[Provider(dirs, lib.name)].entry + [SLASH] + lib.name else lib.name
  {
    hide Dyns, Vns, NeededOf, Direct, CString, VnFiles;
    var needed := NeededOf(b, q.dynstr, Dyns(b, q.lo, q.hi), Vns(b, q.vnStart));
    DirectIs(dirs, needed);
    var k := DepAt(p.deps, lib.valOffset);
    if k < |p.deps| {
      assert p.deps[k] in p.deps;
      SameLib(b, q, lib, p.deps[k].lib);
    }
  }

  /** Two NEEDED entries whose value stands at the same place are one. */
  lemma SameLib(b: Bytes, q: Parts, lib: Needed, other: Needed)
    requires lib in NeededOf(b, q.dynstr, Dyns(b, q.lo, q.hi), Vns(b, q.vnStart))
    requires other in NeededOf(b, q.dynstr, Dyns(b, q.lo, q.hi), Vns(b, q.vnStart)) && lib.valOffset == other.valOffset
    ensures lib == other
  {
    hide Dyns, Vns, NeededOf;
    var ds, vns := Dyns(b, q.lo, q.hi), Vns(b, q.vnStart);
    NeededFrom(b, q.dynstr, ds, vns, lib);
    NeededFrom(b, q.dynstr, ds, vns, other);
    var d :| d in ds && lib == NeededBy(b, q.dynstr, d, vns);
    var e :| e in ds && other == NeededBy(b, q.dynstr, e, vns);
    assert NeededBy(b, q.dynstr, d, vns).valOffset == d.at + 8;
    assert NeededBy(b, q.dynstr, e, vns).valOffset == e.at + 8;
    SameEntry(b, q, d, e);
  }
}
