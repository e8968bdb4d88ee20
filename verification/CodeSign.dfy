/** Resign (macho_fixup.cc): the code signature holds a hash of every page, so after a rewrite every
    slot of every code directory is hashed again, in place. */
module CodeSign {
  import opened Bytes
  import opened Options
  import opened BinaryImage
  import opened MachOFixup

  const CODE_SIGNATURE: nat := 0x1d
  const EMBEDDED_SIGNATURE: nat := 0xfade_0cc0
  const CODE_DIRECTORY: nat := 0xfade_0c02
  const SHA256: nat := 2
  const SHA256_SIZE: nat := 32
  const DIR_HEADER: nat := 40

  type Hash = Bytes -> Bytes

  ghost predicate IsSha256(sha: Hash) {
    forall x :: |sha(x)| == SHA256_SIZE
  }

  /** A big-endian word, 0 outside the image. */
  function Big(b: Bytes, off: nat): nat {
    if off + 4 <= |b| then UnLe([b[off + 3], b[off + 2], b[off + 1], b[off]]) else 0
  }

  function Byte(b: Bytes, off: nat): nat {
    if off < |b| then b[off] as nat else 0
  }

  function Pow2(n: nat): (p: nat)
    ensures p > 0
  {
    if n == 0 then 1 else 2 * Pow2(n - 1)
  }

  // ---------------------------------------------------------------- where the signature is

  /** The data offset of the last LC_CODE_SIGNATURE among n commands from off on. */
  function SigFrom(b: Bytes, off: nat, n: nat, found: Option<nat>): Option<nat>
    decreases n
  {
    if n == 0 || off + 8 > |b| || Word(b, off + 4, 4) < 8 then found
    else SigFrom(b, off + Word(b, off + 4, 4), n - 1,
                 if Word(b, off, 4) == CODE_SIGNATURE then Read(b, off + 8, 4) else found)
  }

  function SigOf(b: Bytes): Option<nat> {
    if |b| < HEADER then None else SigFrom(b, HEADER, Word(b, NCMDS, 4), None)
  }

  /** The same, of commands as they were read. */
  function SigIn(cs: seq<Command>, found: Option<nat>): Option<nat>
    decreases |cs|
  {
    if cs == [] then found
    else SigIn(cs[1..], if cs[0].cmd == CODE_SIGNATURE then Some(Word(cs[0].bytes, 8, 4)) else found)
  }

  /** Every code-signature command is long enough to say where its data is. */
  ghost predicate RoomForSignature(cs: seq<Command>) {
    forall i :: 0 <= i < |cs| && cs[i].cmd == CODE_SIGNATURE ==> 12 <= |cs[i].bytes|
  }

  lemma SigHere(b: Bytes, off: nat)
    requires CommandThere(b, off) && 12 <= Word(b, off + 4, 4)
    ensures Read(b, off + 8, 4) == Some(Word(CommandAt(b, off).bytes, 8, 4))
  {
    WordInside(b, off, Word(b, off + 4, 4), 8, 4);
  }

  lemma {:induction false} SigOfCommands(b: Bytes, off: nat, n: nat, found: Option<nat>)
    requires |Commands(b, off, n)| == n && RoomForSignature(Commands(b, off, n))
    ensures SigFrom(b, off, n, found) == SigIn(Commands(b, off, n), found)
    decreases n
  {
    hide Word, Read;
    var cs := Commands(b, off, n);
    if n > 0 {
      var c, rest := CommandAt(b, off), Commands(b, off + Word(b, off + 4, 4), n - 1);
      assert cs == [c] + rest && cs[1..] == rest;
      if c.cmd == CODE_SIGNATURE {
        assert 12 <= |cs[0].bytes|;
        SigHere(b, off);
      }
      RestHasRoom(cs);
      SigOfCommands(b, off + Word(b, off + 4, 4), n - 1,
                    if Word(b, off, 4) == CODE_SIGNATURE then Read(b, off + 8, 4) else found);
    }
  }

  lemma RestHasRoom(cs: seq<Command>)
    requires RoomForSignature(cs) && cs != []
    ensures RoomForSignature(cs[1..])
  {
  }

  /** A code-signature command has no path, so it is the same afterwards. */
  lemma {:induction false} SigStays(spell: Speller, cs: seq<Command>, ds: seq<Command>, found: Option<nat>)
    requires Intended(spell, cs, ds) && forall i :: 0 <= i < |cs| && cs[i].cmd == CODE_SIGNATURE ==> cs[i].pathOff == 0
    ensures SigIn(ds, found) == SigIn(cs, found)
    decreases |cs|
  {
    hide Word, Path;
    if cs != [] {
      SigStays(spell, cs[1..], ds[1..], if cs[0].cmd == CODE_SIGNATURE then Some(Word(cs[0].bytes, 8, 4)) else found);
    }
  }

  lemma {:induction false} NoPaths(b: Bytes, off: nat, n: nat)
    ensures forall i :: 0 <= i < |Commands(b, off, n)| && !IsPathCommand(Commands(b, off, n)[i].cmd) ==>
              Commands(b, off, n)[i].pathOff == 0
    decreases n
  {
    hide Word;
    if n > 0 && CommandThere(b, off) {
      NoPaths(b, off + Word(b, off + 4, 4), n - 1);
    }
  }

  method FindSignature(b: Bytes) returns (sig: Option<nat>)
    ensures sig == SigOf(b)
  {
    hide Word;
    sig := None;
    if |b| < HEADER {
      return;
    }
    var off: nat, n: nat := HEADER, Word(b, NCMDS, 4);
    while n > 0 && off + 8 <= |b| && Word(b, off + 4, 4) >= 8
      invariant SigFrom(b, off, n, sig) == SigOf(b)
      decreases n
    {
      if Word(b, off, 4) == CODE_SIGNATURE {
        sig := Read(b, off + 8, 4);
      }
      off := off + Word(b, off + 4, 4);
      n := n - 1;
    }
  }

  // ---------------------------------------------------------------- code directories

  datatype Dir = Dir(at: nat, hashOff: nat, slots: nat, limit: nat, kind: nat, size: nat, page: nat)

  function Blobs(b: Bytes, sig: nat): nat {
    Big(b, sig + 8)
  }

  function BlobAt(b: Bytes, sig: nat, i: nat): nat {
    sig + Big(b, sig + 12 + i * 8 + 4)
  }

  predicate IsDir(b: Bytes, sig: nat, i: nat) {
    Big(b, BlobAt(b, sig, i)) == CODE_DIRECTORY
  }

  function DirAt(b: Bytes, at: nat): Dir {
    Dir(at, Big(b, at + 16), Big(b, at + 28), Big(b, at + 32), Byte(b, at + 37), Byte(b, at + 36),
        Pow2(Byte(b, at + 39)))
  }

  function DirOf(b: Bytes, sig: nat, i: nat): Dir {
    DirAt(b, BlobAt(b, sig, i))
  }

  function SlotAt(d: Dir, s: nat): nat {
    d.at + d.hashOff + s * SHA256_SIZE
  }

  function PageEnd(d: Dir, s: nat): nat {
    if s * d.page + d.page <= d.limit then s * d.page + d.page else d.limit
  }

  /** The s-th page, as far as the directory covers it; a start behind the end runs to the end of the
      image. */
  function Page(b: Bytes, d: Dir, s: nat): Bytes
    requires s * d.page <= |b|
  {
    var begin, end := s * d.page, PageEnd(d, s);
    if begin <= end <= |b| then b[begin..end] else b[begin..]
  }

  // ---------------------------------------------------------------- signatures that make sense

  /** One directory: SHA-256, its pages inside the code it covers. */
  ghost predicate DirSane(b: Bytes, d: Dir) {
    && d.kind == SHA256 && d.size == SHA256_SIZE
    && d.limit <= |b| && SlotAt(d, d.slots) <= |b|
    && forall s :: 0 <= s < d.slots ==> s * d.page <= d.limit
  }

  /** The hash slots of directory d are clear of the index, of every blob's header, and of the code
      that any directory covers. */
  ghost predicate SlotsClear(b: Bytes, sig: nat, d: Dir) {
    && Separate(SlotAt(d, 0), d.slots * SHA256_SIZE, sig, 12 + Blobs(b, sig) * 8)
    && forall j :: 0 <= j < Blobs(b, sig) ==>
         && Separate(SlotAt(d, 0), d.slots * SHA256_SIZE, BlobAt(b, sig, j), DIR_HEADER)
         && (IsDir(b, sig, j) ==> DirOf(b, sig, j).limit <= SlotAt(d, 0))
  }

  ghost predicate Sane(b: Bytes, sig: nat) {
    && Big(b, sig) == EMBEDDED_SIGNATURE && sig + 12 + Blobs(b, sig) * 8 <= |b|
    && (forall i :: 0 <= i < Blobs(b, sig) && IsDir(b, sig, i) ==>
          DirSane(b, DirOf(b, sig, i)) && SlotsClear(b, sig, DirOf(b, sig, i)))
    && (forall i, j :: 0 <= i < Blobs(b, sig) && 0 <= j < Blobs(b, sig) && IsDir(b, sig, i) && IsDir(b, sig, j) ==>
          var d, e := DirOf(b, sig, i), DirOf(b, sig, j);
          d == e || Separate(SlotAt(d, 0), d.slots * SHA256_SIZE, SlotAt(e, 0), e.slots * SHA256_SIZE))
  }

  // ---------------------------------------------------------------- the new hashes

  function SlotEdit(sha: Hash, b: Bytes, d: Dir, s: nat): Edit
    requires s * d.page <= |b|
  {
    Edit(SlotAt(d, s), sha(Page(b, d, s)))
  }

  ghost function DirEdits(sha: Hash, b: Bytes, d: Dir, n: nat): seq<Edit>
    requires DirSane(b, d) && n <= d.slots
  {
    if n == 0 then [] else DirEdits(sha, b, d, n - 1) + [SlotEdit(sha, b, d, n - 1)]
  }

  ghost function AllEdits(sha: Hash, b: Bytes, sig: nat, n: nat): seq<Edit>
    requires Sane(b, sig) && n <= Blobs(b, sig)
  {
    if n == 0 then []
    else AllEdits(sha, b, sig, n - 1)
         + if IsDir(b, sig, n - 1) then DirEdits(sha, b, DirOf(b, sig, n - 1), DirOf(b, sig, n - 1).slots) else []
  }

  ghost function Slot(sha: Hash, b: Bytes, sig: nat, i: nat, s: nat): Edit
    requires Sane(b, sig) && i < Blobs(b, sig) && IsDir(b, sig, i) && s < DirOf(b, sig, i).slots
  {
    SlotEdit(sha, b, DirOf(b, sig, i), s)
  }

  lemma {:induction false} DirEditsAre(sha: Hash, b: Bytes, d: Dir, n: nat, e: Edit)
    requires DirSane(b, d) && n <= d.slots
    ensures e in DirEdits(sha, b, d, n) <==> exists s :: 0 <= s < n && e == SlotEdit(sha, b, d, s)
  {
    hide Page;
    if n > 0 {
      DirEditsAre(sha, b, d, n - 1, e);
    }
  }

  lemma {:induction false} AllEditsAre(sha: Hash, b: Bytes, sig: nat, n: nat, e: Edit)
    requires Sane(b, sig) && n <= Blobs(b, sig)
    ensures e in AllEdits(sha, b, sig, n) <==>
              exists i, s :: 0 <= i < n && IsDir(b, sig, i) && 0 <= s < DirOf(b, sig, i).slots
                && e == Slot(sha, b, sig, i, s)
  {
    hide Page, Big, SlotsClear, DirAt, SlotEdit;
    if n > 0 {
      AllEditsAre(sha, b, sig, n - 1, e);
      if IsDir(b, sig, n - 1) {
        var d := DirOf(b, sig, n - 1);
        DirEditsAre(sha, b, d, d.slots, e);
        if e in DirEdits(sha, b, d, d.slots) {
          var s :| 0 <= s < d.slots && e == SlotEdit(sha, b, d, s);
          assert e == Slot(sha, b, sig, n - 1, s);
        }
      }
    }
  }

  lemma SlotInside(d: Dir, s: nat)
    requires s < d.slots
    ensures SlotAt(d, 0) <= SlotAt(d, s)
    ensures SlotAt(d, s) + SHA256_SIZE <= SlotAt(d, 0) + d.slots * SHA256_SIZE == SlotAt(d, d.slots)
  {
  }

  /** A slot is inside the image and clear of everything that is read. */
  ghost predicate ClearOf(b: Bytes, sig: nat, e: Edit) {
    && |e.data| == SHA256_SIZE && Fits(e, |b|)
    && Misses(e, sig, 12 + Blobs(b, sig) * 8)
    && forall j :: 0 <= j < Blobs(b, sig) ==>
         Misses(e, BlobAt(b, sig, j), DIR_HEADER) && (IsDir(b, sig, j) ==> DirOf(b, sig, j).limit <= e.at)
  }

  lemma SlotClear(sha: Hash, b: Bytes, sig: nat, i: nat, s: nat)
    requires IsSha256(sha) && Sane(b, sig) && i < Blobs(b, sig) && IsDir(b, sig, i) && s < DirOf(b, sig, i).slots
    ensures ClearOf(b, sig, Slot(sha, b, sig, i, s))
  {
    hide Page, Big, DirAt;
    SlotInside(DirOf(b, sig, i), s);
  }

  lemma SlotsApart(sha: Hash, b: Bytes, sig: nat, i: nat, s: nat, j: nat, t: nat)
    requires IsSha256(sha) && Sane(b, sig) && i < Blobs(b, sig) && IsDir(b, sig, i) && s < DirOf(b, sig, i).slots
    requires j < Blobs(b, sig) && IsDir(b, sig, j) && t < DirOf(b, sig, j).slots
    ensures var e, f := Slot(sha, b, sig, i, s), Slot(sha, b, sig, j, t);
            e == f || Misses(f, e.at, |e.data|)
  {
    hide Page, Big, DirAt, SlotsClear;
    SlotInside(DirOf(b, sig, i), s);
    SlotInside(DirOf(b, sig, j), t);
  }

  lemma EditsClear(sha: Hash, b: Bytes, sig: nat, n: nat)
    requires IsSha256(sha) && Sane(b, sig) && n <= Blobs(b, sig)
    ensures forall e :: e in AllEdits(sha, b, sig, n) ==> ClearOf(b, sig, e)
    ensures AllFit(AllEdits(sha, b, sig, n), |b|) && Coherent(AllEdits(sha, b, sig, n))
  {
    hide Page, Big, DirAt, Sane, AllEdits, Slot, ClearOf, IsSha256;
    var es := AllEdits(sha, b, sig, n);
    forall e | e in es
      ensures ClearOf(b, sig, e)
    {
      AllEditsAre(sha, b, sig, n, e);
      var i, s :| 0 <= i < n && IsDir(b, sig, i) && 0 <= s < DirOf(b, sig, i).slots && e == Slot(sha, b, sig, i, s);
      SlotClear(sha, b, sig, i, s);
    }
    forall e, f | e in es && f in es
      ensures e == f || Misses(f, e.at, |e.data|)
    {
      AllEditsAre(sha, b, sig, n, e);
      AllEditsAre(sha, b, sig, n, f);
      var i, s :| 0 <= i < n && IsDir(b, sig, i) && 0 <= s < DirOf(b, sig, i).slots && e == Slot(sha, b, sig, i, s);
      var j, t :| 0 <= j < n && IsDir(b, sig, j) && 0 <= t < DirOf(b, sig, j).slots && f == Slot(sha, b, sig, j, t);
      SlotsApart(sha, b, sig, i, s, j, t);
    }
    forall i | 0 <= i < |es|
      ensures Fits(es[i], |b|)
    {
      ClearFits(b, sig, es[i]);
    }
  }

  lemma ClearFits(b: Bytes, sig: nat, e: Edit)
    requires ClearOf(b, sig, e)
    ensures Fits(e, |b|)
  {
  }

  // ---------------------------------------------------------------- the directories read the same

  /** c is b with edits that are clear of everything that is read. */
  ghost predicate Signing(b: Bytes, sig: nat, es: seq<Edit>) {
    AllFit(es, |b|) && forall i :: 0 <= i < |es| ==> ClearOf(b, sig, es[i])
  }

  lemma BigSame(b: Bytes, c: Bytes, x: nat, n: nat, off: nat)
    requires |b| == |c| && x + n <= |b| && b[x..x + n] == c[x..x + n] && x <= off && off + 4 <= x + n
    ensures Big(b, off) == Big(c, off)
  {
    var s, t, k := b[x..x + n], c[x..x + n], off - x;
    assert s[k] == b[off] && s[k + 1] == b[off + 1] && s[k + 2] == b[off + 2] && s[k + 3] == b[off + 3];
    assert t[k] == c[off] && t[k + 1] == c[off + 1] && t[k + 2] == c[off + 2] && t[k + 3] == c[off + 3];
  }

  lemma IndexSame(b: Bytes, sig: nat, es: seq<Edit>)
    requires Sane(b, sig) && Signing(b, sig, es)
    ensures Big(PatchAll(b, es), sig) == Big(b, sig) && Blobs(PatchAll(b, es), sig) == Blobs(b, sig)
    ensures forall j :: 0 <= j < Blobs(b, sig) ==> BlobAt(PatchAll(b, es), sig, j) == BlobAt(b, sig, j)
  {
    hide PatchAll, Big, SlotsClear, DirSane, DirAt;
    var c, n := PatchAll(b, es), 12 + Blobs(b, sig) * 8;
    AllMiss(b, es, sig, n);
    BigSame(b, c, sig, n, sig);
    BigSame(b, c, sig, n, sig + 8);
    forall j | 0 <= j < Blobs(b, sig)
      ensures BlobAt(c, sig, j) == BlobAt(b, sig, j)
    {
      BigSame(b, c, sig, n, sig + 12 + j * 8 + 4);
    }
  }

  /** The header of blob j, as far as it is inside the image, is untouched. */
  lemma HeaderSame(b: Bytes, sig: nat, es: seq<Edit>, j: nat)
    requires Sane(b, sig) && Signing(b, sig, es) && j < Blobs(b, sig)
    ensures var at := BlobAt(b, sig, j);
            && Big(PatchAll(b, es), at) == Big(b, at)
            && DirAt(PatchAll(b, es), at) == DirAt(b, at)
  {
    hide PatchAll, SlotsClear, DirSane, Sane, Pow2, UnLe;
    var c, at := PatchAll(b, es), BlobAt(b, sig, j);
    forall x | 0 <= x < |b| && at <= x < at + DIR_HEADER
      ensures c[x] == b[x]
    {
      AllMiss(b, es, x, 1);
      assert c[x] == c[x..x + 1][0] && b[x] == b[x..x + 1][0];
    }
  }

  lemma DirsSame(b: Bytes, sig: nat, es: seq<Edit>)
    requires Sane(b, sig) && Signing(b, sig, es)
    ensures var c := PatchAll(b, es);
            && |c| == |b| && Big(c, sig) == Big(b, sig) && Blobs(c, sig) == Blobs(b, sig)
            && forall j :: 0 <= j < Blobs(b, sig) ==>
                 && BlobAt(c, sig, j) == BlobAt(b, sig, j)
                 && (IsDir(c, sig, j) <==> IsDir(b, sig, j)) && DirOf(c, sig, j) == DirOf(b, sig, j)
  {
    hide PatchAll, SlotsClear, DirSane, Sane, Big, DirAt, ClearOf;
    IndexSame(b, sig, es);
    forall j | 0 <= j < Blobs(b, sig)
      ensures IsDir(PatchAll(b, es), sig, j) <==> IsDir(b, sig, j)
      ensures DirOf(PatchAll(b, es), sig, j) == DirOf(b, sig, j)
    {
      HeaderSame(b, sig, es, j);
    }
  }

  lemma SameInside(b: Bytes, c: Bytes, n: nat, x: nat, y: nat)
    requires x <= y <= n <= |b| && n <= |c| && b[0..n] == c[0..n]
    ensures b[x..y] == c[x..y]
  {
    forall k | x <= k < y
      ensures b[k] == c[k]
    {
      assert b[0..n][k] == c[0..n][k];
    }
  }

  /** Every page is untouched. */
  lemma PageSame(b: Bytes, sig: nat, es: seq<Edit>, i: nat, s: nat)
    requires Sane(b, sig) && Signing(b, sig, es) && i < Blobs(b, sig) && IsDir(b, sig, i) && s < DirOf(b, sig, i).slots
    ensures var d := DirOf(b, sig, i);
            s * d.page <= |b| && Page(PatchAll(b, es), d, s) == Page(b, d, s)
  {
    hide PatchAll, SlotsClear, Big, DirAt;
    var d := DirOf(b, sig, i);
    assert DirSane(b, d);
    AllMiss(b, es, 0, d.limit);
    var c := PatchAll(b, es);
    var begin, end := s * d.page, PageEnd(d, s);
    assert begin <= end <= d.limit;
    SameInside(b, c, d.limit, begin, end);
  }

  // ---------------------------------------------------------------- Resign

  /** The edits once i blobs are done and s slots of the next. */
  ghost function Upto(sha: Hash, b: Bytes, sig: nat, i: nat, s: nat): seq<Edit>
    requires Sane(b, sig) && i <= Blobs(b, sig)
    requires s > 0 ==> i < Blobs(b, sig) && IsDir(b, sig, i) && s <= DirOf(b, sig, i).slots
  {
    AllEdits(sha, b, sig, i) + if s == 0 then [] else DirEdits(sha, b, DirOf(b, sig, i), s)
  }

  lemma UptoClear(sha: Hash, b: Bytes, sig: nat, i: nat, s: nat)
    requires IsSha256(sha) && Sane(b, sig) && i <= Blobs(b, sig)
    requires s > 0 ==> i < Blobs(b, sig) && IsDir(b, sig, i) && s <= DirOf(b, sig, i).slots
    ensures Signing(b, sig, Upto(sha, b, sig, i, s))
  {
    hide Page, Big, DirAt, SlotsClear, ClearOf, IsSha256, AllEdits, DirEdits, Slot;
    EditsClear(sha, b, sig, i);
    var es := Upto(sha, b, sig, i, s);
    forall k | 0 <= k < |es|
      ensures ClearOf(b, sig, es[k]) && Fits(es[k], |b|)
    {
      assert es[k] in es;
      if es[k] !in AllEdits(sha, b, sig, i) {
        var d := DirOf(b, sig, i);
        DirEditsAre(sha, b, d, s, es[k]);
        var t :| 0 <= t < s && es[k] == SlotEdit(sha, b, d, t);
        SlotClear(sha, b, sig, i, t);
        SlotIs(sha, b, sig, i, t);
      }
      ClearFits(b, sig, es[k]);
    }
  }

  lemma SlotIs(sha: Hash, b: Bytes, sig: nat, i: nat, s: nat)
    requires Sane(b, sig) && i < Blobs(b, sig) && IsDir(b, sig, i) && s < DirOf(b, sig, i).slots
    ensures s * DirOf(b, sig, i).page <= |b| && Slot(sha, b, sig, i, s) == SlotEdit(sha, b, DirOf(b, sig, i), s)
  {
    hide Page, Big, DirAt, SlotsClear;
    assert DirSane(b, DirOf(b, sig, i));
  }

  /** How far signing b has come. */
  ghost predicate Done(sha: Hash, b: Bytes, sig: nat, i: nat, s: nat, now: Bytes) {
    && Sane(b, sig) && i <= Blobs(b, sig)
    && (s > 0 ==> i < Blobs(b, sig) && IsDir(b, sig, i) && s <= DirOf(b, sig, i).slots)
    && AllFit(Upto(sha, b, sig, i, s), |b|) && now == PatchAll(b, Upto(sha, b, sig, i, s))
  }

  lemma DoneStarts(sha: Hash, b: Bytes, sig: nat)
    requires Sane(b, sig)
    ensures Done(sha, b, sig, 0, 0, b)
  {
    assert Upto(sha, b, sig, 0, 0) == [];
  }

  /** One more slot: hashing the page as it is now is hashing it as it was. */
  lemma NextSlot(sha: Hash, b: Bytes, sig: nat, i: nat, s: nat, now: Bytes)
    requires IsSha256(sha) && Done(sha, b, sig, i, s, now) && i < Blobs(b, sig) && IsDir(b, sig, i)
    requires s < DirOf(b, sig, i).slots
    ensures var d := DirOf(b, sig, i);
            && s * d.page <= |now| && Fits(Edit(SlotAt(d, s), sha(Page(now, d, s))), |now|)
            && Done(sha, b, sig, i, s + 1, Patch(now, Edit(SlotAt(d, s), sha(Page(now, d, s)))))
  {
    hide Page, Big, DirAt, SlotsClear, ClearOf, IsSha256, AllEdits, Slot, PatchAll, Patch, Sane, SlotAt;
    var d, es := DirOf(b, sig, i), Upto(sha, b, sig, i, s);
    UptoClear(sha, b, sig, i, s);
    PageSame(b, sig, es, i, s);
    var e := Edit(SlotAt(d, s), sha(Page(b, d, s)));
    SlotIs(sha, b, sig, i, s);
    SlotClear(sha, b, sig, i, s);
    ClearFits(b, sig, e);
    PatchMore(b, es, e);
    OneMore(sha, b, sig, i, s);
  }

  lemma OneMore(sha: Hash, b: Bytes, sig: nat, i: nat, s: nat)
    requires Sane(b, sig) && i < Blobs(b, sig) && IsDir(b, sig, i) && s < DirOf(b, sig, i).slots
    ensures s * DirOf(b, sig, i).page <= |b|
    ensures Upto(sha, b, sig, i, s + 1) == Upto(sha, b, sig, i, s) + [SlotEdit(sha, b, DirOf(b, sig, i), s)]
  {
    hide Page, Big, DirAt, SlotsClear, AllEdits;
    var d, all := DirOf(b, sig, i), AllEdits(sha, b, sig, i);
    assert DirSane(b, d);
    assert DirEdits(sha, b, d, s + 1) == DirEdits(sha, b, d, s) + [SlotEdit(sha, b, d, s)];
    assert all + (DirEdits(sha, b, d, s) + [SlotEdit(sha, b, d, s)])
        == all + DirEdits(sha, b, d, s) + [SlotEdit(sha, b, d, s)];
    if s == 0 {
      assert DirEdits(sha, b, d, 0) == [];
      assert all + [] == all;
    }
  }

  lemma NextBlob(sha: Hash, b: Bytes, sig: nat, i: nat, s: nat, now: Bytes)
    requires Done(sha, b, sig, i, s, now) && i < Blobs(b, sig)
    requires if IsDir(b, sig, i) then s == DirOf(b, sig, i).slots else s == 0
    ensures Done(sha, b, sig, i + 1, 0, now)
  {
    hide Page, Big, DirAt, SlotsClear, DirSane, PatchAll;
    assert Upto(sha, b, sig, i + 1, 0) == Upto(sha, b, sig, i, s);
  }

  /** The images agree before n. */
  ghost predicate SameFront(b: Bytes, c: Bytes, n: nat) {
    |c| == |b| && forall x :: 0 <= x < n && x < |b| ==> c[x] == b[x]
  }

  lemma OverwrittenFront(b: Bytes, e: Edit, n: nat)
    ensures Fits(e, |b|) && n <= e.at ==> SameFront(b, Patch(b, e), n)
  {
  }

  /** The slots of one directory. */
  method SignDir(image: Image, sha: Hash, d: Dir, ghost b: Bytes, ghost sig: nat, ghost i: nat) returns (ok: bool)
    requires IsSha256(sha)
    modifies image
    ensures |image.bytes| == |old(image.bytes)| && SameFront(old(image.bytes), image.bytes, SlotAt(d, 0))
    ensures Done(sha, b, sig, i, 0, old(image.bytes)) && i < Blobs(b, sig) && IsDir(b, sig, i)
            && d == DirOf(b, sig, i) ==>
              ok && Done(sha, b, sig, i + 1, 0, image.bytes)
  {
    hide Done, IsSha256, Page, SlotAt, Patch, IsDir, DirOf;
    ghost var good := Done(sha, b, sig, i, 0, image.bytes) && i < Blobs(b, sig) && IsDir(b, sig, i)
      && d == DirOf(b, sig, i);
    var slot := 0;
    while slot < d.slots
      invariant slot <= d.slots && |image.bytes| == |old(image.bytes)|
      invariant SameFront(old(image.bytes), image.bytes, SlotAt(d, 0))
      invariant good ==> Done(sha, b, sig, i, slot, image.bytes)
    {
      if good {
        NextSlot(sha, b, sig, i, slot, image.bytes);
      }
      if slot * d.page > |image.bytes| {
        return false;
      }
      SlotInside(d, slot);
      OverwrittenFront(image.bytes, Edit(SlotAt(d, slot), sha(Page(image.bytes, d, slot))), SlotAt(d, 0));
      ok := image.Overwrite(SlotAt(d, slot), sha(Page(image.bytes, d, slot)));
      if !ok {
        return;
      }
      slot := slot + 1;
    }
    ok := true;
    if good {
      NextBlob(sha, b, sig, i, slot, image.bytes);
    }
  }

  /** Resign: nothing to do without a signature; otherwise every slot of every code directory. */
  method Resign(image: Image, sha: Hash) returns (ok: bool)
    requires IsSha256(sha)
    modifies image
    ensures |image.bytes| == |old(image.bytes)|
    ensures SigOf(old(image.bytes)).None? ==> ok && image.bytes == old(image.bytes)
    ensures SigOf(old(image.bytes)).Some? ==> SameFront(old(image.bytes), image.bytes, SigOf(old(image.bytes)).value)
    ensures SigOf(old(image.bytes)).Some?
            && Big(old(image.bytes), SigOf(old(image.bytes)).value) != EMBEDDED_SIGNATURE ==>
              !ok && image.bytes == old(image.bytes)
    ensures SigOf(old(image.bytes)).Some? && Sane(old(image.bytes), SigOf(old(image.bytes)).value) ==>
              var b, sig := old(image.bytes), SigOf(old(image.bytes)).value;
              ok && Done(sha, b, sig, Blobs(b, sig), 0, image.bytes)
  {
    hide Done, IsSha256, Sane, SigOf, IsDir, DirAt, BlobAt;
    ghost var b := image.bytes;
    var found := FindSignature(image.bytes);
    if found.None? {
      return true;
    }
    var sig := found.value;
    ghost var good := Sane(b, sig);
    if good {
      DoneStarts(sha, b, sig);
      SaneMagic(b, sig);
    }
    if Big(image.bytes, sig) != EMBEDDED_SIGNATURE {
      return false;
    }
    var blobs, i := Blobs(image.bytes, sig), 0;
    while i < blobs
      invariant i <= blobs && SameFront(b, image.bytes, sig)
      invariant good ==> Done(sha, b, sig, i, 0, image.bytes)
    {
      if good {
        StillReads(sha, b, sig, i, image.bytes);
      }
      SlotsFollow(image.bytes, sig, i);
      var dir := DirAt(image.bytes, BlobAt(image.bytes, sig, i));
      if IsDir(image.bytes, sig, i) {
        if dir.kind != SHA256 || dir.size != SHA256_SIZE {
          return false;
        }
        ok := SignDir(image, sha, dir, b, sig, i);
        if !ok {
          return;
        }
      } else if good {
        NextBlob(sha, b, sig, i, 0, image.bytes);
      }
      i := i + 1;
    }
    ok := true;
  }

  /** Offsets count from the signature on, so every slot lies behind its start. */
  lemma SlotsFollow(b: Bytes, sig: nat, i: nat)
    ensures sig <= SlotAt(DirAt(b, BlobAt(b, sig, i)), 0)
  {
  }

  lemma SaneMagic(b: Bytes, sig: nat)
    requires Sane(b, sig)
    ensures Big(b, sig) == EMBEDDED_SIGNATURE
  {
  }

  /** What has been signed so far has not changed what is read next. */
  lemma StillReads(sha: Hash, b: Bytes, sig: nat, i: nat, now: Bytes)
    requires IsSha256(sha) && Done(sha, b, sig, i, 0, now) && i < Blobs(b, sig)
    ensures (IsDir(now, sig, i) <==> IsDir(b, sig, i)) && DirOf(now, sig, i) == DirOf(b, sig, i)
    ensures IsDir(b, sig, i) ==> DirOf(b, sig, i).kind == SHA256 && DirOf(b, sig, i).size == SHA256_SIZE
  {
    hide IsSha256, PatchAll, Big, DirAt, SlotsClear, Upto, Signing;
    UptoClear(sha, b, sig, i, 0);
    DirsSame(b, sig, Upto(sha, b, sig, i, 0));
  }

  /** No hash slot of the signature is among the n bytes at x. */
  ghost predicate OutsideSlots(b: Bytes, sig: nat, x: nat, n: nat) {
    forall i, s :: 0 <= i < Blobs(b, sig) && IsDir(b, sig, i) && 0 <= s < DirOf(b, sig, i).slots ==>
      Separate(SlotAt(DirOf(b, sig, i), s), SHA256_SIZE, x, n)
  }

  lemma SlotsOnly(sha: Hash, h: Bytes, sig: nat, c: Bytes, x: nat, n: nat)
    requires IsSha256(sha) && Done(sha, h, sig, Blobs(h, sig), 0, c) && x + n <= |h| && OutsideSlots(h, sig, x, n)
    ensures |c| == |h| && c[x..x + n] == h[x..x + n]
  {
    hide PatchAll, Big, DirAt, SlotsClear, Sane, AllEdits, Blobs, Page, SlotAt;
    var k := Blobs(h, sig);
    var es := AllEdits(sha, h, sig, k);
    assert Upto(sha, h, sig, k, 0) == es;
    forall j | 0 <= j < |es|
      ensures Misses(es[j], x, n)
    {
      AllEditsAre(sha, h, sig, k, es[j]);
      var i, s :| 0 <= i < k && IsDir(h, sig, i) && 0 <= s < DirOf(h, sig, i).slots && es[j] == Slot(sha, h, sig, i, s);
      SlotIs(sha, h, sig, i, s);
    }
    AllMiss(h, es, x, n);
  }

  /** After Resign every code slot of every directory of the final image holds the hash of its page of
      the final image, and nothing but slots has changed. */
  lemma EverySlotSigned(sha: Hash, b: Bytes, sig: nat, c: Bytes)
    requires IsSha256(sha) && Done(sha, b, sig, Blobs(b, sig), 0, c)
    ensures |c| == |b| && Blobs(c, sig) == Blobs(b, sig)
    ensures forall i, s :: 0 <= i < Blobs(c, sig) && IsDir(c, sig, i) && 0 <= s < DirOf(c, sig, i).slots ==>
              SlotHolds(sha, c, DirOf(c, sig, i), s)
    ensures forall x, n :: 0 <= x && 0 <= n && x + n <= |b| && OutsideSlots(b, sig, x, n) ==> c[x..x + n] == b[x..x + n]
  {
    hide IsSha256, PatchAll, Big, DirAt, SlotsClear, Upto, Signing, Sane, SlotHolds, OutsideSlots;
    forall x, n | 0 <= x && 0 <= n && x + n <= |b| && OutsideSlots(b, sig, x, n)
      ensures |c| == |b| && c[x..x + n] == b[x..x + n]
    {
      SlotsOnly(sha, b, sig, c, x, n);
    }
    UptoClear(sha, b, sig, Blobs(b, sig), 0);
    DirsSame(b, sig, Upto(sha, b, sig, Blobs(b, sig), 0));
    forall i, s | 0 <= i < Blobs(c, sig) && IsDir(c, sig, i) && 0 <= s < DirOf(c, sig, i).slots
      ensures SlotHolds(sha, c, DirOf(c, sig, i), s)
    {
      OneSlotSigned(sha, b, sig, c, i, s);
    }
  }

  ghost predicate SlotHolds(sha: Hash, c: Bytes, d: Dir, s: nat) {
    && s * d.page <= |c| && SlotAt(d, s) + SHA256_SIZE <= |c|
    && c[SlotAt(d, s)..SlotAt(d, s) + SHA256_SIZE] == sha(Page(c, d, s))
  }

  lemma OneSlotSigned(sha: Hash, b: Bytes, sig: nat, c: Bytes, i: nat, s: nat)
    requires IsSha256(sha) && Done(sha, b, sig, Blobs(b, sig), 0, c) && i < Blobs(b, sig) && IsDir(b, sig, i)
    requires s < DirOf(b, sig, i).slots
    ensures SlotHolds(sha, c, DirOf(b, sig, i), s)
  {
    hide PatchAll, Big, DirAt, SlotsClear, Sane, AllEdits, Page, Coherent, Signing;
    var n := Blobs(b, sig);
    var es := AllEdits(sha, b, sig, n);
    assert Upto(sha, b, sig, n, 0) == es;
    EditsClear(sha, b, sig, n);
    UptoClear(sha, b, sig, n, 0);
    PageSame(b, sig, es, i, s);
    AllEditsAre(sha, b, sig, n, Slot(sha, b, sig, i, s));
    SlotIs(sha, b, sig, i, s);
    CoherentLands(b, es, Slot(sha, b, sig, i, s));
  }

  // ---------------------------------------------------------------- all of FixMachO

  /** Respell, rewrite the header if there is something to respell and room for it, sign again. */
  method FixMachO(image: Image, spell: Speller, sha: Hash) returns (ours: bool, ok: bool)
    requires IsSha256(sha)
    modifies image
    ensures |image.bytes| == |old(image.bytes)| && (ours <==> IsMachO(old(image.bytes)))
    ensures !ours || NewHeader(spell, old(image.bytes)).None? ==> image.bytes == old(image.bytes)
    ensures !ours ==> ok
    ensures ours && NewHeader(spell, old(image.bytes)).None? ==>
            (ok <==> !AnyChange(spell, CommandsOf(old(image.bytes))))
    ensures ours && NewHeader(spell, old(image.bytes)).Some? ==>
              var b, es := old(image.bytes), NewHeader(spell, old(image.bytes)).value;
              && AllFit(es, |b|)
              && var h := PatchAll(b, es);
                 && (SigOf(h).None? ==> ok && image.bytes == h)
                 && (SigOf(h).Some? && Sane(h, SigOf(h).value) ==>
                       ok && Done(sha, h, SigOf(h).value, Blobs(h, SigOf(h).value), 0, image.bytes))
    ensures ours && Signable(spell, old(image.bytes)) && NewHeader(spell, old(image.bytes)).Some? ==>
              ok && Fixed(spell, sha, old(image.bytes), image.bytes)
  {
    hide Word, Concat, Sane, Done, SigOf, IsSha256, Patch, PatchAll, Blobs, Commands, RoomFrom, Fixed, Signable;
    ghost var b := image.bytes;
    ours, ok := IsMachO(image.bytes), true;
    if !ours {
      return;
    }
    var cs, room := ReadLoadCommands(image.bytes);
    var ds := RespellAll(spell, cs);
    var cmds := Concat(ds);
    if !AnyChange(spell, cs) {
      return;
    }
    if |cmds| > room {
      ok := false;
      return;
    }
    HeaderFits(b, cmds, room);
    PatchTwice(b, HeaderEdits(cmds, room));
    ok := image.WriteWord(SIZEOFCMDS, |cmds| % U32, 4);
    ok := image.Overwrite(HEADER, cmds + Zeros(room - |cmds|));
    ghost var h := image.bytes;
    ok := Resign(image, sha);
    if Signable(spell, b) {
      FixedMachO(spell, sha, b, HeaderEdits(cmds, room), h, image.bytes);
    }
  }

  lemma PatchTwice(b: Bytes, es: seq<Edit>)
    requires |es| == 2 && AllFit(es, |b|)
    ensures PatchAll(b, es) == Patch(Patch(b, es[0]), es[1])
  {
    PatchOne(b, es[0]);
    assert es[..1] == [es[0]];
  }

  /** A well-formed image: its signature, if it has one, is sane and lies behind the header room. */
  ghost predicate Signable(spell: Speller, b: Bytes) {
    && WellFormed(spell, b) && RoomForSignature(CommandsOf(b))
    && (SigOf(b).Some? ==> Sane(b, SigOf(b).value) && HEADER + RoomOf(b) <= SigOf(b).value)
  }

  /** The images agree from m on. */
  ghost predicate SameBehind(b: Bytes, h: Bytes, m: nat) {
    |b| == |h| && m <= |b| && b[m..] == h[m..]
  }

  lemma ReadsBehind(b: Bytes, h: Bytes, m: nat, off: nat)
    requires SameBehind(b, h, m) && m <= off
    ensures Big(h, off) == Big(b, off) && Byte(h, off) == Byte(b, off)
  {
    hide UnLe;
    assert forall k :: 0 <= k < |b| - m ==> b[m..][k] == b[m + k] && h[m..][k] == h[m + k];
    assert forall x :: m <= x < |b| ==> b[x] == b[m..][x - m] && h[x] == h[m..][x - m];
  }

  lemma DirBehind(b: Bytes, h: Bytes, m: nat, at: nat)
    requires SameBehind(b, h, m) && m <= at
    ensures DirAt(h, at) == DirAt(b, at)
  {
    hide SameBehind, Big, Byte, Pow2;
    ReadsBehind(b, h, m, at + 16);
    ReadsBehind(b, h, m, at + 28);
    ReadsBehind(b, h, m, at + 32);
    ReadsBehind(b, h, m, at + 36);
    ReadsBehind(b, h, m, at + 37);
    ReadsBehind(b, h, m, at + 39);
  }

  /** A signature behind m is the same in both. */
  lemma SignatureBehind(b: Bytes, h: Bytes, m: nat, sig: nat)
    requires SameBehind(b, h, m) && m <= sig
    ensures Big(h, sig) == Big(b, sig) && Blobs(h, sig) == Blobs(b, sig)
    ensures forall i {:trigger BlobAt(b, sig, i)} {:trigger BlobAt(h, sig, i)} :: 0 <= i < Blobs(b, sig) ==>
              && BlobAt(h, sig, i) == BlobAt(b, sig, i) && (IsDir(h, sig, i) <==> IsDir(b, sig, i))
              && DirOf(h, sig, i) == DirOf(b, sig, i)
  {
    hide SameBehind, Big, DirAt;
    ReadsBehind(b, h, m, sig);
    ReadsBehind(b, h, m, sig + 8);
    forall i | 0 <= i < Blobs(b, sig)
      ensures BlobAt(h, sig, i) == BlobAt(b, sig, i) && (IsDir(h, sig, i) <==> IsDir(b, sig, i))
      ensures DirOf(h, sig, i) == DirOf(b, sig, i)
    {
      ReadsBehind(b, h, m, sig + 12 + i * 8 + 4);
      ReadsBehind(b, h, m, BlobAt(b, sig, i));
      DirBehind(b, h, m, BlobAt(b, sig, i));
    }
  }

  lemma SaneBehind(b: Bytes, h: Bytes, m: nat, sig: nat)
    requires SameBehind(b, h, m) && m <= sig && Sane(b, sig)
    ensures Sane(h, sig)
  {
    hide Big, DirAt;
    SignatureBehind(b, h, m, sig);
  }

  /** The header room is clear of the slots, and elsewhere the same bytes are. */
  lemma SlotsBehind(b: Bytes, h: Bytes, m: nat, sig: nat, x: nat, n: nat)
    requires SameBehind(b, h, m) && m <= sig
    ensures OutsideSlots(h, sig, x, n) <==> OutsideSlots(b, sig, x, n)
    ensures OutsideSlots(h, sig, 0, m)
  {
    hide Big, SameBehind, Blobs, Pow2;
    SignatureBehind(b, h, m, sig);
    assert forall i :: 0 <= i < Blobs(b, sig) ==> BlobAt(h, sig, i) == BlobAt(b, sig, i) >= m;
  }

  /** The new header has the same signature command. */
  lemma SameSignature(spell: Speller, b: Bytes, h: Bytes)
    requires WellFormed(spell, b) && RoomForSignature(CommandsOf(b))
    requires |h| == |b| && Intended(spell, CommandsOf(b), CommandsOf(h)) && |CommandsOf(b)| == Word(h, NCMDS, 4)
    ensures SigOf(h) == SigOf(b)
  {
    hide Word, Commands, RoomForOffsets, SigFrom, Path;
    NoPaths(b, HEADER, Word(b, NCMDS, 4));
    SigStays(spell, CommandsOf(b), CommandsOf(h), None);
    SigOfCommands(b, HEADER, Word(b, NCMDS, 4), None);
    SigOfCommands(h, HEADER, Word(h, NCMDS, 4), None);
  }

  /** A rewritten and signed image c of b: re-reading the load commands gives the original list with exactly
      the intended paths replaced, the header's size field is their total and the rest of the header as it
      was, behind the header room only hash slots changed, and every slot of every directory holds the hash of
      its page of this image. */
  ghost predicate Fixed(spell: Speller, sha: Hash, b: Bytes, c: Bytes)
    requires IsMachO(b)
  {
    && |c| == |b| && IsMachO(c) && Intended(spell, CommandsOf(b), CommandsOf(c)) && SigOf(c) == SigOf(b)
    && Word(c, SIZEOFCMDS, 4) == |Concat(CommandsOf(c))| % U32
    && c[..SIZEOFCMDS] == b[..SIZEOFCMDS] && c[24..HEADER] == b[24..HEADER]
    && (SigOf(b).None? ==> c[HEADER + RoomOf(b)..] == b[HEADER + RoomOf(b)..])
    && (SigOf(b).Some? ==> Signed(sha, b, SigOf(b).value, c, HEADER + RoomOf(b)))
  }

  /** From start on only slots changed, and every slot is signed. */
  ghost predicate Signed(sha: Hash, b: Bytes, sig: nat, c: Bytes, start: nat) {
    && |c| == |b|
    && (forall x, n :: 0 <= start <= x && 0 <= n && x + n <= |b| && OutsideSlots(b, sig, x, n) ==>
          c[x..x + n] == b[x..x + n])
    && (forall i, s :: 0 <= i < Blobs(c, sig) && IsDir(c, sig, i) && 0 <= s < DirOf(c, sig, i).slots ==>
          SlotHolds(sha, c, DirOf(c, sig, i), s))
  }

  lemma SignedBehind(sha: Hash, b: Bytes, h: Bytes, sig: nat, c: Bytes, m: nat)
    requires IsSha256(sha) && SameBehind(b, h, m) && m <= sig && Done(sha, h, sig, Blobs(h, sig), 0, c)
    ensures Signed(sha, b, sig, c, m) && |c| == |h| && c[0..m] == h[0..m]
  {
    hide IsSha256, Done, SlotHolds, OutsideSlots, Blobs, IsDir, DirOf;
    EverySlotSigned(sha, h, sig, c);
    SlotsBehind(b, h, m, sig, 0, m);
    forall x, n | m <= x && 0 <= n && x + n <= |b| && OutsideSlots(b, sig, x, n)
      ensures c[x..x + n] == b[x..x + n]
    {
      SlotsBehind(b, h, m, sig, x, n);
      assert h[x..x + n] == h[m..][x - m..x - m + n];
      assert b[x..x + n] == b[m..][x - m..x - m + n];
    }
  }

  lemma FixedMachO(spell: Speller, sha: Hash, b: Bytes, es: seq<Edit>, h: Bytes, c: Bytes)
    requires IsSha256(sha) && Signable(spell, b) && NewHeader(spell, b) == Some(es) && AllFit(es, |b|)
    requires h == PatchAll(b, es)
    requires SigOf(h).None? ==> c == h
    requires SigOf(h).Some? && Sane(h, SigOf(h).value) ==>
               Done(sha, h, SigOf(h).value, Blobs(h, SigOf(h).value), 0, c)
    ensures SigOf(h) == SigOf(b) && (SigOf(b).Some? ==> Sane(h, SigOf(b).value))
    ensures Fixed(spell, sha, b, c)
  {
    hide PatchAll, Word, Commands, RespellAll, Concat, HeaderEdits, RoomFrom, AllProper, Done, WellFormed, Signed,
         Intended,
         IsSha256, AnyChange, Blobs, SigFrom, SigOf, Sane, RoomForSignature;
    var ds, m := RespellAll(spell, CommandsOf(b)), HEADER + RoomOf(b);
    HeaderReadsBack(spell, b, es);
    RespelledProper(spell, b);
    HeaderPatched(b, Concat(ds), RoomOf(b));
    SameSignature(spell, b, h);
    if SigOf(b).Some? {
      SaneBehind(b, h, m, SigOf(b).value);
      SignedBehind(sha, b, h, SigOf(b).value, c, m);
      FrontCommands(h, c, ds, RoomOf(b));
      FrontHeader(h, c, m);
      SameSignature(spell, b, c);
    }
  }

  lemma FrontHeader(h: Bytes, c: Bytes, m: nat)
    requires |c| == |h| && HEADER <= m <= |h| && c[0..m] == h[0..m]
    ensures c[..SIZEOFCMDS] == h[..SIZEOFCMDS] && c[24..HEADER] == h[24..HEADER]
    ensures Word(c, SIZEOFCMDS, 4) == Word(h, SIZEOFCMDS, 4)
  {
    hide UnLe;
    SameInside(h, c, m, 0, SIZEOFCMDS);
    SameInside(h, c, m, 24, HEADER);
    SameInside(h, c, m, SIZEOFCMDS, SIZEOFCMDS + 4);
  }

  lemma FrontCommands(h: Bytes, c: Bytes, ds: seq<Command>, room: nat)
    requires |c| == |h| && IsMachO(h) && HEADER + room <= |h| && |Concat(ds)| <= room
    requires c[0..HEADER + room] == h[0..HEADER + room]
    requires AllProper(ds) && CommandsOf(h) == ds && |ds| == Word(h, NCMDS, 4)
    requires h[HEADER..HEADER + |Concat(ds)|] == Concat(ds)
    ensures IsMachO(c) && CommandsOf(c) == ds && |ds| == Word(c, NCMDS, 4)
  {
    hide Commands, Concat, AllProper, UnLe;
    SameInside(h, c, HEADER + room, 0, 4);
    SameInside(h, c, HEADER + room, NCMDS, NCMDS + 4);
    SameInside(h, c, HEADER + room, HEADER, HEADER + |Concat(ds)|);
    CommandsReadBack(c, HEADER, ds);
  }
}
