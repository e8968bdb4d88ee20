/** OpenStore: every pack on disk is loaded into an empty index, from its hint if it has one and by a
    scan that truncates a torn tail otherwise; then a fresh pack above all of them becomes active. */
module StoreOpen {
  import opened Sums
  import opened Bytes
  import opened PackFormat
  import opened PackStore
  import opened PackSteps
  import opened Options
  import opened PackNames

  // ---------------------------------------------------------------- what a pack file yields

  const I64: nat := 0x8000_0000_0000_0000

  /** A 64-bit word read as two's complement. */
  function Signed64(n: nat): int {
    if n % U64 < I64 then n % U64 else n % U64 - U64
  }

  /** The test of `load`: a hint entry whose record lies inside the pack. */
  predicate Fits(e: Entry, size: nat) {
    Signed64(e.off + REC_HEADER + |e.key| + e.vlen) <= size
  }

  function Fitting(es: seq<Entry>, size: nat): (fs: seq<Entry>)
    ensures forall i :: 0 <= i < |fs| ==> fs[i] in es && Fits(fs[i], size)
    decreases |es|
  {
    if es == [] then []
    else Fitting(es[..|es| - 1], size) + (if Fits(es[|es| - 1], size) then [es[|es| - 1]] else [])
  }

  function Contents(d: Disk, n: Name): Bytes {
    if n in d.packs && d.packs[n] < |d.inodes| then d.inodes[d.packs[n]] else []
  }

  /** The records of pack file n that make it into the index. */
  function Surviving(d: Disk, n: Name): seq<Entry> {
    if n in d.hints then Fitting(ReadHints(d.hints[n]), |Contents(d, n)|) else Scan(Contents(d, n), 0)
  }

  function SizeAfter(d: Disk, n: Name): nat {
    if n in d.hints then |Contents(d, n)| else ScanEnd(Contents(d, n), 0)
  }

  predicate HasKey(es: seq<Entry>, k: Bytes)
    decreases |es|
  {
    es != [] && (es[|es| - 1].key == k || HasKey(es[..|es| - 1], k))
  }

  function LastOf(es: seq<Entry>, k: Bytes): Entry
    requires HasKey(es, k)
    decreases |es|
  {
    if es[|es| - 1].key == k then es[|es| - 1] else LastOf(es[..|es| - 1], k)
  }

  /** Index the entries of pack id in order. */
  ghost function AddAll(m: Mem, id: nat, es: seq<Entry>): (n: Mem)
    requires Known(m) && id in m.packs
    ensures Known(n) && n.packs.Keys == m.packs.Keys
    decreases |es|
  {
    if es == [] then m
    else
      var n := AddAll(m, id, es[..|es| - 1]);
      AddFrame(n, id, es[|es| - 1]);
      Add(n, id, es[|es| - 1])
  }

  /** Afterwards a key of the entries points at its last one, unless a newer pack has the key. */
  lemma {:induction false} AddAllIs(m: Mem, id: nat, es: seq<Entry>, k: Bytes)
    requires Known(m) && id in m.packs
    ensures var n := AddAll(m, id, es);
            if HasKey(es, k) && !(k in m.index && m.index[k].pack > id)
            then k in n.index && n.index[k] == LocOf(id, LastOf(es, k))
            else (k in n.index <==> k in m.index) && (k in m.index ==> n.index[k] == m.index[k])
    decreases |es|
  {
    if es != [] {
      AddAllIs(m, id, es[..|es| - 1], k);
    }
  }

  /** Indexing changes nothing of a pack but its live bytes. */
  lemma {:induction false} AddAllFrame(m: Mem, id: nat, es: seq<Entry>)
    requires Known(m) && id in m.packs
    ensures forall j :: j in m.packs ==>
            AddAll(m, id, es).packs[j] == m.packs[j].(live := AddAll(m, id, es).packs[j].live)
    decreases |es|
  {
    if es != [] {
      AddAllFrame(m, id, es[..|es| - 1]);
      AddFrame(AddAll(m, id, es[..|es| - 1]), id, es[|es| - 1]);
    }
  }

  lemma {:induction false} AddAllLive(m: Mem, id: nat, es: seq<Entry>)
    requires LiveOk(m) && id in m.packs
    ensures LiveOk(AddAll(m, id, es))
    decreases |es|
  {
    if es != [] {
      AddAllLive(m, id, es[..|es| - 1]);
      AddKeepsLive(AddAll(m, id, es[..|es| - 1]), id, es[|es| - 1]);
    }
  }

  /** The entry is a record of the log that ends within the first `size` bytes. */
  ghost predicate Inside(log: seq<Rec>, e: Entry, size: nat) {
    IsEntry(log, e) && e.off + REC_HEADER + |e.key| + e.vlen <= size
  }

  ghost predicate AllInside(log: seq<Rec>, es: seq<Entry>, size: nat) {
    forall i :: 0 <= i < |es| ==> Inside(log, es[i], size)
  }

  lemma {:induction false} LastInside(log: seq<Rec>, es: seq<Entry>, size: nat, k: Bytes)
    requires AllInside(log, es, size) && HasKey(es, k)
    ensures Inside(log, LastOf(es, k), size) && LastOf(es, k).key == k
    decreases |es|
  {
    if es[|es| - 1].key != k {
      LastInside(log, es[..|es| - 1], size, k);
    }
  }

  /** An entry of a log is located where its value is. */
  lemma InsideLocated(log: seq<Rec>, e: Entry, p: Pack, id: nat)
    requires LogOk(log) && Inside(log, e, p.size)
    ensures LocatedAt(p, log, e.key, LocOf(id, e))
  {
    var j := IsEntryIndex(log, e);
    EntryFits(log, j, id);
    OffsetNext(log, j);
    StoredAt(log, e.key, LocOf(id, e), j);
  }

  lemma AddAllLocated(m: Mem, logs: map<nat, seq<Rec>>, id: nat, es: seq<Entry>)
    requires Located(m, logs) && id in m.packs && id in logs && LogOk(logs[id])
    requires AllInside(logs[id], es, m.packs[id].size)
    ensures Located(AddAll(m, id, es), logs)
  {
    var n := AddAll(m, id, es);
    AddAllFrame(m, id, es);
    forall k | k in n.index
      ensures n.index[k].pack in logs && LocatedAt(n.packs[n.index[k].pack], logs[n.index[k].pack], k, n.index[k])
    {
      AddAllIs(m, id, es, k);
      if HasKey(es, k) && !(k in m.index && m.index[k].pack > id) {
        LastInside(logs[id], es, m.packs[id].size, k);
        InsideLocated(logs[id], LastOf(es, k), n.packs[id], id);
      } else {
        assert LocatedAt(m.packs[m.index[k].pack], logs[m.index[k].pack], k, m.index[k]);
      }
    }
  }

  lemma EntryBound(log: seq<Rec>, e: Entry)
    requires LogOk(log) && IsEntry(log, e)
    ensures e.off + REC_HEADER + |e.key| + e.vlen < I64
  {
    var j := IsEntryIndex(log, e);
    assert GoodRec(log[j]) && Offset(log, j) <= PACK_LIMIT;
  }

  lemma FitsMeans(e: Entry, size: nat)
    requires e.off + REC_HEADER + |e.key| + e.vlen < I64
    ensures Fits(e, size) <==> e.off + REC_HEADER + |e.key| + e.vlen <= size
  {
  }

  lemma HintedInside(hint: Bytes, log: seq<Rec>, size: nat)
    requires HintOk(hint, log) && LogOk(log)
    ensures AllInside(log, Fitting(ReadHints(hint), size), size)
  {
    hide Fits;
    var es := Fitting(ReadHints(hint), size);
    forall i | 0 <= i < |es|
      ensures Inside(log, es[i], size)
    {
      assert es[i] in ReadHints(hint);
      EntryBound(log, es[i]);
      FitsMeans(es[i], size);
    }
  }

  lemma EntriesInside(log: seq<Rec>, m: nat)
    requires m <= |log|
    ensures AllInside(log, Entries(log, 0, m), Offset(log, m))
  {
    hide IsEntry, Offset;
    forall i | 0 <= i < m
      ensures Inside(log, Entries(log, 0, m)[i], Offset(log, m))
    {
      EntriesAt(log, 0, m, i);
      EntryIsEntry(log, i);
      OffsetNext(log, i);
      OffsetMonotone(log, i + 1, m);
    }
  }

  lemma ScannedInside(b: Bytes, log: seq<Rec>)
    requires b <= EncodeLog(log) && LogOk(log)
    ensures AllInside(log, Scan(b, 0), ScanEnd(b, 0))
    ensures ScanEnd(b, 0) <= |b|
  {
    hide IsEntry, Scan, ScanEnd, Entries;
    ScanRecovers(b, log);
    assert log[..0] == [];
    ScanCut(b, log, 0);
    EntriesInside(log, Complete(log, |b|));
  }

  /** Whatever a crash left of pack file n, what is indexed of it are records of its pack that are
      entirely there. */
  lemma SurvivingInside(d: Disk, logs: map<nat, seq<Rec>>, n: Name)
    requires Logged(d, logs) && LogsOk(logs) && n in d.packs
    ensures SizeAfter(d, n) <= |Contents(d, n)|
    ensures AllInside(logs[n.id], Surviving(d, n), SizeAfter(d, n))
  {
    assert CopyOf(d, d.packs[n], logs[n.id]);
    if n in d.hints {
      HintedInside(d.hints[n], logs[n.id], |Contents(d, n)|);
    } else {
      ScannedInside(Contents(d, n), logs[n.id]);
    }
  }

  // ---------------------------------------------------------------- loading one pack

  /** What the environment decides for one pack: the mtime of the file, and the order in which seal
      walks the index, hence the hint it writes if there is none. */
  datatype Choice = Choice(used: int, hint: Bytes)

  ghost function LoadMem(m: Mem, d: Disk, n: Name, used: int): Mem
    requires Known(m) && n in d.packs && n.id !in m.packs
  {
    AddAll(m.(packs := m.packs[n.id := Pack(n.tier, d.packs[n], SizeAfter(d, n), 0, used)]), n.id, Surviving(d, n))
  }

  /** A hint stays; without one the file is cut at the end of the scan and a hint is written. */
  function LoadDisk(d: Disk, n: Name, hint: Bytes): Disk
    requires n in d.packs && d.packs[n] < |d.inodes| && SizeAfter(d, n) <= |Contents(d, n)|
  {
    if n in d.hints then d
    else WriteHint(d.(inodes := d.inodes[d.packs[n] := Contents(d, n)[..SizeAfter(d, n)]]), n, hint)
  }

  ghost predicate CanLoad(s: Store, n: Name) {
    && Known(s.mem) && n in s.disk.packs && s.disk.packs[n] < |s.disk.inodes| && n.tier < |s.totals|
    && SizeAfter(s.disk, n) <= |Contents(s.disk, n)|
  }

  /** One round of the loop in OpenStore: a pack already loaded from a faster tier is removed. */
  ghost function LoadOne(s: Store, n: Name, c: Choice): Store
    requires CanLoad(s, n)
  {
    if n.id in s.mem.packs then s.(disk := Unlink(s.disk, n))
    else s.(mem := LoadMem(s.mem, s.disk, n, c.used),
            totals := s.totals[n.tier := s.totals[n.tier] + SizeAfter(s.disk, n)],
            disk := LoadDisk(s.disk, n, c.hint))
  }

  ghost predicate Sealable(s: Store, n: Name, c: Choice)
    requires CanLoad(s, n)
  {
    n.id !in s.mem.packs && n !in s.disk.hints ==> HintFrom(LoadOne(s, n, c).mem.index, n.id, c.hint)
  }

  // ---------------------------------------------------------------- what holds while packs are loaded

  ghost predicate AllHinted(packs: map<nat, Pack>, d: Disk) {
    forall id :: id in packs ==> Name(packs[id].tier, id) in d.hints
  }

  /** What is on disk is loaded, or still to be looked at. */
  ghost predicate Covered(packs: map<nat, Pack>, d: Disk, todo: seq<Name>) {
    && (forall n :: n in d.packs ==> n in todo || (n.id in packs && packs[n.id].tier == n.tier))
    && (forall n :: n in todo ==> n in d.packs)
    && (forall id :: id in packs ==> Name(packs[id].tier, id) !in todo)
  }

  ghost predicate Distinct(todo: seq<Name>) {
    forall i, j :: 0 <= i < j < |todo| ==> todo[i] != todo[j]
  }

  /** A pack not loaded yet is as it was when the store was opened. */
  ghost predicate Untouched(d0: Disk, packs: map<nat, Pack>, d: Disk, todo: seq<Name>) {
    forall n :: n in todo && n.id !in packs ==>
      && n in d0.packs && Contents(d, n) == Contents(d0, n)
      && (n in d.hints <==> n in d0.hints) && (n in d0.hints ==> d.hints[n] == d0.hints[n])
  }

  ghost predicate Files(packs: map<nat, Pack>, d: Disk, todo: seq<Name>, logs: map<nat, seq<Rec>>) {
    && LogsOk(logs)
    && Logged(d, logs)
    && Owned(d.packs)
    && FilesOk(packs, d)
    && AllHinted(packs, d)
    && Covered(packs, d, todo)
    && Distinct(todo)
  }

  // ---- the disk

  lemma CutLogged(d: Disk, logs: map<nat, seq<Rec>>, file: nat, b: Bytes)
    requires Logged(d, logs) && file < |d.inodes| && b <= d.inodes[file]
    ensures Logged(d.(inodes := d.inodes[file := b]), logs)
  {
    var e := d.(inodes := d.inodes[file := b]);
    forall n | n in e.packs
      ensures n.id in logs && CopyOf(e, e.packs[n], logs[n.id])
    {
      assert CopyOf(d, d.packs[n], logs[n.id]);
    }
  }

  lemma LoadDiskLogged(d: Disk, logs: map<nat, seq<Rec>>, n: Name, hint: Bytes)
    requires Logged(d, logs) && LogsOk(logs) && n in d.packs
    requires n !in d.hints ==> HintOk(hint, logs[n.id])
    ensures d.packs[n] < |d.inodes| && SizeAfter(d, n) <= |Contents(d, n)|
    ensures Logged(LoadDisk(d, n, hint), logs)
  {
    assert CopyOf(d, d.packs[n], logs[n.id]);
    SurvivingInside(d, logs, n);
    if n !in d.hints {
      CutLogged(d, logs, d.packs[n], Contents(d, n)[..SizeAfter(d, n)]);
    }
  }

  lemma LoadedFiles(packs: map<nat, Pack>, qs: map<nat, Pack>, d: Disk, n: Name, hint: Bytes)
    requires FilesOk(packs, d) && AllHinted(packs, d) && Owned(d.packs)
    requires n in d.packs && d.packs[n] < |d.inodes| && SizeAfter(d, n) <= |Contents(d, n)| && n.id !in packs
    requires qs.Keys == packs.Keys + {n.id} && (forall j :: j in packs ==> qs[j] == packs[j].(live := qs[j].live))
    requires qs[n.id].tier == n.tier && qs[n.id].file == d.packs[n] && qs[n.id].size == SizeAfter(d, n)
    ensures FilesOk(qs, LoadDisk(d, n, hint)) && AllHinted(qs, LoadDisk(d, n, hint))
  {
    var e := LoadDisk(d, n, hint);
    forall j | j in qs
      ensures FileOk(e, j, qs[j])
    {
      if j != n.id {
        assert FileOk(d, j, packs[j]);
      }
    }
  }

  lemma Rest(n: Name, todo: seq<Name>, x: Name)
    requires todo != [] && todo[0] == n
    ensures x in todo <==> x == n || x in todo[1..]
  {
    if x in todo[1..] {
      var i :| 0 <= i < |todo| - 1 && todo[1..][i] == x;
      assert todo[i + 1] == x;
    }
  }

  lemma LoadedCovered(packs: map<nat, Pack>, qs: map<nat, Pack>, d: Disk, e: Disk, todo: seq<Name>)
    requires todo != [] && Covered(packs, d, todo) && Distinct(todo) && e.packs == d.packs && todo[0].id !in packs
    requires qs.Keys == packs.Keys + {todo[0].id} && (forall j :: j in packs ==> qs[j].tier == packs[j].tier)
    requires qs[todo[0].id].tier == todo[0].tier
    ensures Covered(qs, e, todo[1..])
  {
    forall x: Name
      ensures x in todo <==> x == todo[0] || x in todo[1..]
    {
      Rest(todo[0], todo, x);
    }
  }

  lemma DroppedCovered(packs: map<nat, Pack>, d: Disk, todo: seq<Name>)
    requires todo != [] && Covered(packs, d, todo) && Distinct(todo)
    ensures Covered(packs, Unlink(d, todo[0]), todo[1..])
  {
    forall x: Name
      ensures x in todo <==> x == todo[0] || x in todo[1..]
    {
      Rest(todo[0], todo, x);
    }
    forall x | x in todo[1..]
      ensures x in Unlink(d, todo[0]).packs
    {
      var i :| 0 <= i < |todo| - 1 && todo[1..][i] == x;
      assert todo[i + 1] == x && todo[0] != todo[i + 1];
    }
  }

  lemma DropFiles(packs: map<nat, Pack>, d: Disk, n: Name)
    requires FilesOk(packs, d) && AllHinted(packs, d) && forall id :: id in packs ==> Name(packs[id].tier, id) != n
    ensures FilesOk(packs, Unlink(d, n)) && AllHinted(packs, Unlink(d, n))
  {
    forall id | id in packs
      ensures FileOk(Unlink(d, n), id, packs[id])
    {
      assert FileOk(d, id, packs[id]);
    }
  }

  lemma DropKeepsFiles(packs: map<nat, Pack>, d: Disk, todo: seq<Name>, logs: map<nat, seq<Rec>>)
    requires Files(packs, d, todo, logs) && todo != []
    ensures Files(packs, Unlink(d, todo[0]), todo[1..], logs)
  {
    hide LogsOk, Logged, FilesOk, AllHinted;
    UnlinkLogged(d, logs, todo[0]);
    DropFiles(packs, d, todo[0]);
    DroppedCovered(packs, d, todo);
  }

  lemma LoadKeepsFiles(packs: map<nat, Pack>, qs: map<nat, Pack>, d: Disk, todo: seq<Name>, logs: map<nat, seq<Rec>>,
                       hint: Bytes)
    requires Files(packs, d, todo, logs) && todo != [] && todo[0].id !in packs && todo[0].id in logs
    requires d.packs[todo[0]] < |d.inodes| && SizeAfter(d, todo[0]) <= |Contents(d, todo[0])|
    requires todo[0] !in d.hints ==> HintOk(hint, logs[todo[0].id])
    requires qs.Keys == packs.Keys + {todo[0].id} && (forall j :: j in packs ==> qs[j] == packs[j].(live := qs[j].live))
    requires qs[todo[0].id].tier == todo[0].tier && qs[todo[0].id].file == d.packs[todo[0]]
    requires qs[todo[0].id].size == SizeAfter(d, todo[0])
    ensures Files(qs, LoadDisk(d, todo[0], hint), todo[1..], logs)
  {
    hide LogsOk, Logged, FilesOk, AllHinted, HintOk, SizeAfter, Contents;
    LoadDiskLogged(d, logs, todo[0], hint);
    LoadedFiles(packs, qs, d, todo[0], hint);
    LoadedCovered(packs, qs, d, LoadDisk(d, todo[0], hint), todo);
  }

  // ---- memory

  lemma LoadInMemory(m: Mem, totals: seq<int>, d: Disk, logs: map<nat, seq<Rec>>, n: Name, used: int)
    requires InMemory(m, totals, logs) && Logged(d, logs) && LogsOk(logs)
    requires n in d.packs && n.id !in m.packs && n.tier < |totals|
    ensures n.id in logs
    ensures InMemory(LoadMem(m, d, n, used), totals[n.tier := totals[n.tier] + SizeAfter(d, n)], logs)
  {
    hide Surviving, SizeAfter, Contents, LogsOk, Logged, TotalsOk;
    var p := Pack(n.tier, d.packs[n], SizeAfter(d, n), 0, used);
    var before := m.(packs := m.packs[n.id := p]);
    InLog(d, logs, n);
    NewPackInMemory(m, totals, logs, n.id, p);
    SurvivingInside(d, logs, n);
    AddAllLocated(before, logs, n.id, Surviving(d, n));
    AddAllLive(before, n.id, Surviving(d, n));
    AddAllFrame(before, n.id, Surviving(d, n));
    SameSizes(before.packs, LoadMem(m, d, n, used).packs, totals[n.tier := totals[n.tier] + p.size]);
  }

  lemma InLog(d: Disk, logs: map<nat, seq<Rec>>, n: Name)
    requires Logged(d, logs) && LogsOk(logs) && n in d.packs
    ensures n.id in logs && LogOk(logs[n.id]) && d.packs[n] < |d.inodes|
  {
    assert CopyOf(d, d.packs[n], logs[n.id]);
  }

  lemma SameSizes(packs: map<nat, Pack>, qs: map<nat, Pack>, totals: seq<int>)
    requires TotalsOk(packs, totals) && packs.Keys == qs.Keys
    requires forall j :: j in packs ==> qs[j] == packs[j].(live := qs[j].live)
    ensures TotalsOk(qs, totals)
  {
    forall t | 0 <= t < |totals|
      ensures Sum(SizesIn(qs, t)) == Sum(SizesIn(packs, t))
    {
      assert SizesIn(qs, t) == SizesIn(packs, t);
    }
  }

  lemma NewPackInMemory(m: Mem, totals: seq<int>, logs: map<nat, seq<Rec>>, id: nat, p: Pack)
    requires InMemory(m, totals, logs) && id !in m.packs && p.live == 0 && p.tier < |totals|
    ensures InMemory(m.(packs := m.packs[id := p]), totals[p.tier := totals[p.tier] + p.size], logs)
  {
    assert LiveIn(m.index, id) == map[];
    forall t | 0 <= t < |totals|
      ensures Sum(SizesIn(m.packs[id := p], t)) == totals[t] + (if t == p.tier then p.size else 0)
    {
      SizesAfter(m.packs, id, p, t);
    }
    forall k | k in m.index
      ensures LocatedAt(m.packs[m.index[k].pack], logs[m.index[k].pack], k, m.index[k])
    {
    }
  }

  // ---------------------------------------------------------------- last write wins

  /** The records indexed from the copy of pack id that was loaded. */
  function CopyEntries(d0: Disk, packs: map<nat, Pack>, id: nat): seq<Entry>
    requires id in packs
  {
    Surviving(d0, Name(packs[id].tier, id))
  }

  /** Every key points at the last entry for it in the newest loaded pack that has one. */
  ghost predicate Newest(d0: Disk, m: Mem) {
    && (forall k :: k in m.index ==>
          && m.index[k].pack in m.packs
          && HasKey(CopyEntries(d0, m.packs, m.index[k].pack), k)
          && m.index[k] == LocOf(m.index[k].pack, LastOf(CopyEntries(d0, m.packs, m.index[k].pack), k)))
    && (forall k, id :: id in m.packs && HasKey(CopyEntries(d0, m.packs, id), k) ==>
          k in m.index && id <= m.index[k].pack)
  }

  /** What indexing es in pack id does to key k. */
  ghost predicate Superseded(m: Mem, after: Mem, id: nat, es: seq<Entry>, k: Bytes) {
    if HasKey(es, k) && !(k in m.index && m.index[k].pack > id)
    then k in after.index && after.index[k] == LocOf(id, LastOf(es, k))
    else (k in after.index <==> k in m.index) && (k in m.index ==> after.index[k] == m.index[k])
  }

  lemma StaysNewest(d0: Disk, m: Mem, after: Mem, n: Name)
    requires Newest(d0, m) && n.id !in m.packs && after.packs.Keys == m.packs.Keys + {n.id}
    requires after.packs[n.id].tier == n.tier && forall j :: j in m.packs ==> after.packs[j].tier == m.packs[j].tier
    requires forall k :: Superseded(m, after, n.id, Surviving(d0, n), k)
    ensures Newest(d0, after)
  {
    hide Surviving, HasKey, LastOf;
    assert forall j :: j in m.packs ==> CopyEntries(d0, after.packs, j) == CopyEntries(d0, m.packs, j);
    assert CopyEntries(d0, after.packs, n.id) == Surviving(d0, n);
    forall k | k in after.index
      ensures after.index[k].pack in after.packs && HasKey(CopyEntries(d0, after.packs, after.index[k].pack), k)
      ensures after.index[k] == LocOf(after.index[k].pack, LastOf(CopyEntries(d0, after.packs, after.index[k].pack), k))
    {
      assert Superseded(m, after, n.id, Surviving(d0, n), k);
    }
    forall k, id | id in after.packs && HasKey(CopyEntries(d0, after.packs, id), k)
      ensures k in after.index && id <= after.index[k].pack
    {
      assert Superseded(m, after, n.id, Surviving(d0, n), k);
    }
  }

  lemma LoadNewest(d0: Disk, m: Mem, d: Disk, n: Name, used: int)
    requires Newest(d0, m) && Known(m) && n in d.packs && n.id !in m.packs
    requires Surviving(d, n) == Surviving(d0, n)
    ensures Newest(d0, LoadMem(m, d, n, used))
  {
    hide Surviving, SizeAfter, Newest, HasKey, LastOf, AddAll;
    var before := m.(packs := m.packs[n.id := Pack(n.tier, d.packs[n], SizeAfter(d, n), 0, used)]);
    LoadMemFrame(m, d, n, used);
    forall k
      ensures Superseded(m, LoadMem(m, d, n, used), n.id, Surviving(d0, n), k)
    {
      AddAllIs(before, n.id, Surviving(d, n), k);
    }
    StaysNewest(d0, m, LoadMem(m, d, n, used), n);
  }

  /** The copy loaded is the one in the fastest tier that has one. */
  ghost predicate Fastest(d0: Disk, packs: map<nat, Pack>) {
    && (forall n :: n in d0.packs && n.id in packs ==> packs[n.id].tier <= n.tier)
    && (forall id :: id in packs ==> Name(packs[id].tier, id) in d0.packs)
  }

  ghost predicate Ahead(d0: Disk, packs: map<nat, Pack>, todo: seq<Name>) {
    && (forall n :: n in d0.packs ==> n.id in packs || n in todo)
    && (forall i, j :: 0 <= i < j < |todo| ==> todo[i].tier <= todo[j].tier)
  }

  lemma AheadStep(d0: Disk, packs: map<nat, Pack>, qs: map<nat, Pack>, todo: seq<Name>)
    requires Ahead(d0, packs, todo) && Fastest(d0, packs) && todo != []
    requires todo[0].id !in packs ==> todo[0] in d0.packs
    requires qs.Keys == packs.Keys + {todo[0].id} && (forall j :: j in packs ==> qs[j].tier == packs[j].tier)
    requires todo[0].id !in packs ==> qs[todo[0].id].tier == todo[0].tier
    ensures Ahead(d0, qs, todo[1..]) && Fastest(d0, qs)
  {
    forall x: Name
      ensures x in todo <==> x == todo[0] || x in todo[1..]
    {
      Rest(todo[0], todo, x);
    }
  }

  lemma SameSurviving(d0: Disk, packs: map<nat, Pack>, d: Disk, todo: seq<Name>, n: Name)
    requires Untouched(d0, packs, d, todo) && n in todo && n.id !in packs
    ensures n in d0.packs && Surviving(d, n) == Surviving(d0, n)
  {
  }

  lemma UntouchedLoad(d0: Disk, packs: map<nat, Pack>, qs: map<nat, Pack>, d: Disk, todo: seq<Name>, hint: Bytes)
    requires todo != [] && Untouched(d0, packs, d, todo) && Owned(d.packs) && (forall n :: n in todo ==> n in d.packs)
    requires d.packs[todo[0]] < |d.inodes| && SizeAfter(d, todo[0]) <= |Contents(d, todo[0])|
    requires qs.Keys == packs.Keys + {todo[0].id}
    ensures Untouched(d0, qs, LoadDisk(d, todo[0], hint), todo[1..])
  {
    var e := LoadDisk(d, todo[0], hint);
    forall n | n in todo[1..] && n.id !in qs
      ensures Contents(e, n) == Contents(d, n)
    {
    }
  }

  lemma UntouchedDrop(d0: Disk, packs: map<nat, Pack>, d: Disk, todo: seq<Name>)
    requires todo != [] && Untouched(d0, packs, d, todo) && todo[0].id in packs
    ensures Untouched(d0, packs, Unlink(d, todo[0]), todo[1..])
  {
    forall n | n in todo[1..] && n.id !in packs
      ensures Contents(Unlink(d, todo[0]), n) == Contents(d, n)
    {
    }
  }

  // ---------------------------------------------------------------- all of OpenStore

  ghost predicate Reference(d0: Disk, m: Mem, d: Disk, todo: seq<Name>) {
    && Untouched(d0, m.packs, d, todo)
    && Newest(d0, m)
    && Fastest(d0, m.packs)
    && Ahead(d0, m.packs, todo)
  }

  ghost predicate Opening(d0: Disk, s: Store, todo: seq<Name>, logs: map<nat, seq<Rec>>) {
    && Files(s.mem.packs, s.disk, todo, logs)
    && InMemory(s.mem, s.totals, logs)
    && Reference(d0, s.mem, s.disk, todo)
    && (forall n :: n in todo ==> n.tier < |s.totals|)
  }

  lemma LoadMemFrame(m: Mem, d: Disk, n: Name, used: int)
    requires Known(m) && n in d.packs && n.id !in m.packs
    ensures var qs := LoadMem(m, d, n, used).packs;
            && qs.Keys == m.packs.Keys + {n.id}
            && (forall j :: j in m.packs ==> qs[j] == m.packs[j].(live := qs[j].live))
            && qs[n.id].tier == n.tier && qs[n.id].file == d.packs[n] && qs[n.id].size == SizeAfter(d, n)
  {
    hide Surviving, SizeAfter;
    AddAllFrame(m.(packs := m.packs[n.id := Pack(n.tier, d.packs[n], SizeAfter(d, n), 0, used)]), n.id,
                Surviving(d, n));
  }

  lemma LoadReference(d0: Disk, m: Mem, d: Disk, todo: seq<Name>, c: Choice)
    requires Reference(d0, m, d, todo) && todo != [] && todo[0].id !in m.packs && Known(m)
    requires Owned(d.packs) && (forall n :: n in todo ==> n in d.packs)
    requires d.packs[todo[0]] < |d.inodes| && SizeAfter(d, todo[0]) <= |Contents(d, todo[0])|
    ensures Reference(d0, LoadMem(m, d, todo[0], c.used), LoadDisk(d, todo[0], c.hint), todo[1..])
  {
    hide Surviving, SizeAfter, Contents, Newest, Untouched, Owned, Fastest, Ahead;
    LoadMemFrame(m, d, todo[0], c.used);
    SameSurviving(d0, m.packs, d, todo, todo[0]);
    LoadNewest(d0, m, d, todo[0], c.used);
    AheadStep(d0, m.packs, LoadMem(m, d, todo[0], c.used).packs, todo);
    UntouchedLoad(d0, m.packs, LoadMem(m, d, todo[0], c.used).packs, d, todo, c.hint);
  }

  lemma DropReference(d0: Disk, m: Mem, d: Disk, todo: seq<Name>)
    requires Reference(d0, m, d, todo) && todo != [] && todo[0].id in m.packs
    ensures Reference(d0, m, Unlink(d, todo[0]), todo[1..])
  {
    hide Newest, Untouched, Fastest, Ahead;
    AheadStep(d0, m.packs, m.packs, todo);
    UntouchedDrop(d0, m.packs, d, todo);
  }

  lemma OpeningCanLoad(d0: Disk, s: Store, todo: seq<Name>, logs: map<nat, seq<Rec>>)
    requires Opening(d0, s, todo, logs) && todo != []
    ensures CanLoad(s, todo[0]) && todo[0].id in logs
  {
    hide Surviving, SizeAfter, Contents, Reference, TotalsOk, LiveOk, LogsOk, Logged;
    InLog(s.disk, logs, todo[0]);
    SurvivingInside(s.disk, logs, todo[0]);
  }

  lemma LoadedHintOk(s: Store, n: Name, c: Choice, logs: map<nat, seq<Rec>>)
    requires CanLoad(s, n) && Sealable(s, n, c) && n.id !in s.mem.packs && n !in s.disk.hints
    requires LogsOk(logs) && n.id in logs && Located(LoadOne(s, n, c).mem, logs)
    ensures HintOk(c.hint, logs[n.id])
  {
    SealedHintOk(LoadOne(s, n, c).mem, logs, n.id, c.hint);
  }

  lemma LoadStep(d0: Disk, s: Store, todo: seq<Name>, c: Choice, logs: map<nat, seq<Rec>>)
    requires Opening(d0, s, todo, logs) && todo != [] && CanLoad(s, todo[0]) && Sealable(s, todo[0], c)
    requires todo[0].id !in s.mem.packs && todo[0].id in logs
    ensures Opening(d0, LoadOne(s, todo[0], c), todo[1..], logs)
  {
    hide Surviving, SizeAfter, Contents, LogsOk, Logged, Owned, FilesOk, AllHinted, Distinct, Reference, LoadMem,
         LoadDisk,
         TiersOk, LiveOk, TotalsOk, Located, HintOk, HintFrom;
    LoadInMemory(s.mem, s.totals, s.disk, logs, todo[0], c.used);
    LoadMemFrame(s.mem, s.disk, todo[0], c.used);
    if todo[0] !in s.disk.hints {
      LoadedHintOk(s, todo[0], c, logs);
    }
    LoadKeepsFiles(s.mem.packs, LoadMem(s.mem, s.disk, todo[0], c.used).packs, s.disk, todo, logs, c.hint);
    LoadReference(d0, s.mem, s.disk, todo, c);
  }

  /** One round of the loop keeps all of it. */
  lemma OpenStep(d0: Disk, s: Store, todo: seq<Name>, c: Choice, logs: map<nat, seq<Rec>>)
    requires Opening(d0, s, todo, logs) && todo != [] && CanLoad(s, todo[0]) && Sealable(s, todo[0], c)
    ensures Opening(d0, LoadOne(s, todo[0], c), todo[1..], logs)
  {
    hide Files, InMemory, Reference, Sealable, LoadMem, LoadDisk, Contents, SizeAfter;
    OpeningCanLoad(d0, s, todo, logs);
    if todo[0].id in s.mem.packs {
      DropKeepsFiles(s.mem.packs, s.disk, todo, logs);
      DropReference(d0, s.mem, s.disk, todo);
    } else {
      LoadStep(d0, s, todo, c, logs);
    }
  }

  /** The daemon's state before the first pack is loaded. */
  function Empty(d: Disk, budgets: seq<int>): Store {
    Store(Mem(map[], map[]), seq(|budgets|, _ => 0), budgets, 0, false, Resting, d)
  }

  ghost predicate Loadable(s: Store, todo: seq<Name>, cs: seq<Choice>)
    requires |cs| == |todo|
    decreases |todo|
  {
    todo == [] ||
    (CanLoad(s, todo[0]) && Sealable(s, todo[0], cs[0]) && Loadable(LoadOne(s, todo[0], cs[0]), todo[1..], cs[1..]))
  }

  ghost function LoadAll(s: Store, todo: seq<Name>, cs: seq<Choice>): Store
    requires |cs| == |todo| && Loadable(s, todo, cs)
    decreases |todo|
  {
    if todo == [] then s else LoadAll(LoadOne(s, todo[0], cs[0]), todo[1..], cs[1..])
  }

  lemma {:induction false} LoadsKeep(d0: Disk, s: Store, todo: seq<Name>, cs: seq<Choice>, logs: map<nat, seq<Rec>>)
    requires |cs| == |todo| && Loadable(s, todo, cs) && Opening(d0, s, todo, logs)
    ensures Opening(d0, LoadAll(s, todo, cs), [], logs)
    ensures LoadAll(s, todo, cs) == s.(mem := LoadAll(s, todo, cs).mem, totals := LoadAll(s, todo, cs).totals,
                                       disk := LoadAll(s, todo, cs).disk)
    ensures |LoadAll(s, todo, cs).totals| == |s.totals|
    decreases |todo|
  {
    hide Opening, Sealable;
    if todo == [] {
      assert todo == [];
    } else {
      OpenStep(d0, s, todo, cs[0], logs);
      LoadsKeep(d0, LoadOne(s, todo[0], cs[0]), todo[1..], cs[1..], logs);
    }
  }

  /** The id is read back from the file's name. */
  predicate Recognised(id: nat) {
    ParseId(PackFile(id)) == Some(id)
  }

  /** The file names OpenStore goes through: tier by tier, each once, those it recognises. */
  ghost predicate Listing(d: Disk, todo: seq<Name>) {
    && Distinct(todo)
    && (forall n :: n in todo <==> n in d.packs && Recognised(n.id))
    && (forall i, j :: 0 <= i < j < |todo| ==> todo[i].tier <= todo[j].tier)
  }

  /** What a crash leaves behind: every pack file a copy of its log, maybe cut short, every hint a list
      of records of its pack, and the newest pack of all still there. */
  ghost predicate Recoverable(d: Disk, tiers: nat, logs: map<nat, seq<Rec>>) {
    && LogsOk(logs)
    && Logged(d, logs)
    && Owned(d.packs)
    && (forall n :: n in d.packs ==> n.tier < tiers)
    && Topped(d, logs)
  }

  ghost predicate Topped(d: Disk, logs: map<nat, seq<Rec>>) {
    forall j :: j in logs ==> exists n :: n in d.packs && j <= n.id
  }

  /** Every id on disk still fits the six digits of a file name. */
  ghost predicate SixDigits(d: Disk) {
    forall n :: n in d.packs ==> n.id < ID_LIMIT
  }

  lemma EmptyTotals(tiers: nat)
    ensures TotalsOk(map[], seq(tiers, _ => 0))
  {
    forall t | 0 <= t < tiers
      ensures Sum(SizesIn(map[], t)) == 0
    {
      var none: map<nat, int> := SizesIn(map[], t);
      assert none == map[];
    }
  }

  lemma OpeningStarts(d: Disk, budgets: seq<int>, todo: seq<Name>, logs: map<nat, seq<Rec>>)
    requires Recoverable(d, |budgets|, logs) && Listing(d, todo) && SixDigits(d)
    ensures Opening(d, Empty(d, budgets), todo, logs)
  {
    hide LogsOk, Logged, Owned, TotalsOk, ParseId, PackFile;
    forall n | n in d.packs
      ensures n in todo
    {
      NameRoundTrip(n.id);
    }
    EmptyTotals(|budgets|);
  }

  /** `last`: the greatest id loaded, 0 if there is none. */
  ghost predicate IsLast(packs: map<nat, Pack>, last: nat) {
    (forall id :: id in packs ==> id <= last) && (last == 0 || last in packs)
  }

  lemma LoadedSealed(d0: Disk, s: Store, logs: map<nat, seq<Rec>>, last: nat)
    requires Opening(d0, s, [], logs) && |s.totals| == |s.budgets| > 0 && s.demoter.Resting?
    requires IsLast(s.mem.packs, last)
    requires Topped(d0, logs)
    ensures Sealed(s, logs, last + 1)
  {
    hide LogsOk, Logged, Owned, FilesOk, InMemory;
    forall j | j in logs
      ensures j < last + 1
    {
      var n :| n in d0.packs && j <= n.id;
      assert n.id in s.mem.packs || n in [];
    }
  }

  /** The index OpenStore ends up with, said without the loop: a key is there iff the fastest copy of
      some pack holds a surviving record of it, and then it points at the last such record in the
      newest such pack. */
  ghost predicate LastWriteWins(d: Disk, index: map<Bytes, Loc>) {
    && (forall k, n :: FastCopy(d, n) && HasKey(Surviving(d, n), k) ==> k in index && n.id <= index[k].pack)
    && (forall k :: k in index ==> exists n :: FastCopy(d, n) && IsLastIn(d, n, k, index[k]))
  }

  ghost predicate FastCopy(d: Disk, n: Name) {
    n in d.packs && forall x :: x in d.packs && x.id == n.id ==> n.tier <= x.tier
  }

  predicate IsLastIn(d: Disk, n: Name, k: Bytes, l: Loc) {
    HasKey(Surviving(d, n), k) && l == LocOf(n.id, LastOf(Surviving(d, n), k))
  }

  lemma ReferenceIndex(d0: Disk, m: Mem)
    requires Newest(d0, m) && Fastest(d0, m.packs) && Ahead(d0, m.packs, [])
    ensures LastWriteWins(d0, m.index)
  {
    hide Newest, Fastest, Ahead, Surviving, HasKey, LastOf, FastCopy, IsLastIn;
    forall k, n | FastCopy(d0, n) && HasKey(Surviving(d0, n), k)
      ensures k in m.index && n.id <= m.index[k].pack
    {
      SurvivorIndexed(d0, m, k, n);
    }
    forall k | k in m.index
      ensures exists n :: FastCopy(d0, n) && IsLastIn(d0, n, k, m.index[k])
    {
      var n := IndexedFrom(d0, m, k);
    }
  }

  lemma SurvivorIndexed(d0: Disk, m: Mem, k: Bytes, n: Name)
    requires Newest(d0, m) && Fastest(d0, m.packs) && Ahead(d0, m.packs, [])
    requires FastCopy(d0, n) && HasKey(Surviving(d0, n), k)
    ensures k in m.index && n.id <= m.index[k].pack
  {
    hide Surviving, HasKey, LastOf, LocOf;
    assert n.id in m.packs || n in [];
    assert Name(m.packs[n.id].tier, n.id) == n;
    assert HasKey(CopyEntries(d0, m.packs, n.id), k);
  }

  lemma IndexedFrom(d0: Disk, m: Mem, k: Bytes) returns (n: Name)
    requires Newest(d0, m) && Fastest(d0, m.packs) && k in m.index
    ensures FastCopy(d0, n) && IsLastIn(d0, n, k, m.index[k])
  {
    hide Surviving, HasKey, LastOf, LocOf;
    n := Name(m.packs[m.index[k].pack].tier, m.index[k].pack);
  }

  /** Crash recovery. Whatever a crash left, opening the store gives a consistent store whose index is
      last-write-wins over the surviving records, with a fresh active pack above every pack there ever
      was. The order of names within a tier and the hints' order do not matter. */
  lemma OpenRecovers(d: Disk, budgets: seq<int>, todo: seq<Name>, cs: seq<Choice>, last: nat, now: int,
                     logs: map<nat, seq<Rec>>)
    requires Recoverable(d, |budgets|, logs) && budgets != [] && Listing(d, todo)
    requires SixDigits(d)
    requires |cs| == |todo| && Loadable(Empty(d, budgets), todo, cs)
    requires IsLast(LoadAll(Empty(d, budgets), todo, cs).mem.packs, last)
    ensures var s := Fresh(LoadAll(Empty(d, budgets), todo, cs), last + 1, now);
            && Inv(s, logs[last + 1 := []])
            && LastWriteWins(d, s.mem.index)
            && (forall j :: j in logs ==> j < s.active)
  {
    hide Inv, Loadable, LoadAll, Opening, LastWriteWins, Sealed, LogsOk, Logged, Owned, Listing, IsLast;
    var s := LoadAll(Empty(d, budgets), todo, cs);
    OpeningStarts(d, budgets, todo, logs);
    LoadsKeep(d, Empty(d, budgets), todo, cs, logs);
    LoadedSealed(d, s, logs, last);
    FreshKeepsInv(s, logs, last + 1, now);
    IndexIsReference(d, s, logs);
    SealedAbove(s, logs, last + 1);
  }

  lemma IndexIsReference(d: Disk, s: Store, logs: map<nat, seq<Rec>>)
    requires Opening(d, s, [], logs)
    ensures LastWriteWins(d, s.mem.index)
  {
    hide Files, InMemory, LastWriteWins, Newest, Fastest, Ahead;
    ReferenceIndex(d, s.mem);
  }

  lemma SealedAbove(s: Store, logs: map<nat, seq<Rec>>, id: nat)
    requires Sealed(s, logs, id)
    ensures forall j :: j in logs ==> j < id
  {
  }

  lemma {:induction false} OnlyListed(s: Store, todo: seq<Name>, cs: seq<Choice>, id: nat)
    requires |cs| == |todo| && Loadable(s, todo, cs)
    ensures id in LoadAll(s, todo, cs).mem.packs ==> id in s.mem.packs || exists n :: n in todo && n.id == id
    decreases |todo|
  {
    if todo != [] && id in LoadAll(s, todo, cs).mem.packs {
      var t := LoadOne(s, todo[0], cs[0]);
      OnlyListed(t, todo[1..], cs[1..], id);
      if id !in t.mem.packs {
        var n :| n in todo[1..] && n.id == id;
        assert n in todo;
      }
    }
  }

  /** Names are read back with six digits. So the fresh pack's name is free and its id is above all
      others if and only if no pack on disk has reached a million. */
  lemma FreshAboveIff(d: Disk, budgets: seq<int>, todo: seq<Name>, cs: seq<Choice>, last: nat, logs: map<nat, seq<Rec>>)
    requires Recoverable(d, |budgets|, logs) && budgets != [] && Listing(d, todo)
    requires |cs| == |todo| && Loadable(Empty(d, budgets), todo, cs)
    requires IsLast(LoadAll(Empty(d, budgets), todo, cs).mem.packs, last)
    ensures (Name(0, last + 1) !in d.packs && forall n :: n in d.packs ==> n.id < last + 1)
       <==> SixDigits(d)
  {
    hide Recoverable, Loadable, LoadAll, Recognised;
    var s := LoadAll(Empty(d, budgets), todo, cs);
    OnlyListed(Empty(d, budgets), todo, cs, last);
    if last in s.mem.packs {
      var n :| n in todo && n.id == last;
      RecognisedBelow(last);
    }
    if SixDigits(d) {
      AllLoaded(d, budgets, todo, cs, logs);
    }
  }

  lemma RecognisedBelow(id: nat)
    requires Recognised(id)
    ensures id < ID_LIMIT
  {
    NameRoundTrip(id);
  }

  lemma LoadedIds(d0: Disk, s: Store, logs: map<nat, seq<Rec>>)
    requires Opening(d0, s, [], logs)
    ensures forall n :: n in d0.packs ==> n.id in s.mem.packs
  {
    hide Files, InMemory, Newest, Untouched, Fastest;
    assert forall n :: n in d0.packs ==> n.id in s.mem.packs || n in [];
  }

  lemma AllLoaded(d: Disk, budgets: seq<int>, todo: seq<Name>, cs: seq<Choice>, logs: map<nat, seq<Rec>>)
    requires Recoverable(d, |budgets|, logs) && Listing(d, todo) && SixDigits(d)
    requires |cs| == |todo| && Loadable(Empty(d, budgets), todo, cs)
    ensures forall n :: n in d.packs ==> n.id in LoadAll(Empty(d, budgets), todo, cs).mem.packs
  {
    hide Recoverable, Loadable, LoadAll, Listing, Opening, SixDigits;
    OpeningStarts(d, budgets, todo, logs);
    LoadsKeep(d, Empty(d, budgets), todo, cs, logs);
    LoadedIds(d, LoadAll(Empty(d, budgets), todo, cs), logs);
  }

  /** With pack 1000000 beside pack 999999 only the latter is listed, the fresh pack's name is taken
      and opening fails. */
  lemma MillionthPackBlocksOpen(d: Disk, budgets: seq<int>, c: Choice, last: nat)
    requires d.packs.Keys == {Name(0, 999_999), Name(0, 1_000_000)}
    requires Loadable(Empty(d, budgets), [Name(0, 999_999)], [c])
    requires IsLast(LoadAll(Empty(d, budgets), [Name(0, 999_999)], [c]).mem.packs, last)
    ensures Listing(d, [Name(0, 999_999)])
    ensures Name(0, last + 1) in d.packs
  {
    hide Loadable, LoadAll, ParseId, PackFile;
    NameRoundTrip(999_999);
    NameRoundTrip(1_000_000);
    OneLoaded(d, budgets, [Name(0, 999_999)], [c]);
  }

  lemma OneLoaded(d: Disk, budgets: seq<int>, todo: seq<Name>, cs: seq<Choice>)
    requires |todo| == |cs| == 1 && Loadable(Empty(d, budgets), todo, cs)
    ensures LoadAll(Empty(d, budgets), todo, cs).mem.packs.Keys == {todo[0].id}
  {
    hide Sealable, SizeAfter, Surviving, Contents;
    var s := Empty(d, budgets);
    assert Loadable(LoadOne(s, todo[0], cs[0]), todo[1..], cs[1..]);
    assert LoadAll(s, todo, cs) == LoadAll(LoadOne(s, todo[0], cs[0]), todo[1..], cs[1..]);
    LoadMemFrame(s.mem, d, todo[0], cs[0].used);
  }
}
