/** The daemon's pack store (store.go) as a value: the in-memory index, the packs and tier totals, and
    the directories and inodes they stand on. Every function is what one critical section does, or
    one unlocked step of the demoter. Sealing walks a map in arbitrary order, so the hint it writes is
    an argument. */
module PackStore {
  import opened Sums
  import opened Bytes
  import opened PackFormat

  // ---------------------------------------------------------------- state

  datatype Loc = Loc(pack: nat, off: nat, len: nat)

  /** `file` is the inode the pack's descriptor is open on. */
  datatype Pack = Pack(tier: nat, file: nat, size: nat, live: int, used: int)

  datatype Mem = Mem(index: map<Bytes, Loc>, packs: map<nat, Pack>)

  /** A file name: NNNNNN.pack or NNNNNN.hint in the directory of a tier. */
  datatype Name = Name(tier: nat, id: nat)

  /** The tiers' directories and the inodes their *.pack names are linked to. */
  datatype Disk = Disk(inodes: seq<Bytes>, packs: map<Name, nat>, hints: map<Name, Bytes>)

  /** How far the background demoter is with the pack it moves down. */
  datatype Demoter = Resting | Chosen(id: nat) | PackThere(id: nat, file: nat) | HintThere(id: nat, file: nat)

  datatype Store = Store(mem: Mem, totals: seq<int>, budgets: seq<int>, active: nat, closed: bool,
                         demoter: Demoter, disk: Disk)

  // ---------------------------------------------------------------- the index

  /** Conversion to uint32. */
  function Wrap(n: int): nat {
    n % U32
  }

  function LocOf(id: nat, e: Entry): Loc {
    Loc(id, Wrap(Wrap(e.off) + REC_HEADER + |e.key|), Wrap(e.vlen))
  }

  function AddLive(packs: map<nat, Pack>, id: nat, d: int): map<nat, Pack>
    requires id in packs
  {
    packs[id := packs[id].(live := packs[id].live + d)]
  }

  /** Every location names a pack that is there. */
  ghost predicate Known(m: Mem) {
    forall k :: k in m.index ==> m.index[k].pack in m.packs
  }

  /** Index one record of pack id, unless the key is already located in a pack with a greater id. */
  function Add(m: Mem, id: nat, e: Entry): Mem
    requires id in m.packs && (e.key in m.index ==> m.index[e.key].pack in m.packs)
  {
    var l := LocOf(id, e);
    if e.key in m.index && m.index[e.key].pack > id then m
    else
      var packs := if e.key in m.index then AddLive(m.packs, m.index[e.key].pack, 0 - m.index[e.key].len) else m.packs;
      Mem(m.index[e.key := l], AddLive(packs, id, l.len))
  }

  function Forget(index: map<Bytes, Loc>, id: nat): map<Bytes, Loc> {
    map k | k in index && index[k].pack != id :: index[k]
  }

  // ---------------------------------------------------------------- files

  function WriteHint(d: Disk, n: Name, hint: Bytes): Disk {
    d.(hints := d.hints[n := hint])
  }

  function LinkPack(d: Disk, n: Name, file: nat): Disk {
    d.(packs := d.packs[n := file])
  }

  /** Remove a pack and its hint. */
  function Unlink(d: Disk, n: Name): Disk {
    d.(packs := d.packs - {n}, hints := d.hints - {n})
  }

  /** The disk with an empty file linked as n. */
  function NewFile(d: Disk, n: Name): Disk {
    LinkPack(d.(inodes := d.inodes + [[]]), n, |d.inodes|)
  }

  /** The keys whose newest record is in pack id, in the order a walk over the index met them. */
  ghost predicate WalkOf(index: map<Bytes, Loc>, id: nat, walk: seq<Bytes>) {
    && (forall i, j :: 0 <= i < j < |walk| ==> walk[i] != walk[j])
    && (forall i :: 0 <= i < |walk| ==> walk[i] in index && index[walk[i]].pack == id)
    && (forall k :: k in index && index[k].pack == id ==> k in walk)
  }

  function HintEntry(k: Bytes, l: Loc): Entry {
    Entry(k, Wrap(l.off - REC_HEADER - |k|), l.len)
  }

  ghost function HintEntries(index: map<Bytes, Loc>, walk: seq<Bytes>): (es: seq<Entry>)
    requires forall i :: 0 <= i < |walk| ==> walk[i] in index
    ensures |es| == |walk|
    ensures forall i :: 0 <= i < |walk| ==> es[i] == HintEntry(walk[i], index[walk[i]])
  {
    seq(|walk|, i requires 0 <= i < |walk| => HintEntry(walk[i], index[walk[i]]))
  }

  // ---------------------------------------------------------------- Put

  predicate BadPut(key: Bytes, size: int) {
    |key| == 0 || |key| > MAX_KEY || 10 in key || 32 in key || size < 0 || size > MAX_VALUE
  }

  ghost predicate Ready(s: Store) {
    && s.active in s.mem.packs
    && |s.totals| == |s.budgets| > 0
    && s.mem.packs[s.active].file < |s.disk.inodes|
  }

  /** Put rotates first: the record does not fit and is not the first. */
  predicate Full(p: Pack, len: nat) {
    p.size + len > PACK_LIMIT && p.size > 0
  }

  /** What seal writes for pack id, the index walked in some order. */
  ghost predicate HintFrom(index: map<Bytes, Loc>, id: nat, hint: Bytes) {
    exists walk :: WalkOf(index, id, walk) && hint == EncodeHints(HintEntries(index, walk))
  }

  function Seal(s: Store, id: nat, hint: Bytes): Store
    requires id in s.mem.packs
  {
    s.(disk := WriteHint(s.disk, Name(s.mem.packs[id].tier, id), hint))
  }

  /** The fresh active pack a rotation ends with. */
  function Fresh(s: Store, id: nat, now: int): Store {
    s.(active := id,
       mem := s.mem.(packs := s.mem.packs[id := Pack(0, |s.disk.inodes|, 0, 0, now)]),
       disk := NewFile(s.disk, Name(0, id)))
  }

  /** The file grew by one record. */
  function Grown(d: Disk, file: nat, more: Bytes): Disk
    requires file < |d.inodes|
  {
    d.(inodes := d.inodes[file := d.inodes[file] + more])
  }

  function Longer(packs: map<nat, Pack>, id: nat, len: nat): map<nat, Pack>
    requires id in packs
  {
    packs[id := packs[id].(size := packs[id].size + len)]
  }

  /** The record of r appended to pack id and indexed. */
  function Indexed(m: Mem, id: nat, r: Rec): Mem
    requires id in m.packs && (r.key in m.index ==> m.index[r.key].pack in m.packs)
  {
    var n := Add(m, id, Entry(r.key, m.packs[id].size, |r.val|));
    n.(packs := Longer(n.packs, id, |EncodeRec(r)|))
  }

  ghost function Append(s: Store, r: Rec): Store
    requires Ready(s) && (r.key in s.mem.index ==> s.mem.index[r.key].pack in s.mem.packs)
  {
    s.(mem := Indexed(s.mem, s.active, r),
       totals := s.totals[0 := s.totals[0] + |EncodeRec(r)|],
       disk := Grown(s.disk, s.mem.packs[s.active].file, EncodeRec(r)))
  }

  // ---------------------------------------------------------------- Get

  function Touched(packs: map<nat, Pack>, id: nat, now: int): map<nat, Pack>
    requires id in packs
  {
    packs[id := packs[id].(used := now)]
  }

  /** A section reader: an open inode and a range of it. */
  datatype Reader = Reader(file: nat, off: nat, len: nat)

  ghost predicate Readable(inodes: seq<Bytes>, r: Reader) {
    r.file < |inodes| && r.off + r.len <= |inodes[r.file]|
  }

  function ReadAll(inodes: seq<Bytes>, r: Reader): Bytes
    requires Readable(inodes, r)
  {
    inodes[r.file][r.off..r.off + r.len]
  }

  function ReaderFor(m: Mem, key: Bytes): Reader
    requires key in m.index && m.index[key].pack in m.packs
  {
    Reader(m.packs[m.index[key].pack].file, m.index[key].off, m.index[key].len)
  }

  // ---------------------------------------------------------------- the demoter

  predicate Over(total: int, budget: int) {
    budget > 0 && total > budget
  }

  ghost predicate Candidate(s: Store, t: nat, id: nat) {
    id in s.mem.packs && s.mem.packs[id].tier == t && id != s.active
  }

  predicate Stale(p: Pack) {
    p.live * 2 < p.size
  }

  /** The order of `victim`: a stale pack before one that is not, then the earlier last use, then the smaller id. */
  predicate Sooner(i: nat, p: Pack, j: nat, q: Pack) {
    if Stale(p) != Stale(q) then Stale(p)
    else p.used < q.used || (p.used == q.used && i < j)
  }

  /** The tier `victim` serves: the first one over budget that has a pack to give. */
  ghost predicate Served(s: Store, t: nat) {
    && t < |s.budgets| == |s.totals|
    && Over(s.totals[t], s.budgets[t])
    && (exists id :: Candidate(s, t, id))
    && forall u :: 0 <= u < t && Over(s.totals[u], s.budgets[u]) ==> !exists id :: Candidate(s, u, id)
  }

  ghost predicate IsVictim(s: Store, id: nat) {
    && id in s.mem.packs
    && Served(s, s.mem.packs[id].tier)
    && Candidate(s, s.mem.packs[id].tier, id)
    && forall j :: Candidate(s, s.mem.packs[id].tier, j) && j != id ==> Sooner(id, s.mem.packs[id], j, s.mem.packs[j])
  }

  /** os.Link, or a copy into a fresh inode; an existing target is left as it is. */
  ghost function CopyPack(s: Store, link: bool): Store
    requires s.demoter.Chosen? && s.demoter.id in s.mem.packs && s.mem.packs[s.demoter.id].file < |s.disk.inodes|
  {
    var id, file := s.demoter.id, s.mem.packs[s.demoter.id].file;
    var to := Name(s.mem.packs[id].tier + 1, id);
    if to in s.disk.packs then
      s.(demoter := PackThere(id, s.disk.packs[to]))
    else if link then
      s.(demoter := PackThere(id, file), disk := LinkPack(s.disk, to, file))
    else
      s.(demoter := PackThere(id, |s.disk.inodes|),
         disk := LinkPack(s.disk.(inodes := s.disk.inodes + [s.disk.inodes[file]]), to, |s.disk.inodes|))
  }

  ghost function CopyHint(s: Store): Store
    requires s.demoter.PackThere? && s.demoter.id in s.mem.packs
    requires Name(s.mem.packs[s.demoter.id].tier, s.demoter.id) in s.disk.hints
  {
    var id, from := s.demoter.id, s.mem.packs[s.demoter.id].tier;
    s.(demoter := HintThere(id, s.demoter.file),
       disk := if Name(from + 1, id) in s.disk.hints then s.disk
               else WriteHint(s.disk, Name(from + 1, id), s.disk.hints[Name(from, id)]))
  }

  function Demoted(packs: map<nat, Pack>, id: nat, file: nat): map<nat, Pack>
    requires id in packs
  {
    packs[id := packs[id].(tier := packs[id].tier + 1, file := file)]
  }

  ghost function Switch(s: Store): Store
    requires s.demoter.HintThere? && s.demoter.id in s.mem.packs && s.mem.packs[s.demoter.id].tier + 1 < |s.totals|
  {
    var id, p := s.demoter.id, s.mem.packs[s.demoter.id];
    s.(demoter := Resting,
       mem := s.mem.(packs := Demoted(s.mem.packs, id, s.demoter.file)),
       totals := s.totals[p.tier := s.totals[p.tier] - p.size][p.tier + 1 := s.totals[p.tier + 1] + p.size],
       disk := Unlink(s.disk, Name(p.tier, id)))
  }

  ghost function Evict(s: Store): Store
    requires s.demoter.Chosen? && s.demoter.id in s.mem.packs && s.mem.packs[s.demoter.id].tier < |s.totals|
  {
    var id, p := s.demoter.id, s.mem.packs[s.demoter.id];
    s.(demoter := Resting,
       mem := Mem(Forget(s.mem.index, id), s.mem.packs - {id}),
       totals := s.totals[p.tier := s.totals[p.tier] - p.size],
       disk := Unlink(s.disk, Name(p.tier, id)))
  }

  // ---------------------------------------------------------------- accounting

  ghost function LiveIn(index: map<Bytes, Loc>, id: nat): map<Bytes, int> {
    map k | k in index && index[k].pack == id :: index[k].len
  }

  /** Every location's pack exists and each pack's `live` is the sum of the indexed lengths in it. */
  ghost predicate LiveOk(m: Mem) {
    && Known(m)
    && forall id :: id in m.packs ==> m.packs[id].live == Sum(LiveIn(m.index, id))
  }

  lemma LiveAfter(index: map<Bytes, Loc>, k: Bytes, l: Loc, id: nat)
    ensures Sum(LiveIn(index[k := l], id))
         == Sum(LiveIn(index, id)) - (if k in index && index[k].pack == id then index[k].len else 0)
            + (if l.pack == id then l.len else 0)
  {
    var a := LiveIn(index, id);
    var b := LiveIn(index[k := l], id);
    if l.pack == id {
      assert b == a[k := l.len];
      SumUpdate(a, k, l.len);
    } else if k in a {
      assert b == a - {k};
      SumRemove(a, k);
    } else {
      assert b == a;
    }
  }

  /** Indexing a record changes nothing of a pack but its live bytes. */
  lemma AddFrame(m: Mem, id: nat, e: Entry)
    requires Known(m) && id in m.packs
    ensures Add(m, id, e).packs.Keys == m.packs.Keys
    ensures forall j :: j in m.packs ==> Add(m, id, e).packs[j] == m.packs[j].(live := Add(m, id, e).packs[j].live)
    ensures Known(Add(m, id, e))
  {
  }

  lemma AddKeepsLive(m: Mem, id: nat, e: Entry)
    requires LiveOk(m) && id in m.packs
    ensures LiveOk(Add(m, id, e))
  {
    var n := Add(m, id, e);
    AddFrame(m, id, e);
    if n.index != m.index {
      forall j | j in n.packs
        ensures n.packs[j].live == Sum(LiveIn(n.index, j))
      {
        LiveAfter(m.index, e.key, LocOf(id, e), j);
        AddLiveIs(m, id, e, j);
      }
    } else {
      AddSame(m, id, e);
    }
  }

  lemma AddSame(m: Mem, id: nat, e: Entry)
    requires Known(m) && id in m.packs && Add(m, id, e).index == m.index
    ensures forall j :: j in m.packs ==> Add(m, id, e).packs[j].live == m.packs[j].live
  {
    var l := LocOf(id, e);
    assert e.key in m.index[e.key := l];
  }

  lemma AddLiveIs(m: Mem, id: nat, e: Entry, j: nat)
    requires Known(m) && id in m.packs && j in m.packs && !(e.key in m.index && m.index[e.key].pack > id)
    ensures Add(m, id, e).packs[j].live == LiveAfterAdd(m, id, e, j)
  {
  }

  /** The live bytes of pack j once e is indexed in pack id. */
  function LiveAfterAdd(m: Mem, id: nat, e: Entry, j: nat): int
    requires j in m.packs
  {
    m.packs[j].live - (if e.key in m.index && m.index[e.key].pack == j then m.index[e.key].len else 0)
    + (if id == j then LocOf(id, e).len else 0)
  }

  ghost function SizesIn(packs: map<nat, Pack>, t: nat): map<nat, int> {
    map id | id in packs && packs[id].tier == t :: packs[id].size
  }

  /** Each tier's total is the sum of its packs' sizes. */
  ghost predicate TotalsOk(packs: map<nat, Pack>, totals: seq<int>) {
    forall t :: 0 <= t < |totals| ==> totals[t] == Sum(SizesIn(packs, t))
  }

  lemma SizesAfter(packs: map<nat, Pack>, id: nat, p: Pack, t: nat)
    ensures Sum(SizesIn(packs[id := p], t))
         == Sum(SizesIn(packs, t)) - (if id in packs && packs[id].tier == t then packs[id].size else 0)
            + (if p.tier == t then p.size else 0)
  {
    var a: map<nat, int> := SizesIn(packs, t);
    var b: map<nat, int> := SizesIn(packs[id := p], t);
    if p.tier == t {
      assert b == a[id := p.size];
      SumUpdate(a, id, p.size);
    } else if id in a {
      assert b == a - {id};
      SumRemove(a, id);
    } else {
      assert b == a;
    }
  }

  // ---------------------------------------------------------------- what the disk holds

  /** The entry describes some record of the log. */
  predicate IsEntry(log: seq<Rec>, e: Entry)
    decreases |log|
  {
    log != [] && (e == EntryAt(log, |log| - 1) || IsEntry(log[..|log| - 1], e))
  }

  lemma {:induction false} EntryIsEntry(log: seq<Rec>, j: nat)
    requires j < |log|
    ensures IsEntry(log, EntryAt(log, j))
    decreases |log|
  {
    if j < |log| - 1 {
      var front := log[..|log| - 1];
      assert front[..j] == log[..j];
      EntryIsEntry(front, j);
    }
  }

  lemma {:induction false} IsEntryIndex(log: seq<Rec>, e: Entry) returns (j: nat)
    requires IsEntry(log, e)
    ensures j < |log| && e == EntryAt(log, j)
    decreases |log|
  {
    j := |log| - 1;
    if e != EntryAt(log, j) {
      var front := log[..j];
      j := IsEntryIndex(front, e);
      assert front[..j] == log[..j];
    }
  }

  /** The hint lists records of the log, at most one of each key. */
  ghost predicate HintOk(hint: Bytes, log: seq<Rec>) {
    && (forall i :: 0 <= i < |ReadHints(hint)| ==> IsEntry(log, ReadHints(hint)[i]))
    && KeysOnce(ReadHints(hint))
  }

  ghost predicate KeysOnce(es: seq<Entry>) {
    forall i, j :: 0 <= i < j < |es| ==> es[i].key != es[j].key
  }

  /** Every record starts within the limit (a longer one is alone in its pack). */
  ghost predicate LogOk(log: seq<Rec>) {
    GoodLog(log) && forall i :: 0 <= i < |log| ==> Offset(log, i) <= PACK_LIMIT
  }

  ghost predicate LogsOk(logs: map<nat, seq<Rec>>) {
    forall id :: id in logs ==> LogOk(logs[id])
  }

  /** The file is what was ever appended to that pack, possibly cut short. */
  ghost predicate CopyOf(d: Disk, file: nat, log: seq<Rec>) {
    file < |d.inodes| && d.inodes[file] <= EncodeLog(log)
  }

  /** Each pack file is a copy of its pack's log, and each hint lists records of that pack only. */
  ghost predicate Logged(d: Disk, logs: map<nat, seq<Rec>>) {
    && (forall n :: n in d.packs ==> n.id in logs && CopyOf(d, d.packs[n], logs[n.id]))
    && (forall n :: n in d.hints ==> n.id in logs && HintOk(d.hints[n], logs[n.id]))
  }

  /** Only copies of one pack share an inode. */
  ghost predicate Owned(packs: map<Name, nat>) {
    forall n, x :: n in packs && x in packs && packs[n] == packs[x] ==> n.id == x.id
  }

  // ---------------------------------------------------------------- how memory and disk agree

  ghost predicate FileOk(d: Disk, id: nat, p: Pack) {
    && Name(p.tier, id) in d.packs && d.packs[Name(p.tier, id)] == p.file
    && p.file < |d.inodes| && p.size == |d.inodes[p.file]|
  }

  /** Every pack in memory is open on its directory entry. */
  ghost predicate FilesOk(packs: map<nat, Pack>, d: Disk) {
    forall id :: id in packs ==> FileOk(d, id, packs[id])
  }

  /** Every pack but the active one is sealed. */
  ghost predicate HintsOk(packs: map<nat, Pack>, active: nat, d: Disk) {
    forall id :: id in packs && id != active ==> Name(packs[id].tier, id) in d.hints
  }

  /** The file is linked as n, if at all. */
  ghost predicate Unshared(d: Disk, n: Name, file: nat) {
    forall x :: x in d.packs && d.packs[x] == file ==> x == n
  }

  /** The active pack is whole, in the first tier, newer than every pack there ever was, and its inode
      is linked nowhere else. */
  ghost predicate ActiveOk(packs: map<nat, Pack>, active: nat, d: Disk, logs: map<nat, seq<Rec>>) {
    && active in packs && active in logs
    && packs[active].tier == 0
    && packs[active].file < |d.inodes|
    && d.inodes[packs[active].file] == EncodeLog(logs[active])
    && (forall id :: id in logs ==> id <= active)
    && Unshared(d, Name(0, active), packs[active].file)
  }

  ghost predicate Moving(m: Demoter, id: nat) {
    (m.PackThere? || m.HintThere?) && m.id == id
  }

  /** A pack in memory is linked in its own tier only, except into the next one while it moves. */
  ghost predicate AloneOk(packs: map<nat, Pack>, m: Demoter, d: Disk) {
    forall n :: n in d.packs && n.id in packs ==>
      n.tier == packs[n.id].tier || (Moving(m, n.id) && n.tier == packs[n.id].tier + 1)
  }

  /** The copy the demoter made so far holds what the original holds. */
  ghost predicate DemoterOk(packs: map<nat, Pack>, active: nat, tiers: nat, m: Demoter, d: Disk) {
    m.Resting? ||
    (&& m.id in packs && m.id != active
     && (!m.Chosen? ==>
           && packs[m.id].tier + 1 < tiers
           && packs[m.id].file < |d.inodes|
           && FileOk(d, m.id, packs[m.id].(tier := packs[m.id].tier + 1, file := m.file))
           && d.inodes[m.file] == d.inodes[packs[m.id].file])
     && (m.HintThere? ==> Name(packs[m.id].tier + 1, m.id) in d.hints))
  }

  ghost predicate TiersOk(packs: map<nat, Pack>, tiers: nat) {
    forall id :: id in packs ==> packs[id].tier < tiers
  }

  /** Location l is the value of the j-th record of the log, for key k. */
  predicate LocIs(log: seq<Rec>, k: Bytes, l: Loc, j: nat)
    requires j < |log|
  {
    log[j].key == k && l.off == Offset(log, j) + REC_HEADER + |k| && l.len == |log[j].val|
  }

  /** Location l is the value of some record of the log, for key k. */
  predicate Stored(log: seq<Rec>, k: Bytes, l: Loc)
    decreases |log|
  {
    log != [] && (LocIs(log, k, l, |log| - 1) || Stored(log[..|log| - 1], k, l))
  }

  lemma {:induction false} StoredAt(log: seq<Rec>, k: Bytes, l: Loc, j: nat)
    requires j < |log| && LocIs(log, k, l, j)
    ensures Stored(log, k, l)
    decreases |log|
  {
    if j < |log| - 1 {
      var front := log[..|log| - 1];
      assert front[..j] == log[..j];
      StoredAt(front, k, l, j);
    }
  }

  lemma {:induction false} StoredIndex(log: seq<Rec>, k: Bytes, l: Loc) returns (j: nat)
    requires Stored(log, k, l)
    ensures j < |log| && LocIs(log, k, l, j)
    decreases |log|
  {
    j := |log| - 1;
    if !LocIs(log, k, l, j) {
      var front := log[..j];
      j := StoredIndex(front, k, l);
      assert front[..j] == log[..j];
    }
  }

  ghost predicate LocatedAt(p: Pack, log: seq<Rec>, k: Bytes, l: Loc) {
    l.off + l.len <= p.size && Stored(log, k, l)
  }

  /** Every indexed location is the value of a record of that key, inside the file. */
  ghost predicate Located(m: Mem, logs: map<nat, seq<Rec>>) {
    && Known(m)
    && forall k :: k in m.index ==>
         m.index[k].pack in logs && LocatedAt(m.packs[m.index[k].pack], logs[m.index[k].pack], k, m.index[k])
  }

  /** What holds of the files. */
  ghost predicate OnDisk(packs: map<nat, Pack>, active: nat, tiers: nat, m: Demoter, d: Disk,
                         logs: map<nat, seq<Rec>>) {
    && LogsOk(logs)
    && Logged(d, logs)
    && Owned(d.packs)
    && FilesOk(packs, d)
    && HintsOk(packs, active, d)
    && ActiveOk(packs, active, d, logs)
    && AloneOk(packs, m, d)
    && DemoterOk(packs, active, tiers, m, d)
  }

  /** What holds of the index and the counters. */
  ghost predicate InMemory(m: Mem, totals: seq<int>, logs: map<nat, seq<Rec>>) {
    && TiersOk(m.packs, |totals|)
    && LiveOk(m)
    && TotalsOk(m.packs, totals)
    && Located(m, logs)
  }

  ghost predicate Inv(s: Store, logs: map<nat, seq<Rec>>) {
    && |s.totals| == |s.budgets| > 0
    && OnDisk(s.mem.packs, s.active, |s.totals|, s.demoter, s.disk, logs)
    && InMemory(s.mem, s.totals, logs)
  }

  /** Offsets and ends fit in 32 bits although one record may be 2 GiB. */
  lemma FitsIn32Bits(s: Store, logs: map<nat, seq<Rec>>, k: Bytes)
    requires LogsOk(logs) && Located(s.mem, logs) && k in s.mem.index
    ensures s.mem.index[k].off + s.mem.index[k].len < U32
  {
    var l := s.mem.index[k];
    var log := logs[l.pack];
    var j := StoredIndex(log, k, l);
    assert GoodRec(log[j]) && Offset(log, j) <= PACK_LIMIT;
  }

  lemma NoWrap(id: nat, e: Entry)
    requires e.off <= PACK_LIMIT && |e.key| <= MAX_KEY && e.vlen <= MAX_VALUE
    ensures GoodEntry(e)
    ensures LocOf(id, e) == Loc(id, e.off + REC_HEADER + |e.key|, e.vlen)
    ensures HintEntry(e.key, LocOf(id, e)) == e
  {
  }

  lemma EntryFits(log: seq<Rec>, j: nat, id: nat)
    requires LogOk(log) && j < |log|
    ensures GoodEntry(EntryAt(log, j))
    ensures LocIs(log, log[j].key, LocOf(id, EntryAt(log, j)), j)
    ensures HintEntry(log[j].key, LocOf(id, EntryAt(log, j))) == EntryAt(log, j)
    ensures LocOf(id, EntryAt(log, j)).off + LocOf(id, EntryAt(log, j)).len == Offset(log, j + 1)
  {
    assert GoodRec(log[j]);
    OffsetNext(log, j);
    NoWrap(id, EntryAt(log, j));
  }
}
