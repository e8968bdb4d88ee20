/** Every step of the pack store keeps its invariant, whatever other steps it is interleaved with. */
module PackSteps {
  import opened Sums
  import opened Bytes
  import opened PackFormat
  import opened PackStore

  // ---------------------------------------------------------------- sealing

  /** A hint written from the index lists records of that pack only. */
  lemma WalkHintOk(m: Mem, logs: map<nat, seq<Rec>>, id: nat, walk: seq<Bytes>)
    requires LogsOk(logs) && Located(m, logs) && id in logs && WalkOf(m.index, id, walk)
    ensures ReadHints(EncodeHints(HintEntries(m.index, walk))) == HintEntries(m.index, walk)
    ensures HintOk(EncodeHints(HintEntries(m.index, walk)), logs[id])
  {
    var log := logs[id];
    var es := HintEntries(m.index, walk);
    forall i | 0 <= i < |es|
      ensures GoodEntry(es[i]) && IsEntry(log, es[i])
    {
      var k := walk[i];
      var l := m.index[k];
      var j := StoredIndex(log, k, l);
      EntryFits(log, j, id);
      EntryIsEntry(log, j);
      assert l == LocOf(id, EntryAt(log, j));
    }
    HintsRoundTrip(es);
  }

  lemma SealedHintOk(m: Mem, logs: map<nat, seq<Rec>>, id: nat, hint: Bytes)
    requires LogsOk(logs) && Located(m, logs) && id in logs && HintFrom(m.index, id, hint)
    ensures HintOk(hint, logs[id])
  {
    var walk :| WalkOf(m.index, id, walk) && hint == EncodeHints(HintEntries(m.index, walk));
    WalkHintOk(m, logs, id, walk);
  }

  lemma HintLogged(d: Disk, logs: map<nat, seq<Rec>>, n: Name, hint: Bytes)
    requires Logged(d, logs) && n.id in logs && HintOk(hint, logs[n.id])
    ensures Logged(WriteHint(d, n, hint), logs)
  {
    hide HintOk;
  }

  lemma HintFiles(packs: map<nat, Pack>, active: nat, d: Disk, n: Name, hint: Bytes)
    requires FilesOk(packs, d) && HintsOk(packs, active, d)
    ensures FilesOk(packs, WriteHint(d, n, hint)) && HintsOk(packs, active, WriteHint(d, n, hint))
  {
    forall id | id in packs
      ensures FileOk(WriteHint(d, n, hint), id, packs[id])
    {
      assert FileOk(d, id, packs[id]);
    }
  }

  lemma HintOnDisk(packs: map<nat, Pack>, active: nat, tiers: nat, m: Demoter, d: Disk, logs: map<nat, seq<Rec>>,
                   n: Name, hint: Bytes)
    requires OnDisk(packs, active, tiers, m, d, logs) && n.id in logs && HintOk(hint, logs[n.id])
    ensures OnDisk(packs, active, tiers, m, WriteHint(d, n, hint), logs)
  {
    hide LogsOk, Logged, Owned, FilesOk, HintsOk, HintOk;
    HintLogged(d, logs, n, hint);
    HintFiles(packs, active, d, n, hint);
  }

  lemma SealKeepsInv(s: Store, logs: map<nat, seq<Rec>>, id: nat, hint: Bytes)
    requires Inv(s, logs) && id in s.mem.packs && id in logs && HintOk(hint, logs[id])
    ensures Inv(Seal(s, id, hint), logs)
  {
    HintOnDisk(s.mem.packs, s.active, |s.totals|, s.demoter, s.disk, logs, Name(s.mem.packs[id].tier, id), hint);
  }

  // ---------------------------------------------------------------- rotating

  lemma PacksLogged(packs: map<nat, Pack>, d: Disk, logs: map<nat, seq<Rec>>)
    requires FilesOk(packs, d) && Logged(d, logs)
    ensures forall id :: id in packs ==> id in logs
  {
    forall id | id in packs
      ensures id in logs
    {
      assert FileOk(d, id, packs[id]);
    }
  }

  lemma FreshInMemory(m: Mem, totals: seq<int>, logs: map<nat, seq<Rec>>, id: nat, p: Pack)
    requires InMemory(m, totals, logs) && id !in m.packs && id !in logs && p.tier == p.size == p.live == 0
    requires |totals| > 0
    ensures InMemory(m.(packs := m.packs[id := p]), totals, logs[id := []])
  {
    var packs := m.packs[id := p];
    assert LiveIn(m.index, id) == map[];
    forall t | 0 <= t < |totals|
      ensures totals[t] == Sum(SizesIn(packs, t))
    {
      SizesAfter(m.packs, id, p, t);
    }
    forall k | k in m.index
      ensures LocatedAt(m.packs[m.index[k].pack], logs[m.index[k].pack], k, m.index[k])
    {
    }
  }

  lemma FreshLogged(d: Disk, logs: map<nat, seq<Rec>>, id: nat)
    requires Logged(d, logs) && LogsOk(logs) && id !in logs
    ensures Logged(NewFile(d, Name(0, id)), logs[id := []]) && LogsOk(logs[id := []])
  {
    var e := NewFile(d, Name(0, id));
    forall n | n in e.packs
      ensures n.id in logs[id := []] && CopyOf(e, e.packs[n], logs[id := []][n.id])
    {
      assert n in d.packs ==> CopyOf(d, d.packs[n], logs[n.id]);
    }
  }

  lemma FreshOwned(d: Disk, logs: map<nat, seq<Rec>>, id: nat)
    requires Logged(d, logs) && Owned(d.packs) && id !in logs
    ensures Owned(NewFile(d, Name(0, id)).packs)
  {
    assert forall n :: n in d.packs ==> CopyOf(d, d.packs[n], logs[n.id]);
  }

  lemma FreshFiles(packs: map<nat, Pack>, d: Disk, id: nat, now: int)
    requires FilesOk(packs, d) && id !in packs
    ensures FilesOk(packs[id := Pack(0, |d.inodes|, 0, 0, now)], NewFile(d, Name(0, id)))
  {
    var qs := packs[id := Pack(0, |d.inodes|, 0, 0, now)];
    forall j | j in qs
      ensures FileOk(NewFile(d, Name(0, id)), j, qs[j])
    {
      assert j != id ==> FileOk(d, j, packs[j]);
    }
  }

  lemma FreshActive(packs: map<nat, Pack>, d: Disk, logs: map<nat, seq<Rec>>, id: nat, p: Pack)
    requires Logged(d, logs) && p.tier == 0 && p.file == |d.inodes| && forall j :: j in logs ==> j < id
    ensures ActiveOk(packs[id := p], id, NewFile(d, Name(0, id)), logs[id := []])
  {
    var e := NewFile(d, Name(0, id));
    forall n | n in e.packs && e.packs[n] == |d.inodes|
      ensures n == Name(0, id)
    {
      assert n in d.packs ==> CopyOf(d, d.packs[n], logs[n.id]);
    }
  }

  lemma FreshDemoter(packs: map<nat, Pack>, d: Disk, logs: map<nat, seq<Rec>>, active: nat, tiers: nat, m: Demoter,
                     id: nat, p: Pack)
    requires Logged(d, logs) && AloneOk(packs, m, d) && DemoterOk(packs, active, tiers, m, d)
    requires id !in packs && id !in logs && p.tier == 0
    ensures AloneOk(packs[id := p], m, NewFile(d, Name(0, id)))
    ensures DemoterOk(packs[id := p], id, tiers, m, NewFile(d, Name(0, id)))
  {
  }

  /** Everything loaded is sealed, and id is above every id there ever was. */
  ghost predicate Sealed(s: Store, logs: map<nat, seq<Rec>>, id: nat) {
    && |s.totals| == |s.budgets| > 0
    && LogsOk(logs) && Logged(s.disk, logs) && Owned(s.disk.packs)
    && (forall j :: j in logs ==> j < id)
    && FilesOk(s.mem.packs, s.disk) && HintsOk(s.mem.packs, id, s.disk)
    && AloneOk(s.mem.packs, s.demoter, s.disk)
    && DemoterOk(s.mem.packs, s.active, |s.totals|, s.demoter, s.disk)
    && InMemory(s.mem, s.totals, logs)
  }

  /** Rotation's second half, also the end of OpenStore: once everything is sealed, a fresh pack with
      an id above all others becomes the active one. */
  lemma FreshKeepsInv(s: Store, logs: map<nat, seq<Rec>>, id: nat, now: int)
    requires Sealed(s, logs, id)
    ensures Inv(Fresh(s, id, now), logs[id := []])
  {
    var p := Pack(0, |s.disk.inodes|, 0, 0, now);
    PacksLogged(s.mem.packs, s.disk, logs);
    FreshLogged(s.disk, logs, id);
    FreshOwned(s.disk, logs, id);
    FreshFiles(s.mem.packs, s.disk, id, now);
    FreshActive(s.mem.packs, s.disk, logs, id, p);
    FreshDemoter(s.mem.packs, s.disk, logs, s.active, |s.totals|, s.demoter, id, p);
    FreshInMemory(s.mem, s.totals, logs, id, p);
  }

  /** Sealing the active pack leaves every pack sealed. */
  lemma SealSeals(s: Store, logs: map<nat, seq<Rec>>, hint: Bytes)
    requires Inv(s, logs) && HintOk(hint, logs[s.active])
    ensures Sealed(Seal(s, s.active, hint), logs, s.active + 1)
  {
    SealKeepsInv(s, logs, s.active, hint);
  }

  lemma RotateKeepsInv(s: Store, logs: map<nat, seq<Rec>>, hint: Bytes, now: int)
    requires Inv(s, logs) && HintOk(hint, logs[s.active])
    ensures Inv(Fresh(Seal(s, s.active, hint), s.active + 1, now), logs[s.active + 1 := []])
  {
    SealSeals(s, logs, hint);
    FreshKeepsInv(Seal(s, s.active, hint), logs, s.active + 1, now);
  }

  // ---------------------------------------------------------------- appending a record

  function Extended(logs: map<nat, seq<Rec>>, id: nat, r: Rec): map<nat, seq<Rec>>
    requires id in logs
  {
    logs[id := logs[id] + [r]]
  }

  lemma StoredStays(log: seq<Rec>, r: Rec, k: Bytes, l: Loc)
    requires Stored(log, k, l)
    ensures Stored(log + [r], k, l)
  {
    assert (log + [r])[..|log|] == log;
  }

  lemma HintStays(hint: Bytes, log: seq<Rec>, r: Rec)
    requires HintOk(hint, log)
    ensures HintOk(hint, log + [r])
  {
    assert (log + [r])[..|log|] == log;
    forall i | 0 <= i < |ReadHints(hint)|
      ensures IsEntry(log + [r], ReadHints(hint)[i])
    {
      assert IsEntry(log, ReadHints(hint)[i]);
    }
  }

  lemma AppendLogsOk(logs: map<nat, seq<Rec>>, id: nat, r: Rec)
    requires LogsOk(logs) && id in logs && GoodRec(r) && |EncodeLog(logs[id])| <= PACK_LIMIT
    ensures LogsOk(Extended(logs, id, r))
  {
    var log := logs[id];
    var more := log + [r];
    forall i | 0 <= i < |more|
      ensures GoodRec(more[i]) && Offset(more, i) <= PACK_LIMIT
    {
      assert i < |log| ==> more[..i] == log[..i];
      assert more[..|log|] == log;
      assert i < |log| ==> GoodRec(log[i]) && Offset(log, i) <= PACK_LIMIT;
    }
  }

  lemma AppendLogged(d: Disk, logs: map<nat, seq<Rec>>, n: Name, file: nat, r: Rec)
    requires Logged(d, logs) && n.id in logs && Unshared(d, n, file)
    requires file < |d.inodes| && d.inodes[file] == EncodeLog(logs[n.id])
    ensures Logged(Grown(d, file, EncodeRec(r)), Extended(logs, n.id, r))
  {
    var e, more := Grown(d, file, EncodeRec(r)), Extended(logs, n.id, r);
    EncodeAppend(logs[n.id], r);
    forall x | x in e.packs
      ensures x.id in more && CopyOf(e, e.packs[x], more[x.id])
    {
      assert CopyOf(d, d.packs[x], logs[x.id]);
    }
    forall x | x in e.hints
      ensures HintOk(e.hints[x], more[x.id])
    {
      if x.id == n.id {
        HintStays(e.hints[x], logs[n.id], r);
      }
    }
  }

  /** Only the size of pack id and live counts changed. */
  ghost predicate Resized(packs: map<nat, Pack>, qs: map<nat, Pack>, id: nat, len: nat) {
    && packs.Keys == qs.Keys && id in packs
    && (forall j :: j in packs ==> qs[j].tier == packs[j].tier && qs[j].file == packs[j].file)
    && (forall j :: j in packs && j != id ==> qs[j].size == packs[j].size)
    && qs[id].size == packs[id].size + len
  }

  lemma IndexedResizes(m: Mem, id: nat, r: Rec)
    requires Known(m) && id in m.packs
    ensures Resized(m.packs, Indexed(m, id, r).packs, id, |EncodeRec(r)|)
  {
    AddFrame(m, id, Entry(r.key, m.packs[id].size, |r.val|));
  }

  lemma AppendFiles(packs: map<nat, Pack>, qs: map<nat, Pack>, id: nat, d: Disk, more: Bytes)
    requires Resized(packs, qs, id, |more|) && FilesOk(packs, d) && HintsOk(packs, id, d)
    requires Unshared(d, Name(0, id), packs[id].file) && packs[id].file < |d.inodes|
    ensures FilesOk(qs, Grown(d, packs[id].file, more)) && HintsOk(qs, id, Grown(d, packs[id].file, more))
  {
    var e := Grown(d, packs[id].file, more);
    forall j | j in qs
      ensures FileOk(e, j, qs[j])
    {
      assert FileOk(d, j, packs[j]);
    }
  }

  lemma AppendDemoter(packs: map<nat, Pack>, qs: map<nat, Pack>, id: nat, tiers: nat, m: Demoter, d: Disk, more: Bytes)
    requires Resized(packs, qs, id, |more|) && packs[id].file < |d.inodes|
    requires Unshared(d, Name(0, id), packs[id].file) && FilesOk(packs, d)
    requires AloneOk(packs, m, d) && DemoterOk(packs, id, tiers, m, d)
    ensures AloneOk(qs, m, Grown(d, packs[id].file, more))
    ensures DemoterOk(qs, id, tiers, m, Grown(d, packs[id].file, more))
  {
    if !m.Resting? {
      assert FileOk(d, m.id, packs[m.id]);
    }
  }

  lemma AppendActive(packs: map<nat, Pack>, qs: map<nat, Pack>, id: nat, d: Disk, logs: map<nat, seq<Rec>>, r: Rec)
    requires Resized(packs, qs, id, |EncodeRec(r)|) && ActiveOk(packs, id, d, logs)
    ensures ActiveOk(qs, id, Grown(d, packs[id].file, EncodeRec(r)), Extended(logs, id, r))
  {
    EncodeAppend(logs[id], r);
  }

  lemma AppendOnDisk(packs: map<nat, Pack>, qs: map<nat, Pack>, id: nat, tiers: nat, m: Demoter, d: Disk,
                     logs: map<nat, seq<Rec>>, r: Rec)
    requires OnDisk(packs, id, tiers, m, d, logs) && Resized(packs, qs, id, |EncodeRec(r)|) && GoodRec(r)
    requires |EncodeLog(logs[id])| <= PACK_LIMIT
    ensures OnDisk(qs, id, tiers, m, Grown(d, packs[id].file, EncodeRec(r)), Extended(logs, id, r))
  {
    AppendLogsOk(logs, id, r);
    AppendLogged(d, logs, Name(0, id), packs[id].file, r);
    AppendFiles(packs, qs, id, d, EncodeRec(r));
    AppendActive(packs, qs, id, d, logs, r);
    AppendDemoter(packs, qs, id, tiers, m, d, EncodeRec(r));
  }

  lemma AppendTotals(packs: map<nat, Pack>, qs: map<nat, Pack>, totals: seq<int>, id: nat, len: nat)
    requires Resized(packs, qs, id, len) && packs[id].tier == 0 && TotalsOk(packs, totals) && |totals| > 0
    ensures TotalsOk(qs, totals[0 := totals[0] + len])
  {
    forall t | 0 <= t < |totals|
      ensures Sum(SizesIn(qs, t)) == Sum(SizesIn(packs, t)) + (if t == 0 then len else 0)
    {
      var a: map<nat, int> := SizesIn(packs, t);
      var b: map<nat, int> := SizesIn(qs, t);
      if t == 0 {
        SumDiffersAt(a, b, id);
      } else {
        assert a == b;
      }
    }
  }

  lemma AppendLive(m: Mem, id: nat, r: Rec)
    requires LiveOk(m) && id in m.packs
    ensures LiveOk(Indexed(m, id, r))
  {
    AddKeepsLive(m, id, Entry(r.key, m.packs[id].size, |r.val|));
  }

  /** The active pack has the highest id, so a Put always replaces the key's location. */
  lemma IndexedIs(m: Mem, id: nat, r: Rec)
    requires Known(m) && id in m.packs && (forall j :: j in m.packs ==> j <= id)
    requires m.packs[id].size <= PACK_LIMIT && GoodRec(r)
    ensures Indexed(m, id, r).index == m.index[r.key := Loc(id, m.packs[id].size + REC_HEADER + |r.key|, |r.val|)]
  {
    NoWrap(id, Entry(r.key, m.packs[id].size, |r.val|));
  }

  lemma AppendLocated(m: Mem, logs: map<nat, seq<Rec>>, id: nat, r: Rec)
    requires Located(m, logs) && id in m.packs && id in logs && (forall j :: j in m.packs ==> j <= id)
    requires m.packs[id].size == |EncodeLog(logs[id])| <= PACK_LIMIT && GoodRec(r)
    ensures Located(Indexed(m, id, r), Extended(logs, id, r))
  {
    var n := Indexed(m, id, r);
    var log := logs[id];
    IndexedIs(m, id, r);
    IndexedResizes(m, id, r);
    assert (log + [r])[..|log|] == log;
    forall k | k in n.index
      ensures n.index[k].pack in n.packs && n.index[k].pack in logs
      ensures LocatedAt(n.packs[n.index[k].pack], Extended(logs, id, r)[n.index[k].pack], k, n.index[k])
    {
      if k != r.key && m.index[k].pack == id {
        StoredStays(log, r, k, m.index[k]);
      }
    }
  }

  lemma AppendInMemory(m: Mem, totals: seq<int>, logs: map<nat, seq<Rec>>, id: nat, r: Rec)
    requires InMemory(m, totals, logs) && id in m.packs && id in logs && (forall j :: j in m.packs ==> j <= id)
    requires m.packs[id].size == |EncodeLog(logs[id])| <= PACK_LIMIT && GoodRec(r)
    requires m.packs[id].tier == 0 && |totals| > 0
    ensures InMemory(Indexed(m, id, r), totals[0 := totals[0] + |EncodeRec(r)|], Extended(logs, id, r))
  {
    IndexedResizes(m, id, r);
    AppendTotals(m.packs, Indexed(m, id, r).packs, totals, id, |EncodeRec(r)|);
    AppendLive(m, id, r);
    AppendLocated(m, logs, id, r);
  }

  /** The active pack has the highest id and is exactly as long as its log. */
  lemma ActiveFacts(s: Store, logs: map<nat, seq<Rec>>)
    requires Inv(s, logs)
    ensures Ready(s) && Known(s.mem) && s.mem.packs[s.active].tier == 0
    ensures forall j :: j in s.mem.packs ==> j in logs && j <= s.active
    ensures s.mem.packs[s.active].size == |EncodeLog(logs[s.active])|
  {
    PacksLogged(s.mem.packs, s.disk, logs);
    assert FileOk(s.disk, s.active, s.mem.packs[s.active]);
  }

  lemma AppendKeepsInv(s: Store, logs: map<nat, seq<Rec>>, r: Rec)
    requires Inv(s, logs) && GoodRec(r) && s.mem.packs[s.active].size <= PACK_LIMIT
    ensures Inv(Append(s, r), Extended(logs, s.active, r))
  {
    hide LogsOk, Logged, Owned, FilesOk, HintsOk, AloneOk, TotalsOk, LiveOk, Located;
    ActiveFacts(s, logs);
    IndexedResizes(s.mem, s.active, r);
    AppendOnDisk(s.mem.packs, Indexed(s.mem, s.active, r).packs, s.active, |s.totals|, s.demoter, s.disk, logs, r);
    AppendInMemory(s.mem, s.totals, logs, s.active, r);
  }

  // ---------------------------------------------------------------- serving a Get

  /** Only recency changed. */
  ghost predicate SamePacks(packs: map<nat, Pack>, qs: map<nat, Pack>) {
    packs.Keys == qs.Keys && forall j :: j in packs ==> qs[j] == packs[j].(used := qs[j].used)
  }

  lemma TouchedSame(packs: map<nat, Pack>, id: nat, now: int)
    requires id in packs
    ensures SamePacks(packs, Touched(packs, id, now))
  {
  }

  lemma SamePacksOnDisk(packs: map<nat, Pack>, qs: map<nat, Pack>, active: nat, tiers: nat, m: Demoter, d: Disk,
                        logs: map<nat, seq<Rec>>)
    requires SamePacks(packs, qs) && OnDisk(packs, active, tiers, m, d, logs)
    ensures OnDisk(qs, active, tiers, m, d, logs)
  {
    hide LogsOk, Logged, Owned;
    forall id | id in qs
      ensures FileOk(d, id, qs[id])
    {
      assert FileOk(d, id, packs[id]);
    }
  }

  lemma SamePacksInMemory(m: Mem, n: Mem, totals: seq<int>, logs: map<nat, seq<Rec>>)
    requires m.index == n.index && SamePacks(m.packs, n.packs) && InMemory(m, totals, logs)
    ensures InMemory(n, totals, logs)
  {
    forall t | 0 <= t < |totals|
      ensures totals[t] == Sum(SizesIn(n.packs, t))
    {
      assert SizesIn(n.packs, t) == SizesIn(m.packs, t);
    }
    forall k | k in n.index
      ensures LocatedAt(n.packs[n.index[k].pack], logs[n.index[k].pack], k, n.index[k])
    {
      assert LocatedAt(m.packs[m.index[k].pack], logs[m.index[k].pack], k, m.index[k]);
    }
  }

  lemma TouchKeepsInv(s: Store, logs: map<nat, seq<Rec>>, id: nat, now: int)
    requires Inv(s, logs) && id in s.mem.packs
    ensures Inv(s.(mem := s.mem.(packs := Touched(s.mem.packs, id, now))), logs)
  {
    TouchedSame(s.mem.packs, id, now);
    SamePacksOnDisk(s.mem.packs, Touched(s.mem.packs, id, now), s.active, |s.totals|, s.demoter, s.disk, logs);
    SamePacksInMemory(s.mem, s.mem.(packs := Touched(s.mem.packs, id, now)), s.totals, logs);
  }

  // ---------------------------------------------------------------- moving a pack down

  lemma PickKeepsInv(s: Store, logs: map<nat, seq<Rec>>, id: nat)
    requires Inv(s, logs) && s.demoter.Resting? && id in s.mem.packs && id != s.active
    ensures Inv(s.(demoter := Chosen(id)), logs)
  {
    hide LogsOk, Logged, Owned, FilesOk, HintsOk, ActiveOk, InMemory;
  }

  /** One more inode, linked nowhere yet. */
  lemma InodeOnDisk(packs: map<nat, Pack>, active: nat, tiers: nat, m: Demoter, d: Disk, logs: map<nat, seq<Rec>>,
                    b: Bytes)
    requires OnDisk(packs, active, tiers, m, d, logs)
    ensures OnDisk(packs, active, tiers, m, d.(inodes := d.inodes + [b]), logs)
  {
    var e := d.(inodes := d.inodes + [b]);
    forall n | n in e.packs
      ensures CopyOf(e, e.packs[n], logs[n.id])
    {
      assert CopyOf(d, d.packs[n], logs[n.id]);
    }
    forall id | id in packs
      ensures FileOk(e, id, packs[id])
    {
      assert FileOk(d, id, packs[id]);
    }
  }

  lemma LinkDownFiles(packs: map<nat, Pack>, d: Disk, id: nat, file: nat)
    requires FilesOk(packs, d) && id in packs
    ensures FilesOk(packs, LinkPack(d, Name(packs[id].tier + 1, id), file))
  {
    var e := LinkPack(d, Name(packs[id].tier + 1, id), file);
    forall j | j in packs
      ensures FileOk(e, j, packs[j])
    {
      assert FileOk(d, j, packs[j]);
    }
  }

  lemma LinkDownLogged(packs: map<nat, Pack>, d: Disk, logs: map<nat, seq<Rec>>, id: nat, file: nat)
    requires Logged(d, logs) && FilesOk(packs, d) && id in packs && file < |d.inodes|
    requires d.inodes[file] == d.inodes[packs[id].file]
    ensures Logged(LinkPack(d, Name(packs[id].tier + 1, id), file), logs)
  {
    assert FileOk(d, id, packs[id]);
    assert CopyOf(d, packs[id].file, logs[id]);
    var e := LinkPack(d, Name(packs[id].tier + 1, id), file);
    forall n | n in e.packs
      ensures n.id in logs && CopyOf(e, e.packs[n], logs[n.id])
    {
      assert n in d.packs ==> CopyOf(d, d.packs[n], logs[n.id]);
    }
  }

  /** The copy is a fresh inode, or the one the pack has. */
  lemma LinkDownOwned(packs: map<nat, Pack>, d: Disk, id: nat, file: nat)
    requires Owned(d.packs) && id in packs && FileOk(d, id, packs[id])
    requires file == packs[id].file || forall n :: n in d.packs ==> d.packs[n] != file
    ensures Owned(LinkPack(d, Name(packs[id].tier + 1, id), file).packs)
  {
  }

  /** Linking a copy of pack id into the next tier. */
  lemma LinkDownOnDisk(packs: map<nat, Pack>, active: nat, tiers: nat, d: Disk, logs: map<nat, seq<Rec>>, id: nat,
                       file: nat)
    requires OnDisk(packs, active, tiers, Chosen(id), d, logs) && packs[id].tier + 1 < tiers
    requires file < |d.inodes| && file != packs[active].file
    requires file == packs[id].file || forall n :: n in d.packs ==> d.packs[n] != file
    requires FileOk(d, id, packs[id]) && d.inodes[file] == d.inodes[packs[id].file]
    ensures OnDisk(packs, active, tiers, PackThere(id, file), LinkPack(d, Name(packs[id].tier + 1, id), file), logs)
  {
    hide LogsOk, Logged, Owned, FilesOk;
    LinkDownLogged(packs, d, logs, id, file);
    LinkDownOwned(packs, d, id, file);
    LinkDownFiles(packs, d, id, file);
  }

  lemma Unlinked(d: Disk, logs: map<nat, seq<Rec>>)
    requires Logged(d, logs)
    ensures forall n :: n in d.packs ==> d.packs[n] != |d.inodes|
  {
    assert forall n :: n in d.packs ==> CopyOf(d, d.packs[n], logs[n.id]);
  }

  /** A pack that is not being moved has no copy in the next tier. */
  lemma NotThereYet(packs: map<nat, Pack>, d: Disk, id: nat)
    requires AloneOk(packs, Chosen(id), d) && id in packs
    ensures Name(packs[id].tier + 1, id) !in d.packs
  {
  }

  lemma CopyPackKeepsInv(s: Store, logs: map<nat, seq<Rec>>, link: bool)
    requires Inv(s, logs) && s.demoter.Chosen? && s.mem.packs[s.demoter.id].tier + 1 < |s.totals|
    ensures s.mem.packs[s.demoter.id].file < |s.disk.inodes|
    ensures Inv(CopyPack(s, link), logs)
  {
    hide LogsOk, Logged, Owned, HintsOk, AloneOk, TotalsOk, LiveOk, Located;
    var id, packs, d := s.demoter.id, s.mem.packs, s.disk;
    assert FileOk(d, id, packs[id]);
    NotThereYet(packs, d, id);
    if link {
      LinkDownOnDisk(packs, s.active, |s.totals|, d, logs, id, packs[id].file);
    } else {
      var b := d.inodes[packs[id].file];
      InodeOnDisk(packs, s.active, |s.totals|, s.demoter, d, logs, b);
      Unlinked(d, logs);
      LinkDownOnDisk(packs, s.active, |s.totals|, d.(inodes := d.inodes + [b]), logs, id, |d.inodes|);
    }
  }

  lemma HintDownOnDisk(packs: map<nat, Pack>, active: nat, tiers: nat, m: Demoter, d: Disk, logs: map<nat, seq<Rec>>,
                       hint: Bytes)
    requires OnDisk(packs, active, tiers, m, d, logs) && m.PackThere? && m.id in logs && HintOk(hint, logs[m.id])
    ensures OnDisk(packs, active, tiers, HintThere(m.id, m.file),
                   WriteHint(d, Name(packs[m.id].tier + 1, m.id), hint), logs)
  {
    hide LogsOk, Logged, Owned, FilesOk, HintsOk, ActiveOk;
    HintOnDisk(packs, active, tiers, m, d, logs, Name(packs[m.id].tier + 1, m.id), hint);
  }

  lemma StaleHintOnDisk(packs: map<nat, Pack>, active: nat, tiers: nat, m: Demoter, d: Disk, logs: map<nat, seq<Rec>>)
    requires OnDisk(packs, active, tiers, m, d, logs) && m.PackThere? && Name(packs[m.id].tier + 1, m.id) in d.hints
    ensures OnDisk(packs, active, tiers, HintThere(m.id, m.file), d, logs)
  {
    hide LogsOk, Logged, Owned, FilesOk, HintsOk, ActiveOk;
  }

  lemma CopyHintKeepsInv(s: Store, logs: map<nat, seq<Rec>>)
    requires Inv(s, logs) && s.demoter.PackThere?
    ensures Name(s.mem.packs[s.demoter.id].tier, s.demoter.id) in s.disk.hints
    ensures Inv(CopyHint(s), logs)
  {
    hide HintOk, CopyOf, LogsOk, Owned, FilesOk, ActiveOk, AloneOk, TotalsOk, LiveOk, Located;
    var id, from := s.demoter.id, s.mem.packs[s.demoter.id].tier;
    if Name(from + 1, id) in s.disk.hints {
      StaleHintOnDisk(s.mem.packs, s.active, |s.totals|, s.demoter, s.disk, logs);
    } else {
      HintDownOnDisk(s.mem.packs, s.active, |s.totals|, s.demoter, s.disk, logs, s.disk.hints[Name(from, id)]);
    }
  }

  // ---------------------------------------------------------------- the switch

  lemma UnlinkLogged(d: Disk, logs: map<nat, seq<Rec>>, n: Name)
    requires Logged(d, logs)
    ensures Logged(Unlink(d, n), logs)
  {
    var e := Unlink(d, n);
    forall x | x in e.packs
      ensures x.id in logs && CopyOf(e, e.packs[x], logs[x.id])
    {
      assert CopyOf(d, d.packs[x], logs[x.id]);
    }
  }

  lemma SwitchFiles(packs: map<nat, Pack>, active: nat, tiers: nat, m: Demoter, d: Disk)
    requires FilesOk(packs, d) && HintsOk(packs, active, d) && m.HintThere? && DemoterOk(packs, active, tiers, m, d)
    ensures FilesOk(Demoted(packs, m.id, m.file), Unlink(d, Name(packs[m.id].tier, m.id)))
    ensures HintsOk(Demoted(packs, m.id, m.file), active, Unlink(d, Name(packs[m.id].tier, m.id)))
  {
    var qs, e := Demoted(packs, m.id, m.file), Unlink(d, Name(packs[m.id].tier, m.id));
    assert FileOk(d, m.id, packs[m.id]);
    forall j | j in qs
      ensures FileOk(e, j, qs[j])
    {
      assert FileOk(d, j, packs[j]);
    }
  }

  lemma SwitchOnDisk(packs: map<nat, Pack>, active: nat, tiers: nat, m: Demoter, d: Disk, logs: map<nat, seq<Rec>>)
    requires OnDisk(packs, active, tiers, m, d, logs) && m.HintThere?
    ensures OnDisk(Demoted(packs, m.id, m.file), active, tiers, Resting, Unlink(d, Name(packs[m.id].tier, m.id)), logs)
  {
    hide LogsOk, Logged, FilesOk;
    UnlinkLogged(d, logs, Name(packs[m.id].tier, m.id));
    SwitchFiles(packs, active, tiers, m, d);
  }

  lemma SwitchTotals(packs: map<nat, Pack>, totals: seq<int>, id: nat, file: nat)
    requires TotalsOk(packs, totals) && id in packs && packs[id].tier + 1 < |totals|
    ensures var p := packs[id];
            TotalsOk(Demoted(packs, id, file),
                     totals[p.tier := totals[p.tier] - p.size][p.tier + 1 := totals[p.tier + 1] + p.size])
  {
    var qs := Demoted(packs, id, file);
    forall t | 0 <= t < |totals|
      ensures Sum(SizesIn(qs, t)) == totals[t] - (if t == packs[id].tier then packs[id].size else 0)
                                     + (if t == packs[id].tier + 1 then packs[id].size else 0)
    {
      SizesAfter(packs, id, qs[id], t);
    }
  }

  lemma SwitchLocated(m: Mem, logs: map<nat, seq<Rec>>, id: nat, file: nat)
    requires LiveOk(m) && Located(m, logs) && id in m.packs
    ensures LiveOk(m.(packs := Demoted(m.packs, id, file))) && Located(m.(packs := Demoted(m.packs, id, file)), logs)
  {
    forall k | k in m.index
      ensures LocatedAt(Demoted(m.packs, id, file)[m.index[k].pack], logs[m.index[k].pack], k, m.index[k])
    {
      assert LocatedAt(m.packs[m.index[k].pack], logs[m.index[k].pack], k, m.index[k]);
    }
  }

  lemma SwitchInMemory(m: Mem, totals: seq<int>, logs: map<nat, seq<Rec>>, id: nat, file: nat)
    requires InMemory(m, totals, logs) && id in m.packs && m.packs[id].tier + 1 < |totals|
    ensures var p := m.packs[id];
            InMemory(m.(packs := Demoted(m.packs, id, file)),
                     totals[p.tier := totals[p.tier] - p.size][p.tier + 1 := totals[p.tier + 1] + p.size], logs)
  {
    SwitchTotals(m.packs, totals, id, file);
    SwitchLocated(m, logs, id, file);
  }

  lemma SwitchKeepsInv(s: Store, logs: map<nat, seq<Rec>>)
    requires Inv(s, logs) && s.demoter.HintThere?
    ensures Inv(Switch(s), logs)
  {
    hide LogsOk, Logged, Owned, FilesOk, HintsOk, ActiveOk, AloneOk, TotalsOk, LiveOk, Located;
    SwitchOnDisk(s.mem.packs, s.active, |s.totals|, s.demoter, s.disk, logs);
    SwitchInMemory(s.mem, s.totals, logs, s.demoter.id, s.demoter.file);
  }

  // ---------------------------------------------------------------- eviction

  lemma EvictFiles(packs: map<nat, Pack>, active: nat, d: Disk, id: nat)
    requires FilesOk(packs, d) && HintsOk(packs, active, d) && id in packs
    ensures FilesOk(packs - {id}, Unlink(d, Name(packs[id].tier, id)))
    ensures HintsOk(packs - {id}, active, Unlink(d, Name(packs[id].tier, id)))
  {
    var qs, e := packs - {id}, Unlink(d, Name(packs[id].tier, id));
    forall j | j in qs
      ensures FileOk(e, j, qs[j])
    {
      assert FileOk(d, j, packs[j]);
    }
  }

  lemma EvictOnDisk(packs: map<nat, Pack>, active: nat, tiers: nat, d: Disk, logs: map<nat, seq<Rec>>, id: nat)
    requires OnDisk(packs, active, tiers, Chosen(id), d, logs)
    ensures OnDisk(packs - {id}, active, tiers, Resting, Unlink(d, Name(packs[id].tier, id)), logs)
  {
    hide LogsOk, Logged, FilesOk;
    UnlinkLogged(d, logs, Name(packs[id].tier, id));
    EvictFiles(packs, active, d, id);
  }

  lemma EvictTotals(packs: map<nat, Pack>, totals: seq<int>, id: nat)
    requires TotalsOk(packs, totals) && id in packs && packs[id].tier < |totals|
    ensures TotalsOk(packs - {id}, totals[packs[id].tier := totals[packs[id].tier] - packs[id].size])
  {
    var qs := packs - {id};
    forall t | 0 <= t < |totals|
      ensures Sum(SizesIn(qs, t)) == totals[t] - (if t == packs[id].tier then packs[id].size else 0)
    {
      var a: map<nat, int> := SizesIn(packs, t);
      if t == packs[id].tier {
        SumRemove(a, id);
        assert SizesIn(qs, t) == a - {id};
      } else {
        assert SizesIn(qs, t) == a;
      }
    }
  }

  lemma ForgetLive(index: map<Bytes, Loc>, id: nat, j: nat)
    requires j != id
    ensures LiveIn(Forget(index, id), j) == LiveIn(index, j)
  {
  }

  lemma EvictInMemory(m: Mem, totals: seq<int>, logs: map<nat, seq<Rec>>, id: nat)
    requires InMemory(m, totals, logs) && id in m.packs && m.packs[id].tier < |totals|
    ensures InMemory(Mem(Forget(m.index, id), m.packs - {id}),
                     totals[m.packs[id].tier := totals[m.packs[id].tier] - m.packs[id].size], logs)
  {
    EvictTotals(m.packs, totals, id);
    forall j | j in m.packs - {id}
      ensures m.packs[j].live == Sum(LiveIn(Forget(m.index, id), j))
    {
      ForgetLive(m.index, id, j);
    }
  }

  lemma EvictKeepsInv(s: Store, logs: map<nat, seq<Rec>>)
    requires Inv(s, logs) && s.demoter.Chosen?
    ensures Inv(Evict(s), logs)
  {
    hide LogsOk, Logged, Owned, FilesOk, HintsOk, ActiveOk, AloneOk, TotalsOk, LiveOk, Located;
    EvictOnDisk(s.mem.packs, s.active, |s.totals|, s.disk, logs, s.demoter.id);
    EvictInMemory(s.mem, s.totals, logs, s.demoter.id);
  }
}
