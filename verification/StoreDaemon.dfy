/** The store as the daemon keeps it: an object whose fields change under its lock. Its methods are proved to
    do events of StoreRuns, one each but for MoveDown, Demote and Close, which do several, and Open, which
    does the rounds of StoreOpen; so what is proved there of runs holds of the object. */
module StoreDaemon {
  import opened Bytes
  import opened PackFormat
  import opened PackStore
  import opened PackSteps
  import opened StoreRuns
  import opened Demotion
  import opened Options
  import opened PackNames
  import opened StoreOpen

  class TieredStore {
    const budgets: seq<int>
    var index: map<Bytes, Loc>
    var packs: map<nat, Pack>
    var totals: seq<int>
    var active: nat
    var closed: bool
    var moving: Demoter
    var disk: Disk
    ghost var logs: map<nat, seq<Rec>>

    ghost function View(): Store
      reads this
    {
      Store(Mem(index, packs), totals, budgets, active, closed, moving, disk)
    }

    ghost predicate Valid()
      reads this
    {
      Inv(View(), logs)
    }

    /** The store before anything is loaded. */
    constructor Blank(d: Disk, limits: seq<int>)
      ensures View() == Empty(d, limits)
    {
      budgets := limits;
      index, packs, totals, active, closed := map[], map[], seq(|limits|, _ => 0), 0, false;
      moving, disk, logs := Resting, d, map[];
    }

    /** OpenStore on a blank store: load every pack there is, then start a fresh one. */
    method Open(mtimes: map<Name, int>, now: int, ghost l: map<nat, seq<Rec>>)
      requires View() == Empty(disk, budgets) && budgets != []
      requires Recoverable(disk, |budgets|, l) && SixDigits(disk)
      modifies this
      ensures Valid() && logs == l[active := []]
      ensures LastWriteWins(old(disk), index)
      ensures forall j :: j in l ==> j < active
      ensures forall n :: n in old(disk).packs ==> n.id < active
    {
      hide Recoverable, Opening, Listing, SixDigits, LastWriteWins, Inv, IsLast, Sealed;
      var d := disk;
      var todo := ListBelow(d, budgets, l);
      OpeningStarts(d, budgets, todo, l);
      var last := LoadPacks(d, todo, mtimes, now, l);
      LoadedTops(d, View(), l, budgets, last);
      FreshKeepsInv(View(), l, last + 1, now);
      IndexIsReference(d, View(), l);
      active := last + 1;
      packs := packs[active := Pack(0, |disk.inodes|, 0, 0, now)];
      disk := NewFile(disk, Name(0, active));
      logs := l[active := []];
    }

    /** The loop of OpenStore; returns the greatest id loaded. */
    method LoadPacks(d: Disk, names: seq<Name>, mtimes: map<Name, int>, now: int,
                     ghost l: map<nat, seq<Rec>>) returns (last: nat)
      requires Opening(d, View(), names, l) && packs == map[]
      modifies `index, `packs, `totals, `disk
      ensures Opening(d, View(), [], l) && |totals| == old(|totals|)
      ensures IsLast(packs, last)
    {
      hide Opening, CanLoad, LoadOne, Sealable;
      var todo := names;
      last := 0;
      while todo != []
        invariant Opening(d, View(), todo, l) && |totals| == old(|totals|)
        invariant IsLast(packs, last)
        decreases |todo|
      {
        var n := todo[0];
        OpeningCanLoad(d, View(), todo, l);
        ghost var s := View();
        var hint := LoadNext(n, if n in mtimes then mtimes[n] else now);
        OpenStep(d, s, todo, Choice(if n in mtimes then mtimes[n] else now, hint), l);
        last := if n.id > last then n.id else last;
        todo := todo[1..];
      }
      assert todo == [];
    }

    /** One round: a pack already loaded from a faster tier is removed. */
    method LoadNext(n: Name, used: int) returns (hint: Bytes)
      requires CanLoad(View(), n)
      modifies `index, `packs, `totals, `disk
      ensures CanLoad(old(View()), n) && Sealable(old(View()), n, Choice(used, hint))
      ensures View() == LoadOne(old(View()), n, Choice(used, hint)) && |totals| == old(|totals|)
      ensures packs.Keys == old(packs).Keys + {n.id}
    {
      hide HintFrom, SizeAfter, Contents, Surviving, Known;
      ghost var s := View();
      if n.id in packs {
        hint := [];
        disk := Unlink(disk, n);
      } else {
        hint := LoadPack(n, used);
        LoadMemFrame(s.mem, s.disk, n, used);
      }
    }

    static method ListBelow(d: Disk, limits: seq<int>, ghost l: map<nat, seq<Rec>>) returns (todo: seq<Name>)
      requires Recoverable(d, |limits|, l)
      ensures Listing(d, todo)
    {
      hide LogsOk, Logged, Owned, Topped, Listing;
      todo := ListPacks(d, |limits|);
    }

    /** The pack files, tier by tier. */
    static method ListPacks(d: Disk, tiers: nat) returns (todo: seq<Name>)
      requires forall n :: n in d.packs ==> n.tier < tiers
      ensures Listing(d, todo)
    {
      todo := [];
      var t := 0;
      while t < tiers
        invariant t <= tiers && ListedBelow(d, todo, t)
      {
        todo := ListTier(d, todo, t);
        t := t + 1;
      }
    }

    static method ListTier(d: Disk, before: seq<Name>, t: nat) returns (todo: seq<Name>)
      requires ListedBelow(d, before, t)
      ensures ListedBelow(d, todo, t + 1)
    {
      hide ParseId, PackFile;
      var rest := d.packs.Keys;
      todo := before;
      while rest != {}
        invariant rest <= d.packs.Keys
        invariant Distinct(todo)
        invariant forall i, j :: 0 <= i < j < |todo| ==> todo[i].tier <= todo[j].tier
        invariant forall n :: n in todo ==> n.tier <= t
        invariant forall n :: n in todo <==>
                  n in d.packs && Recognised(n.id) && (n.tier < t || (n.tier == t && n !in rest))
        decreases |rest|
      {
        var n :| n in rest;
        rest := rest - {n};
        if n.tier == t && Recognised(n.id) {
          todo := todo + [n];
        }
      }
    }

    /** load: index one pack, from its hint or by a scan that truncates a torn tail and seals. */
    method LoadPack(n: Name, used: int) returns (hint: Bytes)
      requires CanLoad(View(), n) && n.id !in packs
      modifies `index, `packs, `totals, `disk
      ensures CanLoad(old(View()), n) && Sealable(old(View()), n, Choice(used, hint))
      ensures View() == LoadOne(old(View()), n, Choice(used, hint))
    {
      if n in disk.hints {
        LoadHinted(n, used);
        hint := [];
      } else {
        hint := LoadScanned(n, used);
      }
    }

    method LoadHinted(n: Name, used: int)
      requires CanLoad(View(), n) && n.id !in packs && n in disk.hints
      modifies `index, `packs, `totals
      ensures View() == LoadOne(old(View()), n, Choice(used, []))
    {
      hide Fitting, ReadHints, Scan, ScanEnd, AddAll;
      var b := disk.inodes[disk.packs[n]];
      packs := packs[n.id := Pack(n.tier, disk.packs[n], |b|, 0, used)];
      IndexHint(n.id, disk.hints[n], |b|);
      totals := totals[n.tier := totals[n.tier] + |b|];
    }

    method LoadScanned(n: Name, used: int) returns (hint: Bytes)
      requires CanLoad(View(), n) && n.id !in packs && n !in disk.hints
      modifies `index, `packs, `totals, `disk
      ensures HintFrom(index, n.id, hint) && View() == LoadOne(old(View()), n, Choice(used, hint))
    {
      hide HintFrom, Fitting, ReadHints, Scan, ScanEnd, AddAll;
      var b := disk.inodes[disk.packs[n]];
      var end := ScanLength(b);
      packs := packs[n.id := Pack(n.tier, disk.packs[n], end, 0, used)];
      IndexScan(n.id, b);
      disk := disk.(inodes := disk.inodes[disk.packs[n] := b[..end]]);
      totals := totals[n.tier := totals[n.tier] + end];
      hint := HintOf(n.id);
      disk := WriteHint(disk, n, hint);
    }

    /** The hint's entries that lie inside the pack, up to the first one cut short. */
    method IndexHint(id: nat, hint: Bytes, size: nat)
      requires id in packs && Known(View().mem)
      modifies `index, `packs
      ensures View().mem == AddAll(old(View().mem), id, Fitting(ReadHints(hint), size))
    {
      hide Fits, AddAll, Add, Fitting, Known, HintIn;
      ghost var m := View().mem;
      ghost var seen: seq<Entry> := [];
      AddNone(m, id, size);
      var rest := hint;
      while HintWhole(rest)
        invariant id in packs && Known(View().mem) && Known(m) && id in m.packs
        invariant seen + ReadHints(rest) == ReadHints(hint)
        invariant View().mem == AddAll(m, id, Fitting(seen, size))
        decreases |rest|
      {
        hide ReadHints;
        var e := HintIn(rest);
        FittingGrows(m, id, seen, e, size);
        HintNext(rest);
        assert seen + ([e] + ReadHints(rest[HINT_HEADER + |e.key|..]))
               == seen + [e] + ReadHints(rest[HINT_HEADER + |e.key|..]);
        seen := seen + [e];
        if Fits(e, size) {
          IndexOne(id, e);
        }
        rest := rest[HINT_HEADER + |e.key|..];
      }
      assert ReadHints(rest) == [];
      assert seen == ReadHints(hint);
    }

    /** The whole records of an unsealed pack. */
    method IndexScan(id: nat, b: Bytes)
      requires id in packs && Known(View().mem)
      modifies `index, `packs
      ensures View().mem == AddAll(old(View().mem), id, Scan(b, 0))
    {
      hide AddAll, Add, Known, EntryIn, After;
      ghost var m := View().mem;
      ghost var seen: seq<Entry> := [];
      AddNone(m, id, 0);
      var off: nat := 0;
      while Whole(b, off)
        invariant id in packs && Known(View().mem) && Known(m) && id in m.packs
        invariant seen + Scan(b, off) == Scan(b, 0)
        invariant View().mem == AddAll(m, id, seen)
        decreases |b| - off
      {
        hide Scan;
        var e := EntryIn(b, off);
        AddNext(m, id, seen, e);
        ScanNext(b, off);
        assert seen + ([e] + Scan(b, After(b, off))) == seen + [e] + Scan(b, After(b, off));
        seen := seen + [e];
        IndexOne(id, e);
        off := After(b, off);
      }
      assert Scan(b, off) == [];
      assert seen == Scan(b, 0);
    }

    static method ScanLength(b: Bytes) returns (end: nat)
      ensures end == ScanEnd(b, 0)
    {
      var es;
      es, end := ScanPack(b);
    }

    /** The closure `add`. */
    method IndexOne(id: nat, e: Entry)
      requires id in packs && Known(View().mem)
      modifies `index, `packs
      ensures View().mem == Add(old(View().mem), id, e)
      ensures Known(View().mem) && id in packs
    {
      AddFrame(View().mem, id, e);
      var l := LocOf(id, e);
      if e.key in index {
        if index[e.key].pack > id {
          return;
        }
        packs := AddLive(packs, index[e.key].pack, 0 - index[e.key].len);
      }
      index := index[e.key := l];
      packs := AddLive(packs, id, l.len);
    }

    /** The hint of pack id: a walk over the whole index, in whatever order, keeping what lies in it. */
    method HintOf(id: nat) returns (hint: Bytes)
      ensures HintFrom(index, id, hint)
    {
      var walk: seq<Bytes> := [];
      var todo := index.Keys;
      hint := [];
      while todo != {}
        invariant todo <= index.Keys
        invariant forall i, j :: 0 <= i < j < |walk| ==> walk[i] != walk[j]
        invariant forall i :: 0 <= i < |walk| ==> walk[i] in index && walk[i] !in todo && index[walk[i]].pack == id
        invariant forall k :: k in index && index[k].pack == id && k !in todo ==> k in walk
        invariant hint == EncodeHints(HintEntries(index, walk))
        decreases |todo|
      {
        var k :| k in todo;
        todo := todo - {k};
        if index[k].pack == id {
          HintGrows(index, walk, k);
          walk := walk + [k];
          hint := hint + EncodeHint(HintEntry(k, index[k]));
        }
      }
      assert WalkOf(index, id, walk);
    }

    /** seal */
    method SealPack(id: nat) returns (hint: Bytes)
      requires Valid() && id in packs
      modifies `disk
      ensures HintFrom(index, id, hint) && View() == Seal(old(View()), id, hint)
    {
      hide Inv, HintFrom;
      hint := HintOf(id);
      disk := WriteHint(disk, Name(packs[id].tier, id), hint);
    }

    /** Get: a reader over the pack's descriptor; being read makes the pack recent. */
    method Lookup(key: Bytes, now: int) returns (r: Option<Reader>)
      requires Valid()
      modifies `packs
      ensures Valid() && Sane(old(View()), Get(key, now)) && View() == Next(old(View()), Get(key, now))
      ensures r.Some? <==> key in index
      ensures r.Some? ==> index[key].pack in packs && r.value == ReaderFor(View().mem, key)
    {
      hide Inv;
      StepKeepsInv(View(), logs, Get(key, now));
      if key in index {
        var l := index[key];
        var p := packs[l.pack];
        packs := packs[l.pack := p.(used := now)];
        r := Some(Reader(p.file, l.off, l.len));
      } else {
        r := None;
      }
    }

    /** rotate: seal the active pack and start the next one. */
    method Rotate(now: int) returns (hint: Bytes)
      requires Valid() && active in packs
      modifies `disk, `packs, `active
      ensures HintFrom(old(index), old(active), hint)
      ensures View() == Fresh(Seal(old(View()), old(active), hint), old(active) + 1, now)
    {
      hide Inv;
      hint := SealPack(active);
      active := active + 1;
      packs := packs[active := Pack(0, |disk.inodes|, 0, 0, now)];
      disk := NewFile(disk, Name(0, active));
    }

    /** The end of Put: the record goes to the end of the active pack and into the index. */
    method AppendRecord(r: Rec)
      requires Valid() && GoodRec(r) && active in packs && packs[active].size <= PACK_LIMIT
      modifies `index, `packs, `totals, `disk, `logs
      ensures Ready(old(View())) && Known(old(View()).mem) && old(active) in old(logs)
      ensures Valid() && View() == Append(old(View()), r) && logs == Extended(old(logs), active, r)
    {
      hide Inv, EncodeRec, Add, Indexed, LocOf;
      ghost var before := View();
      ActiveFacts(View(), logs);
      AppendKeepsInv(View(), logs, r);
      IndexedByParts(View().mem, active, r);
      EncodeAppend([], r);
      var key, p, len := r.key, packs[active], REC_HEADER + |r.key| + |r.val|;
      disk := Grown(disk, p.file, EncodeRec(r));
      var others := if key in index then AddLive(packs, index[key].pack, 0 - index[key].len) else packs;
      packs := others[active := others[active].(size := p.size + len, live := others[active].live + Wrap(|r.val|))];
      index := index[key := LocOf(active, Entry(key, p.size, |r.val|))];
      totals := totals[0 := totals[0] + len];
      logs := Extended(logs, active, r);
      assert View() == Append(before, r);
    }

    /** Put. The write itself succeeds; a failed one is truncated again (FailedPut). */
    method Insert(key: Bytes, val: Bytes, now: int) returns (ok: bool, hint: Bytes)
      requires Valid()
      modifies `index, `packs, `totals, `active, `disk, `logs
      ensures Valid()
      ensures ok <==> !BadPut(key, |val|) && !closed
      ensures !ok ==> View() == old(View()) && logs == old(logs)
      ensures ok ==> Can(old(View()), Put(Rec(key, val), hint, now)) && Sane(old(View()), Put(Rec(key, val), hint, now))
      ensures ok ==> View() == Next(old(View()), Put(Rec(key, val), hint, now))
    {
      hide Inv;
      ghost var before, was := View(), logs;
      ok, hint := false, [];
      if BadPut(key, |val|) || closed {
        return;
      }
      ok := true;
      var r := Rec(key, val);
      ActiveFacts(before, was);
      EncodeAppend([], r);
      if packs[active].size + REC_HEADER + |key| + |val| > PACK_LIMIT && packs[active].size > 0 {
        hint := Rotate(now);
      }
      PutKeepsInv(before, was, r, hint, now);
      RoomKeepsInv(before, was, r, hint, now);
      SmallEnough(before, was, r, hint, now);
      logs := RoomLogs(before, was, r);
      AppendRecord(r);
    }

    // ---------------------------------------------------------------- the demoter

    /** victim: of the tiers over budget, the first with a pack to give decides. */
    method Victim() returns (v: Option<nat>)
      requires |totals| == |budgets|
      ensures v.Some? ==> IsVictim(View(), v.value)
      ensures v.None? ==> AtRest(View())
    {
      ghost var s := View();
      var t := 0;
      while t < |totals|
        invariant t <= |totals|
        invariant forall u :: 0 <= u < t && Over(totals[u], budgets[u]) ==> !Gives(s, u)
      {
        if Over(totals[t], budgets[t]) {
          v := BestIn(t);
          if v.Some? {
            assert Gives(s, t);
            assert Served(s, t);
            return;
          }
        }
        t := t + 1;
      }
      v := None;
    }

    /** The first pack of a tier in the demoter's order, whatever order the map is walked in. */
    method BestIn(t: nat) returns (v: Option<nat>)
      ensures v.None? ==> !Gives(View(), t)
      ensures v.Some? ==> Candidate(View(), t, v.value)
      ensures v.Some? ==> forall j :: Candidate(View(), t, j) && j != v.value ==>
              Sooner(v.value, packs[v.value], j, packs[j])
    {
      ghost var s := View();
      var rest := packs.Keys;
      v := None;
      while rest != {}
        invariant rest <= packs.Keys
        invariant v.None? ==> forall j :: Candidate(s, t, j) ==> j in rest
        invariant v.Some? ==> Candidate(s, t, v.value) && v.value !in rest
        invariant v.Some? ==>
          forall j :: Candidate(s, t, j) && j !in rest && j != v.value ==> Sooner(v.value, packs[v.value], j, packs[j])
        decreases |rest|
      {
        hide Sooner;
        var id :| id in rest;
        rest := rest - {id};
        if packs[id].tier == t && id != active {
          if v.None? {
            v := Some(id);
          } else if Sooner(id, packs[id], v.value, packs[v.value]) {
            ghost var w := v.value;
            forall j | Candidate(s, t, j) && j !in rest && j != id
              ensures Sooner(id, packs[id], j, packs[j])
            {
              if j != w {
                SoonerTransitive(id, packs[id], w, packs[w], j, packs[j]);
              }
            }
            v := Some(id);
          } else {
            SoonerTotal(id, packs[id], v.value, packs[v.value]);
          }
        }
      }
    }

    /** Drop every key of pack id from the index. */
    method ForgetPack(id: nat)
      modifies `index
      ensures index == Forget(old(index), id)
    {
      var todo := index.Keys;
      while todo != {}
        invariant forall k :: k in todo ==> k in index
        invariant forall k :: k in index <==> k in old(index) && (old(index)[k].pack != id || k in todo)
        invariant forall k :: k in index ==> index[k] == old(index)[k]
        decreases |todo|
      {
        var k :| k in todo;
        todo := todo - {k};
        if index[k].pack == id {
          index := index - {k};
        }
      }
    }

    /** moveDown, nothing coming in between. */
    method MoveDown(id: nat, link: bool)
      requires Valid() && CanMove(View(), id)
      modifies `index, `packs, `totals, `disk
      ensures Valid() && View() == Moved(old(View()), id, link)
    {
      hide Inv;
      MoveKeepsInv(View(), logs, id, link);
      var p := packs[id];
      if p.tier + 1 == |totals| {
        ForgetPack(id);
        packs := packs - {id};
        totals := totals[p.tier := totals[p.tier] - p.size];
      } else {
        var to, file := Name(p.tier + 1, id), p.file;
        if to in disk.packs {
          file := disk.packs[to];
        } else {
          if !link {
            file := |disk.inodes|;
            disk := disk.(inodes := disk.inodes + [disk.inodes[p.file]]);
          }
          disk := LinkPack(disk, to, file);
        }
        if to !in disk.hints {
          disk := WriteHint(disk, to, disk.hints[Name(p.tier, id)]);
        }
        packs := Demoted(packs, id, file);
        totals := totals[p.tier := totals[p.tier] - p.size][p.tier + 1 := totals[p.tier + 1] + p.size];
      }
      disk := Unlink(disk, Name(p.tier, id));
    }

    /** The demoter's loop, woken once: it ends, and leaves every bounded tier within its budget as far
        as its packs allow. */
    method Demote(link: bool)
      requires Valid() && moving.Resting?
      modifies `index, `packs, `totals, `disk
      ensures Valid() && AtRest(View())
    {
      hide OnDisk, InMemory, IsVictim, AtRest;
      var v := Victim();
      DepthAtLeastZero(View(), logs);
      while v.Some?
        invariant Valid() && moving.Resting? && Depth(View()) >= 0
        invariant v.Some? ==> IsVictim(View(), v.value)
        invariant v.None? ==> AtRest(View())
        decreases Depth(View())
      {
        VictimIsPack(View(), v.value);
        VictimCanMove(View(), logs, v.value);
        MoveLowers(View(), v.value, link);
        MoveDown(v.value, link);
        DepthAtLeastZero(View(), logs);
        v := Victim();
      }
    }

    /** Close, the demoter having stopped. */
    method Close() returns (hint: Bytes)
      requires Valid() && moving.Resting?
      modifies `closed, `disk
      ensures Valid() && closed && HintFrom(index, active, hint)
      ensures View() == Next(Next(old(View()), Shut), SealActive(hint))
    {
      hide Inv, HintFrom;
      StepKeepsInv(View(), logs, Shut);
      closed := true;
      ActiveFacts(View(), logs);
      ghost var s := View();
      hint := SealPack(active);
      StepKeepsInv(s, logs, SealActive(hint));
    }
  }

  /** The names of the tiers before t, in order. */
  ghost predicate ListedBelow(d: Disk, todo: seq<Name>, t: nat) {
    && Distinct(todo)
    && (forall n :: n in todo <==> n in d.packs && Recognised(n.id) && n.tier < t)
    && (forall i, j :: 0 <= i < j < |todo| ==> todo[i].tier <= todo[j].tier)
  }

  lemma AddNone(m: Mem, id: nat, size: nat)
    requires Known(m) && id in m.packs
    ensures AddAll(m, id, []) == m && Fitting([], size) == []
  {
  }

  lemma AddNext(m: Mem, id: nat, seen: seq<Entry>, e: Entry)
    requires Known(m) && id in m.packs
    ensures AddAll(m, id, seen + [e]) == Add(AddAll(m, id, seen), id, e)
  {
    assert (seen + [e])[..|seen|] == seen;
  }

  lemma ScanNext(b: Bytes, off: nat)
    requires Whole(b, off)
    ensures Scan(b, off) == [EntryIn(b, off)] + Scan(b, After(b, off)) && off < After(b, off) <= |b|
  {
  }

  lemma HintNext(b: Bytes)
    requires HintWhole(b)
    ensures HINT_HEADER + |HintIn(b).key| <= |b|
    ensures ReadHints(b) == [HintIn(b)] + ReadHints(b[HINT_HEADER + |HintIn(b).key|..])
  {
  }

  lemma FittingGrows(m: Mem, id: nat, seen: seq<Entry>, e: Entry, size: nat)
    requires Known(m) && id in m.packs
    ensures Fitting(seen + [e], size) == if Fits(e, size) then Fitting(seen, size) + [e] else Fitting(seen, size)
    ensures Fits(e, size) ==> AddAll(m, id, Fitting(seen + [e], size)) == Add(AddAll(m, id, Fitting(seen, size)), id, e)
  {
    hide Fits;
    assert (seen + [e])[..|seen|] == seen;
    AddNext(m, id, Fitting(seen, size), e);
  }

  lemma LoadedTops(d: Disk, s: Store, l: map<nat, seq<Rec>>, limits: seq<int>, last: nat)
    requires Recoverable(d, |limits|, l) && Opening(d, s, [], l) && IsLast(s.mem.packs, last)
    requires |s.totals| == |s.budgets| > 0 && s.demoter.Resting?
    ensures Sealed(s, l, last + 1)
    ensures forall j :: j in l ==> j < last + 1
    ensures forall n :: n in d.packs ==> n.id < last + 1
  {
    hide Opening, Sealed, LogsOk, Logged, Owned;
    LoadedSealed(d, s, l, last);
    SealedAbove(s, l, last + 1);
    LoadedIds(d, s, l);
  }

  lemma VictimIsPack(s: Store, id: nat)
    requires IsVictim(s, id)
    ensures id in s.mem.packs && id != s.active
  {
  }

  lemma DepthAtLeastZero(s: Store, logs: map<nat, seq<Rec>>)
    requires Inv(s, logs)
    ensures Depth(s) >= 0
  {
    hide OnDisk;
    DepthNatural(s);
  }

  /** Indexing a new record, as Put does it: the newest pack takes the key without a comparison. */
  lemma IndexedByParts(m: Mem, id: nat, r: Rec)
    requires Known(m) && id in m.packs && forall j :: j in m.packs ==> j <= id
    ensures var packs := if r.key in m.index then AddLive(m.packs, m.index[r.key].pack, 0 - m.index[r.key].len)
                         else m.packs;
            Indexed(m, id, r) == Mem(m.index[r.key := LocOf(id, Entry(r.key, m.packs[id].size, |r.val|))],
              packs[id := packs[id].(size := m.packs[id].size + |EncodeRec(r)|,
                                     live := packs[id].live + Wrap(|r.val|))])
  {
  }

  lemma HintGrows(index: map<Bytes, Loc>, walk: seq<Bytes>, k: Bytes)
    requires k in index && forall i :: 0 <= i < |walk| ==> walk[i] in index
    ensures EncodeHints(HintEntries(index, walk + [k]))
         == EncodeHints(HintEntries(index, walk)) + EncodeHint(HintEntry(k, index[k]))
  {
    assert HintEntries(index, walk + [k]) == HintEntries(index, walk) + [HintEntry(k, index[k])];
    HintsAppend(HintEntries(index, walk), HintEntry(k, index[k]));
  }

  lemma {:induction false} HintsAppend(es: seq<Entry>, e: Entry)
    ensures EncodeHints(es + [e]) == EncodeHints(es) + EncodeHint(e)
    decreases |es|
  {
    if es == [] {
      assert es + [e] == [e];
      assert EncodeHints([e]) == EncodeHint(e) + EncodeHints([]);
    } else {
      HintsAppend(es[1..], e);
      assert (es + [e])[1..] == es[1..] + [e];
      assert EncodeHint(es[0]) + (EncodeHints(es[1..]) + EncodeHint(e))
             == EncodeHint(es[0]) + EncodeHints(es[1..]) + EncodeHint(e);
    }
  }
}
