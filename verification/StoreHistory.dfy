/** The store as a map that may only lose entries: within one lifetime a get yields the value of the
    latest put of its key, or a miss if there was none or its pack was evicted. */
module StoreHistory {
  import opened Bytes
  import opened PackFormat
  import opened PackStore
  import opened PackSteps
  import opened StoreRuns

  // ---------------------------------------------------------------- what a location stands for

  function Part(b: Bytes, off: nat, len: nat): Bytes {
    if off + len <= |b| then b[off..off + len] else []
  }

  function ValueOf(logs: map<nat, seq<Rec>>, l: Loc): Bytes {
    if l.pack in logs then Part(EncodeLog(logs[l.pack]), l.off, l.len) else []
  }

  /** A located value is a record's value, so it lies inside the log. */
  lemma StoredInside(log: seq<Rec>, k: Bytes, l: Loc) returns (j: nat)
    requires Stored(log, k, l)
    ensures j < |log| && LocIs(log, k, l, j)
    ensures l.off + l.len <= |EncodeLog(log)| && Part(EncodeLog(log), l.off, l.len) == log[j].val
  {
    j := StoredIndex(log, k, l);
    OffsetNext(log, j);
    EncodePrefix(log, j + 1);
    RecordBytes(EncodeLog(log), log, j);
  }

  lemma ValueStays(logs: map<nat, seq<Rec>>, id: nat, r: Rec, k: Bytes, l: Loc)
    requires l.pack in logs && Stored(logs[l.pack], k, l) && id in logs
    ensures ValueOf(Extended(logs, id, r), l) == ValueOf(logs, l)
  {
    if l.pack == id {
      var j := StoredInside(logs[id], k, l);
      EncodeAppend(logs[id], r);
    }
  }

  lemma CopyReads(d: Disk, id: nat, p: Pack, log: seq<Rec>, k: Bytes, l: Loc)
    requires FileOk(d, id, p) && CopyOf(d, p.file, log) && LocatedAt(p, log, k, l)
    ensures l.off + l.len <= |d.inodes[p.file]|
    ensures d.inodes[p.file][l.off..l.off + l.len] == Part(EncodeLog(log), l.off, l.len)
  {
  }

  lemma WhereItIs(s: Store, logs: map<nat, seq<Rec>>, k: Bytes)
    requires Logged(s.disk, logs) && FilesOk(s.mem.packs, s.disk) && Located(s.mem, logs) && k in s.mem.index
    ensures var l := s.mem.index[k];
            && l.pack in s.mem.packs && l.pack in logs
            && FileOk(s.disk, l.pack, s.mem.packs[l.pack])
            && CopyOf(s.disk, s.mem.packs[l.pack].file, logs[l.pack])
            && LocatedAt(s.mem.packs[l.pack], logs[l.pack], k, l)
  {
  }

  /** Reading the file where the index points gives the located value. */
  lemma ReadsTheLog(s: Store, logs: map<nat, seq<Rec>>, k: Bytes)
    requires Inv(s, logs) && k in s.mem.index
    ensures s.mem.index[k].pack in s.mem.packs
    ensures Readable(s.disk.inodes, ReaderFor(s.mem, k))
    ensures ReadAll(s.disk.inodes, ReaderFor(s.mem, k)) == ValueOf(logs, s.mem.index[k])
  {
    hide LogsOk, Logged, Owned, FilesOk, HintsOk, AloneOk, DemoterOk, ActiveOk, LiveOk, TotalsOk, Located;
    var l := s.mem.index[k];
    WhereItIs(s, logs, k);
    CopyReads(s.disk, l.pack, s.mem.packs[l.pack], logs[l.pack], k, l);
  }

  // ---------------------------------------------------------------- what happened to each key

  datatype Past = Past(val: Bytes, pack: nat)

  /** The latest put of each key, the pack it went to, and the packs evicted so far. */
  datatype History = History(latest: map<Bytes, Past>, gone: set<nat>)

  ghost function Told(s: Store, h: History, e: Event): History
    requires Sane(s, e)
  {
    match e
    case Put(r, hint, now) => h.(latest := h.latest[r.key := Past(r.val, Room(s, r, hint, now).active)])
    case EvictPack => h.(gone := h.gone + {s.demoter.id})
    case _ => h
  }

  /** At the start of a lifetime: what was recovered. */
  ghost function Start(s: Store, logs: map<nat, seq<Rec>>): History {
    History(map k | k in s.mem.index :: Past(ValueOf(logs, s.mem.index[k]), s.mem.index[k].pack), {})
  }

  ghost predicate Faithful(index: map<Bytes, Loc>, active: nat, logs: map<nat, seq<Rec>>, h: History) {
    && (forall k :: k in index <==> k in h.latest && h.latest[k].pack !in h.gone)
    && (forall k :: k in index ==> index[k].pack == h.latest[k].pack && ValueOf(logs, index[k]) == h.latest[k].val)
    && (forall id :: id in h.gone ==> id < active)
  }

  /** A rotation changes neither the index nor any value. */
  lemma RoomFaithful(s: Store, logs: map<nat, seq<Rec>>, h: History, r: Rec, hint: Bytes, now: int)
    requires Inv(s, logs) && Faithful(s.mem.index, s.active, logs, h)
    ensures s.active in s.mem.packs && Room(s, r, hint, now).mem.index == s.mem.index
    ensures Faithful(s.mem.index, Room(s, r, hint, now).active, RoomLogs(s, logs, r), h)
  {
    hide LogsOk, Logged, Owned, FilesOk, HintsOk, AloneOk, DemoterOk, LiveOk, TotalsOk;
  }

  lemma NewValue(logs: map<nat, seq<Rec>>, id: nat, r: Rec, l: Loc)
    requires id in logs && l == Loc(id, |EncodeLog(logs[id])| + REC_HEADER + |r.key|, |r.val|)
    ensures ValueOf(Extended(logs, id, r), l) == r.val
  {
    var log := logs[id] + [r];
    assert log[..|logs[id]|] == logs[id];
    assert log[..|log|] == log;
    EncodeAppend(logs[id], r);
    RecordBytes(EncodeLog(log), log, |log| - 1);
  }

  lemma ValuesStay(m: Mem, logs: map<nat, seq<Rec>>, id: nat, r: Rec)
    requires Located(m, logs) && id in logs
    ensures forall k :: k in m.index ==> ValueOf(Extended(logs, id, r), m.index[k]) == ValueOf(logs, m.index[k])
  {
    forall k | k in m.index
      ensures ValueOf(Extended(logs, id, r), m.index[k]) == ValueOf(logs, m.index[k])
    {
      ValueStays(logs, id, r, k, m.index[k]);
    }
  }

  lemma IndexFaithful(index: map<Bytes, Loc>, logs: map<nat, seq<Rec>>, h: History, id: nat, r: Rec, l: Loc)
    requires Faithful(index, id, logs, h) && id in logs && l.pack == id
    requires ValueOf(Extended(logs, id, r), l) == r.val
    requires forall k :: k in index ==> ValueOf(Extended(logs, id, r), index[k]) == ValueOf(logs, index[k])
    ensures Faithful(index[r.key := l], id, Extended(logs, id, r), h.(latest := h.latest[r.key := Past(r.val, id)]))
  {
    hide ValueOf;
  }

  lemma AppendFaithful(s: Store, logs: map<nat, seq<Rec>>, h: History, r: Rec)
    requires Inv(s, logs) && GoodRec(r) && s.mem.packs[s.active].size <= PACK_LIMIT
    requires Faithful(s.mem.index, s.active, logs, h)
    ensures Ready(s) && Known(s.mem) && s.active in logs
    ensures Faithful(Append(s, r).mem.index, s.active, Extended(logs, s.active, r),
                     h.(latest := h.latest[r.key := Past(r.val, s.active)]))
  {
    hide OnDisk, LiveOk, TotalsOk, Faithful, ValueOf, Located;
    ActiveFacts(s, logs);
    IndexedIs(s.mem, s.active, r);
    NewValue(logs, s.active, r, Append(s, r).mem.index[r.key]);
    ValuesStay(s.mem, logs, s.active, r);
    IndexFaithful(s.mem.index, logs, h, s.active, r, Append(s, r).mem.index[r.key]);
  }

  lemma PutFaithful(s: Store, logs: map<nat, seq<Rec>>, h: History, r: Rec, hint: Bytes, now: int)
    requires Inv(s, logs) && CanPut(s, r, hint) && Faithful(s.mem.index, s.active, logs, h)
    ensures Sane(s, Put(r, hint, now))
    ensures var e := Put(r, hint, now);
            Faithful(Next(s, e).mem.index, Next(s, e).active, Recorded(s, logs, e), Told(s, h, e))
  {
    hide Inv, Faithful;
    PutKeepsInv(s, logs, r, hint, now);
    RoomKeepsInv(s, logs, r, hint, now);
    SmallEnough(s, logs, r, hint, now);
    RoomFaithful(s, logs, h, r, hint, now);
    AppendFaithful(Room(s, r, hint, now), RoomLogs(s, logs, r), h, r);
  }

  lemma EvictFaithful(s: Store, logs: map<nat, seq<Rec>>, h: History)
    requires Inv(s, logs) && Can(s, EvictPack) && Faithful(s.mem.index, s.active, logs, h)
    ensures Faithful(Evict(s).mem.index, s.active, logs, h.(gone := h.gone + {s.demoter.id}))
  {
    hide LogsOk, Logged, Owned, FilesOk, HintsOk, AloneOk, LiveOk, TotalsOk, Located, ValueOf;
    ActiveFacts(s, logs);
  }

  lemma StepFaithful(s: Store, logs: map<nat, seq<Rec>>, h: History, e: Event)
    requires Inv(s, logs) && Can(s, e) && Faithful(s.mem.index, s.active, logs, h)
    ensures Sane(s, e)
    ensures Faithful(Next(s, e).mem.index, Next(s, e).active, Recorded(s, logs, e), Told(s, h, e))
  {
    hide Inv, Faithful;
    StepKeepsInv(s, logs, e);
    match e
    case Put(r, hint, now) => PutFaithful(s, logs, h, r, hint, now);
    case FailedPut(r, hint, now) => RoomFaithful(s, logs, h, r, hint, now);
    case EvictPack => EvictFaithful(s, logs, h);
    case _ =>
  }

  // ---------------------------------------------------------------- whole lifetimes

  ghost function Story(s: Store, logs: map<nat, seq<Rec>>, h: History, es: seq<Event>): History
    requires Inv(s, logs) && Feasible(s, logs, es)
    decreases |es|
  {
    if es == [] then h
    else
      StepKeepsInv(s, logs, es[0]);
      Story(Next(s, es[0]), Recorded(s, logs, es[0]), Told(s, h, es[0]), es[1..])
  }

  lemma {:induction false} RunFaithful(s: Store, logs: map<nat, seq<Rec>>, h: History, es: seq<Event>)
    requires Inv(s, logs) && Feasible(s, logs, es) && Faithful(s.mem.index, s.active, logs, h)
    ensures Faithful(Run(s, logs, es).0.mem.index, Run(s, logs, es).0.active, Run(s, logs, es).1, Story(s, logs, h, es))
    decreases |es|
  {
    hide Inv, Faithful, Can;
    if es != [] {
      StepKeepsInv(s, logs, es[0]);
      StepFaithful(s, logs, h, es[0]);
      RunFaithful(Next(s, es[0]), Recorded(s, logs, es[0]), Told(s, h, es[0]), es[1..]);
    }
  }

  lemma StartFaithful(s: Store, logs: map<nat, seq<Rec>>)
    ensures Faithful(s.mem.index, s.active, logs, Start(s, logs))
  {
  }

  datatype Answer = Miss | Found(val: Bytes)

  /** What a client gets when it reads the whole section it is handed. */
  ghost function Answered(s: Store, k: Bytes): Answer
    requires k in s.mem.index ==>
               s.mem.index[k].pack in s.mem.packs && Readable(s.disk.inodes, ReaderFor(s.mem, k))
  {
    if k in s.mem.index then Found(ReadAll(s.disk.inodes, ReaderFor(s.mem, k))) else Miss
  }

  /** The value of the last successful put of k, `before` if there was none. */
  function LastPut(es: seq<Event>, k: Bytes, before: Answer): Answer
    decreases |es|
  {
    if es == [] then before
    else LastPut(es[1..], k, if es[0].Put? && es[0].r.key == k then Found(es[0].r.val) else before)
  }

  function LatestOf(h: History, k: Bytes): Answer {
    if k in h.latest then Found(h.latest[k].val) else Miss
  }

  lemma {:induction false} StoryIsLastPut(s: Store, logs: map<nat, seq<Rec>>, h: History, es: seq<Event>, k: Bytes)
    requires Inv(s, logs) && Feasible(s, logs, es)
    ensures LatestOf(Story(s, logs, h, es), k) == LastPut(es, k, LatestOf(h, k))
    decreases |es|
  {
    hide Inv, Can;
    if es != [] {
      StepKeepsInv(s, logs, es[0]);
      StoryIsLastPut(Next(s, es[0]), Recorded(s, logs, es[0]), Told(s, h, es[0]), es[1..], k);
    }
  }

  lemma AnswerIs(s: Store, logs: map<nat, seq<Rec>>, h: History, k: Bytes)
    requires Inv(s, logs) && Faithful(s.mem.index, s.active, logs, h)
    ensures k in s.mem.index ==> s.mem.index[k].pack in s.mem.packs && Readable(s.disk.inodes, ReaderFor(s.mem, k))
    ensures Answered(s, k) == if k in h.latest && h.latest[k].pack in h.gone then Miss else LatestOf(h, k)
  {
    hide Inv;
    if k in s.mem.index {
      ReadsTheLog(s, logs, k);
    }
  }

  /** Whatever the interleaving, a get answers with the last put of its key (or what was there at the
      start), or with a miss, and it misses exactly if there is nothing or its pack was evicted. */
  lemma GetIsLastPut(s: Store, logs: map<nat, seq<Rec>>, es: seq<Event>, k: Bytes)
    requires Inv(s, logs) && Feasible(s, logs, es)
    requires k in s.mem.index ==> s.mem.index[k].pack in s.mem.packs && Readable(s.disk.inodes, ReaderFor(s.mem, k))
    ensures var t := Run(s, logs, es).0;
            var h := Story(s, logs, Start(s, logs), es);
            && (k in t.mem.index ==> t.mem.index[k].pack in t.mem.packs && Readable(t.disk.inodes, ReaderFor(t.mem, k)))
            && Answered(t, k) == if k in h.latest && h.latest[k].pack in h.gone then Miss
                                 else LastPut(es, k, Answered(s, k))
  {
    hide Inv, Faithful;
    StartFaithful(s, logs);
    AnswerIs(s, logs, Start(s, logs), k);
    RunFaithful(s, logs, Start(s, logs), es);
    AnswerIs(Run(s, logs, es).0, Run(s, logs, es).1, Story(s, logs, Start(s, logs), es), k);
    StoryIsLastPut(s, logs, Start(s, logs), es, k);
  }

  // ---------------------------------------------------------------- readers outlive moves and evictions

  ghost predicate Grows(a: seq<Bytes>, b: seq<Bytes>) {
    |a| <= |b| && forall i :: 0 <= i < |a| ==> a[i] <= b[i]
  }

  lemma StepGrows(s: Store, logs: map<nat, seq<Rec>>, e: Event)
    requires Inv(s, logs) && Can(s, e)
    ensures Sane(s, e) && Grows(s.disk.inodes, Next(s, e).disk.inodes)
  {
    hide Inv, Can;
    StepKeepsInv(s, logs, e);
  }

  lemma {:induction false} RunGrows(s: Store, logs: map<nat, seq<Rec>>, es: seq<Event>)
    requires Inv(s, logs) && Feasible(s, logs, es)
    ensures Grows(s.disk.inodes, Run(s, logs, es).0.disk.inodes)
    decreases |es|
  {
    hide Inv, Can;
    if es != [] {
      StepGrows(s, logs, es[0]);
      StepKeepsInv(s, logs, es[0]);
      RunGrows(Next(s, es[0]), Recorded(s, logs, es[0]), es[1..]);
    }
  }

  /** A reader handed out earlier still reads its value, its pack moved, evicted or not. */
  lemma ReadersSurvive(s: Store, logs: map<nat, seq<Rec>>, es: seq<Event>, r: Reader)
    requires Inv(s, logs) && Feasible(s, logs, es) && Readable(s.disk.inodes, r)
    ensures Readable(Run(s, logs, es).0.disk.inodes, r)
    ensures ReadAll(Run(s, logs, es).0.disk.inodes, r) == ReadAll(s.disk.inodes, r)
  {
    hide Inv;
    RunGrows(s, logs, es);
  }
}
