/** What "the latest put or a miss" is worth across a restart: the record put last may have been lost
    while an older one of its key is still there. */
module StoreRestart {
  import opened Bytes
  import opened Options
  import opened PackFormat
  import opened PackStore
  import opened PackSteps
  import opened StoreRuns
  import opened StoreHistory
  import opened StoreOpen
  import opened StoreLives

  // ---------------------------------------------------------------- the record put last

  /** Record m of pack j was put last for key k; packs evicted since are in the logs too. */
  ghost predicate Latest(logs: map<nat, seq<Rec>>, k: Bytes, j: nat, m: nat) {
    && j in logs && m < |logs[j]| && logs[j][m].key == k
    && (forall i :: m < i < |logs[j]| ==> logs[j][i].key != k)
    && (forall id, i :: id in logs && id > j && 0 <= i < |logs[id]| ==> logs[id][i].key != k)
  }

  /** The fastest copy of pack j still holds its record m. */
  ghost predicate StillThere(d: Disk, logs: map<nat, seq<Rec>>, j: nat, m: nat)
    requires j in logs && m < |logs[j]|
  {
    exists n :: FastCopy(d, n) && n.id == j && EntryAt(logs[j], m) in Surviving(d, n)
  }

  ghost predicate NothingOf(d: Disk, k: Bytes) {
    forall n :: FastCopy(d, n) ==> !HasKey(Surviving(d, n), k)
  }

  /** The last entry of a key: no later one has it. */
  lemma {:induction false} LastIndex(es: seq<Entry>, k: Bytes) returns (x: nat)
    requires HasKey(es, k)
    ensures x < |es| && es[x] == LastOf(es, k) && es[x].key == k && forall i :: x < i < |es| ==> es[i].key != k
    decreases |es|
  {
    if es[|es| - 1].key == k {
      x := |es| - 1;
    } else {
      x := LastIndex(es[..|es| - 1], k);
    }
  }

  lemma {:induction false} HasKeyOf(es: seq<Entry>, e: Entry)
    requires e in es
    ensures HasKey(es, e.key)
    decreases |es|
  {
    if es[|es| - 1] != e {
      HasKeyOf(es[..|es| - 1], e);
    }
  }

  lemma {:induction false} FittingOnce(es: seq<Entry>, size: nat)
    requires KeysOnce(es)
    ensures KeysOnce(Fitting(es, size))
    decreases |es|
  {
    hide Fits;
    if es != [] {
      var front := es[..|es| - 1];
      FittingOnce(front, size);
      var fs := Fitting(front, size);
      forall i | 0 <= i < |fs|
        ensures fs[i].key != es[|es| - 1].key
      {
        assert fs[i] in front;
      }
    }
  }

  /** If the record put last survives, it is the last surviving record of its key. */
  lemma SurvivorIsLast(d: Disk, logs: map<nat, seq<Rec>>, n: Name, k: Bytes, m: nat)
    requires Logged(d, logs) && LogsOk(logs) && n in d.packs && n.id in logs && Latest(logs, k, n.id, m)
    requires EntryAt(logs[n.id], m) in Surviving(d, n)
    ensures HasKey(Surviving(d, n), k) && LastOf(Surviving(d, n), k) == EntryAt(logs[n.id], m)
  {
    hide LogOk, EntryAt, HasKey, LastOf, Scan, Complete;
    var es, log := Surviving(d, n), logs[n.id];
    var e := EntryAt(log, m);
    assert e.key == k by {
      KeyAt(log, m);
    }
    HasKeyOf(es, e);
    var x := LastIndex(es, k);
    var y :| 0 <= y < |es| && es[y] == e;
    if n in d.hints {
      assert HintOk(d.hints[n], log);
      FittingOnce(ReadHints(d.hints[n]), |Contents(d, n)|);
    } else {
      assert CopyOf(d, d.packs[n], log);
      ScannedLast(Contents(d, n), log, k, m, x, y);
    }
  }

  lemma KeyAt(log: seq<Rec>, i: nat)
    requires i < |log|
    ensures EntryAt(log, i).key == log[i].key
  {
  }

  lemma {:induction false} ScannedLast(b: Bytes, log: seq<Rec>, k: Bytes, m: nat, x: nat, y: nat)
    requires b <= EncodeLog(log) && LogOk(log) && m < |log| && forall i :: m < i < |log| ==> log[i].key != k
    requires var es := Scan(b, 0);
             && x < |es| && y < |es| && es[y] == EntryAt(log, m) && es[x].key == k
             && forall i :: x < i < |es| ==> es[i].key != k
    requires log[m].key == k
    ensures Scan(b, 0)[x] == EntryAt(log, m)
  {
    hide Scan, ScanEnd, Entries, Complete, Offset;
    ScanRecovers(b, log);
    var c := Complete(log, |b|);
    EntriesAt(log, 0, c, x);
    EntriesAt(log, 0, c, y);
    SameOffset(log, y, m);
    assert Scan(b, 0)[y].key == k;
  }

  lemma SameOffset(log: seq<Rec>, i: nat, j: nat)
    requires i < |log| && j < |log| && Offset(log, i) == Offset(log, j)
    ensures i == j
  {
    hide Offset;
    if i < j {
      OffsetNext(log, i);
      OffsetMonotone(log, i + 1, j);
    } else if j < i {
      OffsetNext(log, j);
      OffsetMonotone(log, j + 1, i);
    }
  }

  /** A location tells which record of a key it is. */
  lemma SameLocation(log: seq<Rec>, id: nat, i: nat, j: nat)
    requires LogOk(log) && i < |log| && j < |log| && log[i].key == log[j].key
    requires LocOf(id, EntryAt(log, i)) == LocOf(id, EntryAt(log, j))
    ensures i == j
  {
    hide Offset;
    EntryFits(log, i, id);
    EntryFits(log, j, id);
    SameOffset(log, i, j);
  }

  /** What survives of a key is in a pack no newer than the one it was put to last. */
  lemma SurvivorLogged(d: Disk, logs: map<nat, seq<Rec>>, n: Name, k: Bytes) returns (i: nat)
    requires Logged(d, logs) && LogsOk(logs) && n in d.packs && HasKey(Surviving(d, n), k)
    ensures n.id in logs && i < |logs[n.id]| && logs[n.id][i].key == k
    ensures LastOf(Surviving(d, n), k) == EntryAt(logs[n.id], i)
  {
    hide Surviving, SizeAfter, Contents, HasKey, LastOf, EntryAt;
    SurvivingInside(d, logs, n);
    LastInside(logs[n.id], Surviving(d, n), SizeAfter(d, n), k);
    i := IsEntryIndex(logs[n.id], LastOf(Surviving(d, n), k));
    KeyAt(logs[n.id], i);
  }

  /** An index that is last-write-wins over what survived has the latest put or nothing exactly if nothing of
      the key survived or the latest put did. */
  lemma LatestIff(d: Disk, index: map<Bytes, Loc>, logs: map<nat, seq<Rec>>, k: Bytes, j: nat, m: nat)
    requires Logged(d, logs) && LogsOk(logs) && LastWriteWins(d, index) && Latest(logs, k, j, m)
    ensures (k !in index || index[k] == LocOf(j, EntryAt(logs[j], m))) <==> NothingOf(d, k) || StillThere(d, logs, j, m)
  {
    hide Logged, LogsOk, Latest, FastCopy, Surviving, HasKey, LastOf, EntryAt, StillThere;
    if k !in index {
      assert NothingOf(d, k);
    } else {
      var n :| FastCopy(d, n) && IsLastIn(d, n, k, index[k]);
      assert !NothingOf(d, k);
      LatestFound(d, index, logs, k, j, m, n);
    }
  }

  lemma LatestFound(d: Disk, index: map<Bytes, Loc>, logs: map<nat, seq<Rec>>, k: Bytes, j: nat, m: nat, n: Name)
    requires Logged(d, logs) && LogsOk(logs) && LastWriteWins(d, index) && Latest(logs, k, j, m)
    requires k in index && FastCopy(d, n) && IsLastIn(d, n, k, index[k])
    ensures index[k] == LocOf(j, EntryAt(logs[j], m)) <==> StillThere(d, logs, j, m)
  {
    hide Logged, LogOk, Surviving, HasKey, LastOf, EntryAt;
    var i := SurvivorLogged(d, logs, n, k);
    var e := EntryAt(logs[j], m);
    if index[k] == LocOf(j, e) {
      SameLocation(logs[j], j, i, m);
      LastThere(Surviving(d, n), k);
      assert FastCopy(d, n) && n.id == j && e in Surviving(d, n);
    }
    if StillThere(d, logs, j, m) {
      var x :| FastCopy(d, x) && x.id == j && e in Surviving(d, x);
      SurvivorIsLast(d, logs, x, k, m);
      assert n.id == j;
      assert n == x;
    }
  }

  lemma LastThere(es: seq<Entry>, k: Bytes)
    requires HasKey(es, k)
    ensures LastOf(es, k) in es
  {
    var x := LastIndex(es, k);
  }

  /** Where the index points at the record put last, that record's value is read. */
  lemma ReadsLatest(s: Store, logs: map<nat, seq<Rec>>, k: Bytes, j: nat, m: nat)
    requires Inv(s, logs) && j in logs && m < |logs[j]| && logs[j][m].key == k
    requires k in s.mem.index && s.mem.index[k] == LocOf(j, EntryAt(logs[j], m))
    ensures s.mem.index[k].pack in s.mem.packs && Readable(s.disk.inodes, ReaderFor(s.mem, k))
    ensures ReadAll(s.disk.inodes, ReaderFor(s.mem, k)) == logs[j][m].val
  {
    hide Logged, Owned, FilesOk, HintsOk, ActiveOk, AloneOk, DemoterOk, LiveOk, TotalsOk, Offset;
    ReadsTheLog(s, logs, k);
    var l := s.mem.index[k];
    assert LocatedAt(s.mem.packs[l.pack], logs[l.pack], k, l);
    var i := StoredInside(logs[j], k, l);
    EntryFits(logs[j], m, j);
    SameOffset(logs[j], i, m);
  }

  /** Opening a store after whatever happened: a key is missing or located at the record put last, if and
      only if no record of it survived or that one did. Located there, its value is what is read. */
  lemma LatestOrMissIff(d: Disk, budgets: seq<int>, todo: seq<Name>, cs: seq<Choice>, last: nat, now: int,
                        logs: map<nat, seq<Rec>>, k: Bytes, j: nat, m: nat)
    requires Recoverable(d, |budgets|, logs) && budgets != [] && Listing(d, todo) && SixDigits(d)
    requires |cs| == |todo| && Loadable(Empty(d, budgets), todo, cs)
    requires IsLast(LoadAll(Empty(d, budgets), todo, cs).mem.packs, last)
    requires Latest(logs, k, j, m)
    ensures var s := Fresh(LoadAll(Empty(d, budgets), todo, cs), last + 1, now);
            var l := LocOf(j, EntryAt(logs[j], m));
            && ((k !in s.mem.index || s.mem.index[k] == l) <==> (NothingOf(d, k) || StillThere(d, logs, j, m)))
            && (k in s.mem.index && s.mem.index[k] == l ==>
                  && s.mem.index[k].pack in s.mem.packs && Readable(s.disk.inodes, ReaderFor(s.mem, k))
                  && ReadAll(s.disk.inodes, ReaderFor(s.mem, k)) == logs[j][m].val)
  {
    hide Inv, Loadable, LoadAll, LastWriteWins, LogsOk, Logged, Owned, Listing, IsLast, Topped, SixDigits, NothingOf,
         StillThere, EntryAt, LocOf;
    var s := Fresh(LoadAll(Empty(d, budgets), todo, cs), last + 1, now);
    OpenRecovers(d, budgets, todo, cs, last, now, logs);
    LatestIff(d, s.mem.index, logs, k, j, m);
    if k in s.mem.index && s.mem.index[k] == LocOf(j, EntryAt(logs[j], m)) {
      ReadsLatest(s, logs[last + 1 := []], k, j, m);
    }
  }

  // ---------------------------------------------------------------- the last put of a history

  /** What a step puts for key k, else what there was before. */
  function PutOf(st: Step, k: Bytes, before: Option<Bytes>): Option<Bytes> {
    if (st.Do? || st.CrashIn?) && st.e.Put? && st.e.r.key == k then Some(st.e.r.val) else before
  }

  /** The value last put for a key, a put cut off by a crash included. */
  function LastTried(steps: seq<Step>, k: Bytes, before: Option<Bytes>): Option<Bytes>
    decreases |steps|
  {
    if steps == [] then before else LastTried(steps[1..], k, PutOf(steps[0], k, before))
  }

  /** The logs say the same. */
  ghost predicate Traced(logs: map<nat, seq<Rec>>, k: Bytes, v: Option<Bytes>) {
    match v
    case None => forall id, i :: id in logs && 0 <= i < |logs[id]| ==> logs[id][i].key != k
    case Some(b) => exists j: nat, m: nat :: Latest(logs, k, j, m) && logs[j][m].val == b
  }

  lemma NewPackTraced(logs: map<nat, seq<Rec>>, k: Bytes, v: Option<Bytes>, id: nat)
    requires Traced(logs, k, v) && forall x :: x in logs ==> x < id
    ensures Traced(logs[id := []], k, v)
  {
    if v.Some? {
      var j: nat, m: nat :| Latest(logs, k, j, m) && logs[j][m].val == v.value;
      assert Latest(logs[id := []], k, j, m);
    }
  }

  lemma AppendTraced(logs: map<nat, seq<Rec>>, k: Bytes, v: Option<Bytes>, id: nat, r: Rec)
    requires Traced(logs, k, v) && id in logs && forall x :: x in logs ==> x <= id
    ensures Traced(Extended(logs, id, r), k, if r.key == k then Some(r.val) else v)
  {
    var more := Extended(logs, id, r);
    if r.key == k {
      assert Latest(more, k, id, |logs[id]|) && more[id][|logs[id]|].val == r.val;
    } else if v.Some? {
      var j: nat, m: nat :| Latest(logs, k, j, m) && logs[j][m].val == v.value;
      assert Latest(more, k, j, m) && more[j][m].val == v.value;
    }
  }

  lemma EventTraced(s: Store, logs: map<nat, seq<Rec>>, e: Event, k: Bytes, v: Option<Bytes>)
    requires Inv(s, logs) && Can(s, e) && Sane(s, e) && Traced(logs, k, v)
    ensures Traced(Recorded(s, logs, e), k, if e.Put? && e.r.key == k then Some(e.r.val) else v)
  {
    hide Traced, LogsOk, Logged, Owned, FilesOk, HintsOk, AloneOk, DemoterOk, InMemory, HintFrom, Full, Ready, IsVictim;
    if e.Put? || e.FailedPut? {
      var more := RoomLogs(s, logs, e.r);
      NewPackTraced(logs, k, v, s.active + 1);
      if e.Put? {
        AppendTraced(more, k, v, Room(s, e.r, e.hint, e.now).active, e.r);
      }
    }
  }

  lemma ServeTraced(d0: Disk, s: Store, budgets: seq<int>, last: nat, logs: map<nat, seq<Rec>>, k: Bytes,
                    v: Option<Bytes>)
    requires LifeInv(Loading(d0, s, []), budgets, logs) && IsLast(s.mem.packs, last) && budgets != []
    requires Traced(logs, k, v)
    ensures Traced(logs[last + 1 := []], k, v)
  {
    hide Opening, Sealed, IsLast, Traced, Topped, Tiered;
    LoadedSealed(d0, s, logs, last);
    SealedAbove(s, logs, last + 1);
    NewPackTraced(logs, k, v, last + 1);
  }

  lemma StepTraced(l: Life, budgets: seq<int>, logs: map<nat, seq<Rec>>, st: Step, k: Bytes, v: Option<Bytes>)
    requires LifeInv(l, budgets, logs) && Possible(l, budgets, st) && budgets != [] && Traced(logs, k, v)
    ensures Traced(LogsAfter(l, budgets, logs, st), k, PutOf(st, k, v))
  {
    hide Recoverable, Opening, Topped, Inv, Tiered, Cut, Can, Sane, CanLoad, Sealable, Listing, SixDigits, IsLast,
         HintFrom, Traced, Recorded;
    match st
    case Serve(last, _) => ServeTraced(l.d0, l.s, budgets, last, logs, k, v);
    case Do(e) => EventTraced(l.s, logs, e, k, v);
    case CrashIn(e, _) => EventTraced(l.s, logs, e, k, v);
    case _ =>
  }

  /** Everything ever appended, pack by pack, in the course of a history. */
  ghost function LogsOf(l: Life, budgets: seq<int>, logs: map<nat, seq<Rec>>, steps: seq<Step>): map<nat, seq<Rec>>
    requires Happens(l, budgets, steps)
    decreases |steps|
  {
    if steps == [] then logs
    else LogsOf(Lived(l, budgets, steps[0]), budgets, LogsAfter(l, budgets, logs, steps[0]), steps[1..])
  }

  /** At every point of a history its logs are what the disk holds copies of, and the last put of a key is
      the last record of it there. */
  lemma {:induction false} LivesTraced(l: Life, budgets: seq<int>, logs: map<nat, seq<Rec>>, steps: seq<Step>, k: Bytes,
                                       v: Option<Bytes>)
    requires LifeInv(l, budgets, logs) && Happens(l, budgets, steps) && budgets != [] && Traced(logs, k, v)
    ensures LifeInv(StoreLives.After(l, budgets, steps), budgets, LogsOf(l, budgets, logs, steps))
    ensures Traced(LogsOf(l, budgets, logs, steps), k, LastTried(steps, k, v))
    decreases |steps|
  {
    hide LifeInv, Possible, Traced, Lived, LogsAfter, PutOf;
    if steps != [] {
      var st := steps[0];
      LifeStep(l, budgets, logs, st);
      StepTraced(l, budgets, logs, st, k, v);
      LivesTraced(Lived(l, budgets, st), budgets, LogsAfter(l, budgets, logs, st), steps[1..], k, PutOf(st, k, v));
    }
  }

  lemma LatestUnique(logs: map<nat, seq<Rec>>, k: Bytes, i: nat, n: nat, j: nat, m: nat)
    requires Latest(logs, k, i, n) && Latest(logs, k, j, m)
    ensures i == j && n == m
  {
  }

  lemma NotThere(logs: map<nat, seq<Rec>>, k: Bytes, id: nat, i: nat)
    requires Traced(logs, k, None) && id in logs && i < |logs[id]|
    ensures logs[id][i].key != k
  {
  }

  lemma NeverPut(d: Disk, index: map<Bytes, Loc>, logs: map<nat, seq<Rec>>, k: Bytes)
    requires Logged(d, logs) && LogsOk(logs) && LastWriteWins(d, index) && Traced(logs, k, None)
    ensures k !in index
  {
    hide Logged, LogsOk, Surviving, HasKey, LastOf, EntryAt, LocOf, Traced;
    if k in index {
      var n :| FastCopy(d, n) && IsLastIn(d, n, k, index[k]);
      var i := SurvivorLogged(d, logs, n, k);
      NotThere(logs, k, n.id, i);
    }
  }

  ghost const NoFiles: Life := Down(Disk([], map[], map[]))

  lemma NothingYet(budgets: seq<int>, k: Bytes)
    ensures LifeInv(NoFiles, budgets, map[]) && Traced(map[], k, None)
  {
  }

  /** The key is missing or located at record m of pack j. */
  ghost predicate HasOrMisses(s: Store, logs: map<nat, seq<Rec>>, k: Bytes, j: nat, m: nat)
    requires j in logs && m < |logs[j]|
  {
    k !in s.mem.index || s.mem.index[k] == LocOf(j, EntryAt(logs[j], m))
  }

  ghost predicate Reads(s: Store, k: Bytes, v: Bytes) {
    && k in s.mem.index && s.mem.index[k].pack in s.mem.packs && Readable(s.disk.inodes, ReaderFor(s.mem, k))
    && ReadAll(s.disk.inodes, ReaderFor(s.mem, k)) == v
  }

  /** From an empty directory, through any number of lifetimes and crashes, to a reopened store. A key never
      put is missing. Of any other the logs of this history have one record put last, with the value of
      the history's last put; and the store has that record, and reads that value, or misses, exactly if
      nothing of the key survived or that record did. */
  lemma ReopenedIff(budgets: seq<int>, steps: seq<Step>, d: Disk, todo: seq<Name>, cs: seq<Choice>, last: nat, now: int,
                    k: Bytes)
    requires budgets != [] && Happens(NoFiles, budgets, steps) && StoreLives.After(NoFiles, budgets, steps) == Down(d)
    requires Listing(d, todo) && SixDigits(d) && |cs| == |todo| && Loadable(Empty(d, budgets), todo, cs)
    requires IsLast(LoadAll(Empty(d, budgets), todo, cs).mem.packs, last)
    ensures var s := Fresh(LoadAll(Empty(d, budgets), todo, cs), last + 1, now);
            var logs := LogsOf(NoFiles, budgets, map[], steps);
            match LastTried(steps, k, None)
            case None => k !in s.mem.index
            case Some(v) =>
              && (exists j: nat, m: nat :: Latest(logs, k, j, m))
              && forall j: nat, m: nat :: Latest(logs, k, j, m) ==>
                   && logs[j][m].val == v
                   && (HasOrMisses(s, logs, k, j, m) <==> NothingOf(d, k) || StillThere(d, logs, j, m))
                   && (HasOrMisses(s, logs, k, j, m) && k in s.mem.index ==> Reads(s, k, v))
  {
    hide Happens, StoreLives.After, Loadable, LoadAll, Listing, SixDigits, IsLast, LogsOk, Logged, Owned, Topped,
         LastWriteWins, NothingOf, StillThere, EntryAt, LocOf, Inv, LastTried, LogsOf, Latest;
    var logs := LogsOf(NoFiles, budgets, map[], steps);
    NothingYet(budgets, k);
    LivesTraced(NoFiles, budgets, map[], steps, k, None);
    OpenRecovers(d, budgets, todo, cs, last, now, logs);
    match LastTried(steps, k, None)
    case None => NeverPut(d, LoadAll(Empty(d, budgets), todo, cs).mem.index, logs, k);
    case Some(v) =>
      var i: nat, n: nat := LatestOf(logs, k, v);
      forall j: nat, m: nat | Latest(logs, k, j, m)
        ensures j in logs && m < |logs[j]| && logs[j][m].val == v
        ensures var s := Fresh(LoadAll(Empty(d, budgets), todo, cs), last + 1, now);
                && (HasOrMisses(s, logs, k, j, m) <==> NothingOf(d, k) || StillThere(d, logs, j, m))
                && (HasOrMisses(s, logs, k, j, m) && k in s.mem.index ==> Reads(s, k, v))
      {
        LatestUnique(logs, k, i, n, j, m);
        LatestOrMissIff(d, budgets, todo, cs, last, now, logs, k, j, m);
      }
  }

  lemma LatestOf(logs: map<nat, seq<Rec>>, k: Bytes, v: Bytes) returns (j: nat, m: nat)
    requires Traced(logs, k, Some(v))
    ensures Latest(logs, k, j, m) && j in logs && m < |logs[j]| && logs[j][m].val == v
  {
    var i: nat, n: nat :| Latest(logs, k, i, n) && logs[i][n].val == v;
    j, m := i, n;
  }
}
