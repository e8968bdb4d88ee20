/** The store across daemon lifetimes: it can stop at any point, its unsynced files cut short, and is
    opened again. Whatever happened, a get never returns a value that was not put for that key. */
module StoreLives {
  import opened Bytes
  import opened PackFormat
  import opened PackStore
  import opened PackSteps
  import opened StoreRuns
  import opened StoreHistory
  import opened StoreOpen

  /** No daemon, a daemon in OpenStore (with what is left to load), or one serving. */
  datatype Life = Down(disk: Disk) | Loading(d0: Disk, s: Store, todo: seq<Name>) | Up(s: Store)

  /** A crash hits while some event is under way, between the two files of a rotation, or in OpenStore. */
  datatype Step =
    | Boot(todo: seq<Name>)
    | Load(c: Choice)
    | Serve(last: nat, now: int)
    | Do(e: Event)
    | CrashIn(e: Event, left: Disk)
    | CrashRotating(hint: Bytes, left: Disk)
    | CrashLoading(left: Disk)

  /** What may be left of a disk: files and hints cut short or gone, but the newest pack's name stays. */
  ghost predicate Cut(d: Disk, c: Disk) {
    CutShort(d, c) && NewestStays(d, c)
  }

  ghost predicate NewestStays(d: Disk, c: Disk) {
    forall n :: n in d.packs ==> exists x :: x in c.packs && n.id <= x.id
  }

  ghost predicate CutShort(d: Disk, c: Disk) {
    && |c.inodes| == |d.inodes| && (forall i :: 0 <= i < |d.inodes| ==> c.inodes[i] <= d.inodes[i])
    && (forall n :: n in c.packs ==> n in d.packs && c.packs[n] == d.packs[n])
    && (forall n :: n in c.hints ==> n in d.hints && c.hints[n] <= d.hints[n])
  }

  lemma CutHintOk(hint: Bytes, cut: Bytes, log: seq<Rec>)
    requires HintOk(hint, log) && cut <= hint
    ensures HintOk(cut, log)
  {
    HintsCut(cut, hint);
    forall i | 0 <= i < |ReadHints(cut)|
      ensures IsEntry(log, ReadHints(cut)[i])
    {
      assert ReadHints(cut)[i] == ReadHints(hint)[i];
    }
  }

  lemma CutLeavesLogged(d: Disk, c: Disk, logs: map<nat, seq<Rec>>)
    requires Logged(d, logs) && CutShort(d, c)
    ensures Logged(c, logs)
  {
    forall n | n in c.packs
      ensures n.id in logs && CopyOf(c, c.packs[n], logs[n.id])
    {
      assert CopyOf(d, d.packs[n], logs[n.id]);
    }
    forall n | n in c.hints
      ensures n.id in logs && HintOk(c.hints[n], logs[n.id])
    {
      CutHintOk(d.hints[n], c.hints[n], logs[n.id]);
    }
  }

  lemma TopStays(d: Disk, c: Disk, logs: map<nat, seq<Rec>>)
    requires NewestStays(d, c) && Topped(d, logs)
    ensures Topped(c, logs)
  {
    forall j | j in logs
      ensures exists n :: n in c.packs && j <= n.id
    {
      var n :| n in d.packs && j <= n.id;
      var x :| x in c.packs && n.id <= x.id;
    }
  }

  /** A crash leaves something OpenStore can start from. */
  lemma CutRecoverable(d: Disk, c: Disk, tiers: nat, logs: map<nat, seq<Rec>>)
    requires Recoverable(d, tiers, logs) && Cut(d, c)
    ensures Recoverable(c, tiers, logs)
  {
    hide LogsOk, Logged, NewestStays, Topped;
    CutLeavesLogged(d, c, logs);
    TopStays(d, c, logs);
  }

  // ---------------------------------------------------------------- the files of a running store

  ghost predicate Tiered(d: Disk, tiers: nat) {
    forall n :: n in d.packs ==> n.tier < tiers
  }

  lemma StepTiered(s: Store, logs: map<nat, seq<Rec>>, e: Event)
    requires Inv(s, logs) && Can(s, e) && Tiered(s.disk, |s.totals|)
    ensures Sane(s, e) && |Next(s, e).totals| == |s.totals| && Tiered(Next(s, e).disk, |s.totals|)
    ensures Next(s, e).budgets == s.budgets
  {
    hide OnDisk, InMemory;
    StepKeepsInv(s, logs, e);
  }

  lemma RunningRecoverable(s: Store, logs: map<nat, seq<Rec>>)
    requires Inv(s, logs) && Tiered(s.disk, |s.totals|)
    ensures Recoverable(s.disk, |s.totals|, logs)
  {
    hide LogsOk, Logged, Owned, HintsOk, AloneOk, DemoterOk, InMemory;
    assert FileOk(s.disk, s.active, s.mem.packs[s.active]);
    assert Name(0, s.active) in s.disk.packs;
  }

  // ---------------------------------------------------------------- steps

  ghost predicate Possible(l: Life, budgets: seq<int>, st: Step) {
    match st
    case Boot(todo) => l.Down? && Listing(l.disk, todo) && SixDigits(l.disk)
    case Load(c) => l.Loading? && l.todo != [] && CanLoad(l.s, l.todo[0]) && Sealable(l.s, l.todo[0], c)
    case Serve(last, _) => l.Loading? && l.todo == [] && IsLast(l.s.mem.packs, last)
    case Do(e) => l.Up? && Can(l.s, e) && Sane(l.s, e)
    case CrashIn(e, left) => l.Up? && Can(l.s, e) && Sane(l.s, e) && Cut(Next(l.s, e).disk, left)
    case CrashRotating(hint, left) =>
      l.Up? && l.s.active in l.s.mem.packs && HintFrom(l.s.mem.index, l.s.active, hint) &&
      Cut(Seal(l.s, l.s.active, hint).disk, left)
    case CrashLoading(left) => l.Loading? && Cut(l.s.disk, left)
  }

  ghost function Lived(l: Life, budgets: seq<int>, st: Step): Life
    requires Possible(l, budgets, st)
  {
    match st
    case Boot(todo) => Loading(l.disk, Empty(l.disk, budgets), todo)
    case Load(c) => Loading(l.d0, LoadOne(l.s, l.todo[0], c), l.todo[1..])
    case Serve(last, now) => Up(Fresh(l.s, last + 1, now))
    case Do(e) => Up(Next(l.s, e))
    case CrashIn(_, left) => Down(left)
    case CrashRotating(_, left) => Down(left)
    case CrashLoading(left) => Down(left)
  }

  ghost function LogsAfter(l: Life, budgets: seq<int>, logs: map<nat, seq<Rec>>, st: Step): map<nat, seq<Rec>>
    requires Possible(l, budgets, st)
  {
    match st
    case Serve(last, _) => logs[last + 1 := []]
    case Do(e) => Recorded(l.s, logs, e)
    case CrashIn(e, _) => Recorded(l.s, logs, e)
    case _ => logs
  }

  ghost predicate LifeInv(l: Life, budgets: seq<int>, logs: map<nat, seq<Rec>>) {
    match l
    case Down(d) => Recoverable(d, |budgets|, logs)
    case Loading(d0, s, todo) =>
      && Opening(d0, s, todo, logs) && s.demoter.Resting? && s.budgets == budgets && |s.totals| == |budgets|
      && Topped(d0, logs)
      && Tiered(s.disk, |budgets|)
    case Up(s) => Inv(s, logs) && s.budgets == budgets && Tiered(s.disk, |budgets|)
  }

  /** While loading, a copy of every pack of the start is still there. */
  lemma LoadingRecoverable(d0: Disk, s: Store, todo: seq<Name>, logs: map<nat, seq<Rec>>)
    requires Opening(d0, s, todo, logs) && Tiered(s.disk, |s.totals|)
    requires Topped(d0, logs)
    ensures Recoverable(s.disk, |s.totals|, logs)
  {
    hide LogsOk, Logged, Owned, AllHinted, InMemory, Newest, Untouched, Fastest;
    forall j | j in logs
      ensures exists n :: n in s.disk.packs && j <= n.id
    {
      var n :| n in d0.packs && j <= n.id;
      if n.id in s.mem.packs {
        assert FileOk(s.disk, n.id, s.mem.packs[n.id]);
        assert Name(s.mem.packs[n.id].tier, n.id) in s.disk.packs;
      } else {
        assert n in todo;
      }
    }
  }

  lemma BootKeeps(d: Disk, budgets: seq<int>, todo: seq<Name>, logs: map<nat, seq<Rec>>)
    requires Recoverable(d, |budgets|, logs) && Listing(d, todo) && SixDigits(d)
    ensures LifeInv(Loading(d, Empty(d, budgets), todo), budgets, logs)
  {
    hide Opening, LogsOk, Logged, Owned, Listing, SixDigits;
    OpeningStarts(d, budgets, todo, logs);
  }

  lemma LoadTiered(s: Store, n: Name, c: Choice, tiers: nat)
    requires CanLoad(s, n) && Tiered(s.disk, tiers)
    ensures Tiered(LoadOne(s, n, c).disk, tiers) && |LoadOne(s, n, c).totals| == |s.totals|
  {
  }

  lemma ServeKeeps(d0: Disk, s: Store, budgets: seq<int>, last: nat, now: int, logs: map<nat, seq<Rec>>)
    requires LifeInv(Loading(d0, s, []), budgets, logs) && IsLast(s.mem.packs, last) && budgets != []
    ensures LifeInv(Up(Fresh(s, last + 1, now)), budgets, logs[last + 1 := []])
  {
    hide Opening, Sealed, Inv, IsLast;
    LoadedSealed(d0, s, logs, last);
    FreshKeepsInv(s, logs, last + 1, now);
  }

  lemma CrashRotatingKeeps(s: Store, budgets: seq<int>, hint: Bytes, left: Disk, logs: map<nat, seq<Rec>>)
    requires LifeInv(Up(s), budgets, logs) && Possible(Up(s), budgets, CrashRotating(hint, left))
    ensures LifeInv(Down(left), budgets, logs)
  {
    hide Cut, HintFrom, Recoverable, OnDisk, InMemory;
    ActiveHintOk(s, logs, hint);
    SealKeepsInv(s, logs, s.active, hint);
    RunningRecoverable(Seal(s, s.active, hint), logs);
    CutRecoverable(Seal(s, s.active, hint).disk, left, |budgets|, logs);
  }

  lemma DoKeeps(s: Store, budgets: seq<int>, e: Event, logs: map<nat, seq<Rec>>)
    requires LifeInv(Up(s), budgets, logs) && Can(s, e) && Sane(s, e)
    ensures LifeInv(Up(Next(s, e)), budgets, Recorded(s, logs, e))
  {
    hide Can, Sane, Recorded, OnDisk, InMemory, Next;
    StepKeepsInv(s, logs, e);
    StepTiered(s, logs, e);
  }

  lemma UpRecoverable(s: Store, budgets: seq<int>, logs: map<nat, seq<Rec>>)
    requires LifeInv(Up(s), budgets, logs)
    ensures Recoverable(s.disk, |budgets|, logs)
  {
    hide OnDisk, InMemory, Recoverable;
    RunningRecoverable(s, logs);
  }

  /** Every step of every lifetime, crashes included, keeps what the next one needs. */
  lemma LifeStep(l: Life, budgets: seq<int>, logs: map<nat, seq<Rec>>, st: Step)
    requires LifeInv(l, budgets, logs) && Possible(l, budgets, st) && budgets != []
    ensures LifeInv(Lived(l, budgets, st), budgets, LogsAfter(l, budgets, logs, st))
  {
    hide Recoverable, Opening, Topped, Inv, Tiered, Cut, Can, Sane, CanLoad, Sealable, Listing, SixDigits, IsLast,
         HintFrom;
    match st
    case Boot(todo) => BootKeeps(l.disk, budgets, todo, logs);
    case Load(c) =>
      OpenStep(l.d0, l.s, l.todo, c, logs);
      LoadTiered(l.s, l.todo[0], c, |budgets|);
    case Serve(last, now) => ServeKeeps(l.d0, l.s, budgets, last, now, logs);
    case Do(e) => DoKeeps(l.s, budgets, e, logs);
    case CrashIn(e, left) =>
      DoKeeps(l.s, budgets, e, logs);
      UpRecoverable(Next(l.s, e), budgets, Recorded(l.s, logs, e));
      CutRecoverable(Next(l.s, e).disk, left, |budgets|, Recorded(l.s, logs, e));
    case CrashRotating(hint, left) => CrashRotatingKeeps(l.s, budgets, hint, left, logs);
    case CrashLoading(left) =>
      LoadingRecoverable(l.d0, l.s, l.todo, logs);
      CutRecoverable(l.s.disk, left, |budgets|, logs);
  }

  // ---------------------------------------------------------------- whole histories

  ghost predicate Happens(l: Life, budgets: seq<int>, steps: seq<Step>)
    decreases |steps|
  {
    steps == [] || (Possible(l, budgets, steps[0]) && Happens(Lived(l, budgets, steps[0]), budgets, steps[1..]))
  }

  ghost function After(l: Life, budgets: seq<int>, steps: seq<Step>): Life
    requires Happens(l, budgets, steps)
    decreases |steps|
  {
    if steps == [] then l else After(Lived(l, budgets, steps[0]), budgets, steps[1..])
  }

  /** The record a step puts; a put cut off by a crash counts. */
  function PutBy(st: Step): set<Rec> {
    if (st.Do? || st.CrashIn?) && st.e.Put? then {st.e.r} else {}
  }

  function Tried(steps: seq<Step>): set<Rec>
    decreases |steps|
  {
    if steps == [] then {} else PutBy(steps[0]) + Tried(steps[1..])
  }

  ghost predicate AllTried(logs: map<nat, seq<Rec>>, tried: set<Rec>) {
    forall id, j :: id in logs && 0 <= j < |logs[id]| ==> logs[id][j] in tried
  }

  lemma StepTried(l: Life, budgets: seq<int>, logs: map<nat, seq<Rec>>, st: Step, tried: set<Rec>)
    requires Possible(l, budgets, st) && AllTried(logs, tried)
    ensures AllTried(LogsAfter(l, budgets, logs, st), tried + PutBy(st))
  {
    hide Can, Cut, Listing, SixDigits, CanLoad, Sealable, IsLast, HintFrom;
  }

  lemma {:induction false} Lives(l: Life, budgets: seq<int>, logs: map<nat, seq<Rec>>, steps: seq<Step>,
                                 tried: set<Rec>)
    returns (more: map<nat, seq<Rec>>)
    requires LifeInv(l, budgets, logs) && Happens(l, budgets, steps) && budgets != [] && AllTried(logs, tried)
    ensures LifeInv(After(l, budgets, steps), budgets, more) && AllTried(more, tried + Tried(steps))
    decreases |steps|
  {
    hide LifeInv, Possible, AllTried, Lived;
    if steps == [] {
      more := logs;
      assert tried + Tried(steps) == tried;
    } else {
      LifeStep(l, budgets, logs, steps[0]);
      StepTried(l, budgets, logs, steps[0], tried);
      more := Lives(Lived(l, budgets, steps[0]), budgets, LogsAfter(l, budgets, logs, steps[0]), steps[1..],
                    tried + PutBy(steps[0]));
      assert tried + Tried(steps) == tried + PutBy(steps[0]) + Tried(steps[1..]);
    }
  }

  lemma AnswerTried(s: Store, logs: map<nat, seq<Rec>>, tried: set<Rec>, k: Bytes)
    requires Inv(s, logs) && AllTried(logs, tried) && k in s.mem.index
    ensures s.mem.index[k].pack in s.mem.packs && Readable(s.disk.inodes, ReaderFor(s.mem, k))
    ensures Rec(k, ReadAll(s.disk.inodes, ReaderFor(s.mem, k))) in tried
  {
    hide LogsOk, Logged, Owned, FilesOk, HintsOk, ActiveOk, AloneOk, DemoterOk, LiveOk, TotalsOk;
    ReadsTheLog(s, logs, k);
    var l := s.mem.index[k];
    assert LocatedAt(s.mem.packs[l.pack], logs[l.pack], k, l);
    var j := StoredInside(logs[l.pack], k, l);
    assert logs[l.pack][j] == Rec(k, ValueOf(logs, l));
  }

  /** From an empty directory on, through any number of crashes cut off anywhere and reopenings, what a
      get returns was put for that very key. */
  lemma NothingInvented(budgets: seq<int>, steps: seq<Step>, k: Bytes)
    requires budgets != [] && Happens(Down(Disk([], map[], map[])), budgets, steps)
    requires After(Down(Disk([], map[], map[])), budgets, steps).Up?
    ensures var s := After(Down(Disk([], map[], map[])), budgets, steps).s;
            k in s.mem.index ==>
              && s.mem.index[k].pack in s.mem.packs && Readable(s.disk.inodes, ReaderFor(s.mem, k))
              && Rec(k, ReadAll(s.disk.inodes, ReaderFor(s.mem, k))) in Tried(steps)
  {
    hide Inv, Happens, After;
    var none := Down(Disk([], map[], map[]));
    var logs := Lives(none, budgets, map[], steps, {});
    assert {} + Tried(steps) == Tried(steps);
    var s := After(none, budgets, steps).s;
    if k in s.mem.index {
      AnswerTried(s, logs, Tried(steps), k);
    }
  }
}
