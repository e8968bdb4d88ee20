/** A run of the daemon after which a get answers with a value that had been overwritten: the newer value's
    pack was evicted, and the restart found the older record. Every value is written out. */
module StoreResurfaces {
  import opened Bytes
  import opened Options
  import opened PackFormat
  import opened PackStore
  import opened PackSteps
  import opened PackNames
  import opened StoreRuns
  import opened StoreOpen
  import opened StoreLives
  import opened StoreRestart

  // ---------------------------------------------------------------- every recoverable disk can be opened

  lemma {:induction false} SomeOrder(s: set<Bytes>) returns (w: seq<Bytes>)
    ensures (forall i, j :: 0 <= i < j < |w| ==> w[i] != w[j]) && forall k :: k in w <==> k in s
    decreases |s|
  {
    if s == {} {
      w := [];
    } else {
      var k :| k in s;
      var rest := SomeOrder(s - {k});
      w := [k] + rest;
    }
  }

  lemma SomeHint(index: map<Bytes, Loc>, id: nat) returns (hint: Bytes)
    ensures HintFrom(index, id, hint)
  {
    var walk := SomeOrder(set k | k in index && index[k].pack == id);
    assert forall i :: 0 <= i < |walk| ==> walk[i] in walk;
    assert WalkOf(index, id, walk);
    hint := EncodeHints(HintEntries(index, walk));
  }

  lemma {:induction false} SomeGreatest(s: set<nat>) returns (last: nat)
    ensures (forall id :: id in s ==> id <= last) && (last == 0 || last in s)
    decreases |s|
  {
    if s == {} {
      last := 0;
    } else {
      var k :| k in s;
      assert forall id :: id in s ==> id == k || id in s - {k};
      last := SomeGreatest(s - {k});
      if last < k {
        last := k;
      }
    }
  }

  lemma {:induction false} SomeChoices(d0: Disk, s: Store, todo: seq<Name>,
                                       logs: map<nat, seq<Rec>>) returns (cs: seq<Choice>)
    requires Opening(d0, s, todo, logs)
    ensures |cs| == |todo| && Loadable(s, todo, cs)
    decreases |todo|
  {
    hide Opening, HintFrom;
    if todo == [] {
      cs := [];
    } else {
      OpeningCanLoad(d0, s, todo, logs);
      var hint := SomeHint(LoadOne(s, todo[0], Choice(0, [])).mem.index, todo[0].id);
      var c := Choice(0, hint);
      OpenStep(d0, s, todo, c, logs);
      var rest := SomeChoices(d0, LoadOne(s, todo[0], c), todo[1..], logs);
      cs := [c] + rest;
      assert cs[1..] == rest;
    }
  }

  function Loads(cs: seq<Choice>): (steps: seq<Step>)
    ensures |steps| == |cs| && forall i :: 0 <= i < |cs| ==> steps[i] == Load(cs[i])
  {
    seq(|cs|, i requires 0 <= i < |cs| => Load(cs[i]))
  }

  lemma {:induction false} LoadsHappen(d0: Disk, s: Store, todo: seq<Name>, cs: seq<Choice>, budgets: seq<int>)
    requires |cs| == |todo| && Loadable(s, todo, cs)
    ensures Happens(Loading(d0, s, todo), budgets, Loads(cs))
    ensures StoreLives.After(Loading(d0, s, todo), budgets, Loads(cs)) == Loading(d0, LoadAll(s, todo, cs), [])
    decreases |todo|
  {
    hide CanLoad, Sealable, LoadOne;
    if todo != [] {
      LoadsHappen(d0, LoadOne(s, todo[0], cs[0]), todo[1..], cs[1..], budgets);
      assert Loads(cs)[0] == Load(cs[0]) && Loads(cs)[1..] == Loads(cs[1..]);
    }
  }

  lemma {:induction false} HappensThen(l: Life, budgets: seq<int>, a: seq<Step>, b: seq<Step>)
    requires Happens(l, budgets, a) && Happens(StoreLives.After(l, budgets, a), budgets, b)
    ensures Happens(l, budgets, a + b)
    ensures StoreLives.After(l, budgets, a + b) == StoreLives.After(StoreLives.After(l, budgets, a), budgets, b)
    decreases |a|
  {
    hide Possible, Lived;
    if a == [] {
      assert a + b == b;
    } else {
      HappensThen(Lived(l, budgets, a[0]), budgets, a[1..], b);
      assert (a + b)[0] == a[0] && (a + b)[1..] == a[1..] + b;
    }
  }

  lemma OneStep(l: Life, budgets: seq<int>, st: Step)
    requires Possible(l, budgets, st)
    ensures Happens(l, budgets, [st]) && StoreLives.After(l, budgets, [st]) == Lived(l, budgets, st)
  {
    hide Possible, Lived;
    assert [st][1..] == [];
    assert Happens(Lived(l, budgets, st), budgets, []);
  }

  /** OpenStore gets through on whatever a crash left. */
  lemma Reopens(d: Disk, budgets: seq<int>, todo: seq<Name>, logs: map<nat, seq<Rec>>, now: int)
    returns (steps: seq<Step>, cs: seq<Choice>, last: nat)
    requires Recoverable(d, |budgets|, logs) && Listing(d, todo) && SixDigits(d)
    ensures |cs| == |todo| && Loadable(Empty(d, budgets), todo, cs)
    ensures IsLast(LoadAll(Empty(d, budgets), todo, cs).mem.packs, last)
    ensures Happens(Down(d), budgets, steps)
    ensures StoreLives.After(Down(d), budgets, steps) == Up(Fresh(LoadAll(Empty(d, budgets), todo, cs), last + 1, now))
    ensures steps == [Boot(todo)] + Loads(cs) + [Serve(last, now)]
  {
    hide Recoverable, Listing, SixDigits, Opening, Loadable, LoadAll, Happens, StoreLives.After;
    OpeningStarts(d, budgets, todo, logs);
    cs := SomeChoices(d, Empty(d, budgets), todo, logs);
    var t := LoadAll(Empty(d, budgets), todo, cs);
    last := SomeGreatest(t.mem.packs.Keys);
    LoadsHappen(d, Empty(d, budgets), todo, cs, budgets);
    OneStep(Down(d), budgets, Boot(todo));
    HappensThen(Down(d), budgets, [Boot(todo)], Loads(cs));
    OneStep(Loading(d, t, []), budgets, Serve(last, now));
    HappensThen(Down(d), budgets, [Boot(todo)] + Loads(cs), [Serve(last, now)]);
    steps := [Boot(todo)] + Loads(cs) + [Serve(last, now)];
  }

  // ---------------------------------------------------------------- the records and the states

  function Zeroes(n: nat): (b: Bytes)
    ensures |b| == n
  {
    seq(n, _ => 0)
  }

  /** The key [1] is put twice; [2] keeps the first pack worth keeping; [3] starts a third pack. */
  function Older(): Rec { Rec([1], []) }

  function Beside(): Rec { Rec([2], Zeroes(18)) }

  function Newer(): Rec { Rec([1], Zeroes(PACK_LIMIT)) }

  function Third(): Rec { Rec([3], []) }

  function FirstHint(): Bytes { EncodeHints([Entry([1], 0, 0), Entry([2], 9, 18)]) }

  function SecondHint(): Bytes { EncodeHints([Entry([1], 0, PACK_LIMIT)]) }

  const ONE_TIER: seq<int> := [1]

  function FirstFile(): Bytes { EncodeRec(Older()) + EncodeRec(Beside()) }

  function Up1(): Store {
    Store(Mem(map[], map[1 := Pack(0, 0, 0, 0, 0)]), [0], ONE_TIER, 1, false, Resting,
          Disk([[]], map[Name(0, 1) := 0], map[]))
  }

  function Up2(): Store {
    Store(Mem(map[[1] := Loc(1, 9, 0)], map[1 := Pack(0, 0, 9, 0, 0)]), [9], ONE_TIER, 1, false, Resting,
          Disk([EncodeRec(Older())], map[Name(0, 1) := 0], map[]))
  }

  function Up3(): Store {
    Store(Mem(map[[1] := Loc(1, 9, 0), [2] := Loc(1, 18, 18)], map[1 := Pack(0, 0, 36, 18, 0)]), [36], ONE_TIER, 1,
          false, Resting, Disk([FirstFile()], map[Name(0, 1) := 0], map[]))
  }

  function Up4(): Store {
    Store(Mem(map[[1] := Loc(2, 9, PACK_LIMIT), [2] := Loc(1, 18, 18)],
              map[1 := Pack(0, 0, 36, 18, 0), 2 := Pack(0, 1, PACK_LIMIT + 9, PACK_LIMIT, 1)]),
          [PACK_LIMIT + 45], ONE_TIER, 2, false, Resting,
          Disk([FirstFile(), EncodeRec(Newer())], map[Name(0, 1) := 0, Name(0, 2) := 1],
               map[Name(0, 1) := FirstHint()]))
  }

  function Up5(): Store {
    Store(Mem(map[[1] := Loc(2, 9, PACK_LIMIT), [2] := Loc(1, 18, 18), [3] := Loc(3, 9, 0)],
              map[1 := Pack(0, 0, 36, 18, 0), 2 := Pack(0, 1, PACK_LIMIT + 9, PACK_LIMIT, 1),
                  3 := Pack(0, 2, 9, 0, 2)]),
          [PACK_LIMIT + 54], ONE_TIER, 3, false, Resting,
          Disk([FirstFile(), EncodeRec(Newer()), EncodeRec(Third())],
               map[Name(0, 1) := 0, Name(0, 2) := 1, Name(0, 3) := 2],
               map[Name(0, 1) := FirstHint(), Name(0, 2) := SecondHint()]))
  }

  /** The first pack was read since the second was started. */
  function Up6(): Store {
    Up5().(mem := Up5().mem.(packs := map[1 := Pack(0, 0, 36, 18, 3), 2 := Pack(0, 1, PACK_LIMIT + 9, PACK_LIMIT, 1),
                                          3 := Pack(0, 2, 9, 0, 2)]))
  }

  /** What is on disk once the second pack is evicted. */
  function Left(): Disk {
    Disk([FirstFile(), EncodeRec(Newer()), EncodeRec(Third())], map[Name(0, 1) := 0, Name(0, 3) := 2],
         map[Name(0, 1) := FirstHint()])
  }

  function Logs(n: nat): map<nat, seq<Rec>> {
    match n
    case 1 => map[1 := []]
    case 2 => map[1 := [Older()]]
    case 3 => map[1 := [Older(), Beside()]]
    case 4 => map[1 := [Older(), Beside()], 2 := [Newer()]]
    case _ => map[1 := [Older(), Beside()], 2 := [Newer()], 3 := [Third()]]
  }

  lemma Sizes()
    ensures |EncodeRec(Older())| == 9 && |EncodeRec(Beside())| == 27 && |EncodeRec(Newer())| == PACK_LIMIT + 9
    ensures |EncodeRec(Third())| == 9 && |FirstFile()| == 36
  {
    hide EncodeRec, EncodeLog;
    EncodeAppend([], Older());
    EncodeAppend([], Beside());
    EncodeAppend([], Newer());
    EncodeAppend([], Third());
  }

  /** One event of the run, its state and its logs written out. */
  ghost predicate Goes(s: Store, logs: map<nat, seq<Rec>>, e: Event, t: Store, more: map<nat, seq<Rec>>) {
    Can(s, e) && Sane(s, e) && Next(s, e) == t && Recorded(s, logs, e) == more
  }

  /** A put is its event if what it appends to, and what becomes of that, are these. */
  lemma PutGoes(s: Store, logs: map<nat, seq<Rec>>, r: Rec, hint: Bytes, now: int, m: Store, room: map<nat, seq<Rec>>,
                t: Store, more: map<nat, seq<Rec>>)
    requires CanPut(s, r, hint) && Room(s, r, hint, now) == m && RoomLogs(s, logs, r) == room
    requires Ready(m) && Known(m.mem) && m.active in room
    requires Append(m, r) == t && Extended(room, m.active, r) == more && s.mem.index == m.mem.index
    ensures Goes(s, logs, Put(r, hint, now), t, more)
  {
    hide EncodeRec, HintFrom, Append, Room;
  }

  lemma Append1()
    ensures Ready(Up1()) && Known(Up1().mem) && Append(Up1(), Older()) == Up2()
  {
    hide EncodeRec;
    Sizes();
    var t := Append(Up1(), Older());
    assert [] + EncodeRec(Older()) == EncodeRec(Older());
    assert t.disk.inodes == Up2().disk.inodes && t.totals == Up2().totals;
    assert t.mem.index == Up2().mem.index && t.mem.packs == Up2().mem.packs;
  }

  lemma Put1()
    ensures Goes(Up1(), Logs(1), Put(Older(), [], 0), Up2(), Logs(2))
  {
    hide EncodeRec, Append;
    Sizes();
    Append1();
    assert Extended(Logs(1), 1, Older()) == Logs(2) by {
      assert [] + [Older()] == [Older()];
    }
    PutGoes(Up1(), Logs(1), Older(), [], 0, Up1(), Logs(1), Up2(), Logs(2));
  }

  lemma Append2()
    ensures Ready(Up2()) && Known(Up2().mem) && Append(Up2(), Beside()) == Up3()
  {
    hide EncodeRec;
    Sizes();
    var t := Append(Up2(), Beside());
    assert t.disk.inodes == Up3().disk.inodes && t.totals == Up3().totals;
    assert t.mem.index == Up3().mem.index && t.mem.packs == Up3().mem.packs;
  }

  lemma Put2()
    ensures Goes(Up2(), Logs(2), Put(Beside(), [], 0), Up3(), Logs(3))
  {
    hide EncodeRec, Append;
    Sizes();
    Append2();
    assert Extended(Logs(2), 1, Beside()) == Logs(3) by {
      assert [Older()] + [Beside()] == [Older(), Beside()];
    }
    PutGoes(Up2(), Logs(2), Beside(), [], 0, Up2(), Logs(2), Up3(), Logs(3));
  }

  lemma Hint1()
    ensures HintFrom(Up3().mem.index, 1, FirstHint())
  {
    hide EncodeHints, EncodeRec, FirstFile, HintEntries;
    var index, walk := Up3().mem.index, [[1], [2]];
    assert WalkOf(index, 1, walk) by {
      assert [1] in walk && [2] in walk;
    }
    Entries1();
    assert FirstHint() == EncodeHints(HintEntries(index, walk));
  }

  lemma Entries1()
    ensures [1] in Up3().mem.index && [2] in Up3().mem.index
    ensures HintEntries(Up3().mem.index, [[1], [2]]) == [Entry([1], 0, 0), Entry([2], 9, 18)]
  {
    hide EncodeRec, FirstFile;
    var es := HintEntries(Up3().mem.index, [[1], [2]]);
    assert |es| == 2 && es[0] == Entry([1], 0, 0) && es[1] == Entry([2], 9, 18);
  }

  /** The second pack is there and empty. */
  function Up3Rotated(): Store {
    Store(Mem(Up3().mem.index, map[1 := Pack(0, 0, 36, 18, 0), 2 := Pack(0, 1, 0, 0, 1)]), [36], ONE_TIER, 2, false,
          Resting, Disk([FirstFile(), []], map[Name(0, 1) := 0, Name(0, 2) := 1], map[Name(0, 1) := FirstHint()]))
  }

  lemma Append3()
    ensures Ready(Up3Rotated()) && Known(Up3Rotated().mem) && Append(Up3Rotated(), Newer()) == Up4()
  {
    hide EncodeRec, FirstHint, FirstFile;
    Sizes();
    var t := Append(Up3Rotated(), Newer());
    assert [] + EncodeRec(Newer()) == EncodeRec(Newer());
    assert t.disk.inodes == Up4().disk.inodes && t.totals == Up4().totals;
    assert t.mem.index == Up4().mem.index;
    assert t.mem.packs == Up4().mem.packs;
  }

  lemma Rotate3()
    ensures Fresh(Seal(Up3(), 1, FirstHint()), 2, 1) == Up3Rotated()
  {
    hide EncodeRec, FirstHint, FirstFile;
    var t := Fresh(Seal(Up3(), 1, FirstHint()), 2, 1);
    assert t.disk.inodes == Up3Rotated().disk.inodes && t.disk.packs == Up3Rotated().disk.packs;
    assert t.mem.packs == Up3Rotated().mem.packs;
  }

  lemma Put3()
    ensures Goes(Up3(), Logs(3), Put(Newer(), FirstHint(), 1), Up4(), Logs(4))
  {
    hide EncodeRec, HintFrom, FirstHint, FirstFile, Append, Fresh, Seal;
    Sizes();
    Hint1();
    Append3();
    Rotate3();
    var room := Logs(3)[2 := []];
    assert Extended(room, 2, Newer()) == Logs(4) by {
      assert [] + [Newer()] == [Newer()];
    }
    PutGoes(Up3(), Logs(3), Newer(), FirstHint(), 1, Up3Rotated(), room, Up4(), Logs(4));
  }

  lemma Hint2()
    ensures HintFrom(Up4().mem.index, 2, SecondHint())
  {
    hide EncodeHints;
    var index, walk: seq<Bytes> := Up4().mem.index, [[1]];
    assert WalkOf(index, 2, walk);
    assert HintEntries(index, walk) == [Entry([1], 0, PACK_LIMIT)];
  }

  /** The third pack is there and empty. */
  function Up4Rotated(): Store {
    Store(Mem(Up4().mem.index, map[1 := Pack(0, 0, 36, 18, 0), 2 := Pack(0, 1, PACK_LIMIT + 9, PACK_LIMIT, 1),
                                   3 := Pack(0, 2, 0, 0, 2)]),
          [PACK_LIMIT + 45], ONE_TIER, 3, false, Resting,
          Disk([FirstFile(), EncodeRec(Newer()), []], map[Name(0, 1) := 0, Name(0, 2) := 1, Name(0, 3) := 2],
               map[Name(0, 1) := FirstHint(), Name(0, 2) := SecondHint()]))
  }

  lemma Append4()
    ensures Ready(Up4Rotated()) && Known(Up4Rotated().mem) && Append(Up4Rotated(), Third()) == Up5()
  {
    hide EncodeRec, FirstHint, SecondHint, FirstFile;
    Sizes();
    var t := Append(Up4Rotated(), Third());
    assert [] + EncodeRec(Third()) == EncodeRec(Third());
    assert t.disk.inodes == Up5().disk.inodes && t.totals == Up5().totals;
    assert t.mem.index == Up5().mem.index;
    assert t.mem.packs == Up5().mem.packs;
  }

  lemma Rotate4()
    ensures Fresh(Seal(Up4(), 2, SecondHint()), 3, 2) == Up4Rotated()
  {
    hide EncodeRec, FirstHint, SecondHint, FirstFile;
    var t := Fresh(Seal(Up4(), 2, SecondHint()), 3, 2);
    assert t.disk.inodes == Up4Rotated().disk.inodes && t.disk.packs == Up4Rotated().disk.packs;
    assert t.disk.hints == Up4Rotated().disk.hints;
    assert t.mem.packs == Up4Rotated().mem.packs;
  }

  lemma Put4()
    ensures Goes(Up4(), Logs(4), Put(Third(), SecondHint(), 2), Up5(), Logs(5))
  {
    hide EncodeRec, HintFrom, FirstHint, SecondHint, FirstFile, Append, Fresh, Seal;
    Sizes();
    Hint2();
    Append4();
    Rotate4();
    var room := Logs(4)[3 := []];
    assert Extended(room, 3, Third()) == Logs(5) by {
      assert [] + [Third()] == [Third()];
    }
    PutGoes(Up4(), Logs(4), Third(), SecondHint(), 2, Up4Rotated(), room, Up5(), Logs(5));
  }

  lemma Read5()
    ensures Goes(Up5(), Logs(5), Get([2], 3), Up6(), Logs(5))
  {
    hide EncodeRec, FirstHint, SecondHint, FirstFile, Zeroes;
    assert Touched(Up5().mem.packs, 1, 3) == Up6().mem.packs;
  }

  lemma Pick6()
    ensures Goes(Up6(), Logs(5), PickVictim(2), Up6().(demoter := Chosen(2)), Logs(5))
  {
    hide EncodeRec, FirstHint, SecondHint;
    var s := Up6();
    assert Candidate(s, 0, 1) && Candidate(s, 0, 2);
  }

  lemma Evict7()
    ensures var s := Up6().(demoter := Chosen(2));
            Can(s, EvictPack) && Sane(s, EvictPack) && Next(s, EvictPack).disk == Left()
              && Recorded(s, Logs(5), EvictPack) == Logs(5)
  {
    hide EncodeRec, FirstHint, SecondHint;
  }

  // ---------------------------------------------------------------- the run

  /** The steps lead from an empty directory to l with these logs, v being the last value put for [1]. */
  ghost predicate Reached(steps: seq<Step>, l: Life, logs: map<nat, seq<Rec>>, v: Option<Bytes>) {
    && Happens(NoFiles, ONE_TIER, steps) && StoreLives.After(NoFiles, ONE_TIER, steps) == l
    && LifeInv(l, ONE_TIER, logs) && LastTried(steps, [1], None) == v
  }

  lemma {:induction false} TriedThen(a: seq<Step>, b: seq<Step>, k: Bytes, v: Option<Bytes>)
    ensures LastTried(a + b, k, v) == LastTried(b, k, LastTried(a, k, v))
    decreases |a|
  {
    hide PutOf;
    if a == [] {
      assert a + b == b;
    } else {
      assert (a + b)[0] == a[0] && (a + b)[1..] == a[1..] + b;
      TriedThen(a[1..], b, k, PutOf(a[0], k, v));
    }
  }

  lemma {:induction false} NoPuts(b: seq<Step>, k: Bytes, v: Option<Bytes>)
    requires forall i :: 0 <= i < |b| ==> !b[i].Do? && !b[i].CrashIn?
    ensures LastTried(b, k, v) == v
    decreases |b|
  {
    if b != [] {
      NoPuts(b[1..], k, PutOf(b[0], k, v));
    }
  }

  lemma Reach(steps: seq<Step>, l: Life, logs: map<nat, seq<Rec>>, v: Option<Bytes>, st: Step)
    requires Reached(steps, l, logs, v) && Possible(l, ONE_TIER, st)
    ensures Reached(steps + [st], Lived(l, ONE_TIER, st), LogsAfter(l, ONE_TIER, logs, st), PutOf(st, [1], v))
  {
    hide Happens, StoreLives.After, LifeInv, Possible, Lived, LogsAfter, PutOf;
    OneStep(l, ONE_TIER, st);
    HappensThen(NoFiles, ONE_TIER, steps, [st]);
    LifeStep(l, ONE_TIER, logs, st);
    TriedThen(steps, [st], [1], None);
    assert LastTried([st], [1], v) == PutOf(st, [1], v);
  }

  lemma ReachEvent(steps: seq<Step>, s: Store, logs: map<nat, seq<Rec>>, v: Option<Bytes>, e: Event, t: Store,
                   more: map<nat, seq<Rec>>)
    requires Reached(steps, Up(s), logs, v) && Goes(s, logs, e, t, more)
    ensures Reached(steps + [Do(e)], Up(t), more, PutOf(Do(e), [1], v))
  {
    hide Reached, Can, Sane, Next, Recorded;
    Reach(steps, Up(s), logs, v, Do(e));
  }

  lemma Begins()
    ensures Reached([Boot([]), Serve(0, 0)], Up(Up1()), Logs(1), None)
  {
    hide LifeInv, Reached;
    assert Reached([], NoFiles, map[], None) by {
      NothingYet(ONE_TIER, [1]);
      Nowhere();
    }
    var d := Disk([], map[], map[]);
    assert Listing(d, []) && SixDigits(d);
    Reach([], NoFiles, map[], None, Boot([]));
    assert [] + [Boot([])] == [Boot([])];
    var l := Loading(d, Empty(d, ONE_TIER), []);
    Reach([Boot([])], l, map[], None, Serve(0, 0));
    assert [Boot([])] + [Serve(0, 0)] == [Boot([]), Serve(0, 0)];
    assert Lived(l, ONE_TIER, Serve(0, 0)) == Up(Up1()) by {
      assert seq(1, _ => 0) == [0];
      assert Empty(d, ONE_TIER).totals == [0];
    }
  }

  lemma Nowhere()
    requires LifeInv(NoFiles, ONE_TIER, map[])
    ensures Reached([], NoFiles, map[], None)
  {
  }

  lemma CutNothing(d: Disk)
    ensures Cut(d, d)
  {
    forall n | n in d.packs
      ensures exists x :: x in d.packs && n.id <= x.id
    {
      assert n in d.packs && n.id <= n.id;
    }
  }

  /** The daemon stops right after the eviction, and nothing it wrote is lost. */
  lemma FirstLife() returns (steps: seq<Step>)
    ensures Reached(steps, Down(Left()), Logs(5), Some(Newer().val))
  {
    hide Reached, Goes, Up1, Up2, Up3, Up4, Up5, Up6, Logs, Left, Cut;
    steps := [Boot([]), Serve(0, 0)];
    Begins();
    Put1();
    ReachEvent(steps, Up1(), Logs(1), None, Put(Older(), [], 0), Up2(), Logs(2));
    steps := steps + [Do(Put(Older(), [], 0))];
    Put2();
    ReachEvent(steps, Up2(), Logs(2), Some([]), Put(Beside(), [], 0), Up3(), Logs(3));
    steps := steps + [Do(Put(Beside(), [], 0))];
    Put3();
    ReachEvent(steps, Up3(), Logs(3), Some([]), Put(Newer(), FirstHint(), 1), Up4(), Logs(4));
    steps := steps + [Do(Put(Newer(), FirstHint(), 1))];
    Put4();
    ReachEvent(steps, Up4(), Logs(4), Some(Newer().val), Put(Third(), SecondHint(), 2), Up5(), Logs(5));
    steps := steps + [Do(Put(Third(), SecondHint(), 2))];
    Read5();
    ReachEvent(steps, Up5(), Logs(5), Some(Newer().val), Get([2], 3), Up6(), Logs(5));
    steps := steps + [Do(Get([2], 3))];
    Pick6();
    ReachEvent(steps, Up6(), Logs(5), Some(Newer().val), PickVictim(2), Up6().(demoter := Chosen(2)), Logs(5));
    steps := steps + [Do(PickVictim(2))];
    Evict7();
    CutNothing(Left());
    Reach(steps, Up(Up6().(demoter := Chosen(2))), Logs(5), Some(Newer().val), CrashIn(EvictPack, Left()));
    steps := steps + [CrashIn(EvictPack, Left())];
  }

  // ---------------------------------------------------------------- after the restart

  lemma HintedKey()
    ensures HasKey(Surviving(Left(), Name(0, 1)), [1])
  {
    hide EncodeRec, ReadHints, EncodeHints, FirstFile;
    Sizes();
    var es := [Entry([1], 0, 0), Entry([2], 9, 18)];
    HintsRoundTrip(es);
    assert es[..1] == [Entry([1], 0, 0)] && es[..1][..0] == [];
    assert Fitting(es[..1][..0], 36) == [];
    assert Fits(es[0], 36);
    assert Entry([1], 0, 0) in Fitting(es, 36);
    HasKeyOf(Fitting(es, 36), Entry([1], 0, 0));
  }

  /** Of the key [1] only the first pack has a record left. */
  lemma OlderIsFound(index: map<Bytes, Loc>)
    requires LastWriteWins(Left(), index) && Logged(Left(), Logs(5)) && LogsOk(Logs(5))
    ensures [1] in index && index[[1]] == LocOf(1, EntryAt(Logs(5)[1], 0))
  {
    hide Logged, LogsOk, Surviving, HasKey, LastOf, EntryAt, LocOf, EncodeRec, FirstHint, FirstFile;
    HintedKey();
    assert FastCopy(Left(), Name(0, 1));
    var n :| FastCopy(Left(), n) && IsLastIn(Left(), n, [1], index[[1]]);
    var i := SurvivorLogged(Left(), Logs(5), n, [1]);
    assert n.id == 1 && i == 0;
  }

  lemma Recognises(id: nat)
    requires id < ID_LIMIT
    ensures Recognised(id)
  {
    NameRoundTrip(id);
  }

  lemma Lists()
    ensures Listing(Left(), [Name(0, 1), Name(0, 3)]) && SixDigits(Left())
  {
    hide Recognised, EncodeRec, FirstHint, FirstFile;
    Recognises(1);
    Recognises(3);
  }

  /** A whole run, from an empty directory, after which the store answers for a key with a value that a
      later put had replaced. */
  lemma OlderResurfaces() returns (steps: seq<Step>, s: Store)
    ensures Happens(NoFiles, ONE_TIER, steps) && StoreLives.After(NoFiles, ONE_TIER, steps) == Up(s)
    ensures LastTried(steps, [1], None) == Some(Newer().val)
    ensures [1] in s.mem.index && s.mem.index[[1]].pack in s.mem.packs && Readable(s.disk.inodes, ReaderFor(s.mem, [1]))
    ensures ReadAll(s.disk.inodes, ReaderFor(s.mem, [1])) == Older().val != Newer().val
  {
    hide Happens, StoreLives.After, Listing, SixDigits, Loadable, LoadAll, IsLast, LogsOk, Logged, Owned, Topped, Inv,
         LastWriteWins, Left, EntryAt, LocOf, LastTried;
    var first := FirstLife();
    Lists();
    var todo := [Name(0, 1), Name(0, 3)];
    var more, cs, last := Reopens(Left(), ONE_TIER, todo, Logs(5), 4);
    HappensThen(NoFiles, ONE_TIER, first, more);
    steps := first + more;
    TriedThen(first, more, [1], None);
    NoPuts(more, [1], Some(Newer().val));
    s := Fresh(LoadAll(Empty(Left(), ONE_TIER), todo, cs), last + 1, 4);
    OpenRecovers(Left(), ONE_TIER, todo, cs, last, 4, Logs(5));
    OlderIsFound(s.mem.index);
    var logs := Logs(5)[last + 1 := []];
    assert 1 in Logs(5) && logs[1] == Logs(5)[1];
    ReadsLatest(s, logs, [1], 1, 0);
  }
}
