/** One lifetime of the daemon's store: puts, gets, the demoter's locked and unlocked steps and Close,
    in any interleaving. A get answers with the latest put of its key or, once that put's pack was
    evicted, with a miss. */
module StoreRuns {
  import opened Bytes
  import opened PackFormat
  import opened PackStore
  import opened PackSteps

  /** One critical section of the store, or one unlocked step of the demoter. `Put` and `FailedPut`
      (the write failed and was truncated) carry the hint written if they rotate. */
  datatype Event =
    | Put(r: Rec, hint: Bytes, now: int)
    | FailedPut(r: Rec, hint: Bytes, now: int)
    | Get(key: Bytes, now: int)
    | PickVictim(id: nat)
    | CopyDown(link: bool)
    | CopyHintDown
    | SwitchTier
    | EvictPack
    | Shut
    | SealActive(hint: Bytes)

  ghost predicate CanPut(s: Store, r: Rec, hint: Bytes) {
    && !s.closed && !BadPut(r.key, |r.val|)
    && s.active in s.mem.packs
    && (Full(s.mem.packs[s.active], |EncodeRec(r)|) ==> HintFrom(s.mem.index, s.active, hint))
  }

  ghost predicate Can(s: Store, e: Event) {
    match e
    case Put(r, hint, _) => CanPut(s, r, hint)
    case FailedPut(r, hint, _) => CanPut(s, r, hint)
    case Get(_, _) => true
    case PickVictim(id) => s.demoter.Resting? && IsVictim(s, id)
    case CopyDown(_) => s.demoter.Chosen? && s.demoter.id in s.mem.packs
                        && s.mem.packs[s.demoter.id].tier + 1 < |s.totals|
    case CopyHintDown => s.demoter.PackThere?
    case SwitchTier => s.demoter.HintThere?
    case EvictPack => s.demoter.Chosen? && s.demoter.id in s.mem.packs
                      && s.mem.packs[s.demoter.id].tier + 1 == |s.totals|
    case Shut => true
    case SealActive(hint) => s.closed && s.demoter.Resting? && HintFrom(s.mem.index, s.active, hint)
  }

  /** The pack Put will append to: the active one, or a fresh one if the record does not fit. */
  function Room(s: Store, r: Rec, hint: Bytes, now: int): Store
    requires s.active in s.mem.packs
  {
    if Full(s.mem.packs[s.active], |EncodeRec(r)|) then Fresh(Seal(s, s.active, hint), s.active + 1, now) else s
  }

  function RoomLogs(s: Store, logs: map<nat, seq<Rec>>, r: Rec): map<nat, seq<Rec>>
    requires s.active in s.mem.packs
  {
    if Full(s.mem.packs[s.active], |EncodeRec(r)|) then logs[s.active + 1 := []] else logs
  }

  lemma ActiveHintOk(s: Store, logs: map<nat, seq<Rec>>, hint: Bytes)
    requires Inv(s, logs) && HintFrom(s.mem.index, s.active, hint)
    ensures s.active in s.mem.packs && s.active in logs && HintOk(hint, logs[s.active])
  {
    hide Logged, FilesOk, HintsOk, AloneOk, DemoterOk, LiveOk, TotalsOk;
    SealedHintOk(s.mem, logs, s.active, hint);
  }

  lemma RoomKeepsInv(s: Store, logs: map<nat, seq<Rec>>, r: Rec, hint: Bytes, now: int)
    requires Inv(s, logs) && CanPut(s, r, hint)
    ensures Inv(Room(s, r, hint, now), RoomLogs(s, logs, r))
  {
    hide Inv;
    if Full(s.mem.packs[s.active], |EncodeRec(r)|) {
      ActiveHintOk(s, logs, hint);
      RotateKeepsInv(s, logs, hint, now);
    }
  }

  /** What is needed for a step to make sense; Inv gives it. */
  ghost predicate Sane(s: Store, e: Event) {
    match e
    case Put(r, hint, now) =>
      s.active in s.mem.packs && Ready(Room(s, r, hint, now)) &&
      (r.key in s.mem.index ==> s.mem.index[r.key].pack in Room(s, r, hint, now).mem.packs)
    case FailedPut(_, _, _) => s.active in s.mem.packs
    case Get(k, _) => k in s.mem.index ==> s.mem.index[k].pack in s.mem.packs
    case CopyDown(_) => s.demoter.Chosen? && s.demoter.id in s.mem.packs
                        && s.mem.packs[s.demoter.id].file < |s.disk.inodes|
    case CopyHintDown => s.demoter.PackThere? && s.demoter.id in s.mem.packs &&
                         Name(s.mem.packs[s.demoter.id].tier, s.demoter.id) in s.disk.hints
    case SwitchTier => s.demoter.HintThere? && s.demoter.id in s.mem.packs
                       && s.mem.packs[s.demoter.id].tier + 1 < |s.totals|
    case EvictPack => s.demoter.Chosen? && s.demoter.id in s.mem.packs && s.mem.packs[s.demoter.id].tier < |s.totals|
    case SealActive(_) => s.active in s.mem.packs
    case _ => true
  }

  ghost function Next(s: Store, e: Event): Store
    requires Sane(s, e)
  {
    match e
    case Put(r, hint, now) => Append(Room(s, r, hint, now), r)
    case FailedPut(r, hint, now) => Room(s, r, hint, now)
    case Get(k, now) =>
      if k in s.mem.index then s.(mem := s.mem.(packs := Touched(s.mem.packs, s.mem.index[k].pack, now))) else s
    case PickVictim(id) => s.(demoter := Chosen(id))
    case CopyDown(link) => CopyPack(s, link)
    case CopyHintDown => CopyHint(s)
    case SwitchTier => Switch(s)
    case EvictPack => Evict(s)
    case Shut => s.(closed := true)
    case SealActive(hint) => Seal(s, s.active, hint)
  }

  /** Everything ever appended, pack by pack. */
  ghost function Recorded(s: Store, logs: map<nat, seq<Rec>>, e: Event): map<nat, seq<Rec>>
    requires Sane(s, e)
  {
    match e
    case Put(r, hint, now) =>
      var more := RoomLogs(s, logs, r);
      var id := Room(s, r, hint, now).active;
      if id in more then Extended(more, id, r) else more
    case FailedPut(r, _, _) => RoomLogs(s, logs, r)
    case _ => logs
  }

  lemma SmallEnough(s: Store, logs: map<nat, seq<Rec>>, r: Rec, hint: Bytes, now: int)
    requires Inv(s, logs) && CanPut(s, r, hint)
    ensures Room(s, r, hint, now).mem.packs[Room(s, r, hint, now).active].size <= PACK_LIMIT
  {
  }

  lemma PutKeepsInv(s: Store, logs: map<nat, seq<Rec>>, r: Rec, hint: Bytes, now: int)
    requires Inv(s, logs) && CanPut(s, r, hint)
    ensures Sane(s, Put(r, hint, now))
    ensures Inv(Next(s, Put(r, hint, now)), Recorded(s, logs, Put(r, hint, now)))
  {
    hide OnDisk, InMemory;
    var t := Room(s, r, hint, now);
    RoomKeepsInv(s, logs, r, hint, now);
    ActiveFacts(t, RoomLogs(s, logs, r));
    SmallEnough(s, logs, r, hint, now);
    AppendKeepsInv(t, RoomLogs(s, logs, r), r);
  }

  lemma Enough(s: Store, logs: map<nat, seq<Rec>>, e: Event)
    requires Inv(s, logs) && Can(s, e)
    ensures Sane(s, e)
  {
    if e.Put? {
      PutKeepsInv(s, logs, e.r, e.hint, e.now);
    } else if e.CopyDown? {
      assert FileOk(s.disk, s.demoter.id, s.mem.packs[s.demoter.id]);
    }
  }

  /** Every step keeps the invariant: this is what makes the interleavings harmless. */
  lemma StepKeepsInv(s: Store, logs: map<nat, seq<Rec>>, e: Event)
    requires Inv(s, logs) && Can(s, e)
    ensures Sane(s, e) && Inv(Next(s, e), Recorded(s, logs, e))
  {
    Enough(s, logs, e);
    match e
    case Put(r, hint, now) => PutKeepsInv(s, logs, r, hint, now);
    case FailedPut(r, hint, now) => RoomKeepsInv(s, logs, r, hint, now);
    case Get(k, now) => if k in s.mem.index { TouchKeepsInv(s, logs, s.mem.index[k].pack, now); }
    case PickVictim(id) => PickKeepsInv(s, logs, id);
    case CopyDown(link) => CopyPackKeepsInv(s, logs, link);
    case CopyHintDown => CopyHintKeepsInv(s, logs);
    case SwitchTier => SwitchKeepsInv(s, logs);
    case EvictPack => EvictKeepsInv(s, logs);
    case Shut =>
    case SealActive(hint) =>
      ActiveHintOk(s, logs, hint);
      SealKeepsInv(s, logs, s.active, hint);
  }

  // ---------------------------------------------------------------- runs

  ghost predicate Feasible(s: Store, logs: map<nat, seq<Rec>>, es: seq<Event>)
    requires Inv(s, logs)
    decreases |es|
  {
    es == [] ||
    (Can(s, es[0]) &&
     (StepKeepsInv(s, logs, es[0]); Feasible(Next(s, es[0]), Recorded(s, logs, es[0]), es[1..])))
  }

  ghost function Run(s: Store, logs: map<nat, seq<Rec>>, es: seq<Event>): (Store, map<nat, seq<Rec>>)
    requires Inv(s, logs) && Feasible(s, logs, es)
    ensures Inv(Run(s, logs, es).0, Run(s, logs, es).1)
    decreases |es|
  {
    if es == [] then (s, logs)
    else
      StepKeepsInv(s, logs, es[0]);
      Run(Next(s, es[0]), Recorded(s, logs, es[0]), es[1..])
  }
}
