/** The demoter on its own, without new puts: which pack it takes, that it comes to an end, and what it
    leaves. */
module Demotion {
  import opened Sums
  import opened Bytes
  import opened PackFormat
  import opened PackStore
  import opened PackSteps
  import opened StoreRuns

  // ---------------------------------------------------------------- the victim

  /** Tiers above their budget, if any, have no pack to give. */
  ghost predicate AtRest(s: Store) {
    forall t :: 0 <= t < |s.totals| && t < |s.budgets| && Over(s.totals[t], s.budgets[t]) ==> !Gives(s, t)
  }

  ghost predicate Gives(s: Store, t: nat) {
    exists id :: Candidate(s, t, id)
  }

  lemma SoonerTotal(i: nat, p: Pack, j: nat, q: Pack)
    requires i != j
    ensures Sooner(i, p, j, q) <==> !Sooner(j, q, i, p)
  {
  }

  lemma SoonerTransitive(i: nat, p: Pack, j: nat, q: Pack, k: nat, r: Pack)
    requires Sooner(i, p, j, q) && Sooner(j, q, k, r)
    ensures Sooner(i, p, k, r)
  {
  }

  /** Whatever order the packs are looked at in, there is only one victim. */
  lemma VictimUnique(s: Store, a: nat, b: nat)
    requires IsVictim(s, a) && IsVictim(s, b)
    ensures a == b
  {
    var t, u := s.mem.packs[a].tier, s.mem.packs[b].tier;
    assert Candidate(s, t, a) && Candidate(s, u, b);
    assert !(t < u) && !(u < t);
    if a != b {
      SoonerTotal(a, s.mem.packs[a], b, s.mem.packs[b]);
      assert false;
    }
  }

  // ---------------------------------------------------------------- one move

  /** moveDown without anything in between: drop the pack from the last tier, or copy it to the next
      and switch. */
  ghost function Moved(s: Store, id: nat, link: bool): Store
    requires CanMove(s, id)
  {
    var c := s.(demoter := Chosen(id));
    if s.mem.packs[id].tier + 1 == |s.totals| then Evict(c) else Switch(CopyHint(CopyPack(c, link)))
  }

  ghost predicate CanMove(s: Store, id: nat) {
    && s.demoter.Resting? && id in s.mem.packs && id != s.active
    && s.mem.packs[id].tier < |s.totals| && s.mem.packs[id].file < |s.disk.inodes|
    && Name(s.mem.packs[id].tier, id) in s.disk.hints
  }

  lemma VictimCanMove(s: Store, logs: map<nat, seq<Rec>>, id: nat)
    requires Inv(s, logs) && s.demoter.Resting? && id in s.mem.packs && id != s.active
    ensures CanMove(s, id)
  {
    hide LogsOk, Logged, Owned, ActiveOk, AloneOk, TotalsOk, LiveOk, Located;
    assert FileOk(s.disk, id, s.mem.packs[id]);
  }

  lemma MoveKeepsInv(s: Store, logs: map<nat, seq<Rec>>, id: nat, link: bool)
    requires Inv(s, logs) && CanMove(s, id)
    ensures Inv(Moved(s, id, link), logs)
  {
    hide Inv;
    var c := s.(demoter := Chosen(id));
    PickKeepsInv(s, logs, id);
    if s.mem.packs[id].tier + 1 == |s.totals| {
      EvictKeepsInv(c, logs);
    } else {
      CopyPackKeepsInv(c, logs, link);
      CopyHintKeepsInv(CopyPack(c, link), logs);
      SwitchKeepsInv(CopyHint(CopyPack(c, link)), logs);
    }
  }

  /** A move is the run of the demoter's steps. */
  lemma MoveIsSteps(s: Store, logs: map<nat, seq<Rec>>, id: nat, link: bool)
    requires Inv(s, logs) && s.demoter.Resting? && IsVictim(s, id) && CanMove(s, id)
    ensures var es := if s.mem.packs[id].tier + 1 == |s.totals| then [PickVictim(id), EvictPack]
                      else [PickVictim(id), CopyDown(link), CopyHintDown, SwitchTier];
            Feasible(s, logs, es) && Run(s, logs, es) == (Moved(s, id, link), logs)
  {
    hide Inv, IsVictim;
    var c := s.(demoter := Chosen(id));
    StepKeepsInv(s, logs, PickVictim(id));
    if s.mem.packs[id].tier + 1 == |s.totals| {
      StepKeepsInv(c, logs, EvictPack);
      Runs2(s, logs, PickVictim(id), EvictPack);
    } else {
      var d := CopyPack(c, link);
      StepKeepsInv(c, logs, CopyDown(link));
      StepKeepsInv(d, logs, CopyHintDown);
      StepKeepsInv(CopyHint(d), logs, SwitchTier);
      Runs2(d, logs, CopyHintDown, SwitchTier);
      Runs1(c, logs, CopyDown(link), [CopyHintDown, SwitchTier]);
      Runs1(s, logs, PickVictim(id), [CopyDown(link), CopyHintDown, SwitchTier]);
      assert [CopyDown(link)] + [CopyHintDown, SwitchTier] == [CopyDown(link), CopyHintDown, SwitchTier];
      assert [PickVictim(id)] + [CopyDown(link), CopyHintDown, SwitchTier]
          == [PickVictim(id), CopyDown(link), CopyHintDown, SwitchTier];
    }
  }

  lemma Runs1(s: Store, logs: map<nat, seq<Rec>>, e: Event, es: seq<Event>)
    requires Inv(s, logs) && Can(s, e) && Sane(s, e) && Inv(Next(s, e), Recorded(s, logs, e))
    requires Feasible(Next(s, e), Recorded(s, logs, e), es)
    ensures Feasible(s, logs, [e] + es)
    ensures Run(s, logs, [e] + es) == Run(Next(s, e), Recorded(s, logs, e), es)
  {
    hide Inv, Can, Sane, Next, Recorded;
    assert ([e] + es)[1..] == es;
  }

  lemma Runs2(s: Store, logs: map<nat, seq<Rec>>, a: Event, b: Event)
    requires Inv(s, logs) && Can(s, a) && Sane(s, a) && Inv(Next(s, a), Recorded(s, logs, a))
    requires Can(Next(s, a), b) && Sane(Next(s, a), b)
    requires Inv(Next(Next(s, a), b), Recorded(Next(s, a), Recorded(s, logs, a), b))
    ensures Feasible(s, logs, [a, b])
    ensures Run(s, logs, [a, b]) == (Next(Next(s, a), b), Recorded(Next(s, a), Recorded(s, logs, a), b))
  {
    hide Inv, Can, Sane, Next, Recorded;
    var t, m := Next(s, a), Recorded(s, logs, a);
    Runs1(t, m, b, []);
    Runs1(s, logs, a, [b]);
    assert [b] + [] == [b];
    assert [a] + [b] == [a, b];
  }

  // ---------------------------------------------------------------- termination

  /** How many tiers each sealed pack still has below it, counting its own. */
  ghost function Depths(s: Store): map<nat, int> {
    map id | id in s.mem.packs && id != s.active :: |s.totals| - s.mem.packs[id].tier
  }

  ghost function Depth(s: Store): int {
    Sum(Depths(s))
  }

  lemma DepthNatural(s: Store)
    requires TiersOk(s.mem.packs, |s.totals|)
    ensures Depth(s) >= 0
  {
    SumNonNegative(Depths(s));
  }

  /** Every move lowers the summed remaining depth by one. */
  lemma MoveLowers(s: Store, id: nat, link: bool)
    requires CanMove(s, id)
    ensures Depth(Moved(s, id, link)) == Depth(s) - 1
  {
    var t := Moved(s, id, link);
    var a: map<nat, int> := Depths(s);
    var b: map<nat, int> := Depths(t);
    if s.mem.packs[id].tier + 1 == |s.totals| {
      assert b == a - {id};
      SumRemove(a, id);
    } else {
      assert b == a[id := a[id] - 1];
      SumUpdate(a, id, a[id] - 1);
    }
  }

  // ---------------------------------------------------------------- moves between puts

  function Finishes(e: Event): int {
    if e.SwitchTier? || e.EvictPack? then 1 else 0
  }

  function Puts(e: Event): int {
    if e.Put? || e.FailedPut? then 1 else 0
  }

  function Moves(es: seq<Event>): int
    decreases |es|
  {
    if es == [] then 0 else Finishes(es[0]) + Moves(es[1..])
  }

  function PutsIn(es: seq<Event>): int
    decreases |es|
  {
    if es == [] then 0 else Puts(es[0]) + PutsIn(es[1..])
  }

  lemma SameDepth(s: Store, t: Store)
    requires t.active == s.active && |t.totals| == |s.totals| && t.mem.packs.Keys == s.mem.packs.Keys
    requires forall id :: id in s.mem.packs ==> t.mem.packs[id].tier == s.mem.packs[id].tier
    ensures Depth(t) == Depth(s)
  {
    assert Depths(t) == Depths(s);
  }

  /** A rotation adds the pack it seals, in the first tier. */
  lemma RoomDepth(s: Store, r: Rec, hint: Bytes, now: int)
    requires s.active in s.mem.packs && s.mem.packs[s.active].tier == 0 && s.active + 1 !in s.mem.packs
    ensures Depth(s) <= Depth(Room(s, r, hint, now)) <= Depth(s) + |s.totals|
    ensures |Room(s, r, hint, now).totals| == |s.totals|
  {
    hide Full, EncodeRec;
    var t := Room(s, r, hint, now);
    if t.active != s.active {
      var a: map<nat, int> := Depths(s);
      var b: map<nat, int> := Depths(t);
      assert b == a[s.active := |s.totals|];
      SumUpdate(a, s.active, |s.totals|);
    }
  }

  lemma AppendDepth(s: Store, r: Rec)
    requires Ready(s) && Known(s.mem)
    ensures Depth(Append(s, r)) == Depth(s) && |Append(s, r).totals| == |s.totals|
  {
    hide EncodeRec;
    AddFrame(s.mem, s.active, Entry(r.key, s.mem.packs[s.active].size, |r.val|));
    SameDepth(s, Append(s, r));
  }

  lemma FinishDepth(s: Store, logs: map<nat, seq<Rec>>, e: Event)
    requires Inv(s, logs) && Can(s, e) && Sane(s, e) && (e.SwitchTier? || e.EvictPack?)
    ensures Depth(Next(s, e)) == Depth(s) - 1 && |Next(s, e).totals| == |s.totals|
  {
    hide LogsOk, Logged, Owned, FilesOk, HintsOk, ActiveOk, AloneOk, InMemory;
    var id := s.demoter.id;
    var a: map<nat, int> := Depths(s);
    var b: map<nat, int> := Depths(Next(s, e));
    if e.EvictPack? {
      assert b == a - {id};
      SumRemove(a, id);
    } else {
      assert b == a[id := a[id] - 1];
      SumUpdate(a, id, a[id] - 1);
    }
  }

  lemma PutDepth(s: Store, logs: map<nat, seq<Rec>>, e: Event)
    requires Inv(s, logs) && Can(s, e) && Sane(s, e) && (e.Put? || e.FailedPut?)
    ensures Depth(Next(s, e)) <= Depth(s) + |s.totals| && |Next(s, e).totals| == |s.totals|
  {
    hide LogsOk, Owned, HintsOk, AloneOk, DemoterOk, LiveOk, TotalsOk, Room, Append;
    FreshId(s, logs);
    RoomDepth(s, e.r, e.hint, e.now);
    if e.Put? {
      RoomKnown(s, logs, e.r, e.hint, e.now);
      AppendDepth(Room(s, e.r, e.hint, e.now), e.r);
    }
  }

  lemma FreshId(s: Store, logs: map<nat, seq<Rec>>)
    requires Inv(s, logs)
    ensures s.active in s.mem.packs && s.mem.packs[s.active].tier == 0 && s.active + 1 !in s.mem.packs
  {
    hide LogsOk, Owned, HintsOk, AloneOk, DemoterOk, InMemory;
    forall id | id in s.mem.packs
      ensures id <= s.active
    {
      assert FileOk(s.disk, id, s.mem.packs[id]);
    }
  }

  lemma RoomKnown(s: Store, logs: map<nat, seq<Rec>>, r: Rec, hint: Bytes, now: int)
    requires Inv(s, logs) && CanPut(s, r, hint)
    ensures Known(Room(s, r, hint, now).mem)
  {
    hide OnDisk, Room;
    RoomKeepsInv(s, logs, r, hint, now);
  }

  lemma EventDepth(s: Store, logs: map<nat, seq<Rec>>, e: Event)
    requires Inv(s, logs) && Can(s, e) && Sane(s, e)
    ensures |Next(s, e).totals| == |s.totals|
    ensures Depth(Next(s, e)) + Finishes(e) <= Depth(s) + |s.totals| * Puts(e)
  {
    hide Inv, Depth;
    if e.Put? || e.FailedPut? {
      PutDepth(s, logs, e);
    } else if e.SwitchTier? || e.EvictPack? {
      FinishDepth(s, logs, e);
    } else {
      SameDepth(s, Next(s, e));
    }
  }

  /** Whatever puts and gets run in between: in any run the demoter finishes no more moves than the sealed
      packs it started with can make, and one pack's worth for each put. Between puts it comes to rest. */
  lemma {:induction false} MovesBounded(s: Store, logs: map<nat, seq<Rec>>, es: seq<Event>)
    requires Inv(s, logs) && Feasible(s, logs, es)
    ensures Moves(es) <= Depth(s) + |s.totals| * PutsIn(es)
    decreases |es|
  {
    hide Can, Sane, Next, Recorded, OnDisk, LiveOk, TotalsOk, Located, Depth, Finishes, Puts;
    if es == [] {
      DepthNatural(s);
    } else {
      var e := es[0];
      StepKeepsInv(s, logs, e);
      EventDepth(s, logs, e);
      MovesBounded(Next(s, e), Recorded(s, logs, e), es[1..]);
      Distribute(|s.totals|, Puts(e), PutsIn(es[1..]));
    }
  }

  lemma Distribute(n: int, a: int, b: int)
    ensures n * (a + b) == n * a + n * b
  {
  }

  // ---------------------------------------------------------------- the outcome

  lemma NothingHere(packs: map<nat, Pack>, t: nat)
    requires forall id :: id in packs ==> packs[id].tier != t
    ensures Sum(SizesIn(packs, t)) == 0
  {
    var none: map<nat, int> := SizesIn(packs, t);
    assert none == map[];
  }

  lemma OneHere(packs: map<nat, Pack>, t: nat, id: nat)
    requires id in packs && packs[id].tier == t && forall j :: j in packs && packs[j].tier == t ==> j == id
    ensures Sum(SizesIn(packs, t)) == packs[id].size
  {
    var none: map<nat, int> := map[];
    var one: map<nat, int> := SizesIn(packs, t);
    assert one == none[id := packs[id].size];
    SumUpdate(none, id, packs[id].size);
  }

  /** When the demoter stops, every bounded tier is within its budget, except a first tier that holds
      nothing but the pack being written. */
  lemma WithinBudget(s: Store, logs: map<nat, seq<Rec>>, t: nat)
    requires Inv(s, logs) && AtRest(s) && t < |s.totals| && Over(s.totals[t], s.budgets[t])
    ensures t == 0 && s.active in s.mem.packs && s.totals[0] == s.mem.packs[s.active].size
    ensures forall id :: id in s.mem.packs && s.mem.packs[id].tier == 0 ==> id == s.active
  {
    hide LogsOk, Logged, Owned, FilesOk, HintsOk, AloneOk, DemoterOk, LiveOk, Located;
    assert !Gives(s, t);
    assert forall id :: id in s.mem.packs && s.mem.packs[id].tier == t ==> Candidate(s, t, id) || id == s.active;
    if t != 0 {
      NothingHere(s.mem.packs, t);
      assert false;
    }
    OneHere(s.mem.packs, 0, s.active);
  }
}
