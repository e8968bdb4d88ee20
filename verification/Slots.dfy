/** Host-wide admission: the token pool of the daemon (slots.go). `Pool` is the value of the
    mutex-protected fields; `SlotPool` is the object whose methods change them in place. */
module Slots {
  import opened Sums

  type Build = string

  /** A blocked Acquire. The ticket stands for its `ready` channel. */
  datatype Waiter = Waiter(build: Build, ticket: nat)

  datatype Pool = Pool(limit: nat, out: int, held: map<Build, int>, waiting: seq<Waiter>)

  /** Go's map read: 0 for a missing key. */
  function Count(held: map<Build, int>, b: Build): int {
    if b in held then held[b] else 0
  }

  function Fewer(held: map<Build, int>, v: Waiter, w: Waiter): bool {
    Count(held, v.build) < Count(held, w.build)
  }

  /** The waiter the grant loop picks: nobody's build holds fewer tokens, and nobody queued
      earlier does as well. */
  ghost predicate IsBest(held: map<Build, int>, ws: seq<Waiter>, i: int) {
    && 0 <= i < |ws|
    && (forall j :: 0 <= j < |ws| ==> !Fewer(held, ws[j], ws[i]))
    && (forall j :: 0 <= j < i ==> Fewer(held, ws[i], ws[j]))
  }

  function Best(held: map<Build, int>, ws: seq<Waiter>): (i: nat)
    requires ws != []
    ensures IsBest(held, ws, i)
  {
    if |ws| == 1 then 0
    else
      var n := |ws| - 1;
      var i := Best(held, ws[..n]);
      assert forall j :: 0 <= j < n ==> ws[..n][j] == ws[j];
      if Fewer(held, ws[n], ws[i]) then n else i
  }

  function Without<T>(ws: seq<T>, i: nat): seq<T>
    requires i < |ws|
  {
    ws[..i] + ws[i + 1..]
  }

  function Give(held: map<Build, int>, b: Build): map<Build, int> {
    held[b := Count(held, b) + 1]
  }

  function Take(held: map<Build, int>, b: Build): map<Build, int> {
    if Count(held, b) - 1 <= 0 then held - {b} else held[b := Count(held, b) - 1]
  }

  predicate CanGrant(p: Pool) {
    p.out < p.limit && p.waiting != []
  }

  function GrantOne(p: Pool): Pool
    requires CanGrant(p)
  {
    var i := Best(p.held, p.waiting);
    p.(out := p.out + 1, held := Give(p.held, p.waiting[i].build), waiting := Without(p.waiting, i))
  }

  function Grant(p: Pool): Pool
    decreases |p.waiting|
  {
    if CanGrant(p) then Grant(GrantOne(p)) else p
  }

  function Acquired(p: Pool, w: Waiter): Pool {
    if p.out < p.limit && p.waiting == []
    then p.(out := p.out + 1, held := Give(p.held, w.build))
    else p.(waiting := p.waiting + [w])
  }

  function Return(p: Pool, b: Build): Pool {
    p.(out := p.out - 1, held := Take(p.held, b))
  }

  function Released(p: Pool, b: Build): Pool {
    Grant(Return(p, b))
  }

  // ---------------------------------------------------------------- accounting

  /** `held` stores only positive counts. */
  ghost predicate Positive(held: map<Build, int>) {
    forall b :: b in held ==> held[b] > 0
  }

  /** The total is what the builds hold and stays within the limit. */
  ghost predicate Accounted(p: Pool) {
    && Positive(p.held)
    && p.out == Sum(p.held)
    && 0 <= p.out <= p.limit
  }

  /** Work conservation: somebody waits only if every token is out. */
  ghost predicate Conserving(p: Pool) {
    Accounted(p) && (p.waiting != [] ==> p.out == p.limit)
  }

  lemma GiveSum(held: map<Build, int>, b: Build)
    requires Positive(held)
    ensures Positive(Give(held, b)) && Sum(Give(held, b)) == Sum(held) + 1
    ensures forall c :: Count(Give(held, b), c) == Count(held, c) + (if c == b then 1 else 0)
  {
    SumUpdate(held, b, Count(held, b) + 1);
  }

  lemma TakeSum(held: map<Build, int>, b: Build)
    requires Positive(held) && Count(held, b) > 0
    ensures Positive(Take(held, b)) && Sum(Take(held, b)) == Sum(held) - 1
    ensures forall c :: Count(Take(held, b), c) == Count(held, c) - (if c == b then 1 else 0)
  {
    if Count(held, b) == 1 {
      SumRemove(held, b);
    } else {
      SumUpdate(held, b, Count(held, b) - 1);
    }
  }

  lemma {:induction false} GrantConserves(p: Pool)
    requires Accounted(p)
    ensures Conserving(Grant(p)) && Grant(p).limit == p.limit
    decreases |p.waiting|
  {
    if CanGrant(p) {
      GiveSum(p.held, p.waiting[Best(p.held, p.waiting)].build);
      GrantConserves(GrantOne(p));
    }
  }

  lemma AcquireConserves(p: Pool, w: Waiter)
    requires Conserving(p)
    ensures Conserving(Acquired(p, w))
  {
    GiveSum(p.held, w.build);
  }

  lemma ReleaseConserves(p: Pool, b: Build)
    requires Conserving(p) && Count(p.held, b) > 0
    ensures Conserving(Released(p, b))
  {
    TakeSum(p.held, b);
    SumNonNegative(Take(p.held, b));
    GrantConserves(Return(p, b));
  }

  // ---------------------------------------------------------------- fairness over whole runs

  /** One call under the mutex. */
  datatype Op = Ask(w: Waiter) | Done(build: Build)

  function Call(p: Pool, op: Op): Pool {
    match op
    case Ask(w) => Acquired(p, w)
    case Done(b) => Released(p, b)
  }

  function CallAll(p: Pool, ops: seq<Op>): Pool
    decreases |ops|
  {
    if ops == [] then p else CallAll(Call(p, ops[0]), ops[1..])
  }

  /** Waiters woken by one call. */
  function Woken(p: Pool, op: Op): int {
    match op
    case Ask(_) => 0
    case Done(b) => |p.waiting| - |Released(p, b).waiting|
  }

  function Grants(p: Pool, ops: seq<Op>): int
    decreases |ops|
  {
    if ops == [] then 0 else Woken(p, ops[0]) + Grants(Call(p, ops[0]), ops[1..])
  }

  ghost predicate Queued(ws: seq<Waiter>, t: nat) {
    exists i :: 0 <= i < |ws| && ws[i].ticket == t
  }

  ghost predicate Distinct(ws: seq<Waiter>) {
    forall i, j :: 0 <= i < j < |ws| ==> ws[i].ticket != ws[j].ticket
  }

  /** Nobody asks again under ticket t. */
  ghost predicate NeverAsks(ops: seq<Op>, t: nat) {
    forall i :: 0 <= i < |ops| ==> ops[i].Ask? ==> ops[i].w.ticket != t
  }

  /** The waiter at i is the first of its build in the queue and that build holds no token. */
  ghost predicate Starved(p: Pool, i: int) {
    && 0 <= i < |p.waiting|
    && Count(p.held, p.waiting[i].build) == 0
    && forall j :: 0 <= j < i ==> p.waiting[j].build != p.waiting[i].build
  }

  /** Ticket t, at place i when the count started, has been served, or stands g places further
      ahead after g grants and is still the next of an empty-handed build. */
  ghost predicate Advanced(p: Pool, t: nat, i: int, g: int) {
    Queued(p.waiting, t) ==> g <= i && Starved(p, i - g) && p.waiting[i - g].ticket == t
  }

  lemma GrantOneAdvances(p: Pool, t: nat, i: int)
    requires CanGrant(p) && Positive(p.held) && Distinct(p.waiting)
    requires Queued(p.waiting, t) ==> Starved(p, i) && p.waiting[i].ticket == t
    ensures Positive(GrantOne(p).held) && Distinct(GrantOne(p).waiting)
    ensures |GrantOne(p).waiting| == |p.waiting| - 1
    ensures Advanced(GrantOne(p), t, i, 1)
  {
    var best := Best(p.held, p.waiting);
    GiveSum(p.held, p.waiting[best].build);
    var q := GrantOne(p);
    assert forall j :: 0 <= j < |q.waiting| ==>
        q.waiting[j] == p.waiting[if j < best then j else j + 1];
    if Queued(q.waiting, t) {
      var j :| 0 <= j < |q.waiting| && q.waiting[j].ticket == t;
      assert p.waiting[if j < best then j else j + 1].ticket == t;
      assert best <= i;
      assert best != i;
      assert q.waiting[i - 1] == p.waiting[i];
    }
  }

  lemma {:induction false} GrantAdvances(p: Pool, t: nat, i: int)
    requires Positive(p.held) && Distinct(p.waiting)
    requires Queued(p.waiting, t) ==> Starved(p, i) && p.waiting[i].ticket == t
    ensures Positive(Grant(p).held) && Distinct(Grant(p).waiting)
    ensures |Grant(p).waiting| <= |p.waiting|
    ensures Advanced(Grant(p), t, i, |p.waiting| - |Grant(p).waiting|)
    decreases |p.waiting|
  {
    if CanGrant(p) {
      GrantOneAdvances(p, t, i);
      GrantAdvances(GrantOne(p), t, i - 1);
    }
  }

  lemma CallAdvances(p: Pool, op: Op, t: nat, i: int)
    requires Positive(p.held) && Distinct(p.waiting)
    requires op.Ask? ==> op.w.ticket != t && !Queued(p.waiting, op.w.ticket)
    requires Queued(p.waiting, t) ==> Starved(p, i) && p.waiting[i].ticket == t
    ensures Positive(Call(p, op).held) && Distinct(Call(p, op).waiting)
    ensures 0 <= Woken(p, op)
    ensures Advanced(Call(p, op), t, i, Woken(p, op))
  {
    match op
    case Ask(w) =>
      GiveSum(p.held, w.build);
      if Queued(Call(p, op).waiting, t) {
        assert Queued(p.waiting, t);
      }
    case Done(b) =>
      var q := Return(p, b);
      assert Positive(q.held);
      GrantAdvances(q, t, i);
  }

  /** Every ticket asked for is fresh at that moment. */
  ghost predicate FreshAsks(p: Pool, ops: seq<Op>)
    decreases |ops|
  {
    ops == [] ||
    ((ops[0].Ask? ==> !Queued(p.waiting, ops[0].w.ticket)) && FreshAsks(Call(p, ops[0]), ops[1..]))
  }

  /** Bounded bypass. Once a waiter is the first of its build in the queue and that build holds no
      token, more than i grants, i being its place, are impossible without serving it, however many
      requests arrive meanwhile. */
  lemma {:induction false} BoundedBypass(p: Pool, ops: seq<Op>, i: int)
    requires Positive(p.held) && Distinct(p.waiting)
    requires Starved(p, i)
    requires FreshAsks(p, ops) && NeverAsks(ops, p.waiting[i].ticket)
    ensures Grants(p, ops) > i ==> !Queued(CallAll(p, ops).waiting, p.waiting[i].ticket)
  {
    Bypass(p, ops, p.waiting[i].ticket, i);
  }

  lemma {:induction false} Bypass(p: Pool, ops: seq<Op>, t: nat, i: int)
    requires Positive(p.held) && Distinct(p.waiting)
    requires Queued(p.waiting, t) ==> Starved(p, i) && p.waiting[i].ticket == t
    requires FreshAsks(p, ops) && NeverAsks(ops, t)
    ensures Advanced(CallAll(p, ops), t, i, Grants(p, ops))
    decreases |ops|
  {
    if ops != [] {
      CallAdvances(p, ops[0], t, i);
      Bypass(Call(p, ops[0]), ops[1..], t, i - Woken(p, ops[0]));
    }
  }

  /** Ticket s stands before ticket t in the queue, for the same build. */
  ghost predicate Before(ws: seq<Waiter>, s: nat, t: nat) {
    exists i, j :: 0 <= i < j < |ws| && ws[i].ticket == s && ws[j].ticket == t && ws[i].build == ws[j].build
  }

  lemma GrantOneKeepsOrder(p: Pool, s: nat, t: nat)
    requires CanGrant(p) && Distinct(p.waiting) && s != t
    requires Queued(p.waiting, s) ==> Before(p.waiting, s, t)
    ensures Distinct(GrantOne(p).waiting)
    ensures Queued(GrantOne(p).waiting, s) ==> Before(GrantOne(p).waiting, s, t)
  {
    var ws := p.waiting;
    var best := Best(p.held, ws);
    var vs := Without(ws, best);
    WithoutDistinct(ws, best);
    if Queued(vs, s) {
      var k :| 0 <= k < |vs| && vs[k].ticket == s;
      assert Queued(ws, s) by { assert ws[Old(best, k)].ticket == s; }
      var i, j :| 0 <= i < j < |ws| && ws[i].ticket == s && ws[j].ticket == t && ws[i].build == ws[j].build;
      assert best != i by { assert ws[Old(best, k)].ticket == s; }
      var v, w := ws[i], ws[j];
      assert best == j ==> Fewer(p.held, w, v);
      StaysBefore(ws, best, i, j);
    }
  }

  /** Where the k-th waiter stood before the one at `gone` left. */
  function Old(gone: nat, k: nat): nat {
    if k < gone then k else k + 1
  }

  lemma WithoutDistinct(ws: seq<Waiter>, gone: nat)
    requires gone < |ws| && Distinct(ws)
    ensures Distinct(Without(ws, gone))
  {
    var vs := Without(ws, gone);
    forall i, j | 0 <= i < j < |vs|
      ensures vs[i].ticket != vs[j].ticket
    {
      assert vs[i] == ws[Old(gone, i)] && vs[j] == ws[Old(gone, j)];
    }
  }

  lemma StaysBefore(ws: seq<Waiter>, gone: nat, i: nat, j: nat)
    requires i < j < |ws| && ws[i].build == ws[j].build && gone < |ws| && gone != i && gone != j
    ensures Before(Without(ws, gone), ws[i].ticket, ws[j].ticket)
  {
    var vs := Without(ws, gone);
    var i' := if i < gone then i else i - 1;
    var j' := if j < gone then j else j - 1;
    assert vs[i'] == ws[i] && vs[j'] == ws[j];
  }

  lemma {:induction false} GrantKeepsOrder(p: Pool, s: nat, t: nat)
    requires Distinct(p.waiting) && s != t
    requires Queued(p.waiting, s) ==> Before(p.waiting, s, t)
    ensures Distinct(Grant(p).waiting)
    ensures Queued(Grant(p).waiting, s) ==> Before(Grant(p).waiting, s, t)
    decreases |p.waiting|
  {
    if CanGrant(p) {
      GrantOneKeepsOrder(p, s, t);
      GrantKeepsOrder(GrantOne(p), s, t);
    }
  }

  /** Waiters of one build are served in arrival order: as long as the earlier one is queued, so is
      the later one, behind it. */
  lemma {:induction false} ServedInArrivalOrder(p: Pool, ops: seq<Op>, s: nat, t: nat)
    requires Distinct(p.waiting) && s != t
    requires Queued(p.waiting, s) ==> Before(p.waiting, s, t)
    requires FreshAsks(p, ops) && NeverAsks(ops, s)
    ensures Queued(CallAll(p, ops).waiting, s) ==> Before(CallAll(p, ops).waiting, s, t)
    decreases |ops|
  {
    if ops != [] {
      var q := Call(p, ops[0]);
      match ops[0] {
        case Ask(w) =>
          if Queued(q.waiting, s) {
            assert Queued(p.waiting, s);
            var i, j :| 0 <= i < j < |p.waiting| && p.waiting[i].ticket == s && p.waiting[j].ticket == t
                        && p.waiting[i].build == p.waiting[j].build;
            assert q.waiting[i] == p.waiting[i] && q.waiting[j] == p.waiting[j];
          }
        case Done(b) =>
          GrantKeepsOrder(Return(p, b), s, t);
      }
      ServedInArrivalOrder(q, ops[1..], s, t);
    }
  }

  // ---------------------------------------------------------------- the object

  /** The fields of Slots and its three methods. A blocked Acquire is one that queued: it returns
      once its ticket shows up among the waiters a Release woke. */
  class SlotPool {
    const limit: nat
    var out: int
    var held: map<Build, int>
    var waiting: seq<Waiter>

    ghost function Value(): Pool
      reads this
    {
      Pool(limit, out, held, waiting)
    }

    constructor (limit: nat)
      ensures Value() == Pool(limit, 0, map[], [])
      ensures Conserving(Value())
    {
      this.limit := limit;
      out, held, waiting := 0, map[], [];
    }

    method Acquire(w: Waiter) returns (queued: bool)
      modifies this
      ensures Value() == Acquired(old(Value()), w)
      ensures queued <==> old(out) >= limit || old(waiting) != []
      ensures old(Conserving(Value())) ==> Conserving(Value())
    {
      hide Conserving;
      if Conserving(Value()) {
        AcquireConserves(Value(), w);
      }
      if out < limit && |waiting| == 0 {
        out := out + 1;
        held := held[w.build := Count(held, w.build) + 1];
        return false;
      }
      waiting := waiting + [w];
      return true;
    }

    method Release(build: Build) returns (woken: seq<Waiter>)
      modifies this
      ensures Value() == Released(old(Value()), build)
      ensures multiset(old(waiting)) == multiset(woken) + multiset(waiting)
      ensures old(Conserving(Value()) && Count(held, build) > 0) ==> Conserving(Value())
    {
      hide Conserving, Grant;
      if Conserving(Value()) && Count(held, build) > 0 {
        ReleaseConserves(Value(), build);
      }
      out := out - 1;
      var left := Count(held, build) - 1;
      if left <= 0 {
        held := held - {build};
      } else {
        held := held[build := left];
      }
      woken := Wake();
    }

    method Wake() returns (woken: seq<Waiter>)
      modifies this
      ensures Value() == Grant(old(Value()))
      ensures multiset(old(waiting)) == multiset(woken) + multiset(waiting)
    {
      woken := [];
      while out < limit && |waiting| > 0
        invariant Grant(Value()) == Grant(old(Value()))
        invariant multiset(old(waiting)) == multiset(woken) + multiset(waiting)
        decreases |waiting|
      {
        var w := WakeOne();
        woken := woken + [w];
      }
    }

    method WakeOne() returns (w: Waiter)
      requires CanGrant(Value())
      modifies this
      ensures Value() == GrantOne(old(Value()))
      ensures multiset(old(waiting)) == multiset(waiting) + multiset{w}
      ensures |waiting| == |old(waiting)| - 1
    {
      var best := PickBest();
      w := waiting[best];
      WithoutMultiset(waiting, best);
      waiting := waiting[..best] + waiting[best + 1..];
      out := out + 1;
      held := held[w.build := Count(held, w.build) + 1];
    }

    method PickBest() returns (best: nat)
      requires waiting != []
      ensures best == Best(held, waiting) && best < |waiting|
    {
      best := 0;
      for i := 0 to |waiting|
        invariant best < |waiting| && (i == 0 ==> best == 0) && (i > 0 ==> best < i)
        invariant forall j :: 0 <= j < i ==> !Fewer(held, waiting[j], waiting[best])
        invariant forall j :: 0 <= j < best ==> Fewer(held, waiting[best], waiting[j])
      {
        if Count(held, waiting[i].build) < Count(held, waiting[best].build) {
          best := i;
        }
      }
      BestIsUnique(held, waiting, best, Best(held, waiting));
    }
  }

  lemma BestIsUnique(held: map<Build, int>, ws: seq<Waiter>, i: int, j: int)
    requires IsBest(held, ws, i) && IsBest(held, ws, j)
    ensures i == j
  {
    var v, w := ws[i], ws[j];
    assert i < j ==> Fewer(held, w, v);
    assert j < i ==> Fewer(held, v, w);
    assert !Fewer(held, v, w) && !Fewer(held, w, v);
  }

  lemma WithoutMultiset(ws: seq<Waiter>, i: nat)
    requires i < |ws|
    ensures multiset(ws) == multiset(Without(ws, i)) + multiset{ws[i]}
  {
    assert ws == ws[..i] + [ws[i]] + ws[i + 1..];
  }
}
