/** The daemon's connections and the token pool they share (`serve` in main.go over slots.go), as a
    step system: one step is what one goroutine does under the pool's mutex or on its own
    connection between two such calls. */
module Admission {
  import opened Sums
  import opened Slots

  /** Where a connection's goroutine is. */
  datatype Pc =
    | Reading                  // in the request loop
    | Acquiring(build: Build)  // called Acquire, has not yet counted the token
    | Returning(build: Build)  // uncounted a token, has not yet called Release
    | Draining                 // in the deferred function that gives everything back

  datatype Conn = Conn(pc: Pc, held: map<Build, int>)

  datatype Daemon = Daemon(pool: Pool, conns: map<nat, Conn>)

  datatype Event =
    | Connect(c: nat)
    | SlotRequest(c: nat, build: Build)
    | Record(c: nat)                     // Acquire returned: count the token and answer
    | DoneRequest(c: nat, build: Build)
    | Return(c: nat)                     // the Release that follows a DONE
    | HangUp(c: nat)                     // read or write failed, or a malformed request
    | DrainOne(c: nat, build: Build)
    | Close(c: nat)

  ghost predicate Enabled(d: Daemon, e: Event) {
    match e
    case Connect(c) => c !in d.conns
    case SlotRequest(c, _) => c in d.conns && d.conns[c].pc.Reading?
    case Record(c) => c in d.conns && d.conns[c].pc.Acquiring? && !Queued(d.pool.waiting, c)
    case DoneRequest(c, _) => c in d.conns && d.conns[c].pc.Reading?
    case Return(c) => c in d.conns && d.conns[c].pc.Returning?
    case HangUp(c) => c in d.conns && d.conns[c].pc.Reading?
    case DrainOne(c, b) => c in d.conns && d.conns[c].pc.Draining? && Count(d.conns[c].held, b) > 0
    case Close(c) => c in d.conns && d.conns[c].pc.Draining? && forall b :: Count(d.conns[c].held, b) <= 0
  }

  function Less(held: map<Build, int>, b: Build): map<Build, int> {
    held[b := Count(held, b) - 1]
  }

  function With(d: Daemon, pool: Pool, c: nat, conn: Conn): Daemon {
    Daemon(pool, d.conns[c := conn])
  }

  ghost function Apply(d: Daemon, e: Event): Daemon
    requires Enabled(d, e)
  {
    match e
    case Connect(c) => With(d, d.pool, c, Conn(Reading, map[]))
    case SlotRequest(c, b) => With(d, Acquired(d.pool, Waiter(b, c)), c, d.conns[c].(pc := Acquiring(b)))
    case Record(c) => With(d, d.pool, c, Conn(Reading, Give(d.conns[c].held, d.conns[c].pc.build)))
    case DoneRequest(c, b) =>
      if Count(d.conns[c].held, b) > 0
      then With(d, d.pool, c, Conn(Returning(b), Less(d.conns[c].held, b)))
      else d
    case Return(c) => With(d, Released(d.pool, d.conns[c].pc.build), c, d.conns[c].(pc := Reading))
    case HangUp(c) => With(d, d.pool, c, d.conns[c].(pc := Draining))
    case DrainOne(c, b) => With(d, Released(d.pool, b), c, Conn(Draining, Less(d.conns[c].held, b)))
    case Close(c) => Daemon(d.pool, d.conns - {c})
  }

  // ---------------------------------------------------------------- the invariant

  /** The tokens being counted: those of one build, or all. */
  datatype Which = One(build: Build) | All

  function Hit(x: Which, b: Build): int {
    if x == One(b) || x == All then 1 else 0
  }

  ghost function Of(held: map<Build, int>, x: Which): int {
    match x
    case One(b) => Count(held, b)
    case All => Sum(held)
  }

  lemma OfChanges(held: map<Build, int>, b: Build)
    ensures forall x :: Of(Less(held, b), x) == Of(held, x) - Hit(x, b)
    ensures forall x :: Of(Give(held, b), x) == Of(held, x) + Hit(x, b)
    ensures forall c :: Count(Less(held, b), c) == Count(held, c) - (if c == b then 1 else 0)
    ensures forall c :: Count(Give(held, b), c) == Count(held, c) + (if c == b then 1 else 0)
  {
    SumUpdate(held, b, Count(held, b) - 1);
    SumUpdate(held, b, Count(held, b) + 1);
  }

  lemma OfTake(held: map<Build, int>, b: Build)
    requires Positive(held) && Count(held, b) > 0
    ensures forall x :: Of(Take(held, b), x) == Of(held, x) - Hit(x, b)
  {
    TakeSum(held, b);
  }

  lemma OfAtLeastZero(held: map<Build, int>, x: Which)
    requires forall b :: Count(held, b) >= 0
    ensures Of(held, x) >= 0
  {
    forall b | b in held
      ensures held[b] >= 0
    {
      assert Count(held, b) >= 0;
    }
    SumNonNegative(held);
  }

  /** The tokens connection c answers for: those it counts, one granted to it but not yet
      counted, one uncounted but not yet released. */
  ghost function Owns(c: nat, conn: Conn, ws: seq<Waiter>, x: Which): int {
    Of(conn.held, x)
    + (if conn.pc.Acquiring? && !Queued(ws, c) then Hit(x, conn.pc.build) else 0)
    + (if conn.pc.Returning? then Hit(x, conn.pc.build) else 0)
  }

  ghost function Owned(conns: map<nat, Conn>, ws: seq<Waiter>, x: Which): map<nat, int> {
    map c | c in conns :: Owns(c, conns[c], ws, x)
  }

  ghost function Total(conns: map<nat, Conn>, ws: seq<Waiter>, x: Which): int {
    Sum(Owned(conns, ws, x))
  }

  /** Every waiter is a distinct connection blocked in Acquire for that build. */
  ghost predicate Blocked(conns: map<nat, Conn>, ws: seq<Waiter>) {
    && Distinct(ws)
    && forall i :: 0 <= i < |ws| ==>
         ws[i].ticket in conns && conns[ws[i].ticket].pc == Acquiring(ws[i].build)
  }

  ghost predicate NonNegative(conns: map<nat, Conn>) {
    forall c, b :: c in conns ==> Count(conns[c].held, b) >= 0
  }

  /** Per build and over all builds, the pool has handed out exactly what the connections answer
      for. */
  ghost predicate Balanced(conns: map<nat, Conn>, p: Pool) {
    forall x :: Of(p.held, x) == Total(conns, p.waiting, x)
  }

  ghost predicate Inv(d: Daemon) {
    && Conserving(d.pool)
    && Blocked(d.conns, d.pool.waiting)
    && NonNegative(d.conns)
    && Balanced(d.conns, d.pool)
  }

  // ---------------------------------------------------------------- single steps

  /** Only connection c changed, the queue did not. */
  lemma TotalAfter(conns: map<nat, Conn>, ws: seq<Waiter>, c: nat, conn: Conn, x: Which)
    ensures Total(conns[c := conn], ws, x)
         == Total(conns, ws, x) - (if c in conns then Owns(c, conns[c], ws, x) else 0) + Owns(c, conn, ws, x)
  {
    assert Owned(conns[c := conn], ws, x) == Owned(conns, ws, x)[c := Owns(c, conn, ws, x)];
    SumUpdate(Owned(conns, ws, x), c, Owns(c, conn, ws, x));
  }

  lemma OwnedNonNegative(d: Daemon, x: Which)
    requires Inv(d)
    ensures forall c :: c in d.conns ==> Owns(c, d.conns[c], d.pool.waiting, x) >= 0
  {
    forall c | c in d.conns
      ensures Owns(c, d.conns[c], d.pool.waiting, x) >= 0
    {
      OfAtLeastZero(d.conns[c].held, x);
    }
  }

  lemma OwnsAtMostHeld(d: Daemon, c: nat, b: Build)
    requires Inv(d) && c in d.conns
    ensures Owns(c, d.conns[c], d.pool.waiting, One(b)) <= Count(d.pool.held, b)
  {
    var owned: map<nat, int> := Owned(d.conns, d.pool.waiting, One(b));
    OwnedNonNegative(d, One(b));
    SumNonNegative(owned);
    assert Of(d.pool.held, One(b)) == Total(d.conns, d.pool.waiting, One(b));
    assert owned[c] <= Sum(owned);
  }

  /** A granted waiter's token moves from nobody to its connection. */
  lemma GrantOneBalances(conns: map<nat, Conn>, p: Pool, x: Which)
    requires CanGrant(p) && Positive(p.held) && Blocked(conns, p.waiting)
    ensures Blocked(conns, GrantOne(p).waiting)
    ensures Of(GrantOne(p).held, x) - Of(p.held, x)
         == Total(conns, GrantOne(p).waiting, x) - Total(conns, p.waiting, x)
  {
    var best := Best(p.held, p.waiting);
    var w := p.waiting[best];
    var vs := Without(p.waiting, best);
    WithoutDistinct(p.waiting, best);
    WithoutQueue(p.waiting, best);
    assert forall i :: 0 <= i < |vs| ==> vs[i] == p.waiting[Old(best, i)];
    OfChanges(p.held, w.build);
    SumDiffersAt(Owned(conns, p.waiting, x), Owned(conns, vs, x), w.ticket);
  }

  lemma WithoutQueue(ws: seq<Waiter>, gone: nat)
    requires gone < |ws| && Distinct(ws)
    ensures !Queued(Without(ws, gone), ws[gone].ticket) && Queued(ws, ws[gone].ticket)
    ensures forall t :: t != ws[gone].ticket ==> (Queued(Without(ws, gone), t) <==> Queued(ws, t))
  {
    var vs := Without(ws, gone);
    assert forall i :: 0 <= i < |vs| ==> vs[i] == ws[Old(gone, i)];
    forall t | t != ws[gone].ticket && Queued(ws, t)
      ensures Queued(vs, t)
    {
      var i :| 0 <= i < |ws| && ws[i].ticket == t;
      assert vs[if i < gone then i else i - 1] == ws[i];
    }
  }

  lemma {:induction false} GrantBalances(conns: map<nat, Conn>, p: Pool, x: Which)
    requires Positive(p.held) && Blocked(conns, p.waiting)
    ensures Blocked(conns, Grant(p).waiting)
    ensures Of(Grant(p).held, x) - Of(p.held, x)
         == Total(conns, Grant(p).waiting, x) - Total(conns, p.waiting, x)
    decreases |p.waiting|
  {
    if CanGrant(p) {
      GrantOneBalances(conns, p, x);
      GiveSum(p.held, p.waiting[Best(p.held, p.waiting)].build);
      GrantBalances(conns, GrantOne(p), x);
    }
  }

  /** A Release by connection c, which leaves c answering for one token of b less. */
  lemma ReleaseKeepsInv(d: Daemon, c: nat, conn: Conn, b: Build)
    requires Inv(d) && c in d.conns && !d.conns[c].pc.Acquiring? && !conn.pc.Acquiring?
    requires forall x :: Count(conn.held, x) >= 0
    requires Count(d.pool.held, b) > 0
    requires forall x :: Owns(c, conn, d.pool.waiting, x) == Owns(c, d.conns[c], d.pool.waiting, x) - Hit(x, b)
    ensures Inv(With(d, Released(d.pool, b), c, conn))
  {
    var conns := d.conns[c := conn];
    var q := Slots.Return(d.pool, b);
    TakeSum(d.pool.held, b);
    OfTake(d.pool.held, b);
    assert Blocked(conns, q.waiting);
    forall x
      ensures Of(Grant(q).held, x) == Total(conns, Grant(q).waiting, x)
    {
      TotalAfter(d.conns, d.pool.waiting, c, conn, x);
      GrantBalances(conns, q, x);
    }
    GrantBalances(conns, q, All);
    ReleaseConserves(d.pool, b);
  }

  /** A step of connection c alone that neither touches the pool nor what c answers for. */
  lemma LocalKeepsInv(d: Daemon, c: nat, conn: Conn)
    requires Inv(d) && !Queued(d.pool.waiting, c)
    requires forall b :: Count(conn.held, b) >= 0
    requires forall x :: Owns(c, conn, d.pool.waiting, x)
                      == if c in d.conns then Owns(c, d.conns[c], d.pool.waiting, x) else 0
    ensures Inv(With(d, d.pool, c, conn))
  {
    forall x
      ensures Of(d.pool.held, x) == Total(d.conns[c := conn], d.pool.waiting, x)
    {
      TotalAfter(d.conns, d.pool.waiting, c, conn, x);
    }
  }

  lemma SlotRequestKeepsInv(d: Daemon, c: nat, b: Build)
    requires Inv(d) && Enabled(d, SlotRequest(c, b))
    ensures Inv(Apply(d, SlotRequest(c, b)))
  {
    var p, w := d.pool, Waiter(b, c);
    var q := Acquired(p, w);
    var conn := d.conns[c].(pc := Acquiring(b));
    var conns := d.conns[c := conn];
    AcquireConserves(p, w);
    OfChanges(p.held, b);
    assert !Queued(p.waiting, c);
    forall x
      ensures Of(q.held, x) == Total(conns, q.waiting, x)
    {
      TotalAfter(d.conns, p.waiting, c, conn, x);
      if q.waiting != p.waiting {
        AppendQueue(p.waiting, w);
        SumDiffersAt(Owned(conns, p.waiting, x), Owned(conns, q.waiting, x), c);
      }
    }
    if q.waiting != p.waiting {
      AppendDistinct(p.waiting, w);
    }
  }

  lemma AppendQueue(ws: seq<Waiter>, w: Waiter)
    ensures Queued(ws + [w], w.ticket)
    ensures forall t :: t != w.ticket ==> (Queued(ws + [w], t) <==> Queued(ws, t))
  {
    var vs := ws + [w];
    assert vs[|ws|] == w;
    forall t | Queued(ws, t)
      ensures Queued(vs, t)
    {
      var i :| 0 <= i < |ws| && ws[i].ticket == t;
      assert vs[i].ticket == t;
    }
  }

  lemma AppendDistinct(ws: seq<Waiter>, w: Waiter)
    requires Distinct(ws) && !Queued(ws, w.ticket)
    ensures Distinct(ws + [w])
  {
  }

  lemma DrainedOwnsNothing(held: map<Build, int>, x: Which)
    requires forall b :: Count(held, b) == 0
    ensures Of(held, x) == 0
  {
    forall b | b in held
      ensures held[b] == 0
    {
      assert Count(held, b) == 0;
    }
    SumZero(held);
  }

  lemma StepKeepsInv(d: Daemon, e: Event)
    requires Inv(d) && Enabled(d, e)
    ensures Inv(Apply(d, e))
  {
    match e
    case Connect(c) =>
      LocalKeepsInv(d, c, Conn(Reading, map[]));
    case SlotRequest(c, b) =>
      SlotRequestKeepsInv(d, c, b);
    case Record(c) =>
      OfChanges(d.conns[c].held, d.conns[c].pc.build);
      LocalKeepsInv(d, c, Conn(Reading, Give(d.conns[c].held, d.conns[c].pc.build)));
    case DoneRequest(c, b) =>
      if Count(d.conns[c].held, b) > 0 {
        OfChanges(d.conns[c].held, b);
        LocalKeepsInv(d, c, Conn(Returning(b), Less(d.conns[c].held, b)));
      }
    case Return(c) =>
      OwnsAtMostHeld(d, c, d.conns[c].pc.build);
      ReleaseKeepsInv(d, c, d.conns[c].(pc := Reading), d.conns[c].pc.build);
    case HangUp(c) =>
      LocalKeepsInv(d, c, d.conns[c].(pc := Draining));
    case DrainOne(c, b) =>
      OwnsAtMostHeld(d, c, b);
      OfChanges(d.conns[c].held, b);
      ReleaseKeepsInv(d, c, Conn(Draining, Less(d.conns[c].held, b)), b);
    case Close(c) =>
      forall x
        ensures Of(d.pool.held, x) == Total(d.conns - {c}, d.pool.waiting, x)
      {
        DrainedOwnsNothing(d.conns[c].held, x);
        SumRemove(Owned(d.conns, d.pool.waiting, x), c);
        assert Owned(d.conns - {c}, d.pool.waiting, x) == Owned(d.conns, d.pool.waiting, x) - {c};
      }
  }

  // ---------------------------------------------------------------- whole runs

  ghost predicate Feasible(d: Daemon, es: seq<Event>)
    decreases |es|
  {
    es == [] || (Enabled(d, es[0]) && Feasible(Apply(d, es[0]), es[1..]))
  }

  ghost function Run(d: Daemon, es: seq<Event>): Daemon
    requires Feasible(d, es)
    decreases |es|
  {
    if es == [] then d else Run(Apply(d, es[0]), es[1..])
  }

  function Fresh(limit: nat): Daemon {
    Daemon(Pool(limit, 0, map[], []), map[])
  }

  /** Admission safety: however connections ask, return and hang up, the pool's count per build is
      exactly what the connections answer for, the total stays within the limit, and somebody waits
      only if it is reached. */
  lemma {:induction false} AdmissionSafety(d: Daemon, es: seq<Event>)
    requires Inv(d) && Feasible(d, es)
    ensures Inv(Run(d, es))
    decreases |es|
  {
    if es != [] {
      StepKeepsInv(d, es[0]);
      AdmissionSafety(Apply(d, es[0]), es[1..]);
    }
  }

  lemma FreshInv(limit: nat)
    ensures Inv(Fresh(limit))
  {
    forall x: Which
      ensures Total(map[], [], x) == 0
    {
      assert Owned(map[], [], x) == map[];
    }
  }

  /** No token is lost: from an empty daemon, once every connection is gone again, none is out and
      nobody waits. */
  lemma NoTokenLost(limit: nat, es: seq<Event>)
    requires limit >= 1
    requires Feasible(Fresh(limit), es)
    requires Run(Fresh(limit), es).conns == map[]
    ensures Run(Fresh(limit), es).pool == Fresh(limit).pool
  {
    FreshInv(limit);
    AdmissionSafety(Fresh(limit), es);
    LimitFixed(Fresh(limit), es);
    var d := Run(Fresh(limit), es);
    forall b: Build
      ensures b !in d.pool.held
    {
      assert Owned(map[], d.pool.waiting, One(b)) == map[];
      assert Of(d.pool.held, One(b)) == 0;
    }
    assert d.pool.held == map[];
    assert d.pool.waiting == [];
  }

  lemma {:induction false} GrantLimit(p: Pool)
    ensures Grant(p).limit == p.limit
    decreases |p.waiting|
  {
    if CanGrant(p) {
      GrantLimit(GrantOne(p));
    }
  }

  lemma LimitStays(d: Daemon, e: Event)
    requires Enabled(d, e)
    ensures Apply(d, e).pool.limit == d.pool.limit
  {
    match e {
      case Return(c) => GrantLimit(Slots.Return(d.pool, d.conns[c].pc.build));
      case DrainOne(c, b) => GrantLimit(Slots.Return(d.pool, b));
      case _ =>
    }
  }

  lemma {:induction false} LimitFixed(d: Daemon, es: seq<Event>)
    requires Feasible(d, es)
    ensures Run(d, es).pool.limit == d.pool.limit
    decreases |es|
  {
    if es != [] {
      LimitStays(d, es[0]);
      LimitFixed(Apply(d, es[0]), es[1..]);
    }
  }
}
