/** Everything that takes slots on one host: compiler wrappers, and the brokers that re-export slots
    as tokens of a semaphore ghc waits on (broker.cc), over the daemon of `Admission`. A broker's
    Tick is split at every semaphore operation, so that ghc may take or post between any two. */
module Host {
  import opened Sums
  import opened Slots
  import opened Admission

  /** Where a broker is in Tick or in its destructor. */
  datatype Phase =
    | Between                // no Tick running
    | Drain(idle: nat)       // in the TryWait loop
    | Trim(inUse: nat)       // about to resize `held_`
    | Order(inUse: nat)      // about to poll the token source
    | Spare(inUse: nat)      // about to post the spare
    | Stop(taken: nat)       // in the destructor's TryWait loop
    | Stopped

  /** `tokens` are the connections behind `held_`, `order` the pending one; `sem` is the semaphore's
      count, `running` what ghc took from it, `extra` the count it was created with. */
  datatype Broker = Broker(build: Build, tokens: seq<nat>, order: seq<nat>, sem: nat, running: nat, extra: nat,
                           phase: Phase)

  /** Whose client end a connection is. A connection without an owner has been closed by its client. */
  datatype Owner = Client(jobs: nat) | Token(k: nat) | Pending(k: nat)

  datatype Host = Host(daemon: Daemon, owner: map<nat, Owner>, brokers: map<nat, Broker>)

  datatype Step =
    | Serve(e: Event)
    | OpenClient(c: nat)
    | StartJob(c: nat)
    | EndJob(c: nat)
    | CloseClient(c: nat)
    | StartBroker(k: nat, build: Build, extra: nat)
    | GhcTake(k: nat)
    | GhcPost(k: nat)
    | TickStart(k: nat)
    | TryWaitHit(k: nat)
    | TryWaitMiss(k: nat)
    | Resize(k: nat)
    | CancelOrder(k: nat)          // a spare is there: want == false
    | PlaceOrder(k: nat, c: nat)   // connect and send SLOT
    | TakeOrder(k: nat)            // the daemon answered OK
    | LoseOrder(k: nat)            // the connection failed
    | KeepWaiting(k: nat)          // not readable yet, or no daemon
    | PostSpare(k: nat)
    | StopStart(k: nat)
    | StopHit(k: nat)
    | StopEnd(k: nat)

  function Min(a: nat, b: nat): nat {
    if a < b then a else b
  }

  /** Client discipline at the daemon: only a closed connection hangs up, and DONE is sent for a
      token no compiler runs under, never by a broker. */
  ghost predicate Disciplined(h: Host, e: Event) {
    match e
    case Connect(_) => false
    case HangUp(c) => c !in h.owner
    case DoneRequest(c, b) =>
      c in h.owner ==>
        h.owner[c].Client? && (c in h.daemon.conns && Count(h.daemon.conns[c].held, b) > 0 ==>
                                 h.owner[c].jobs < Of(h.daemon.conns[c].held, All))
    case _ => true
  }


  predicate HasSpare(b: Broker)
    requires b.phase.Order?
  {
    |b.tokens| == b.phase.inUse + 1
  }

  ghost predicate Can(h: Host, s: Step) {
    match s
    case Serve(e) => Enabled(h.daemon, e) && Disciplined(h, e)
    case OpenClient(c) => c !in h.daemon.conns && c !in h.owner
    case StartJob(c) => c in h.owner && h.owner[c].Client? && c in h.daemon.conns
                        && h.owner[c].jobs < Of(h.daemon.conns[c].held, All)
    case EndJob(c) => c in h.owner && h.owner[c].Client? && h.owner[c].jobs > 0
    case CloseClient(c) => c in h.owner && h.owner[c].Client?
    case StartBroker(k, _, _) => k !in h.brokers
    case GhcTake(k) => k in h.brokers && h.brokers[k].sem > 0 && !h.brokers[k].phase.Stop?
                       && !h.brokers[k].phase.Stopped?
    case GhcPost(k) => k in h.brokers && h.brokers[k].running > 0
    case TickStart(k) => k in h.brokers && h.brokers[k].phase.Between?
    case TryWaitHit(k) => k in h.brokers && h.brokers[k].phase.Drain? && h.brokers[k].sem > 0
    case TryWaitMiss(k) => k in h.brokers && h.brokers[k].phase.Drain? && h.brokers[k].sem == 0
    case Resize(k) => k in h.brokers && h.brokers[k].phase.Trim?
    case CancelOrder(k) => k in h.brokers && h.brokers[k].phase.Order? && HasSpare(h.brokers[k])
    case PlaceOrder(k, c) => k in h.brokers && h.brokers[k].phase.Order? && !HasSpare(h.brokers[k])
                             && h.brokers[k].order == [] && c !in h.daemon.conns && c !in h.owner
    case TakeOrder(k) => k in h.brokers && h.brokers[k].phase.Order? && !HasSpare(h.brokers[k])
                         && |h.brokers[k].order| == 1 && h.brokers[k].order[0] in h.daemon.conns
                         && Of(h.daemon.conns[h.brokers[k].order[0]].held, All) >= 1
    case LoseOrder(k) => k in h.brokers && h.brokers[k].phase.Order? && !HasSpare(h.brokers[k])
    case KeepWaiting(k) => k in h.brokers && h.brokers[k].phase.Order? && !HasSpare(h.brokers[k])
    case PostSpare(k) => k in h.brokers && h.brokers[k].phase.Spare?
    case StopStart(k) => k in h.brokers && h.brokers[k].phase.Between? && h.brokers[k].running == 0
    case StopHit(k) => k in h.brokers && h.brokers[k].phase.Stop? && h.brokers[k].sem > 0
                       && h.brokers[k].phase.taken < |h.brokers[k].tokens|
    case StopEnd(k) => k in h.brokers && h.brokers[k].phase.Stop?
                       && (h.brokers[k].sem == 0 || h.brokers[k].phase.taken >= |h.brokers[k].tokens|)
  }

  function SetBroker(h: Host, k: nat, b: Broker): Host {
    h.(brokers := h.brokers[k := b])
  }

  /** The client end of every connection in `cs` is closed. */
  function Drop(owner: map<nat, Owner>, cs: seq<nat>): map<nat, Owner> {
    owner - (set c | c in cs)
  }

  ghost function Do(h: Host, s: Step): Host
    requires Can(h, s)
  {
    match s
    case Serve(e) => h.(daemon := Apply(h.daemon, e))
    case OpenClient(c) => h.(daemon := Apply(h.daemon, Connect(c)), owner := h.owner[c := Client(0)])
    case StartJob(c) => h.(owner := h.owner[c := Client(h.owner[c].jobs + 1)])
    case EndJob(c) => h.(owner := h.owner[c := Client(h.owner[c].jobs - 1)])
    case CloseClient(c) => h.(owner := h.owner - {c})
    case StartBroker(k, build, extra) => SetBroker(h, k, Broker(build, [], [], extra, 0, extra, Between))
    case GhcTake(k) => var b := h.brokers[k]; SetBroker(h, k, b.(sem := b.sem - 1, running := b.running + 1))
    case GhcPost(k) => var b := h.brokers[k]; SetBroker(h, k, b.(sem := b.sem + 1, running := b.running - 1))
    case TickStart(k) => SetBroker(h, k, h.brokers[k].(phase := Drain(0)))
    case TryWaitHit(k) =>
      var b := h.brokers[k]; SetBroker(h, k, b.(sem := b.sem - 1, phase := Drain(b.phase.idle + 1)))
    case TryWaitMiss(k) =>
      var b := h.brokers[k]; SetBroker(h, k, b.(phase := Trim(|b.tokens| - Min(|b.tokens|, b.phase.idle))))
    case Resize(k) =>
      var b := h.brokers[k];
      var keep := Min(|b.tokens|, b.phase.inUse + 1);
      SetBroker(h.(owner := Drop(h.owner, b.tokens[keep..])), k, b.(tokens := b.tokens[..keep],
                                                                    phase := Order(b.phase.inUse)))
    case CancelOrder(k) =>
      var b := h.brokers[k];
      SetBroker(h.(owner := Drop(h.owner, b.order)), k, b.(order := [], phase := Spare(b.phase.inUse)))
    case PlaceOrder(k, c) =>
      SetBroker(Host(Apply(h.daemon, Connect(c)), h.owner[c := Pending(k)], h.brokers), k, h.brokers[k].(order := [c]))
    case TakeOrder(k) =>
      var b := h.brokers[k];
      var c := b.order[0];
      SetBroker(h.(owner := h.owner[c := Token(k)]), k,
                b.(tokens := b.tokens + [c], order := [], phase := Spare(b.phase.inUse)))
    case LoseOrder(k) =>
      var b := h.brokers[k];
      SetBroker(h.(owner := Drop(h.owner, b.order)), k, b.(order := [], phase := Spare(b.phase.inUse)))
    case KeepWaiting(k) => SetBroker(h, k, h.brokers[k].(phase := Spare(h.brokers[k].phase.inUse)))
    case PostSpare(k) =>
      var b := h.brokers[k];
      SetBroker(h, k, b.(sem := b.sem + (if |b.tokens| > b.phase.inUse then 1 else 0), phase := Between))
    case StopStart(k) => SetBroker(h, k, h.brokers[k].(phase := Stop(0)))
    case StopHit(k) => var b := h.brokers[k]; SetBroker(h, k, b.(sem := b.sem - 1, phase := Stop(b.phase.taken + 1)))
    case StopEnd(k) =>
      var b := h.brokers[k];
      SetBroker(h.(owner := Drop(Drop(h.owner, b.tokens), b.order)), k, b.(tokens := [], order := [], phase := Stopped))
  }

  // ---------------------------------------------------------------- the broker's own invariant

  /** What the semaphore and ghc hold beyond the tokens the semaphore was created with. */
  function Demand(b: Broker): int {
    b.sem + b.running
  }

  /** `n` slots back the demand; exactly, if the semaphore started empty. */
  predicate Covers(b: Broker, n: int) {
    Demand(b) <= b.extra + n && (b.extra == 0 ==> Demand(b) == n)
  }

  predicate BrokerInv(b: Broker) {
    match b.phase
    case Between => Covers(b, |b.tokens|)
    case Drain(idle) => Covers(b, |b.tokens| - idle)
    case Trim(inUse) => Covers(b, inUse) && inUse <= |b.tokens|
    case Order(inUse) => Covers(b, inUse) && inUse <= |b.tokens| <= inUse + 1
    case Spare(inUse) => Covers(b, inUse) && inUse <= |b.tokens| <= inUse + 1
    case Stop(taken) => b.running == 0 && taken <= |b.tokens| && Covers(b, |b.tokens| - taken)
    case Stopped => b.running == 0 && Covers(b, 0) && b.tokens == []
  }

  /** Backing: the tokens in the semaphore and those ghc holds are backed by slots the broker holds
      (plus what the semaphore was created with); between ticks, on a semaphore created empty, they
      are equal, and a stopped broker leaves it empty. */
  predicate Backing(b: Broker) {
    && b.sem + b.running <= b.extra + |b.tokens|
    && (b.extra == 0 && b.phase.Between? ==> b.sem + b.running == |b.tokens|)
    && (b.extra == 0 && b.phase.Stopped? ==> b.sem == b.running == 0)
  }

  // ---------------------------------------------------------------- the host's invariant

  ghost predicate NoRepeat(cs: seq<nat>) {
    forall i, j :: 0 <= i < j < |cs| ==> cs[i] != cs[j]
  }

  ghost predicate OwnsTokens(owner: map<nat, Owner>, k: nat, b: Broker) {
    && NoRepeat(b.tokens)
    && (forall i :: 0 <= i < |b.tokens| ==> b.tokens[i] in owner && owner[b.tokens[i]] == Token(k))
    && |b.order| <= 1
    && (forall i :: 0 <= i < |b.order| ==> b.order[i] in owner && owner[b.order[i]] == Pending(k))
  }

  /** A connection whose client end is open is not being drained, and holds at least what its owner
      counts on. */
  ghost predicate Sound(conn: Conn, o: Owner) {
    && !conn.pc.Draining?
    && (o.Client? ==> o.jobs <= Of(conn.held, All))
    && (o.Token? ==> 1 <= Of(conn.held, All))
  }

  ghost predicate OwnersSound(h: Host) {
    forall c :: c in h.owner ==> c in h.daemon.conns && Sound(h.daemon.conns[c], h.owner[c])
  }

  ghost predicate HostInv(h: Host) {
    && Inv(h.daemon)
    && OwnersSound(h)
    && (forall k :: k in h.brokers ==> BrokerInv(h.brokers[k]) && OwnsTokens(h.owner, k, h.brokers[k]))
  }

  lemma ServeKeepsSound(h: Host, e: Event)
    requires HostInv(h) && Enabled(h.daemon, e) && Disciplined(h, e)
    ensures OwnersSound(h.(daemon := Apply(h.daemon, e)))
  {
    match e
    case SlotRequest(_, _) =>
    case Record(c) => OfChanges(h.daemon.conns[c].held, h.daemon.conns[c].pc.build);
    case DoneRequest(c, b) => OfChanges(h.daemon.conns[c].held, b);
    case Return(_) =>
    case HangUp(_) =>
    case DrainOne(_, _) =>
    case Close(_) =>
  }

  /** Broker k dropped some connections of its own; nobody else's tokens are among them. */
  lemma DropKeepsOthers(h: Host, k: nat, cs: seq<nat>)
    requires HostInv(h)
    requires forall i :: 0 <= i < |cs| ==>
             cs[i] in h.owner && (h.owner[cs[i]] == Token(k) || h.owner[cs[i]] == Pending(k))
    ensures forall j :: j in h.brokers && j != k ==> OwnsTokens(Drop(h.owner, cs), j, h.brokers[j])
    ensures OwnersSound(h.(owner := Drop(h.owner, cs)))
  {
    hide Inv;
  }

  /** Broker k changed, its connections did not. */
  lemma SetBrokerKeepsInv(h: Host, k: nat, b: Broker)
    requires HostInv(h) && BrokerInv(b) && OwnsTokens(h.owner, k, b)
    ensures HostInv(SetBroker(h, k, b))
  {
    hide Inv;
  }

  /** Broker k closed some of its connections. */
  lemma DropKeepsInv(h: Host, k: nat, cs: seq<nat>, b: Broker)
    requires HostInv(h) && BrokerInv(b)
    requires forall i :: 0 <= i < |cs| ==>
             cs[i] in h.owner && (h.owner[cs[i]] == Token(k) || h.owner[cs[i]] == Pending(k))
    requires OwnsTokens(Drop(h.owner, cs), k, b)
    ensures HostInv(SetBroker(h.(owner := Drop(h.owner, cs)), k, b))
  {
    hide Inv;
    DropKeepsOthers(h, k, cs);
  }

  ghost predicate IsSemStep(s: Step) {
    s.GhcTake? || s.GhcPost? || s.TickStart? || s.TryWaitHit? || s.TryWaitMiss? || s.KeepWaiting? || s.PostSpare?
    || s.StopStart? || s.StopHit?
  }

  lemma SemStepBroker(h: Host, s: Step)
    requires Can(h, s) && IsSemStep(s) && BrokerInv(h.brokers[s.k])
    ensures BrokerInv(Do(h, s).brokers[s.k])
  {
  }

  lemma SemStepOwns(h: Host, s: Step)
    requires Can(h, s) && IsSemStep(s) && OwnsTokens(h.owner, s.k, h.brokers[s.k])
    ensures OwnsTokens(h.owner, s.k, Do(h, s).brokers[s.k])
  {
    hide NoRepeat;
  }

  /** Semaphore operations and the decisions between them keep the broker's invariant. */
  lemma SemStepKeepsInv(h: Host, s: Step)
    requires HostInv(h) && Can(h, s) && IsSemStep(s)
    ensures HostInv(Do(h, s))
  {
    hide Inv, OwnersSound, BrokerInv, OwnsTokens;
    SemStepBroker(h, s);
    SemStepOwns(h, s);
    SetBrokerKeepsInv(h, s.k, Do(h, s).brokers[s.k]);
  }

  /** Keeping a prefix of distinct tokens and closing the rest. */
  lemma TailDropped(owner: map<nat, Owner>, k: nat, b: Broker, keep: nat)
    requires keep <= |b.tokens| && OwnsTokens(owner, k, b)
    ensures OwnsTokens(Drop(owner, b.tokens[keep..]), k, b.(tokens := b.tokens[..keep]))
    ensures forall i :: 0 <= i < |b.tokens[keep..]| ==>
            b.tokens[keep..][i] in owner && owner[b.tokens[keep..][i]] == Token(k)
  {
    var cs := b.tokens[keep..];
    assert forall j :: 0 <= j < |cs| ==> cs[j] == b.tokens[keep + j];
    forall i | 0 <= i < keep
      ensures b.tokens[i] !in cs
    {
    }
  }

  lemma ResizeKeepsInv(h: Host, k: nat)
    requires HostInv(h) && Can(h, Resize(k))
    ensures HostInv(Do(h, Resize(k)))
  {
    hide Inv, OwnersSound;
    var b := h.brokers[k];
    var keep := Min(|b.tokens|, b.phase.inUse + 1);
    TailDropped(h.owner, k, b, keep);
    DropKeepsInv(h, k, b.tokens[keep..], b.(tokens := b.tokens[..keep], phase := Order(b.phase.inUse)));
  }

  lemma StopEndKeepsInv(h: Host, k: nat)
    requires HostInv(h) && Can(h, StopEnd(k))
    ensures HostInv(Do(h, StopEnd(k)))
  {
    hide Inv, OwnersSound;
    var b := h.brokers[k];
    var cs := b.tokens + b.order;
    DropKeepsInv(h, k, cs, b.(tokens := [], order := [], phase := Stopped));
    assert Drop(Drop(h.owner, b.tokens), b.order) == Drop(h.owner, cs);
  }

  lemma DropOrderKeepsInv(h: Host, k: nat)
    requires HostInv(h) && k in h.brokers && h.brokers[k].phase.Order?
    ensures var b := h.brokers[k];
            HostInv(SetBroker(h.(owner := Drop(h.owner, b.order)), k, b.(order := [], phase := Spare(b.phase.inUse))))
  {
    hide Inv, OwnersSound;
    var b := h.brokers[k];
    DropKeepsInv(h, k, b.order, b.(order := [], phase := Spare(b.phase.inUse)));
  }

  lemma TakeOrderKeepsInv(h: Host, k: nat)
    requires HostInv(h) && Can(h, TakeOrder(k))
    ensures HostInv(Do(h, TakeOrder(k)))
  {
    hide Inv;
    var b := h.brokers[k];
    var c := b.order[0];
    assert c in h.owner && h.owner[c] == Pending(k);
    var owner := h.owner[c := Token(k)];
    var z := Do(h, TakeOrder(k)).brokers[k];
    assert OwnsTokens(owner, k, z);
    forall j | j in h.brokers && j != k
      ensures OwnsTokens(owner, j, h.brokers[j])
    {
    }
  }

  lemma PlaceOrderKeepsInv(h: Host, k: nat, c: nat)
    requires HostInv(h) && Can(h, PlaceOrder(k, c))
    ensures HostInv(Do(h, PlaceOrder(k, c)))
  {
    hide Inv;
    StepKeepsInv(h.daemon, Connect(c));
    var owner := h.owner[c := Pending(k)];
    forall j | j in h.brokers
      ensures OwnsTokens(owner, j, h.brokers[j].(order := if j == k then [c] else h.brokers[j].order))
    {
    }
  }

  lemma StartBrokerKeepsInv(h: Host, k: nat, build: Build, extra: nat)
    requires HostInv(h) && Can(h, StartBroker(k, build, extra))
    ensures HostInv(Do(h, StartBroker(k, build, extra)))
  {
    hide Inv, OwnersSound;
    SetBrokerKeepsInv(h, k, Broker(build, [], [], extra, 0, extra, Between));
  }

  ghost predicate IsClientStep(s: Step) {
    s.OpenClient? || s.StartJob? || s.EndJob? || s.CloseClient?
  }

  /** A client's connection belongs to no broker. */
  lemma ClientStepKeepsInv(h: Host, s: Step)
    requires HostInv(h) && Can(h, s) && IsClientStep(s)
    ensures HostInv(Do(h, s))
  {
    hide Inv;
    var owner := Do(h, s).owner;
    forall j | j in h.brokers
      ensures OwnsTokens(owner, j, h.brokers[j])
    {
    }
    if s.OpenClient? {
      StepKeepsInv(h.daemon, Connect(s.c));
    }
  }

  lemma DoKeepsInv(h: Host, s: Step)
    requires HostInv(h) && Can(h, s)
    ensures HostInv(Do(h, s))
  {
    if IsSemStep(s) {
      SemStepKeepsInv(h, s);
    } else if IsClientStep(s) {
      ClientStepKeepsInv(h, s);
    } else {
      match s
      case Serve(e) =>
        StepKeepsInv(h.daemon, e);
        ServeKeepsSound(h, e);
      case StartBroker(k, build, extra) => StartBrokerKeepsInv(h, k, build, extra);
      case Resize(k) => ResizeKeepsInv(h, k);
      case CancelOrder(k) => DropOrderKeepsInv(h, k);
      case PlaceOrder(k, c) => PlaceOrderKeepsInv(h, k, c);
      case TakeOrder(k) => TakeOrderKeepsInv(h, k);
      case LoseOrder(k) => DropOrderKeepsInv(h, k);
      case StopEnd(k) => StopEndKeepsInv(h, k);
    }
  }

  // ---------------------------------------------------------------- the host limit

  /** Distinct connections holding at least a token each, in lists disjoint from one another and from
      the clients, and clients holding a token per job: together no more than all tokens. */
  ghost predicate Apart(lists: map<nat, seq<nat>>) {
    && (forall k :: k in lists ==> NoRepeat(lists[k]))
    && forall k, l, c :: k in lists && l in lists && c in lists[k] && c in lists[l] ==> k == l
  }

  ghost predicate Holds(lists: map<nat, seq<nat>>, jobs: map<nat, int>, owned: map<nat, int>) {
    && (forall c :: c in owned ==> owned[c] >= 0)
    && (forall c :: c in jobs ==> c in owned && jobs[c] <= owned[c])
    && forall k, c :: k in lists && c in lists[k] ==> c in owned && owned[c] >= 1 && c !in jobs
  }

  lemma HoldsRest(lists: map<nat, seq<nat>>, jobs: map<nat, int>, owned: map<nat, int>, k: nat)
    requires Apart(lists) && Holds(lists, jobs, owned) && k in lists
    ensures Apart(lists - {k}) && Holds(lists - {k}, jobs, owned - (set c | c in lists[k]))
  {
  }

  lemma {:induction false} Spread(lists: map<nat, seq<nat>>, jobs: map<nat, int>, owned: map<nat, int>)
    requires Apart(lists) && Holds(lists, jobs, owned)
    ensures Sum(Sizes(lists)) + Sum(jobs) <= Sum(owned)
    decreases |lists|
  {
    if lists == map[] {
      assert Sizes(lists) == map[];
      Clients(jobs, owned);
    } else {
      var k :| k in lists;
      var gone := set c | c in lists[k];
      Listed(lists[k], owned);
      HoldsRest(lists, jobs, owned, k);
      hide Holds, Apart;
      Spread(lists - {k}, jobs, owned - gone);
      SumRemove(Sizes(lists), k);
      assert Sizes(lists) - {k} == Sizes(lists - {k});
    }
  }

  function Sizes(lists: map<nat, seq<nat>>): map<nat, int> {
    map k | k in lists :: |lists[k]|
  }

  lemma {:induction false} Listed(cs: seq<nat>, owned: map<nat, int>)
    requires NoRepeat(cs)
    requires forall c :: c in cs ==> c in owned && owned[c] >= 1
    ensures |cs| + Sum(owned - (set c | c in cs)) <= Sum(owned)
    decreases |cs|
  {
    if cs == [] {
      assert owned - (set c | c in cs) == owned;
    } else {
      SumRemove(owned, cs[0]);
      assert forall c :: c in cs[1..] ==> c != cs[0];
      Listed(cs[1..], owned - {cs[0]});
      assert owned - (set c | c in cs) == owned - {cs[0]} - (set c | c in cs[1..]);
    }
  }

  lemma {:induction false} Clients(jobs: map<nat, int>, owned: map<nat, int>)
    requires forall c :: c in owned ==> owned[c] >= 0
    requires forall c :: c in jobs ==> c in owned && jobs[c] <= owned[c]
    ensures Sum(jobs) <= Sum(owned)
    decreases |jobs|
  {
    if jobs == map[] {
      SumNonNegative(owned);
    } else {
      var c :| c in jobs;
      SumRemove(jobs, c);
      SumRemove(owned, c);
      Clients(jobs - {c}, owned - {c});
    }
  }

  function Jobs(owner: map<nat, Owner>): map<nat, int> {
    map c | c in owner && owner[c].Client? :: owner[c].jobs
  }

  function Capabilities(brokers: map<nat, Broker>): map<nat, int> {
    map k | k in brokers :: brokers[k].running
  }

  function Extras(brokers: map<nat, Broker>): map<nat, int> {
    map k | k in brokers :: brokers[k].extra
  }

  /** In every state the invariant allows, the compilers running under a slot and the extra
      capabilities of every ghc are together within the host's limit, beyond only what semaphores
      were created with. */
  lemma WithinLimit(h: Host)
    requires HostInv(h)
    ensures Sum(Jobs(h.owner)) + Sum(Capabilities(h.brokers)) <= h.daemon.pool.limit + Sum(Extras(h.brokers))
  {
    var d := h.daemon;
    TokensHeld(h);
    Spread(Tokens(h.brokers), Jobs(h.owner), Owned(d.conns, d.pool.waiting, All));
    assert Of(d.pool.held, All) == Total(d.conns, d.pool.waiting, All);
    forall k | k in h.brokers
      ensures h.brokers[k].running <= |h.brokers[k].tokens| + h.brokers[k].extra
    {
      assert BrokerInv(h.brokers[k]) ==> Backing(h.brokers[k]);
    }
    SumCovered(Capabilities(h.brokers), Sizes(Tokens(h.brokers)), Extras(h.brokers));
  }

  function Tokens(brokers: map<nat, Broker>): map<nat, seq<nat>> {
    map k | k in brokers :: brokers[k].tokens
  }

  lemma TokensHeld(h: Host)
    requires HostInv(h)
    ensures Apart(Tokens(h.brokers))
    ensures Holds(Tokens(h.brokers), Jobs(h.owner), Owned(h.daemon.conns, h.daemon.pool.waiting, All))
  {
    OwnedNonNegative(h.daemon, All);
    forall k, c | k in h.brokers && c in h.brokers[k].tokens
      ensures c in h.owner && h.owner[c] == Token(k)
    {
      assert OwnsTokens(h.owner, k, h.brokers[k]);
    }
  }

  // ---------------------------------------------------------------- whole runs

  ghost predicate Happens(h: Host, steps: seq<Step>)
    decreases |steps|
  {
    steps == [] || (Can(h, steps[0]) && Happens(Do(h, steps[0]), steps[1..]))
  }

  ghost function After(h: Host, steps: seq<Step>): Host
    requires Happens(h, steps)
    decreases |steps|
  {
    if steps == [] then h else After(Do(h, steps[0]), steps[1..])
  }

  /** After any interleaving whatsoever, down to single semaphore operations: compilers plus ghc's extra capabilities
      stay within the limit (plus the tokens semaphores were created with), and every broker's
      semaphore is backed. */
  lemma {:induction false} HostSafety(h: Host, steps: seq<Step>)
    requires HostInv(h) && Happens(h, steps)
    ensures HostInv(After(h, steps))
    ensures var z := After(h, steps);
            && Sum(Jobs(z.owner)) + Sum(Capabilities(z.brokers)) <= z.daemon.pool.limit + Sum(Extras(z.brokers))
            && forall k :: k in z.brokers ==> Backing(z.brokers[k])
    decreases |steps|
  {
    if steps == [] {
      WithinLimit(h);
    } else {
      DoKeepsInv(h, steps[0]);
      HostSafety(Do(h, steps[0]), steps[1..]);
    }
  }

  lemma DoLimit(h: Host, s: Step)
    requires Can(h, s)
    ensures Do(h, s).daemon.pool.limit == h.daemon.pool.limit
  {
    hide Apply, Disciplined, Of, HasSpare;
    match s {
      case Serve(e) => LimitStays(h.daemon, e);
      case OpenClient(c) => LimitStays(h.daemon, Connect(c));
      case PlaceOrder(_, c) => LimitStays(h.daemon, Connect(c));
      case _ =>
    }
  }

  lemma {:induction false} HostLimit(h: Host, steps: seq<Step>)
    requires Happens(h, steps)
    ensures After(h, steps).daemon.pool.limit == h.daemon.pool.limit
    decreases |steps|
  {
    hide Can, Do;
    if steps != [] {
      DoLimit(h, steps[0]);
      HostLimit(Do(h, steps[0]), steps[1..]);
    }
  }

  lemma IdleHostInv(limit: nat)
    ensures HostInv(Host(Fresh(limit), map[], map[]))
  {
    FreshInv(limit);
  }

  /** A host that starts idle with a limit: whatever happens, that limit holds, and where every semaphore
      was created empty nothing is added to it. */
  lemma FromIdle(limit: nat, steps: seq<Step>)
    requires Happens(Host(Fresh(limit), map[], map[]), steps)
    ensures var z := After(Host(Fresh(limit), map[], map[]), steps);
            && Sum(Jobs(z.owner)) + Sum(Capabilities(z.brokers)) <= limit + Sum(Extras(z.brokers))
            && ((forall k :: k in z.brokers ==> z.brokers[k].extra == 0) ==>
                  Sum(Jobs(z.owner)) + Sum(Capabilities(z.brokers)) <= limit)
  {
    hide HostInv, Happens, After, Jobs, Capabilities, Backing;
    var idle := Host(Fresh(limit), map[], map[]);
    IdleHostInv(limit);
    HostSafety(idle, steps);
    HostLimit(idle, steps);
    var z := After(idle, steps);
    if forall k :: k in z.brokers ==> z.brokers[k].extra == 0 {
      SumZero(Extras(z.brokers));
    }
  }
}
