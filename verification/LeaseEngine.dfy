/**
 The DHCP lease engine of one scope as a machine over whole runs
 (src/dhcp/server.rs `handle_v4`/`handle_v6`, the lease table of src/db.rs, the sweeper of src/main.rs).

 The table is a map because rows are unique per (scope, ip). Row identifiers are written in lower case.
 The order in which the database lists rows is left open: the step function is a function of the table
 alone, and `ListingDoesNotMatter` proves that the allocation the server computes from any listing of a
 reachable table is the one used here.
 */
module LeaseEngine {
  import opened Wrappers
  import opened Text
  import opened LeaseAllocation

  const OFFER_HOLD_SECS: int := 120

  datatype Row = Row(identifier: string, expires: int, state: LeaseState)

  type Table = map<IpAddr, Row>

  datatype Config = Config(scope: Scope, reservations: seq<Reservation>)

  /** What a client asks; `ciaddr` 0 is the unspecified address. */
  datatype Request =
    | Discover(requested: Option<U32>)
    | Request(wanted: Option<U32>, ciaddr: U32)
    | Release
    | Decline
    | Inform
    | Solicit6
    | Request6 // REQUEST, RENEW and REBIND are served alike
    | Release6 // RELEASE and DECLINE are served alike

  /** `Ignored` is a datagram the server drops: malformed, without a type, or of a type only servers send. */
  datatype Action = Message(cid: string, request: Request) | Sweep | AdminDelete(ip: IpAddr) | Ignored

  datatype Event = Event(now: int, action: Action)

  /** `Offer` is also the v6 ADVERTISE, `Ack` also the v6 REPLY. */
  datatype Reply = Silent | Offer(offered: IpAddr) | Ack(granted: IpAddr) | Nak | InformAck

  predicate Holds(row: Row, now: int) {
    (row.state.Active? || row.state.Offered?) && now < row.expires
  }

  predicate HeldBy(t: Table, a: IpAddr, cid: string, now: int) {
    a in t && Holds(t[a], now) && t[a].identifier == Lower(cid)
  }

  function OfferHold(cfg: Config): int {
    Min(cfg.scope.leaseSecs, OFFER_HOLD_SECS)
  }

  // ----- The allocation as a function of the table -----

  function AsLease(a: IpAddr, row: Row): Lease {
    Lease(Some(a), row.identifier, Some(row.expires), row.state)
  }

  ghost function TableUsed(cfg: Config, t: Table, cid: string, now: int): set<U128> {
    ReservedNums(cfg.scope.family, cfg.reservations)
    + set a | a in t && HeldByOther(cfg.scope.family, cid, now, AsLease(a, t[a])) :: a.Num()
  }

  ghost predicate Keeps(cfg: Config, t: Table, cid: string, now: int, a: IpAddr) {
    && a in t && ValidRange(cfg.scope)
    && OwnUsable(cfg.scope, TableUsed(cfg, t, cid, now), cid, now, AsLease(a, t[a]))
  }

  ghost function TableOwn(cfg: Config, t: Table, cid: string, now: int): Option<IpAddr> {
    if exists a :: Keeps(cfg, t, cid, now, a) then
      var a :| Keeps(cfg, t, cid, now, a);
      Some(a)
    else None
  }

  ghost function Choose(cfg: Config, t: Table, cid: string, requested: Option<IpAddr>, now: int): Option<IpAddr> {
    Decide(cfg.scope, ReservedFor(cfg.reservations, cid), TableOwn(cfg, t, cid, now),
           TableUsed(cfg, t, cid, now), requested)
  }

  // ----- One step -----

  function Upsert(t: Table, a: IpAddr, cid: string, expires: int, state: LeaseState): Table {
    t[a := Row(Lower(cid), expires, state)]
  }

  function DeleteRowsOf(t: Table, cid: string): Table {
    map a | a in t && !SameId(t[a].identifier, cid) :: t[a]
  }

  function DeclineRowsOf(t: Table, cid: string): Table {
    map a | a in t ::
      if SameId(t[a].identifier, cid) then Row(Lower(t[a].identifier), t[a].expires, Declined) else t[a]
  }

  function AsV4(n: Option<U32>): Option<IpAddr> {
    if n.None? then None else Some(V4Addr(n.value))
  }

  /** The address a REQUEST insists on: option 50, else a non-zero ciaddr. */
  function Desired(wanted: Option<U32>, ciaddr: U32): Option<IpAddr> {
    if wanted.Some? then Some(V4Addr(wanted.value))
    else if ciaddr != 0 then Some(V4Addr(ciaddr)) else None
  }

  /** The address a message puts forward to the allocation. */
  function RequestedBy(q: Request): Option<IpAddr> {
    match q
    case Discover(n) => AsV4(n)
    case Request(n, _) => AsV4(n)
    case _ => None
  }

  /** `handle_v4`, given the allocation result `r`. */
  function HandleV4(cfg: Config, t: Table, cid: string, q: Request, now: int, r: Option<IpAddr>): (Table, Reply) {
    match q
    case Discover(_) =>
      if r.Some? && r.value.V4Addr? then
        (Upsert(t, r.value, cid, now + OfferHold(cfg), Offered), Offer(r.value))
      else (t, Silent)
    case Request(wanted, ciaddr) =>
      var desired := Desired(wanted, ciaddr);
      if r.Some? && r.value.V4Addr? && (desired.None? || desired == r) then
        (Upsert(t, r.value, cid, now + cfg.scope.leaseSecs, Active), Ack(r.value))
      else (t, Nak)
    case Release => (DeleteRowsOf(t, cid), Silent)
    case Decline => (DeclineRowsOf(t, cid), Silent)
    case Inform => (t, InformAck)
    case _ => (t, Silent)
  }

  /** `handle_v6`, given the allocation result `r`. */
  function HandleV6(cfg: Config, t: Table, cid: string, q: Request, now: int, r: Option<IpAddr>): (Table, Reply) {
    match q
    case Solicit6 =>
      if r.Some? && r.value.V6Addr? then
        (Upsert(t, r.value, cid, now + OfferHold(cfg), Offered), Offer(r.value))
      else (t, Silent)
    case Request6 =>
      if r.Some? && r.value.V6Addr? then
        (Upsert(t, r.value, cid, now + cfg.scope.leaseSecs, Active), Ack(r.value))
      else (t, Silent)
    case Release6 => (DeleteRowsOf(t, cid), Silent)
    case _ => (t, Silent)
  }

  function Handle(cfg: Config, t: Table, cid: string, q: Request, now: int, r: Option<IpAddr>): (Table, Reply) {
    if cfg.scope.family.V4? then HandleV4(cfg, t, cid, q, now, r) else HandleV6(cfg, t, cid, q, now, r)
  }

  function Swept(t: Table, now: int): Table {
    map a | a in t && now <= t[a].expires :: t[a]
  }

  ghost function Step(cfg: Config, t: Table, ev: Event): (Table, Reply) {
    match ev.action
    case Message(cid, q) =>
      Handle(cfg, t, cid, q, ev.now, Choose(cfg, t, cid, RequestedBy(q), ev.now))
    case Sweep => (Swept(t, ev.now), Silent)
    case AdminDelete(a) => (t - {a}, Silent)
    case Ignored => (t, Silent)
  }

  // ----- Runs -----

  /** The table after the first `k` events of a run that starts with no leases. */
  ghost function After(cfg: Config, evs: seq<Event>, k: nat): Table
    requires k <= |evs|
  {
    if k == 0 then map[] else Step(cfg, After(cfg, evs, k - 1), evs[k - 1]).0
  }

  ghost function ReplyAt(cfg: Config, evs: seq<Event>, k: nat): Reply
    requires k < |evs|
  {
    Step(cfg, After(cfg, evs, k), evs[k]).1
  }

  ghost predicate ClockNeverRunsBack(evs: seq<Event>) {
    forall i, j :: 0 <= i <= j < |evs| ==> evs[i].now <= evs[j].now
  }

  /** Two different clients have the same address of the scope's family reserved for them. */
  ghost predicate ReservationClash(cfg: Config, c: string, d: string) {
    && ReservedFor(cfg.reservations, c).Some?
    && ReservedFor(cfg.reservations, c).value.Family() == cfg.scope.family
    && ReservedFor(cfg.reservations, c) == ReservedFor(cfg.reservations, d)
    && !SameId(c, d)
  }

  /** No other client is led to this client's reservation; holds of every client without one. */
  ghost predicate SoleOwner(cfg: Config, c: string) {
    forall d: string :: !ReservationClash(cfg, c, d)
  }

  ghost predicate ReservationsExclusive(cfg: Config) {
    forall c: string :: SoleOwner(cfg, c)
  }

  function GrantOf(r: Reply): Option<IpAddr> {
    match r
    case Offer(a) => Some(a)
    case Ack(a) => Some(a)
    case _ => None
  }

  predicate IsBy(ev: Event, cid: string) {
    ev.action.Message? && SameId(ev.action.cid, cid)
  }

  predicate GivesBack(q: Request) {
    q.Release? || q.Decline? || q.Release6?
  }

  // ----- Invariants of the reachable tables -----

  /** The client may be given `a`: its own reservation, or an unreserved pool address if it has none. */
  ghost predicate Eligible(cfg: Config, cid: string, a: IpAddr) {
    && a.Family() == cfg.scope.family
    && var reserved := ReservedFor(cfg.reservations, cid);
       if reserved.Some? then reserved.value == a
       else && ValidRange(cfg.scope) && InPool(cfg.scope, a.Num())
            && a.Num() !in ReservedNums(cfg.scope.family, cfg.reservations)
  }

  ghost predicate Inv(cfg: Config, t: Table, now: int) {
    && (forall a :: a in t ==> Lower(t[a].identifier) == t[a].identifier)
    && (forall a :: a in t && Holds(t[a], now) ==> Eligible(cfg, t[a].identifier, a))
    && (forall a, b :: a in t && b in t && Holds(t[a], now) && Holds(t[b], now) ==>
          (t[a].identifier == t[b].identifier ==> a == b))
  }

  lemma ReservedForIgnoresCase(rs: seq<Reservation>, c: string, d: string)
    requires SameId(c, d)
    ensures ReservedFor(rs, c) == ReservedFor(rs, d)
  {
  }

  /**
   A client that already holds an address is always given that one. Nobody is given another's, unless both are
   led to the same reservation.
   */
  lemma ChoiceIsSafe(cfg: Config, t: Table, cid: string, requested: Option<IpAddr>, now: int)
    requires Inv(cfg, t, now)
    ensures var r := Choose(cfg, t, cid, requested, now);
            r.Some? && r.value.Family() == cfg.scope.family ==>
              && Eligible(cfg, cid, r.value)
              && (r.value in t && Holds(t[r.value], now) ==>
                    t[r.value].identifier == Lower(cid) || ReservationClash(cfg, t[r.value].identifier, cid))
    ensures forall b :: HeldBy(t, b, cid, now) ==> Choose(cfg, t, cid, requested, now) == Some(b)
  {
    var r := Choose(cfg, t, cid, requested, now);
    if r.Some? && r.value.Family() == cfg.scope.family {
      ChoiceIsEligible(cfg, t, cid, requested, now);
      ChoiceIsNotStolen(cfg, t, cid, requested, now);
    }
    forall b | HeldBy(t, b, cid, now) ensures r == Some(b) {
      OwnLeaseIsKept(cfg, t, cid, requested, now, b);
    }
  }

  lemma ChoiceIsEligible(cfg: Config, t: Table, cid: string, requested: Option<IpAddr>, now: int)
    ensures var r := Choose(cfg, t, cid, requested, now);
            r.Some? && r.value.Family() == cfg.scope.family ==> Eligible(cfg, cid, r.value)
  {
    if ReservedFor(cfg.reservations, cid).None? && ValidRange(cfg.scope) {
      var free := LowestFree(TableUsed(cfg, t, cid, now), cfg.scope.rangeStart.value.Num(), ScanLimit(cfg.scope));
      if free.Some? {
        ScannedNumberKeepsItsValue(cfg.scope, free.value);
      }
    }
  }

  lemma ChoiceIsNotStolen(cfg: Config, t: Table, cid: string, requested: Option<IpAddr>, now: int)
    requires Inv(cfg, t, now)
    ensures var r := Choose(cfg, t, cid, requested, now);
            r.Some? && r.value.Family() == cfg.scope.family && r.value in t && Holds(t[r.value], now)
            ==> t[r.value].identifier == Lower(cid) || ReservationClash(cfg, t[r.value].identifier, cid)
  {
    var r := Choose(cfg, t, cid, requested, now);
    if r.Some? && r.value.Family() == cfg.scope.family && r.value in t && Holds(t[r.value], now) {
      var a := r.value;
      var d := t[a].identifier;
      if ReservedFor(cfg.reservations, cid).Some? {
        var x :| x in cfg.reservations && SameId(x.identifier, cid) && x.ip == Some(a);
        assert a.Num() in ReservedNums(cfg.scope.family, cfg.reservations);
        assert ReservedFor(cfg.reservations, d) == Some(a);
      } else if !SameId(d, cid) {
        assert HeldByOther(cfg.scope.family, cid, now, AsLease(a, t[a]));
        assert a.Num() in TableUsed(cfg, t, cid, now);
        var free := LowestFree(TableUsed(cfg, t, cid, now), cfg.scope.rangeStart.value.Num(), ScanLimit(cfg.scope));
        if free.Some? {
          ScannedNumberKeepsItsValue(cfg.scope, free.value);
        }
        assert false;
      }
    }
  }

  lemma OwnLeaseIsKept(cfg: Config, t: Table, cid: string, requested: Option<IpAddr>, now: int, b: IpAddr)
    requires Inv(cfg, t, now) && HeldBy(t, b, cid, now)
    ensures Choose(cfg, t, cid, requested, now) == Some(b)
  {
    LowerIsIdempotent(cid);
    ReservedForIgnoresCase(cfg.reservations, cid, t[b].identifier);
    assert Eligible(cfg, t[b].identifier, b);
    if ReservedFor(cfg.reservations, cid).None? {
      var used := TableUsed(cfg, t, cid, now);
      forall a | a in t && HeldByOther(cfg.scope.family, cid, now, AsLease(a, t[a])) ensures a.Num() != b.Num() {
        assert a != b;
      }
      assert Keeps(cfg, t, cid, now, b);
      forall a | Keeps(cfg, t, cid, now, a) ensures a == b {
        assert t[a].identifier == t[b].identifier;
      }
    }
  }

  lemma InvSurvivesTime(cfg: Config, t: Table, now: int, later: int)
    requires Inv(cfg, t, now) && now <= later
    ensures Inv(cfg, t, later)
  {
  }

  lemma InvSurvivesUpsert(cfg: Config, t: Table, a: IpAddr, cid: string, expires: int, state: LeaseState, now: int)
    requires Inv(cfg, t, now) && Eligible(cfg, cid, a)
    requires forall b :: HeldBy(t, b, cid, now) ==> a == b
    ensures Inv(cfg, Upsert(t, a, cid, expires, state), now)
  {
    LowerIsIdempotent(cid);
    ReservedForIgnoresCase(cfg.reservations, cid, Lower(cid));
    forall b | b in t && Holds(t[b], now) && t[b].identifier == Lower(cid) ensures a == b {
      assert HeldBy(t, b, cid, now);
    }
  }

  /** A message either grants the chosen address, changes only the sender's rows, or changes nothing. */
  ghost predicate MessageEffect(cfg: Config, t: Table, cid: string, q: Request, now: int, r: Option<IpAddr>,
                                t': Table, reply: Reply)
  {
    || (t' == t && GrantOf(reply).None?)
    || (t' == DeleteRowsOf(t, cid) && GrantOf(reply).None? && GivesBack(q))
    || (t' == DeclineRowsOf(t, cid) && GrantOf(reply).None? && GivesBack(q))
    || (&& r.Some? && r.value.Family() == cfg.scope.family && GrantOf(reply) == r
        && ((&& reply.Offer? && (q.Discover? || q.Solicit6?)
             && t' == Upsert(t, r.value, cid, now + OfferHold(cfg), Offered))
            || (&& reply.Ack? && (q.Request? || q.Request6?)
                && t' == Upsert(t, r.value, cid, now + cfg.scope.leaseSecs, Active))))
  }

  lemma HandlingHasAnEffect(cfg: Config, t: Table, cid: string, q: Request, now: int)
    ensures var r := Choose(cfg, t, cid, RequestedBy(q), now);
            MessageEffect(cfg, t, cid, q, now, r, Handle(cfg, t, cid, q, now, r).0, Handle(cfg, t, cid, q, now, r).1)
  {
    HandleEffect(cfg, t, cid, q, now, Choose(cfg, t, cid, RequestedBy(q), now));
  }

  lemma HandleEffect(cfg: Config, t: Table, cid: string, q: Request, now: int, r: Option<IpAddr>)
    ensures MessageEffect(cfg, t, cid, q, now, r, Handle(cfg, t, cid, q, now, r).0, Handle(cfg, t, cid, q, now, r).1)
  {
  }

  /** Every step keeps the invariant. */
  lemma StepKeepsInv(cfg: Config, t: Table, ev: Event)
    requires Inv(cfg, t, ev.now)
    ensures Inv(cfg, Step(cfg, t, ev).0, ev.now)
  {
    if ev.action.Message? {
      HandlingHasAnEffect(cfg, t, ev.action.cid, ev.action.request, ev.now);
      MessageKeepsInv(cfg, t, ev.action.cid, ev.action.request, ev.now, Step(cfg, t, ev).0, Step(cfg, t, ev).1);
    }
  }

  lemma MessageKeepsInv(cfg: Config, t: Table, cid: string, q: Request, now: int, t': Table, reply: Reply)
    requires Inv(cfg, t, now)
    requires MessageEffect(cfg, t, cid, q, now, Choose(cfg, t, cid, RequestedBy(q), now), t', reply)
    ensures Inv(cfg, t', now)
  {
    if GrantOf(reply).Some? {
      GrantKeepsInv(cfg, t, cid, RequestedBy(q), now, t'[GrantOf(reply).value].expires, t'[GrantOf(reply).value].state);
    } else if t' == DeleteRowsOf(t, cid) {
      DeleteKeepsInv(cfg, t, cid, now);
    } else if t' == DeclineRowsOf(t, cid) {
      DeclineKeepsInv(cfg, t, cid, now);
    }
  }

  lemma GrantKeepsInv(cfg: Config, t: Table, cid: string, requested: Option<IpAddr>, now: int, expires: int, state: LeaseState)
    requires Inv(cfg, t, now)
    requires Choose(cfg, t, cid, requested, now).Some?
    requires Choose(cfg, t, cid, requested, now).value.Family() == cfg.scope.family
    ensures Inv(cfg, Upsert(t, Choose(cfg, t, cid, requested, now).value, cid, expires, state), now)
  {
    ChoiceIsSafe(cfg, t, cid, requested, now);
    InvSurvivesUpsert(cfg, t, Choose(cfg, t, cid, requested, now).value, cid, expires, state, now);
  }

  lemma DeleteKeepsInv(cfg: Config, t: Table, cid: string, now: int)
    requires Inv(cfg, t, now)
    ensures Inv(cfg, DeleteRowsOf(t, cid), now)
  {
  }

  lemma DeclineKeepsInv(cfg: Config, t: Table, cid: string, now: int)
    requires Inv(cfg, t, now)
    ensures Inv(cfg, DeclineRowsOf(t, cid), now)
  {
    forall a | a in t ensures Lower(Lower(t[a].identifier)) == Lower(t[a].identifier) {
      LowerIsIdempotent(t[a].identifier);
    }
  }

  lemma {:induction false} ReachableTablesAreGood(cfg: Config, evs: seq<Event>, k: nat, now: int)
    requires ClockNeverRunsBack(evs)
    requires k <= |evs| && (k > 0 ==> evs[k - 1].now <= now)
    ensures Inv(cfg, After(cfg, evs, k), now)
  {
    if k > 0 {
      ReachableTablesAreGood(cfg, evs, k - 1, evs[k - 1].now);
      StepKeepsInv(cfg, After(cfg, evs, k - 1), evs[k - 1]);
      InvSurvivesTime(cfg, After(cfg, evs, k), evs[k - 1].now, now);
    }
  }

  // ----- Rows held by somebody else are never touched -----

  /** No message, sweep or foreign client ever changes a row that another client currently holds. */
  lemma HeldRowsAreUntouched(cfg: Config, t: Table, ev: Event, owner: string, a: IpAddr)
    requires Inv(cfg, t, ev.now) && SoleOwner(cfg, owner)
    requires HeldBy(t, a, owner, ev.now) && !IsBy(ev, owner) && ev.action != AdminDelete(a)
    ensures var (t', r) := Step(cfg, t, ev);
            a in t' && t'[a] == t[a] && GrantOf(r) != Some(a)
  {
    if ev.action.Message? {
      HandlingHasAnEffect(cfg, t, ev.action.cid, ev.action.request, ev.now);
      ForeignMessageKeepsRow(cfg, t, ev.action.cid, ev.action.request, ev.now,
                             Step(cfg, t, ev).0, Step(cfg, t, ev).1, owner, a);
    }
  }

  lemma ForeignMessageKeepsRow(cfg: Config, t: Table, cid: string, q: Request, now: int, t': Table, reply: Reply,
                               owner: string, a: IpAddr)
    requires Inv(cfg, t, now) && SoleOwner(cfg, owner)
    requires MessageEffect(cfg, t, cid, q, now, Choose(cfg, t, cid, RequestedBy(q), now), t', reply)
    requires HeldBy(t, a, owner, now) && !SameId(cid, owner)
    ensures a in t' && t'[a] == t[a] && GrantOf(reply) != Some(a)
  {
    LowerIsIdempotent(owner);
    ReservedForIgnoresCase(cfg.reservations, owner, t[a].identifier);
    assert !ReservationClash(cfg, owner, cid);
    if GrantOf(reply).Some? {
      ChoiceIsNotStolen(cfg, t, cid, RequestedBy(q), now);
    }
  }

  /** The owner's own messages keep its address, except giving it back; a DISCOVER resets the deadline. */
  lemma OwnStepsKeepTheHold(cfg: Config, t: Table, ev: Event, owner: string, a: IpAddr)
    requires Inv(cfg, t, ev.now)
    requires HeldBy(t, a, owner, ev.now) && IsBy(ev, owner) && !GivesBack(ev.action.request)
    ensures var t' := Step(cfg, t, ev).0;
            && a in t' && t'[a].identifier == Lower(owner)
            && (t'[a] == t[a]
                || (t'[a].state.Offered? && t'[a].expires == ev.now + OfferHold(cfg)
                    && (ev.action.request.Discover? || ev.action.request.Solicit6?))
                || (t'[a].state.Active? && t'[a].expires == ev.now + cfg.scope.leaseSecs))
  {
    ChoiceIsSafe(cfg, t, ev.action.cid, RequestedBy(ev.action.request), ev.now);
    assert HeldBy(t, a, ev.action.cid, ev.now);
  }

  /**
   An event cannot end the owner's hold on `a` before `deadline`: it is not the owner giving its address
   back, not an administrator deleting the row, and a DISCOVER of the owner still reaches the deadline.
   */
  ghost predicate Harmless(cfg: Config, ev: Event, owner: string, a: IpAddr, deadline: int) {
    && ev.now < deadline
    && ev.action != AdminDelete(a)
    && (IsBy(ev, owner) ==>
          && !GivesBack(ev.action.request)
          && (ev.action.request.Discover? || ev.action.request.Solicit6? ==> deadline <= ev.now + OfferHold(cfg))
          && deadline <= ev.now + cfg.scope.leaseSecs)
  }

  ghost predicate HeldUntil(t: Table, a: IpAddr, owner: string, deadline: int) {
    a in t && (t[a].state.Active? || t[a].state.Offered?) && t[a].identifier == Lower(owner) && deadline <= t[a].expires
  }

  /** One harmless event keeps the hold. */
  lemma HoldSurvivesStep(cfg: Config, t: Table, ev: Event, owner: string, a: IpAddr, deadline: int)
    requires Inv(cfg, t, ev.now) && SoleOwner(cfg, owner)
    requires HeldUntil(t, a, owner, deadline) && Harmless(cfg, ev, owner, a, deadline)
    ensures HeldUntil(Step(cfg, t, ev).0, a, owner, deadline)
  {
    if IsBy(ev, owner) {
      OwnStepsKeepTheHold(cfg, t, ev, owner, a);
    } else {
      HeldRowsAreUntouched(cfg, t, ev, owner, a);
    }
  }

  lemma {:induction false} HoldPersists(cfg: Config, evs: seq<Event>, i: nat, j: nat, owner: string, a: IpAddr, deadline: int)
    requires ClockNeverRunsBack(evs) && SoleOwner(cfg, owner)
    requires i <= j <= |evs|
    requires HeldUntil(After(cfg, evs, i), a, owner, deadline)
    requires forall k :: i <= k < j ==> Harmless(cfg, evs[k], owner, a, deadline)
    ensures HeldUntil(After(cfg, evs, j), a, owner, deadline)
  {
    if i < j {
      HoldPersists(cfg, evs, i, j - 1, owner, a, deadline);
      HoldSurvivesEvent(cfg, evs, j - 1, owner, a, deadline);
    }
  }

  lemma HoldSurvivesEvent(cfg: Config, evs: seq<Event>, k: nat, owner: string, a: IpAddr, deadline: int)
    requires ClockNeverRunsBack(evs) && SoleOwner(cfg, owner) && k < |evs|
    requires HeldUntil(After(cfg, evs, k), a, owner, deadline) && Harmless(cfg, evs[k], owner, a, deadline)
    ensures HeldUntil(After(cfg, evs, k + 1), a, owner, deadline)
  {
    ReachableTablesAreGood(cfg, evs, k, evs[k].now);
    HoldSurvivesStep(cfg, After(cfg, evs, k), evs[k], owner, a, deadline);
  }

  // ----- The two promises over whole runs -----

  /**
   Offers are honoured: a REQUEST for the offered address before the hold runs out is acknowledged,
   whatever happened in between, unless the client gave the address back or an administrator deleted it.
   */
  lemma OffersAreHonoured(cfg: Config, evs: seq<Event>, i: nat, j: nat, a: IpAddr, wanted: Option<U32>, ciaddr: U32)
    requires ClockNeverRunsBack(evs)
    requires i < j < |evs| && evs[i].action.Message? && ReplyAt(cfg, evs, i) == Offer(a)
    requires IsBy(evs[j], evs[i].action.cid)
    requires || (cfg.scope.family.V4? && evs[j].action.request == Request(wanted, ciaddr)
                 && (Desired(wanted, ciaddr) == None || Desired(wanted, ciaddr) == Some(a)))
             || (cfg.scope.family.V6? && evs[j].action.request == Request6)
    requires evs[j].now < evs[i].now + OfferHold(cfg)
    requires forall k :: i < k < j ==>
      evs[k].action != AdminDelete(a) && (IsBy(evs[k], evs[i].action.cid) ==> !GivesBack(evs[k].action.request))
    ensures ReplyAt(cfg, evs, j) == Ack(a)
  {
    var owner := evs[i].action.cid;
    if ReservedFor(cfg.reservations, owner).Some? {
      ReservedForIgnoresCase(cfg.reservations, owner, evs[j].action.cid);
    } else {
      OfferIsStillHeld(cfg, evs, i, j, a);
      ReachableTablesAreGood(cfg, evs, j, evs[j].now);
      OwnLeaseIsKept(cfg, After(cfg, evs, j), evs[j].action.cid, RequestedBy(evs[j].action.request), evs[j].now, a);
    }
  }

  /** What is offered is held for the offer hold, what is acknowledged for the lease time. */
  lemma GrantIsHeld(cfg: Config, t: Table, ev: Event, a: IpAddr)
    requires ev.action.Message? && GrantOf(Step(cfg, t, ev).1) == Some(a)
    ensures var (t', r) := Step(cfg, t, ev);
            HeldUntil(t', a, ev.action.cid, ev.now + if r.Offer? then OfferHold(cfg) else cfg.scope.leaseSecs)
  {
    HandlingHasAnEffect(cfg, t, ev.action.cid, ev.action.request, ev.now);
  }

  /** A client without a reservation still holds what it was offered. */
  lemma OfferIsStillHeld(cfg: Config, evs: seq<Event>, i: nat, j: nat, a: IpAddr)
    requires ClockNeverRunsBack(evs) && i < j < |evs| && evs[i].action.Message? && ReplyAt(cfg, evs, i) == Offer(a)
    requires ReservedFor(cfg.reservations, evs[i].action.cid).None?
    requires evs[j].now < evs[i].now + OfferHold(cfg)
    requires forall k :: i < k < j ==>
      evs[k].action != AdminDelete(a) && (IsBy(evs[k], evs[i].action.cid) ==> !GivesBack(evs[k].action.request))
    ensures HeldUntil(After(cfg, evs, j), a, evs[i].action.cid, evs[i].now + OfferHold(cfg))
  {
    var owner, deadline := evs[i].action.cid, evs[i].now + OfferHold(cfg);
    GrantIsHeld(cfg, After(cfg, evs, i), evs[i], a);
    forall k | i + 1 <= k < j ensures Harmless(cfg, evs[k], owner, a, deadline) {
      assert evs[i].now <= evs[k].now <= evs[j].now;
    }
    HoldPersists(cfg, evs, i + 1, j, owner, a, deadline);
  }

  /**
   Grants are exclusive: after an ACK nobody else is offered or granted the address for the whole lease
   time, unless the owner gives it back or an administrator deletes the row. A DISCOVER of the owner
   cuts the protection down to the offer hold counted from that DISCOVER.
   */
  lemma GrantsAreExclusive(cfg: Config, evs: seq<Event>, i: nat, j: nat, a: IpAddr)
    requires ClockNeverRunsBack(evs)
    requires i < j < |evs| && evs[i].action.Message? && SoleOwner(cfg, evs[i].action.cid) && ReplyAt(cfg, evs, i) == Ack(a)
    requires evs[j].now < evs[i].now + cfg.scope.leaseSecs
    requires forall k :: i < k < j ==>
      && evs[k].action != AdminDelete(a)
      && (IsBy(evs[k], evs[i].action.cid) ==>
            && !GivesBack(evs[k].action.request)
            && (evs[k].action.request.Discover? || evs[k].action.request.Solicit6? ==>
                  evs[j].now < evs[k].now + OfferHold(cfg)))
    ensures GrantOf(ReplyAt(cfg, evs, j)) == Some(a) ==> IsBy(evs[j], evs[i].action.cid)
  {
    var owner, deadline := evs[i].action.cid, evs[j].now + 1;
    assert HeldUntil(After(cfg, evs, i + 1), a, owner, deadline);
    forall k | i + 1 <= k < j ensures Harmless(cfg, evs[k], owner, a, deadline) {
      assert evs[i].now <= evs[k].now <= evs[j].now;
    }
    HoldPersists(cfg, evs, i + 1, j, owner, a, deadline);
    ReachableTablesAreGood(cfg, evs, j, evs[j].now);
    if !IsBy(evs[j], owner) && evs[j].action != AdminDelete(a) {
      HeldRowsAreUntouched(cfg, After(cfg, evs, j), evs[j], owner, a);
    }
  }

  // ----- Sweeps are invisible -----

  ghost function WithoutSweeps(evs: seq<Event>): seq<Event> {
    if evs == [] then []
    else (if evs[0].action.Sweep? then [] else [evs[0]]) + WithoutSweeps(evs[1..])
  }

  /** The replies to everything but sweeps, from table `t` on. */
  ghost function Replies(cfg: Config, t: Table, evs: seq<Event>): seq<Reply>
    decreases |evs|
  {
    if evs == [] then []
    else
      var (t', r) := Step(cfg, t, evs[0]);
      (if evs[0].action.Sweep? then [] else [r]) + Replies(cfg, t', evs[1..])
  }

  ghost predicate Held(t: Table, a: IpAddr, now: int) {
    a in t && Holds(t[a], now)
  }

  /** The two tables agree on every row that still holds its address. */
  ghost predicate SameHeldRows(t: Table, u: Table, now: int) {
    forall a :: (Held(t, a, now) <==> Held(u, a, now)) && (Held(t, a, now) ==> t[a] == u[a])
  }

  lemma ChoiceSeesOnlyHeldRows(cfg: Config, t: Table, u: Table, cid: string, requested: Option<IpAddr>, now: int)
    requires Inv(cfg, t, now) && SameHeldRows(t, u, now)
    ensures Choose(cfg, t, cid, requested, now) == Choose(cfg, u, cid, requested, now)
  {
    var f := cfg.scope.family;
    forall a ensures (a in t && HeldByOther(f, cid, now, AsLease(a, t[a])))
                <==> (a in u && HeldByOther(f, cid, now, AsLease(a, u[a])))
    {
      assert Held(t, a, now) <==> Held(u, a, now);
    }
    assert TableUsed(cfg, t, cid, now) == TableUsed(cfg, u, cid, now);
    forall a ensures Keeps(cfg, t, cid, now, a) <==> Keeps(cfg, u, cid, now, a) {
      assert Held(t, a, now) <==> Held(u, a, now);
    }
    forall a, b | Keeps(cfg, t, cid, now, a) && Keeps(cfg, t, cid, now, b) ensures a == b {
      assert Held(t, a, now) && Held(t, b, now);
    }
  }

  lemma UpsertKeepsSameHeldRows(t: Table, u: Table, a: IpAddr, cid: string, expires: int, state: LeaseState, now: int)
    requires SameHeldRows(t, u, now)
    ensures SameHeldRows(Upsert(t, a, cid, expires, state), Upsert(u, a, cid, expires, state), now)
  {
    forall b | b != a ensures Held(t, b, now) <==> Held(u, b, now) {
    }
    assert forall b :: b != a ==> (Held(Upsert(t, a, cid, expires, state), b, now) <==> Held(t, b, now));
    assert forall b :: b != a ==> (Held(Upsert(u, a, cid, expires, state), b, now) <==> Held(u, b, now));
  }

  lemma DeletingKeepsSameHeldRows(t: Table, u: Table, cid: string, now: int)
    requires SameHeldRows(t, u, now)
    ensures SameHeldRows(DeleteRowsOf(t, cid), DeleteRowsOf(u, cid), now)
  {
    forall a ensures Held(DeleteRowsOf(t, cid), a, now) <==> Held(t, a, now) && !SameId(t[a].identifier, cid) {
    }
    forall a ensures Held(DeleteRowsOf(u, cid), a, now) <==> Held(u, a, now) && !SameId(u[a].identifier, cid) {
    }
  }

  lemma DecliningKeepsSameHeldRows(t: Table, u: Table, cid: string, now: int)
    requires SameHeldRows(t, u, now)
    ensures SameHeldRows(DeclineRowsOf(t, cid), DeclineRowsOf(u, cid), now)
  {
    forall a ensures Held(DeclineRowsOf(t, cid), a, now) <==> Held(t, a, now) && !SameId(t[a].identifier, cid) {
    }
    forall a ensures Held(DeclineRowsOf(u, cid), a, now) <==> Held(u, a, now) && !SameId(u[a].identifier, cid) {
    }
  }

  lemma HandlingKeepsSameHeldRows(cfg: Config, t: Table, u: Table, cid: string, q: Request, now: int, r: Option<IpAddr>)
    requires SameHeldRows(t, u, now)
    ensures Handle(cfg, t, cid, q, now, r).1 == Handle(cfg, u, cid, q, now, r).1
    ensures SameHeldRows(Handle(cfg, t, cid, q, now, r).0, Handle(cfg, u, cid, q, now, r).0, now)
  {
    var t', u' := Handle(cfg, t, cid, q, now, r).0, Handle(cfg, u, cid, q, now, r).0;
    if GrantOf(Handle(cfg, t, cid, q, now, r).1).Some? {
      var expires, state := t'[r.value].expires, t'[r.value].state;
      assert t' == Upsert(t, r.value, cid, expires, state) && u' == Upsert(u, r.value, cid, expires, state);
      UpsertKeepsSameHeldRows(t, u, r.value, cid, expires, state, now);
    } else if (q.Release? && cfg.scope.family.V4?) || (q.Release6? && cfg.scope.family.V6?) {
      assert t' == DeleteRowsOf(t, cid) && u' == DeleteRowsOf(u, cid);
      DeletingKeepsSameHeldRows(t, u, cid, now);
    } else if q.Decline? && cfg.scope.family.V4? {
      assert t' == DeclineRowsOf(t, cid) && u' == DeclineRowsOf(u, cid);
      DecliningKeepsSameHeldRows(t, u, cid, now);
    } else {
      assert t' == t && u' == u;
    }
  }

  lemma MessageKeepsSameHeldRows(cfg: Config, t: Table, u: Table, ev: Event)
    requires Inv(cfg, t, ev.now) && SameHeldRows(t, u, ev.now) && ev.action.Message?
    ensures Step(cfg, t, ev).1 == Step(cfg, u, ev).1
    ensures SameHeldRows(Step(cfg, t, ev).0, Step(cfg, u, ev).0, ev.now)
  {
    var cid, q := ev.action.cid, ev.action.request;
    ChoiceSeesOnlyHeldRows(cfg, t, u, cid, RequestedBy(q), ev.now);
    HandlingKeepsSameHeldRows(cfg, t, u, cid, q, ev.now, Choose(cfg, t, cid, RequestedBy(q), ev.now));
  }

  lemma TimeKeepsSameHeldRows(t: Table, u: Table, now: int, later: int)
    requires SameHeldRows(t, u, now) && now <= later
    ensures SameHeldRows(t, u, later)
  {
    forall a ensures (Held(t, a, later) <==> Held(u, a, later)) && (Held(t, a, later) ==> t[a] == u[a]) {
      assert Held(t, a, now) <==> Held(u, a, now);
    }
  }

  lemma SweepKeepsSameHeldRows(t: Table, u: Table, now: int)
    requires SameHeldRows(t, u, now)
    ensures SameHeldRows(Swept(t, now), u, now)
  {
    assert forall a :: Held(Swept(t, now), a, now) <==> Held(t, a, now);
  }

  lemma AdminKeepsSameHeldRows(t: Table, u: Table, a: IpAddr, now: int)
    requires SameHeldRows(t, u, now)
    ensures SameHeldRows(t - {a}, u - {a}, now)
  {
    assert forall b :: Held(t - {a}, b, now) <==> Held(t, b, now) && b != a;
    assert forall b :: Held(u - {a}, b, now) <==> Held(u, b, now) && b != a;
  }

  /** Both runs take the same step and stay alike. */
  lemma SameStep(cfg: Config, t: Table, u: Table, ev: Event)
    requires Inv(cfg, t, ev.now) && SameHeldRows(t, u, ev.now) && !ev.action.Sweep?
    ensures Step(cfg, t, ev).1 == Step(cfg, u, ev).1
    ensures SameHeldRows(Step(cfg, t, ev).0, Step(cfg, u, ev).0, ev.now)
  {
    if ev.action.Message? {
      MessageKeepsSameHeldRows(cfg, t, u, ev);
    } else if ev.action.AdminDelete? {
      AdminKeepsSameHeldRows(t, u, ev.action.ip, ev.now);
    }
  }

  lemma {:induction false} SweepsAreInvisibleFrom(cfg: Config, t: Table, u: Table, evs: seq<Event>, now: int)
    requires ClockNeverRunsBack(evs)
    requires forall i :: 0 <= i < |evs| ==> now <= evs[i].now
    requires Inv(cfg, t, now) && Inv(cfg, u, now) && SameHeldRows(t, u, now)
    ensures Replies(cfg, t, evs) == Replies(cfg, u, WithoutSweeps(evs))
    decreases |evs|
  {
    if evs != [] {
      var ev, rest := evs[0], evs[1..];
      InvSurvivesTime(cfg, t, now, ev.now);
      InvSurvivesTime(cfg, u, now, ev.now);
      TimeKeepsSameHeldRows(t, u, now, ev.now);
      StepKeepsInv(cfg, t, ev);
      var t' := Step(cfg, t, ev).0;
      if ev.action.Sweep? {
        SweepKeepsSameHeldRows(t, u, ev.now);
        SweepsAreInvisibleFrom(cfg, t', u, rest, ev.now);
        assert WithoutSweeps(evs) == WithoutSweeps(rest);
        assert Replies(cfg, t, evs) == Replies(cfg, t', rest);
      } else {
        StepKeepsInv(cfg, u, ev);
        SameStep(cfg, t, u, ev);
        SweepsAreInvisibleFrom(cfg, t', Step(cfg, u, ev).0, rest, ev.now);
        assert WithoutSweeps(evs)[1..] == WithoutSweeps(rest);
      }
    }
  }

  /** Inserting sweeps at any points of a run changes no reply. */
  lemma SweepsAreInvisible(cfg: Config, evs: seq<Event>)
    requires ClockNeverRunsBack(evs)
    ensures Replies(cfg, map[], evs) == Replies(cfg, map[], WithoutSweeps(evs))
  {
    if evs != [] {
      SweepsAreInvisibleFrom(cfg, map[], map[], evs, evs[0].now);
    }
  }

  // ----- The listing order does not matter -----

  /** `ls` lists the rows of the table, in any order. */
  ghost predicate Lists(ls: seq<Lease>, t: Table) {
    && (forall a :: a in t ==> AsLease(a, t[a]) in ls)
    && (forall l :: l in ls ==> l.ip.Some? && l.ip.value in t && l == AsLease(l.ip.value, t[l.ip.value]))
  }

  lemma ListingDoesNotMatter(cfg: Config, t: Table, ls: seq<Lease>, cid: string, requested: Option<IpAddr>, now: int)
    requires Inv(cfg, t, now) && Lists(ls, t)
    ensures Allocation(cfg.scope, cfg.reservations, ls, cid, requested, now) == Choose(cfg, t, cid, requested, now)
  {
    var f := cfg.scope.family;
    var used := UsedNums(f, cfg.reservations, ls, cid, now);
    assert HeldNums(f, ls, cid, now) == set a | a in t && HeldByOther(f, cid, now, AsLease(a, t[a])) :: a.Num();
    assert used == TableUsed(cfg, t, cid, now);
    if ValidRange(cfg.scope) {
      var own := FirstOwn(cfg.scope, used, ls, cid, now);
      if own.Some? {
        assert Keeps(cfg, t, cid, now, own.value);
        forall b | Keeps(cfg, t, cid, now, b) ensures b == own.value {
          assert Holds(t[b], now) && Holds(t[own.value], now);
        }
      } else {
        forall b | b in t ensures !OwnUsable(cfg.scope, used, cid, now, AsLease(b, t[b])) {
          assert AsLease(b, t[b]) in ls;
        }
      }
    }
  }
}
