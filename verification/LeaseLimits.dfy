/**
 Where the promises of the lease engine end, exactly: shared reservations, the owner's own DISCOVER, and
 declined addresses (src/dhcp/lease.rs, src/dhcp/server.rs `handle_v4`/`handle_v6`).
 */
module LeaseLimits {
  import opened Wrappers
  import opened Text
  import opened LeaseAllocation
  import opened LeaseEngine

  // ----- Who obtains what -----

  /** The message with which a client obtains `a`; v6 clients cannot name an address. */
  function AskFor(cfg: Config, a: IpAddr): Request {
    if cfg.scope.family.V4? then Request(Some(a.Num() % U32_LIMIT), 0) else Request6
  }

  /** DISCOVER, or the v6 SOLICIT. */
  function Probe(cfg: Config): Request {
    if cfg.scope.family.V4? then Discover(None) else Solicit6
  }

  /** DECLINE; in v6 it is served like a RELEASE. */
  function DeclineBy(cfg: Config): Request {
    if cfg.scope.family.V4? then Decline else Release6
  }

  /** Some number the pool scan looks at is not reserved. */
  ghost predicate PoolHasRoom(cfg: Config) {
    && ValidRange(cfg.scope)
    && exists n :: cfg.scope.rangeStart.value.Num() <= n < ScanLimit(cfg.scope)
                   && n !in ReservedNums(cfg.scope.family, cfg.reservations)
  }

  /** An unreserved pool address; in v6 the lowest one, since clients cannot ask for another. */
  ghost predicate Open(cfg: Config, a: IpAddr) {
    && ValidRange(cfg.scope) && a.Family() == cfg.scope.family && InPool(cfg.scope, a.Num())
    && a.Num() !in ReservedNums(cfg.scope.family, cfg.reservations)
    && (cfg.scope.family.V6? ==>
          && a.Num() < ScanLimit(cfg.scope)
          && forall k :: cfg.scope.rangeStart.value.Num() <= k < a.Num() ==>
               k in ReservedNums(cfg.scope.family, cfg.reservations))
  }

  /** The client obtains `a` when nobody holds anything. */
  ghost predicate Obtains(cfg: Config, cid: string, a: IpAddr) {
    && a.Family() == cfg.scope.family
    && var reserved := ReservedFor(cfg.reservations, cid);
       if reserved.Some? then reserved.value == a else Open(cfg, a)
  }

  lemma RoomMeansOpen(cfg: Config) returns (a: IpAddr)
    requires PoolHasRoom(cfg)
    ensures Open(cfg, a)
  {
    var free := LowestFree(ReservedNums(cfg.scope.family, cfg.reservations), cfg.scope.rangeStart.value.Num(), ScanLimit(cfg.scope));
    a := FromNum(free.value, cfg.scope.family);
    ScannedNumberKeepsItsValue(cfg.scope, free.value);
  }

  lemma ObtainedIsChosen(cfg: Config, t: Table, cid: string, now: int, a: IpAddr)
    requires Obtains(cfg, cid, a) && forall b :: b in t ==> !Holds(t[b], now)
    ensures Choose(cfg, t, cid, RequestedBy(AskFor(cfg, a)), now) == Some(a)
  {
    if ReservedFor(cfg.reservations, cid).None? {
      var used := TableUsed(cfg, t, cid, now);
      assert used == ReservedNums(cfg.scope.family, cfg.reservations);
      assert forall b :: !Keeps(cfg, t, cid, now, b);
      if cfg.scope.family.V6? {
        var free := LowestFree(used, cfg.scope.rangeStart.value.Num(), ScanLimit(cfg.scope));
        assert free.Some? && free.value == a.Num();
      }
    }
  }

  /** Asking for it while nobody holds anything writes the lease and acknowledges it. */
  lemma ObtainedIsGranted(cfg: Config, t: Table, cid: string, now: int, a: IpAddr)
    requires Obtains(cfg, cid, a) && forall b :: b in t ==> !Holds(t[b], now)
    ensures Step(cfg, t, Event(now, Message(cid, AskFor(cfg, a))))
         == (Upsert(t, a, cid, now + cfg.scope.leaseSecs, Active), Ack(a))
  {
    ObtainedIsChosen(cfg, t, cid, now, a);
  }

  function LongestId(rs: seq<Reservation>): (n: nat)
    ensures forall x :: x in rs ==> |x.identifier| <= n
  {
    if rs == [] then 0
    else
      var n := LongestId(rs[1..]);
      assert forall x :: x in rs <==> x == rs[0] || x in rs[1..];
      if |rs[0].identifier| <= n then n else |rs[0].identifier|
  }

  /** There are always two clients without a reservation. */
  lemma FreshClients(rs: seq<Reservation>) returns (c: string, d: string)
    ensures ReservedFor(rs, c).None? && ReservedFor(rs, d).None? && !SameId(c, d)
  {
    var n := LongestId(rs);
    c, d := seq(n + 1, _ => 'a'), seq(n + 2, _ => 'a');
    assert |Lower(c)| == n + 1 && |Lower(d)| == n + 2;
    forall x | x in rs ensures !SameId(x.identifier, c) && !SameId(x.identifier, d) {
      assert |Lower(x.identifier)| <= n;
    }
  }

  // ----- Without room in the pool only reservations are granted -----

  ghost predicate RowsOfReserved(cfg: Config, t: Table) {
    forall a :: a in t ==> ReservedFor(cfg.reservations, t[a].identifier).Some?
  }

  lemma OnlyReservedIsChosen(cfg: Config, t: Table, cid: string, q: Request, now: int)
    requires !PoolHasRoom(cfg) && RowsOfReserved(cfg, t)
    ensures var r := Choose(cfg, t, cid, RequestedBy(q), now);
            r.Some? && r.value.Family() == cfg.scope.family ==> ReservedFor(cfg.reservations, cid) == r
  {
    if ReservedFor(cfg.reservations, cid).None? && ValidRange(cfg.scope) {
      var used := TableUsed(cfg, t, cid, now);
      forall a | a in t ensures !Keeps(cfg, t, cid, now, a) {
        if SameId(t[a].identifier, cid) {
          ReservedForIgnoresCase(cfg.reservations, t[a].identifier, cid);
        }
      }
      assert forall n :: cfg.scope.rangeStart.value.Num() <= n < ScanLimit(cfg.scope) ==> n in used;
      assert LowestFree(used, cfg.scope.rangeStart.value.Num(), ScanLimit(cfg.scope)).None?;
    }
  }

  lemma ReservedRowsStep(cfg: Config, t: Table, ev: Event)
    requires !PoolHasRoom(cfg) && RowsOfReserved(cfg, t)
    ensures RowsOfReserved(cfg, Step(cfg, t, ev).0)
    ensures GrantOf(Step(cfg, t, ev).1).Some? ==>
              ev.action.Message? && ReservedFor(cfg.reservations, ev.action.cid) == GrantOf(Step(cfg, t, ev).1)
  {
    if ev.action.Message? {
      HandlingHasAnEffect(cfg, t, ev.action.cid, ev.action.request, ev.now);
      ReservedRowsMessage(cfg, t, ev.action.cid, ev.action.request, ev.now, Step(cfg, t, ev).0, Step(cfg, t, ev).1);
    }
  }

  lemma ReservedRowsMessage(cfg: Config, t: Table, cid: string, q: Request, now: int, t': Table, reply: Reply)
    requires !PoolHasRoom(cfg) && RowsOfReserved(cfg, t)
    requires MessageEffect(cfg, t, cid, q, now, Choose(cfg, t, cid, RequestedBy(q), now), t', reply)
    ensures RowsOfReserved(cfg, t')
    ensures GrantOf(reply).Some? ==> ReservedFor(cfg.reservations, cid) == GrantOf(reply)
  {
    OnlyReservedIsChosen(cfg, t, cid, q, now);
    if GrantOf(reply).Some? {
      var a := GrantOf(reply).value;
      ReservedRowsUpsert(cfg, t, cid, a, t'[a].expires, t'[a].state);
    } else if t' == DeclineRowsOf(t, cid) {
      ReservedRowsDecline(cfg, t, cid);
    }
  }

  lemma ReservedRowsUpsert(cfg: Config, t: Table, cid: string, a: IpAddr, expires: int, state: LeaseState)
    requires RowsOfReserved(cfg, t) && ReservedFor(cfg.reservations, cid).Some?
    ensures RowsOfReserved(cfg, Upsert(t, a, cid, expires, state))
  {
    LowerIsIdempotent(cid);
    ReservedForIgnoresCase(cfg.reservations, cid, Lower(cid));
  }

  lemma ReservedRowsDecline(cfg: Config, t: Table, cid: string)
    requires RowsOfReserved(cfg, t)
    ensures RowsOfReserved(cfg, DeclineRowsOf(t, cid))
  {
    forall a | a in t ensures ReservedFor(cfg.reservations, Lower(t[a].identifier)).Some? {
      LowerIsIdempotent(t[a].identifier);
      ReservedForIgnoresCase(cfg.reservations, t[a].identifier, Lower(t[a].identifier));
    }
  }

  lemma {:induction false} ReservedRowsRun(cfg: Config, evs: seq<Event>, k: nat)
    requires !PoolHasRoom(cfg) && k <= |evs|
    ensures RowsOfReserved(cfg, After(cfg, evs, k))
  {
    if k > 0 {
      ReservedRowsRun(cfg, evs, k - 1);
      ReservedRowsStep(cfg, After(cfg, evs, k - 1), evs[k - 1]);
    }
  }

  lemma OnlyReservationsAreGranted(cfg: Config, evs: seq<Event>, k: nat)
    requires !PoolHasRoom(cfg) && k < |evs| && GrantOf(ReplyAt(cfg, evs, k)).Some?
    ensures evs[k].action.Message? && ReservedFor(cfg.reservations, evs[k].action.cid) == GrantOf(ReplyAt(cfg, evs, k))
  {
    ReservedRowsRun(cfg, evs, k);
    ReservedRowsStep(cfg, After(cfg, evs, k), evs[k]);
  }

  // ----- Exclusive grants -----

  /**
   Event `j` does not hand out what event `i` granted, if the lease is not over, the row was not deleted and
   the owner did not give it back; `discovers` says whether the owner may have sent a DISCOVER since.
   */
  ghost predicate ExclusiveAt(cfg: Config, evs: seq<Event>, i: nat, j: nat, a: IpAddr, discovers: bool)
    requires i < j < |evs|
  {
    Protected(cfg, evs, i, j, a, discovers) ==>
      (GrantOf(ReplyAt(cfg, evs, j)) == Some(a) ==> IsBy(evs[j], evs[i].action.cid))
  }

  ghost predicate Protected(cfg: Config, evs: seq<Event>, i: nat, j: nat, a: IpAddr, discovers: bool)
    requires i < j < |evs|
  {
    && ClockNeverRunsBack(evs) && evs[i].action.Message? && ReplyAt(cfg, evs, i) == Ack(a)
    && evs[j].now < evs[i].now + cfg.scope.leaseSecs
    && forall k :: i < k < j ==>
         && evs[k].action != AdminDelete(a)
         && (IsBy(evs[k], evs[i].action.cid) ==>
               && !GivesBack(evs[k].action.request)
               && (evs[k].action.request.Discover? || evs[k].action.request.Solicit6? ==> discovers))
  }

  ghost predicate AllRunsExclusive(cfg: Config, discovers: bool) {
    forall evs: seq<Event>, i: nat, j: nat, a: IpAddr :: i < j < |evs| ==> ExclusiveAt(cfg, evs, i, j, a, discovers)
  }

  /** Two clients that obtain the same address are granted it one after the other, though the first holds it. */
  lemma SharedReservationBreaksExclusivity(cfg: Config, c: string, d: string, a: IpAddr)
    requires a.Family() == cfg.scope.family
    requires ReservedFor(cfg.reservations, c) == Some(a) == ReservedFor(cfg.reservations, d)
    ensures var evs := [Event(0, Message(c, AskFor(cfg, a))), Event(0, Message(d, AskFor(cfg, a)))];
            ReplyAt(cfg, evs, 0) == Ack(a) && ReplyAt(cfg, evs, 1) == Ack(a)
  {
    assert Choose(cfg, map[], c, RequestedBy(AskFor(cfg, a)), 0) == Some(a);
  }

  lemma ClashBreaksExclusivity(cfg: Config, c: string, d: string, discovers: bool)
    requires cfg.scope.leaseSecs > 0 && ReservationClash(cfg, c, d)
    ensures !AllRunsExclusive(cfg, discovers)
  {
    var a := ReservedFor(cfg.reservations, c).value;
    var evs := [Event(0, Message(c, AskFor(cfg, a))), Event(0, Message(d, AskFor(cfg, a)))];
    SharedReservationBreaksExclusivity(cfg, c, d, a);
    var i: nat, j: nat := 0, 1;
    assert i < j < |evs| && !ExclusiveAt(cfg, evs, i, j, a, discovers);
  }

  lemma SharedBreaksAllRuns(cfg: Config, discovers: bool)
    requires cfg.scope.leaseSecs > 0 && !ReservationsExclusive(cfg)
    ensures !AllRunsExclusive(cfg, discovers)
  {
    var c: string :| !SoleOwner(cfg, c);
    var d: string :| ReservationClash(cfg, c, d);
    ClashBreaksExclusivity(cfg, c, d, discovers);
  }

  /** As long as owners send no DISCOVER, all runs grant exclusively exactly when no two clients share a reservation. */
  lemma ExclusiveIffReservationsExclusive(cfg: Config)
    ensures AllRunsExclusive(cfg, false) <==> cfg.scope.leaseSecs == 0 || ReservationsExclusive(cfg)
  {
    if cfg.scope.leaseSecs == 0 || ReservationsExclusive(cfg) {
      forall evs: seq<Event>, i: nat, j: nat, a: IpAddr | i < j < |evs| ensures ExclusiveAt(cfg, evs, i, j, a, false) {
        if Protected(cfg, evs, i, j, a, false) {
          assert evs[i].now <= evs[j].now;
          assert SoleOwner(cfg, evs[i].action.cid);
          GrantsAreExclusive(cfg, evs, i, j, a);
        }
      }
    } else {
      SharedBreaksAllRuns(cfg, false);
    }
  }

  /** The event takes table `t` to `u` and is answered with `r`. */
  ghost predicate Leads(cfg: Config, t: Table, ev: Event, u: Table, r: Reply) {
    Step(cfg, t, ev) == (u, r)
  }

  /** A run of three events, by its intermediate tables. */
  lemma RunOfThree(cfg: Config, evs: seq<Event>, t: Table, u: Table, w: Table, x: Reply, y: Reply, z: Reply)
    requires |evs| == 3 && Leads(cfg, map[], evs[0], t, x) && Leads(cfg, t, evs[1], u, y) && Leads(cfg, u, evs[2], w, z)
    ensures After(cfg, evs, 1) == t && After(cfg, evs, 2) == u
    ensures ReplyAt(cfg, evs, 0) == x && ReplyAt(cfg, evs, 1) == y && ReplyAt(cfg, evs, 2) == z
  {
    assert After(cfg, evs, 0) == map[];
  }

  lemma AskingLeads(cfg: Config, t: Table, cid: string, now: int, a: IpAddr)
    requires Obtains(cfg, cid, a) && forall b :: b in t ==> !Holds(t[b], now)
    ensures Leads(cfg, t, Event(now, Message(cid, AskFor(cfg, a))), t[a := Row(Lower(cid), now + cfg.scope.leaseSecs, Active)], Ack(a))
  {
    ObtainedIsGranted(cfg, t, cid, now, a);
  }

  /**
   A DISCOVER of the owner really does cut its lease short: two clients that obtain the same address, the first
   sends a DISCOVER at any time of its lease, and the second is granted the address the moment the offer hold
   counted from there is over. `GrantsAreExclusive` says that it is not granted any earlier.
   */
  lemma DiscoverCutsTheLeaseShort(cfg: Config, c: string, d: string, a: IpAddr, s: nat)
    requires Obtains(cfg, c, a) && Obtains(cfg, d, a) && s + OFFER_HOLD_SECS < cfg.scope.leaseSecs
    ensures var evs := DiscoverRun(cfg, c, d, a, s);
            ReplyAt(cfg, evs, 0) == Ack(a) && ReplyAt(cfg, evs, 1) == Offer(a) && ReplyAt(cfg, evs, 2) == Ack(a)
  {
    var evs := DiscoverRun(cfg, c, d, a, s);
    var t := map[a := Row(Lower(c), cfg.scope.leaseSecs, Active)];
    var u := map[a := Row(Lower(c), s + OFFER_HOLD_SECS, Offered)];
    var w := u[a := Row(Lower(d), s + OFFER_HOLD_SECS + cfg.scope.leaseSecs, Active)];
    AskingLeads(cfg, map[], c, 0, a);
    HolderIsOffered(cfg, c, a, s);
    AskingLeads(cfg, u, d, s + OFFER_HOLD_SECS, a);
    RunOfThree(cfg, evs, t, u, w, Ack(a), Offer(a), Ack(a));
  }

  lemma HolderIsOffered(cfg: Config, c: string, a: IpAddr, s: nat)
    requires Obtains(cfg, c, a) && s + OFFER_HOLD_SECS < cfg.scope.leaseSecs
    ensures Leads(cfg, map[a := Row(Lower(c), cfg.scope.leaseSecs, Active)], Event(s, Message(c, Probe(cfg))),
                  map[a := Row(Lower(c), s + OFFER_HOLD_SECS, Offered)], Offer(a))
  {
    var t := map[a := Row(Lower(c), cfg.scope.leaseSecs, Active)];
    LowerIsIdempotent(c);
    ReservedForIgnoresCase(cfg.reservations, c, Lower(c));
    assert Inv(cfg, t, s);
    OwnLeaseIsKept(cfg, t, c, None, s, a);
    var row := Row(Lower(c), s + OFFER_HOLD_SECS, Offered);
    assert Upsert(t, a, c, s + OFFER_HOLD_SECS, Offered) == t[a := row] == map[a := row];
  }

  /** The owner leases at 0 and discovers at `s`; the other client asks when the offer hold is over. */
  function DiscoverRun(cfg: Config, c: string, d: string, a: IpAddr, s: nat): seq<Event> {
    [Event(0, Message(c, AskFor(cfg, a))), Event(s, Message(c, Probe(cfg))),
     Event(s + OFFER_HOLD_SECS, Message(d, AskFor(cfg, a)))]
  }

  lemma RoomBreaksExclusivity(cfg: Config)
    requires PoolHasRoom(cfg) && cfg.scope.leaseSecs > OFFER_HOLD_SECS
    ensures !AllRunsExclusive(cfg, true)
  {
    var a := RoomMeansOpen(cfg);
    var c, d := FreshClients(cfg.reservations);
    var evs := DiscoverRun(cfg, c, d, a, 0);
    DiscoverCutsTheLeaseShort(cfg, c, d, a, 0);
    var i: nat, j: nat := 0, 2;
    assert i < j < |evs| && !ExclusiveAt(cfg, evs, i, j, a, true);
  }

  /** A reserved address that leads to one client only is never granted to anybody else. */
  lemma ReservedIsNeverGrantedToOthers(cfg: Config, evs: seq<Event>, j: nat, owner: string, a: IpAddr)
    requires j < |evs| && a.Family() == cfg.scope.family
    requires ReservedFor(cfg.reservations, owner) == Some(a) && SoleOwner(cfg, owner)
    ensures GrantOf(ReplyAt(cfg, evs, j)) == Some(a) ==> IsBy(evs[j], owner)
  {
    if evs[j].action.Message? {
      var cid, q := evs[j].action.cid, evs[j].action.request;
      HandlingHasAnEffect(cfg, After(cfg, evs, j), cid, q, evs[j].now);
      ChoiceIsEligible(cfg, After(cfg, evs, j), cid, RequestedBy(q), evs[j].now);
      assert !ReservationClash(cfg, owner, cid);
      assert a.Num() in ReservedNums(cfg.scope.family, cfg.reservations);
    }
  }

  lemma ExclusiveDespiteDiscover(cfg: Config, evs: seq<Event>, i: nat, j: nat, a: IpAddr)
    requires i < j < |evs| && ReservationsExclusive(cfg)
    requires cfg.scope.leaseSecs <= OFFER_HOLD_SECS || !PoolHasRoom(cfg)
    ensures ExclusiveAt(cfg, evs, i, j, a, true)
  {
    if Protected(cfg, evs, i, j, a, true) {
      assert SoleOwner(cfg, evs[i].action.cid);
      if cfg.scope.leaseSecs <= OFFER_HOLD_SECS {
        forall k | i < k < j ensures evs[j].now < evs[k].now + OfferHold(cfg) {
          assert evs[i].now <= evs[k].now;
        }
        GrantsAreExclusive(cfg, evs, i, j, a);
      } else {
        OnlyReservationsAreGranted(cfg, evs, i);
        HandlingHasAnEffect(cfg, After(cfg, evs, i), evs[i].action.cid, evs[i].action.request, evs[i].now);
        ReservedIsNeverGrantedToOthers(cfg, evs, j, evs[i].action.cid, a);
      }
    }
  }

  /**
   When owners may send DISCOVERs, all runs grant exclusively exactly when no two clients share a reservation
   and either leases are no longer than the offer hold or there is nothing but reservations to grant.
   */
  lemma ExclusiveDespiteDiscoverIff(cfg: Config)
    ensures AllRunsExclusive(cfg, true) <==>
            || cfg.scope.leaseSecs == 0
            || (ReservationsExclusive(cfg) && (cfg.scope.leaseSecs <= OFFER_HOLD_SECS || !PoolHasRoom(cfg)))
  {
    if cfg.scope.leaseSecs == 0 {
      forall evs: seq<Event>, i: nat, j: nat, a: IpAddr | i < j < |evs| ensures ExclusiveAt(cfg, evs, i, j, a, true) {
        assert ClockNeverRunsBack(evs) ==> evs[i].now <= evs[j].now;
      }
    } else if !ReservationsExclusive(cfg) {
      SharedBreaksAllRuns(cfg, true);
    } else if cfg.scope.leaseSecs <= OFFER_HOLD_SECS || !PoolHasRoom(cfg) {
      forall evs: seq<Event>, i: nat, j: nat, a: IpAddr | i < j < |evs| ensures ExclusiveAt(cfg, evs, i, j, a, true) {
        ExclusiveDespiteDiscover(cfg, evs, i, j, a);
      }
    } else {
      RoomBreaksExclusivity(cfg);
    }
  }

  // ----- Declined addresses are not kept out of the pool -----

  /** Lease, decline, and lease again within the same second; the second client may be the first one. */
  function DeclineRun(cfg: Config, c: string, d: string, a: IpAddr): seq<Event> {
    [Event(0, Message(c, AskFor(cfg, a))), Event(0, Message(c, DeclineBy(cfg))), Event(0, Message(d, AskFor(cfg, a)))]
  }

  lemma DeclinedAddressIsGrantedAgain(cfg: Config, c: string, d: string, a: IpAddr)
    requires Obtains(cfg, c, a) && Obtains(cfg, d, a) && cfg.scope.leaseSecs > 0
    ensures var evs := DeclineRun(cfg, c, d, a);
            && ReplyAt(cfg, evs, 0) == Ack(a) && ReplyAt(cfg, evs, 2) == Ack(a)
            && HeldBy(After(cfg, evs, 1), a, c, 0) && After(cfg, evs, 1)[a].expires == cfg.scope.leaseSecs
            && (cfg.scope.family.V4? ==> After(cfg, evs, 2) == map[a := Row(Lower(c), cfg.scope.leaseSecs, Declined)])
            && (cfg.scope.family.V6? ==> After(cfg, evs, 2) == map[])
  {
    var evs := DeclineRun(cfg, c, d, a);
    ObtainedIsGranted(cfg, map[], c, 0, a);
    assert After(cfg, evs, 1) == map[a := Row(Lower(c), cfg.scope.leaseSecs, Active)];
    LowerIsIdempotent(c);
    ObtainedIsGranted(cfg, After(cfg, evs, 2), d, 0, a);
  }

  /** RELEASE, in either version. */
  function ReleaseBy(cfg: Config): Request {
    if cfg.scope.family.V4? then Release else Release6
  }

  /** A released address is free at once: lease, release, and lease by any client that may obtain it, in one second. */
  lemma ReleasedAddressIsGranted(cfg: Config, c: string, d: string, a: IpAddr)
    requires Obtains(cfg, c, a) && Obtains(cfg, d, a)
    ensures var evs := [Event(0, Message(c, AskFor(cfg, a))), Event(0, Message(c, ReleaseBy(cfg))), Event(0, Message(d, AskFor(cfg, a)))];
            ReplyAt(cfg, evs, 0) == Ack(a) && ReplyAt(cfg, evs, 1) == Silent && ReplyAt(cfg, evs, 2) == Ack(a)
  {
    var evs := [Event(0, Message(c, AskFor(cfg, a))), Event(0, Message(c, ReleaseBy(cfg))), Event(0, Message(d, AskFor(cfg, a)))];
    var t := map[a := Row(Lower(c), cfg.scope.leaseSecs, Active)];
    AskingLeads(cfg, map[], c, 0, a);
    ReleaseLeads(cfg, t, c);
    AskingLeads(cfg, map[], d, 0, a);
    RunOfThree(cfg, evs, t, map[], map[a := Row(Lower(d), cfg.scope.leaseSecs, Active)], Ack(a), Silent, Ack(a));
  }

  lemma ReleaseLeads(cfg: Config, t: Table, c: string)
    requires forall b :: b in t ==> t[b].identifier == Lower(c)
    ensures Leads(cfg, t, Event(0, Message(c, ReleaseBy(cfg))), map[], Silent)
  {
    LowerIsIdempotent(c);
    assert DeleteRowsOf(t, c) == map[];
  }

  /** Event `i` declines `a`, which its sender holds, and at event `j` that lease would not yet have ended. */
  ghost predicate DeclinedAt(cfg: Config, evs: seq<Event>, i: nat, j: nat, a: IpAddr)
    requires i < j < |evs|
  {
    && ClockNeverRunsBack(evs) && evs[i].action.Message? && evs[i].action.request == DeclineBy(cfg)
    && HeldBy(After(cfg, evs, i), a, evs[i].action.cid, evs[i].now)
    && evs[j].now < After(cfg, evs, i)[a].expires
  }

  /** The declined address is not granted to a client as a pool address. */
  ghost predicate OutOfPoolAt(cfg: Config, evs: seq<Event>, i: nat, j: nat, a: IpAddr)
    requires i < j < |evs|
  {
    DeclinedAt(cfg, evs, i, j, a) && GrantOf(ReplyAt(cfg, evs, j)) == Some(a) ==>
      evs[j].action.Message? && ReservedFor(cfg.reservations, evs[j].action.cid) == Some(a)
  }

  /** The declined address is not granted to another client. */
  ghost predicate QuarantinedAt(cfg: Config, evs: seq<Event>, i: nat, j: nat, a: IpAddr)
    requires i < j < |evs|
  {
    DeclinedAt(cfg, evs, i, j, a) && GrantOf(ReplyAt(cfg, evs, j)) == Some(a) ==> IsBy(evs[j], evs[i].action.cid)
  }

  ghost predicate AllRunsKeepOut(cfg: Config) {
    forall evs: seq<Event>, i: nat, j: nat, a: IpAddr :: i < j < |evs| ==> OutOfPoolAt(cfg, evs, i, j, a)
  }

  ghost predicate AllRunsQuarantine(cfg: Config) {
    forall evs: seq<Event>, i: nat, j: nat, a: IpAddr :: i < j < |evs| ==> QuarantinedAt(cfg, evs, i, j, a)
  }

  ghost predicate NothingHeld(t: Table, now: int) {
    forall a :: a in t ==> t[a].expires <= now
  }

  /** With a lease time of zero nothing is ever held. */
  lemma {:induction false} ZeroLeasesAreOver(cfg: Config, evs: seq<Event>, k: nat, now: int)
    requires cfg.scope.leaseSecs == 0 && ClockNeverRunsBack(evs)
    requires k <= |evs| && (k > 0 ==> evs[k - 1].now <= now)
    ensures NothingHeld(After(cfg, evs, k), now)
  {
    if k > 0 {
      var ev := evs[k - 1];
      ZeroLeasesAreOver(cfg, evs, k - 1, ev.now);
      if ev.action.Message? {
        HandlingHasAnEffect(cfg, After(cfg, evs, k - 1), ev.action.cid, ev.action.request, ev.now);
      }
    }
  }

  lemma ZeroLeasesAreNotDeclined(cfg: Config, evs: seq<Event>, i: nat, j: nat, a: IpAddr)
    requires cfg.scope.leaseSecs == 0 && i < j < |evs|
    ensures !DeclinedAt(cfg, evs, i, j, a)
  {
    if ClockNeverRunsBack(evs) {
      ZeroLeasesAreOver(cfg, evs, i, evs[i].now);
    }
  }

  lemma RoomBreaksQuarantine(cfg: Config)
    requires PoolHasRoom(cfg) && cfg.scope.leaseSecs > 0
    ensures !AllRunsKeepOut(cfg) && !AllRunsQuarantine(cfg)
  {
    var a := RoomMeansOpen(cfg);
    var c, d := FreshClients(cfg.reservations);
    var evs := DeclineRun(cfg, c, d, a);
    DeclinedAddressIsGrantedAgain(cfg, c, d, a);
    var i: nat, j: nat := 1, 2;
    assert DeclinedAt(cfg, evs, i, j, a);
    assert i < j < |evs| && !OutOfPoolAt(cfg, evs, i, j, a) && !QuarantinedAt(cfg, evs, i, j, a);
  }

  lemma ClashBreaksQuarantine(cfg: Config, c: string, d: string)
    requires ReservationClash(cfg, c, d) && cfg.scope.leaseSecs > 0
    ensures !AllRunsQuarantine(cfg)
  {
    var a := ReservedFor(cfg.reservations, c).value;
    var evs := DeclineRun(cfg, c, d, a);
    DeclinedAddressIsGrantedAgain(cfg, c, d, a);
    var i: nat, j: nat := 1, 2;
    assert DeclinedAt(cfg, evs, i, j, a);
    assert i < j < |evs| && !QuarantinedAt(cfg, evs, i, j, a);
  }

  /**
   Declined addresses are kept out of the pool, in all runs, exactly when leases last no time or the pool has
   nothing to grant in the first place.
   */
  lemma KeptOutOfPoolIff(cfg: Config)
    ensures AllRunsKeepOut(cfg) <==> cfg.scope.leaseSecs == 0 || !PoolHasRoom(cfg)
  {
    if cfg.scope.leaseSecs == 0 || !PoolHasRoom(cfg) {
      forall evs: seq<Event>, i: nat, j: nat, a: IpAddr | i < j < |evs| ensures OutOfPoolAt(cfg, evs, i, j, a) {
        if cfg.scope.leaseSecs == 0 {
          ZeroLeasesAreNotDeclined(cfg, evs, i, j, a);
        } else if GrantOf(ReplyAt(cfg, evs, j)).Some? {
          OnlyReservationsAreGranted(cfg, evs, j);
        }
      }
    } else {
      RoomBreaksQuarantine(cfg);
    }
  }

  /** Without room, what a client holds is its reservation. */
  lemma HeldIsReserved(cfg: Config, evs: seq<Event>, i: nat, a: IpAddr, owner: string)
    requires !PoolHasRoom(cfg) && ClockNeverRunsBack(evs) && i < |evs|
    requires HeldBy(After(cfg, evs, i), a, owner, evs[i].now)
    ensures ReservedFor(cfg.reservations, owner) == Some(a) && a.Family() == cfg.scope.family
  {
    var t := After(cfg, evs, i);
    ReservedRowsRun(cfg, evs, i);
    ReachableTablesAreGood(cfg, evs, i, evs[i].now);
    LowerIsIdempotent(owner);
    ReservedForIgnoresCase(cfg.reservations, owner, t[a].identifier);
    assert Eligible(cfg, t[a].identifier, a);
  }

  /**
   No other client is granted a declined address before that lease would have ended, in all runs, exactly when
   leases last no time, or no two clients share a reservation and the pool has nothing to grant.
   */
  lemma QuarantineIff(cfg: Config)
    ensures AllRunsQuarantine(cfg) <==> cfg.scope.leaseSecs == 0 || (ReservationsExclusive(cfg) && !PoolHasRoom(cfg))
  {
    if cfg.scope.leaseSecs == 0 || (ReservationsExclusive(cfg) && !PoolHasRoom(cfg)) {
      forall evs: seq<Event>, i: nat, j: nat, a: IpAddr | i < j < |evs| ensures QuarantinedAt(cfg, evs, i, j, a) {
        if cfg.scope.leaseSecs == 0 {
          ZeroLeasesAreNotDeclined(cfg, evs, i, j, a);
        } else if DeclinedAt(cfg, evs, i, j, a) {
          HeldIsReserved(cfg, evs, i, a, evs[i].action.cid);
          assert SoleOwner(cfg, evs[i].action.cid);
          ReservedIsNeverGrantedToOthers(cfg, evs, j, evs[i].action.cid, a);
        }
      }
    } else if PoolHasRoom(cfg) {
      RoomBreaksQuarantine(cfg);
    } else {
      var c: string :| !SoleOwner(cfg, c);
      var d: string :| ReservationClash(cfg, c, d);
      ClashBreaksQuarantine(cfg, c, d);
    }
  }

  /**
   Row by row: whatever its expiry, a declined v4 address is granted to a client by some message exactly when
   the client is eligible for it and holds no address. The declined row plays no part.
   */
  lemma DeclinedIsGrantedIff(cfg: Config, t: Table, a: IpAddr, cid: string, now: int)
    requires Inv(cfg, t, now) && cfg.scope.family.V4? && a in t && t[a].state.Declined?
    ensures (exists q :: GrantOf(Step(cfg, t, Event(now, Message(cid, q))).1) == Some(a))
            <==> Eligible(cfg, cid, a) && forall b :: !HeldBy(t, b, cid, now)
  {
    if Eligible(cfg, cid, a) && forall b :: !HeldBy(t, b, cid, now) {
      var q := AskFor(cfg, a);
      UnheldWishIsGranted(cfg, t, a, cid, now);
      assert GrantOf(Step(cfg, t, Event(now, Message(cid, q))).1) == Some(a);
    }
    forall q | GrantOf(Step(cfg, t, Event(now, Message(cid, q))).1) == Some(a)
      ensures Eligible(cfg, cid, a) && forall b :: !HeldBy(t, b, cid, now)
    {
      HandlingHasAnEffect(cfg, t, cid, q, now);
      ChoiceIsSafe(cfg, t, cid, RequestedBy(q), now);
    }
  }

  lemma UnheldWishIsChosen(cfg: Config, t: Table, a: IpAddr, cid: string, now: int)
    requires Inv(cfg, t, now) && cfg.scope.family.V4? && a in t && !Holds(t[a], now)
    requires Eligible(cfg, cid, a) && forall b :: !HeldBy(t, b, cid, now)
    ensures Choose(cfg, t, cid, Some(a), now) == Some(a)
  {
    if ReservedFor(cfg.reservations, cid).None? {
      assert forall b :: !Keeps(cfg, t, cid, now, b) by {
        forall b | b in t ensures !Keeps(cfg, t, cid, now, b) {
          assert !HeldBy(t, b, cid, now);
        }
      }
      assert a.Num() !in TableUsed(cfg, t, cid, now) by {
        forall b | b in t && HeldByOther(cfg.scope.family, cid, now, AsLease(b, t[b])) ensures b.Num() != a.Num() {
          assert b != a;
        }
      }
    }
  }

  lemma UnheldWishIsGranted(cfg: Config, t: Table, a: IpAddr, cid: string, now: int)
    requires Inv(cfg, t, now) && cfg.scope.family.V4? && a in t && !Holds(t[a], now)
    requires Eligible(cfg, cid, a) && forall b :: !HeldBy(t, b, cid, now)
    ensures Step(cfg, t, Event(now, Message(cid, AskFor(cfg, a)))).1 == Ack(a)
  {
    UnheldWishIsChosen(cfg, t, a, cid, now);
  }
}
