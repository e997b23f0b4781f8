/**
 What every message does to the lease table and how it is answered (src/dhcp/server.rs `handle_v4`, `handle_v6`,
 `release_v4_lease`), row by row and reply by reply.
 */
module LeaseOutcomes {
  import opened Wrappers
  import opened Text
  import opened LeaseAllocation
  import opened LeaseEngine

  /** The table after a message and the reply to it. */
  ghost function Served(cfg: Config, t: Table, cid: string, q: Request, now: int): (Table, Reply) {
    Step(cfg, t, Event(now, Message(cid, q)))
  }

  /** Only the row of `a` is written, for this client. */
  ghost predicate Writes(t: Table, t': Table, a: IpAddr, cid: string, expires: int, state: LeaseState) {
    && (forall b :: b in t' <==> b in t || b == a)
    && (forall b :: b in t && b != a ==> t'[b] == t[b])
    && a in t' && t'[a].identifier == Lower(cid) && t'[a].expires == expires && t'[a].state == state
  }

  /** A DISCOVER is answered with an offer of the chosen address, held two minutes at most, or not at all. */
  lemma DiscoverOutcome(cfg: Config, t: Table, cid: string, wish: Option<U32>, now: int)
    requires cfg.scope.family.V4?
    ensures var (t', r) := Served(cfg, t, cid, Discover(wish), now);
            var choice := Choose(cfg, t, cid, if wish.Some? then Some(V4Addr(wish.value)) else None, now);
            if choice.Some? && choice.value.V4Addr? then
              && r == Offer(choice.value)
              && Writes(t, t', choice.value, cid, now + (if cfg.scope.leaseSecs <= 120 then cfg.scope.leaseSecs else 120), Offered)
            else r == Silent && t' == t
  {
  }

  /** The client insists on an address other than `a`: by option 50, else by a non-zero ciaddr. */
  predicate InsistsOnOther(wanted: Option<U32>, ciaddr: U32, a: U32) {
    if wanted.Some? then wanted.value != a else ciaddr != 0 && ciaddr != a
  }

  /** A REQUEST is refused exactly when there is no v4 choice or the client insists on another address. */
  lemma RequestOutcome(cfg: Config, t: Table, cid: string, wanted: Option<U32>, ciaddr: U32, now: int)
    requires cfg.scope.family.V4?
    ensures var (t', r) := Served(cfg, t, cid, Request(wanted, ciaddr), now);
            var choice := Choose(cfg, t, cid, if wanted.Some? then Some(V4Addr(wanted.value)) else None, now);
            && (r == Nak <==> choice.None? || choice.value.V6Addr? || InsistsOnOther(wanted, ciaddr, choice.value.v4))
            && (r == Nak ==> t' == t)
            && (r != Nak ==> r == Ack(choice.value) && Writes(t, t', choice.value, cid, now + cfg.scope.leaseSecs, Active))
  {
  }

  /** An INFORM is acknowledged without an address, and nothing changes. */
  lemma InformOutcome(cfg: Config, t: Table, cid: string, now: int)
    requires cfg.scope.family.V4?
    ensures Served(cfg, t, cid, Inform, now) == (t, InformAck)
  {
  }

  /** A RELEASE (in v6 also a DECLINE) removes exactly the sender's rows and is not answered. */
  lemma ReleaseOutcome(cfg: Config, t: Table, cid: string, now: int)
    ensures var (t', r) := Served(cfg, t, cid, if cfg.scope.family.V4? then Release else Release6, now);
            && r == Silent
            && (forall a :: a in t' <==> a in t && !SameId(t[a].identifier, cid))
            && (forall a :: a in t' ==> t'[a] == t[a])
  {
  }

  /** A v4 DECLINE marks exactly the sender's rows, keeps their expiry, and is not answered. */
  lemma DeclineOutcome(cfg: Config, t: Table, cid: string, now: int)
    requires cfg.scope.family.V4?
    ensures var (t', r) := Served(cfg, t, cid, Decline, now);
            && r == Silent && (forall a :: a in t' <==> a in t)
            && (forall a :: a in t && !SameId(t[a].identifier, cid) ==> t'[a] == t[a])
            && (forall a :: a in t && SameId(t[a].identifier, cid) ==>
                  t'[a].state == Declined && t'[a].expires == t[a].expires && SameId(t'[a].identifier, cid))
  {
    forall a | a in t ensures Lower(Lower(t[a].identifier)) == Lower(t[a].identifier) {
      LowerIsIdempotent(t[a].identifier);
    }
  }

  /** SOLICIT is answered with an advertised address, held two minutes at most; REQUEST with a lease; never refused. */
  lemma V6Outcome(cfg: Config, t: Table, cid: string, q: Request, now: int)
    requires cfg.scope.family.V6? && (q.Solicit6? || q.Request6?)
    ensures var (t', r) := Served(cfg, t, cid, q, now);
            var choice := Choose(cfg, t, cid, None, now);
            if choice.None? || choice.value.V4Addr? then r == Silent && t' == t
            else if q.Solicit6? then
              && r == Offer(choice.value)
              && Writes(t, t', choice.value, cid, now + (if cfg.scope.leaseSecs <= 120 then cfg.scope.leaseSecs else 120), Offered)
            else r == Ack(choice.value) && Writes(t, t', choice.value, cid, now + cfg.scope.leaseSecs, Active)
  {
  }

  /** Messages of the other version are not served. */
  lemma OtherVersionIsIgnored(cfg: Config, t: Table, cid: string, q: Request, now: int)
    requires cfg.scope.family.V4? <==> (q.Solicit6? || q.Request6? || q.Release6?)
    ensures Served(cfg, t, cid, q, now) == (t, Silent)
  {
  }

  /** A sweep removes exactly the rows whose expiry lies before it, and a deletion exactly its row. */
  lemma HousekeepingOutcome(cfg: Config, t: Table, now: int, a: IpAddr)
    ensures var t' := Step(cfg, t, Event(now, Sweep)).0;
            forall b :: (b in t' <==> b in t && !(t[b].expires < now)) && (b in t' ==> t'[b] == t[b])
    ensures var t' := Step(cfg, t, Event(now, AdminDelete(a))).0;
            forall b :: (b in t' <==> b in t && b != a) && (b in t' ==> t'[b] == t[b])
    ensures Step(cfg, t, Event(now, Ignored)) == (t, Silent)
  {
  }
}
