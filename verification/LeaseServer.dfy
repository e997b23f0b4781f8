/**
 The serving loop's mutable lease table: each method updates it in place and is proved to take exactly the
 step of `LeaseEngine` (src/dhcp/server.rs `handle_v4`, `handle_v6`, `release_v4_lease`; src/db.rs lease queries).
 */
module LeaseServer {
  import opened Wrappers
  import opened Text
  import opened LeaseAllocation
  import opened LeaseEngine

  class Server {
    const cfg: Config
    var rows: Table

    constructor (cfg: Config)
      ensures this.cfg == cfg && rows == map[]
      ensures forall now :: Inv(cfg, rows, now)
    {
      this.cfg := cfg;
      rows := map[];
    }

    /** `list_dhcp_leases`: every row once, in an order the callers must not rely on. */
    method ListLeases() returns (ls: seq<Lease>)
      ensures Lists(ls, rows)
      ensures |ls| == |rows|
    {
      ls := [];
      var rest := rows.Keys;
      while rest != {}
        invariant rest <= rows.Keys && |ls| + |rest| == |rows.Keys|
        invariant forall a :: a in rows && a !in rest ==> AsLease(a, rows[a]) in ls
        invariant forall l :: l in ls ==> l.ip.Some? && l.ip.value in rows && l == AsLease(l.ip.value, rows[l.ip.value])
        decreases rest
      {
        var a :| a in rest;
        ls := ls + [AsLease(a, rows[a])];
        rest := rest - {a};
      }
    }

    /** `upsert_dhcp_lease`: insert, or overwrite on the (scope, ip) conflict. */
    method UpsertLease(a: IpAddr, cid: string, expires: int, state: LeaseState)
      modifies this
      ensures rows == old(rows)[a := Row(Lower(cid), expires, state)]
    {
      rows := rows[a := Row(Lower(cid), expires, state)];
    }

    /** `delete_dhcp_lease` */
    method DeleteLease(a: IpAddr)
      modifies this
      ensures rows == old(rows) - {a}
    {
      rows := rows - {a};
    }

    /** `prune_expired_leases`: strictly expired rows go. */
    method PruneExpired(now: int)
      modifies this
      ensures rows == Step(cfg, old(rows), Event(now, Sweep)).0
    {
      rows := map a | a in rows && !(rows[a].expires < now) :: rows[a];
    }

    /** RELEASE (and the v6 DECLINE): delete each row of the client. */
    method ReleaseLeases(ls: seq<Lease>, cid: string)
      requires Lists(ls, rows)
      modifies this
      ensures rows == DeleteRowsOf(old(rows), cid)
    {
      for i := 0 to |ls|
        invariant forall a :: a in rows <==> a in old(rows) && !(SameId(old(rows)[a].identifier, cid) && AsLease(a, old(rows)[a]) in ls[..i])
        invariant forall a :: a in rows ==> rows[a] == old(rows)[a]
      {
        assert forall l :: l in ls[..i + 1] <==> l in ls[..i] || l == ls[i];
        if SameId(ls[i].identifier, cid) {
          DeleteLease(ls[i].ip.value);
        }
      }
      assert ls[..|ls|] == ls;
    }

    /** DECLINE: mark each row of the client, keeping everything else in it. */
    method DeclineLeases(ls: seq<Lease>, cid: string)
      requires Lists(ls, rows)
      modifies this
      ensures rows == DeclineRowsOf(old(rows), cid)
    {
      ghost var done: set<IpAddr> := {};
      for i := 0 to |ls|
        invariant rows.Keys == old(rows).Keys
        invariant forall k :: 0 <= k < i ==> ls[k].ip.value in done
        invariant forall a :: a in done ==> a in rows && rows[a] == DeclineRowsOf(old(rows), cid)[a]
        invariant forall a :: a in rows && a !in done ==> rows[a] == old(rows)[a]
      {
        if SameId(ls[i].identifier, cid) {
          UpsertLease(ls[i].ip.value, ls[i].identifier, ls[i].expires.value, Declined);
        }
        done := done + {ls[i].ip.value};
      }
      forall a | a in rows ensures a in done {
        assert AsLease(a, old(rows)[a]) in ls;
      }
    }

    /** List the leases and allocate from that listing. */
    method AllocateFor(cid: string, requested: Option<IpAddr>, now: int) returns (r: Option<IpAddr>)
      requires Inv(cfg, rows, now)
      ensures r == Choose(cfg, rows, cid, requested, now)
    {
      var ls := ListLeases();
      r := Allocate(cfg.scope, cfg.reservations, ls, cid, requested, now);
      ListingDoesNotMatter(cfg, rows, ls, cid, requested, now);
    }

    /** `handle_v4` after the allocation (its result `r` is used by DISCOVER and REQUEST only). */
    method ReplyV4(cid: string, q: Request, now: int, r: Option<IpAddr>) returns (reply: Reply)
      modifies this
      ensures (rows, reply) == HandleV4(cfg, old(rows), cid, q, now, r)
    {
      reply := Silent;
      match q {
        case Discover(requested) =>
          if r.Some? && r.value.V4Addr? {
            UpsertLease(r.value, cid, now + Min(cfg.scope.leaseSecs, OFFER_HOLD_SECS), Offered);
            reply := Offer(r.value);
          }
        case Request(wanted, ciaddr) =>
          var desired := if wanted.Some? then AsV4(wanted) else if ciaddr != 0 then Some(V4Addr(ciaddr)) else None;
          if r.Some? && r.value.V4Addr? && (desired.None? || desired.value == r.value) {
            UpsertLease(r.value, cid, now + cfg.scope.leaseSecs, Active);
            reply := Ack(r.value);
          } else {
            reply := Nak;
          }
        case Release =>
          var ls := ListLeases();
          ReleaseLeases(ls, cid);
        case Decline =>
          var ls := ListLeases();
          DeclineLeases(ls, cid);
        case Inform => reply := InformAck;
        case _ =>
      }
    }

    /** `handle_v6` after the allocation. */
    method ReplyV6(cid: string, q: Request, now: int, r: Option<IpAddr>) returns (reply: Reply)
      modifies this
      ensures (rows, reply) == HandleV6(cfg, old(rows), cid, q, now, r)
    {
      reply := Silent;
      if q.Solicit6? || q.Request6? {
        if r.Some? && r.value.V6Addr? {
          if q.Solicit6? {
            UpsertLease(r.value, cid, now + Min(cfg.scope.leaseSecs, OFFER_HOLD_SECS), Offered);
            reply := Offer(r.value);
          } else {
            UpsertLease(r.value, cid, now + cfg.scope.leaseSecs, Active);
            reply := Ack(r.value);
          }
        }
      } else if q.Release6? {
        var ls := ListLeases();
        ReleaseLeases(ls, cid);
      }
    }

    /** One message: read the table, allocate where the message asks for an address, write the row, reply. */
    method Serve(cid: string, q: Request, now: int) returns (reply: Reply)
      requires Inv(cfg, rows, now)
      modifies this
      ensures (rows, reply) == Step(cfg, old(rows), Event(now, Message(cid, q)))
    {
      var r: Option<IpAddr> := None;
      if q.Discover? || q.Request? || q.Solicit6? || q.Request6? {
        r := AllocateFor(cid, RequestedBy(q), now);
      }
      if cfg.scope.family.V4? {
        reply := ReplyV4(cid, q, now, r);
      } else {
        reply := ReplyV6(cid, q, now, r);
      }
    }

    /** Any event of a run. */
    method Take(ev: Event) returns (reply: Reply)
      requires Inv(cfg, rows, ev.now)
      modifies this
      ensures (rows, reply) == Step(cfg, old(rows), ev)
    {
      reply := Silent;
      match ev.action {
        case Message(cid, q) => reply := Serve(cid, q, ev.now);
        case Sweep => PruneExpired(ev.now);
        case AdminDelete(a) => DeleteLease(a);
        case Ignored =>
      }
    }

    /** The next event of a run. */
    method TakeNext(evs: seq<Event>, k: nat) returns (reply: Reply)
      requires k < |evs| && rows == After(cfg, evs, k) && ClockNeverRunsBack(evs)
      modifies this
      ensures rows == After(cfg, evs, k + 1) && reply == ReplyAt(cfg, evs, k)
    {
      ReachableTablesAreGood(cfg, evs, k, evs[k].now);
      reply := Take(evs[k]);
    }

    /** Serve a whole run: the table and all replies are those of the machine. */
    method ServeAll(evs: seq<Event>) returns (replies: seq<Reply>)
      requires rows == map[] && ClockNeverRunsBack(evs)
      modifies this
      ensures rows == After(cfg, evs, |evs|)
      ensures |replies| == |evs| && forall k :: 0 <= k < |evs| ==> replies[k] == ReplyAt(cfg, evs, k)
    {
      replies := [];
      for k := 0 to |evs|
        invariant rows == After(cfg, evs, k)
        invariant |replies| == k && forall i :: 0 <= i < k ==> replies[i] == ReplyAt(cfg, evs, i)
      {
        var reply := TakeNext(evs, k);
        replies := replies + [reply];
      }
    }
  }
}
