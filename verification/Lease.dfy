/**
 Address allocation for one DHCP scope (src/dhcp/lease.rs).

 Text fields that the source parses on use are `Option` values here: `None` stands for
 text that does not parse.
 */
module LeaseAllocation {
  import opened Wrappers
  import opened Text

  const MAX_V6_SCAN: int := 65_536

  datatype IpFamily = V4 | V6

  datatype IpAddr = V4Addr(v4: U32) | V6Addr(v6: U128) {
    function Family(): IpFamily {
      if V4Addr? then V4 else V6
    }

    function Num(): U128 {
      if V4Addr? then v4 else v6
    }
  }

  /** `u128_to_ip`: a v4 number is cut to its low 32 bits. */
  function FromNum(n: U128, family: IpFamily): IpAddr {
    match family
    case V4 => V4Addr(n % U32_LIMIT)
    case V6 => V6Addr(n)
  }

  datatype LeaseState = Offered | Active | Declined | Released | Expired

  datatype Lease = Lease(ip: Option<IpAddr>, identifier: string, expires: Option<int>, state: LeaseState)

  datatype Reservation = Reservation(identifier: string, ip: Option<IpAddr>)

  datatype Scope = Scope(family: IpFamily, rangeStart: Option<IpAddr>, rangeEnd: Option<IpAddr>, leaseSecs: U32)

  predicate IsHolding(l: Lease, now: int) {
    (l.state.Active? || l.state.Offered?) && l.expires.Some? && now < l.expires.value
  }

  predicate ValidRange(scope: Scope) {
    && scope.rangeStart.Some? && scope.rangeEnd.Some?
    && scope.rangeStart.value.Family() == scope.family
    && scope.rangeEnd.value.Family() == scope.family
    && scope.rangeStart.value.Num() <= scope.rangeEnd.value.Num()
  }

  predicate InPool(scope: Scope, n: int)
    requires ValidRange(scope)
  {
    scope.rangeStart.value.Num() <= n <= scope.rangeEnd.value.Num()
  }

  /** One past the last number the pool scan may look at. */
  function ScanLimit(scope: Scope): int
    requires ValidRange(scope)
  {
    var past := scope.rangeEnd.value.Num() + 1;
    if scope.family.V4? then past else Min(past, scope.rangeStart.value.Num() + MAX_V6_SCAN)
  }

  /** The first reservation of the client whose address parses. */
  function ReservedFor(rs: seq<Reservation>, cid: string): (r: Option<IpAddr>)
    ensures r.None? <==> forall x :: x in rs && SameId(x.identifier, cid) ==> x.ip.None?
    ensures r.Some? ==> exists x :: x in rs && SameId(x.identifier, cid) && x.ip == r
  {
    if rs == [] then None
    else if SameId(rs[0].identifier, cid) && rs[0].ip.Some? then rs[0].ip
    else
      var r := ReservedFor(rs[1..], cid);
      assert forall x :: x in rs <==> x == rs[0] || x in rs[1..];
      r
  }

  /** Numbers of all reserved addresses of the family. */
  ghost function ReservedNums(family: IpFamily, rs: seq<Reservation>): set<U128> {
    set x | x in rs && x.ip.Some? && x.ip.value.Family() == family :: x.ip.value.Num()
  }

  /** A lease of another client that currently holds an address of the family. */
  predicate HeldByOther(family: IpFamily, cid: string, now: int, l: Lease) {
    IsHolding(l, now) && !SameId(l.identifier, cid) && l.ip.Some? && l.ip.value.Family() == family
  }

  ghost function HeldNums(family: IpFamily, ls: seq<Lease>, cid: string, now: int): set<U128> {
    set l | l in ls && HeldByOther(family, cid, now, l) :: l.ip.value.Num()
  }

  /** The off-limits numbers for the client. */
  ghost function UsedNums(family: IpFamily, rs: seq<Reservation>, ls: seq<Lease>, cid: string, now: int): set<U128> {
    ReservedNums(family, rs) + HeldNums(family, ls, cid, now)
  }

  /** A lease the client itself holds and may keep. */
  ghost predicate OwnUsable(scope: Scope, used: set<U128>, cid: string, now: int, l: Lease)
    requires ValidRange(scope)
  {
    && SameId(l.identifier, cid) && IsHolding(l, now) && l.ip.Some?
    && InPool(scope, l.ip.value.Num()) && l.ip.value.Num() !in used
  }

  /** The address of the first lease in list order that the client may keep. */
  ghost function FirstOwn(scope: Scope, used: set<U128>, ls: seq<Lease>, cid: string, now: int): (r: Option<IpAddr>)
    requires ValidRange(scope)
    ensures r.None? <==> forall l :: l in ls ==> !OwnUsable(scope, used, cid, now, l)
    ensures r.Some? ==> exists l :: l in ls && OwnUsable(scope, used, cid, now, l) && l.ip == r
  {
    if ls == [] then None
    else if OwnUsable(scope, used, cid, now, ls[0]) then ls[0].ip
    else
      var r := FirstOwn(scope, used, ls[1..], cid, now);
      assert forall l :: l in ls <==> l == ls[0] || l in ls[1..];
      r
  }

  /** The least number from `n` on, below `limit`, that is not used. */
  ghost function LowestFree(used: set<U128>, n: int, limit: int): (r: Option<int>)
    ensures r.None? <==> forall k :: n <= k < limit ==> k in used
    ensures r.Some? ==> n <= r.value < limit && r.value !in used && forall k :: n <= k < r.value ==> k in used
    decreases limit - n
  {
    if limit <= n then None else if n !in used then Some(n) else LowestFree(used, n + 1, limit)
  }

  /**
   The declared policy, given what is reserved for the client, what it already holds, and
   which numbers are off limits.
   */
  ghost function Decide(scope: Scope, reserved: Option<IpAddr>, own: Option<IpAddr>, used: set<U128>,
                        requested: Option<IpAddr>): Option<IpAddr>
  {
    if reserved.Some? then reserved
    else if !ValidRange(scope) then None
    else if own.Some? then own
    else if && requested.Some? && requested.value.Family() == scope.family
            && InPool(scope, requested.value.Num()) && requested.value.Num() !in used then requested
    else
      var free := LowestFree(used, scope.rangeStart.value.Num(), ScanLimit(scope));
      if free.None? then None else Some(FromNum(free.value, scope.family))
  }

  ghost function Allocation(scope: Scope, rs: seq<Reservation>, ls: seq<Lease>, cid: string,
                            requested: Option<IpAddr>, now: int): Option<IpAddr>
  {
    var used := UsedNums(scope.family, rs, ls, cid, now);
    var own := if ValidRange(scope) then FirstOwn(scope, used, ls, cid, now) else None;
    Decide(scope, ReservedFor(rs, cid), own, used, requested)
  }

  /** The two loops that fill the set of off-limits numbers. */
  method CollectUsed(family: IpFamily, rs: seq<Reservation>, ls: seq<Lease>, cid: string, now: int)
    returns (used: set<U128>)
    ensures used == UsedNums(family, rs, ls, cid, now)
  {
    used := {};
    for i := 0 to |rs|
      invariant used == ReservedNums(family, rs[..i])
    {
      assert rs[..i + 1] == rs[..i] + [rs[i]];
      if rs[i].ip.Some? && rs[i].ip.value.Family() == family {
        used := used + {rs[i].ip.value.Num()};
      }
    }
    assert rs[..|rs|] == rs;
    ghost var reserved := used;
    ghost var held: set<U128> := {};
    for i := 0 to |ls|
      invariant used == reserved + held
      invariant held == HeldNums(family, ls[..i], cid, now)
    {
      assert ls[..i + 1] == ls[..i] + [ls[i]];
      if HeldByOther(family, cid, now, ls[i]) {
        used := used + {ls[i].ip.value.Num()};
        held := held + {ls[i].ip.value.Num()};
      }
    }
    assert ls[..|ls|] == ls;
  }

  /** Rule 1: the reservation loop. */
  method FindReservation(rs: seq<Reservation>, cid: string) returns (r: Option<IpAddr>)
    ensures r == ReservedFor(rs, cid)
  {
    for i := 0 to |rs|
      invariant ReservedFor(rs, cid) == ReservedFor(rs[i..], cid)
    {
      assert rs[i..][1..] == rs[i + 1..];
      if SameId(rs[i].identifier, cid) && rs[i].ip.Some? {
        return rs[i].ip;
      }
    }
    return None;
  }

  /** Rule 2: the reuse loop. */
  method FindOwn(scope: Scope, used: set<U128>, ls: seq<Lease>, cid: string, now: int) returns (r: Option<IpAddr>)
    requires ValidRange(scope)
    ensures r == FirstOwn(scope, used, ls, cid, now)
  {
    for i := 0 to |ls|
      invariant FirstOwn(scope, used, ls, cid, now) == FirstOwn(scope, used, ls[i..], cid, now)
    {
      assert ls[i..][1..] == ls[i + 1..];
      if SameId(ls[i].identifier, cid) && IsHolding(ls[i], now) && ls[i].ip.Some? {
        var n := ls[i].ip.value.Num();
        if scope.rangeStart.value.Num() <= n <= scope.rangeEnd.value.Num() && n !in used {
          return ls[i].ip;
        }
      }
    }
    return None;
  }

  /** `allocate`: the four rules in order. */
  method Allocate(scope: Scope, rs: seq<Reservation>, ls: seq<Lease>, cid: string,
                  requested: Option<IpAddr>, now: int) returns (r: Option<IpAddr>)
    ensures r == Allocation(scope, rs, ls, cid, requested, now)
  {
    r := FindReservation(rs, cid);
    if r.Some? {
      return;
    }
    if !ValidRange(scope) {
      return None;
    }
    var used := CollectUsed(scope.family, rs, ls, cid, now);
    r := FindOwn(scope, used, ls, cid, now);
    if r.Some? {
      return;
    }
    if requested.Some? && requested.value.Family() == scope.family {
      var n := requested.value.Num();
      if scope.rangeStart.value.Num() <= n <= scope.rangeEnd.value.Num() && n !in used {
        return requested;
      }
    }
    r := ScanPool(scope, used);
  }

  /** Rule 4: walk the pool upward; `n` and `probed` never leave the 128-bit range. */
  method ScanPool(scope: Scope, used: set<U128>) returns (r: Option<IpAddr>)
    requires ValidRange(scope)
    ensures var free := LowestFree(used, scope.rangeStart.value.Num(), ScanLimit(scope));
            r == if free.None? then None else Some(FromNum(free.value, scope.family))
  {
    var maxScan: U128 := if scope.family.V4? then U128_LIMIT - 1 else MAX_V6_SCAN;
    var n: U128 := scope.rangeStart.value.Num();
    var probed: U128 := 0;
    while true
      invariant probed == n - scope.rangeStart.value.Num() && probed < maxScan
      invariant n <= scope.rangeEnd.value.Num() && n < ScanLimit(scope)
      invariant LowestFree(used, scope.rangeStart.value.Num(), ScanLimit(scope))
             == LowestFree(used, n, ScanLimit(scope))
      decreases scope.rangeEnd.value.Num() - n
    {
      if n !in used {
        return Some(FromNum(n, scope.family));
      }
      if n == scope.rangeEnd.value.Num() {
        break;
      }
      n := n + 1;
      probed := probed + 1;
      if probed >= maxScan {
        break;
      }
    }
    return None;
  }

  /** What a granted address is, for every input. */
  ghost predicate Justified(scope: Scope, rs: seq<Reservation>, ls: seq<Lease>, cid: string, now: int, a: IpAddr) {
    || (exists x :: x in rs && SameId(x.identifier, cid) && x.ip == Some(a))
    || (&& ValidRange(scope) && InPool(scope, a.Num())
        && a.Num() !in UsedNums(scope.family, rs, ls, cid, now)
        && (a.Family() == scope.family
            || exists l :: l in ls && OwnUsable(scope, UsedNums(scope.family, rs, ls, cid, now), cid, now, l) && l.ip == Some(a)))
  }

  lemma ScannedNumberKeepsItsValue(scope: Scope, n: int)
    requires ValidRange(scope) && InPool(scope, n)
    ensures FromNum(n, scope.family).Num() == n && FromNum(n, scope.family).Family() == scope.family
  {
    if scope.family.V4? {
      assert n <= scope.rangeEnd.value.v4 < U32_LIMIT;
    }
  }

  /** A number is off limits exactly if it is reserved, or another client holds it under a lease that is not over. */
  lemma UsedMeans(family: IpFamily, rs: seq<Reservation>, ls: seq<Lease>, cid: string, now: int, n: U128)
    ensures n in UsedNums(family, rs, ls, cid, now) <==>
            || (exists x :: x in rs && x.ip.Some? && x.ip.value.Family() == family && x.ip.value.Num() == n)
            || (exists l :: && l in ls && (l.state == Active || l.state == Offered) && l.expires.Some? && now < l.expires.value
                            && !SameId(l.identifier, cid) && l.ip.Some? && l.ip.value.Family() == family && l.ip.value.Num() == n)
  {
    if l :| && l in ls && (l.state == Active || l.state == Offered) && l.expires.Some? && now < l.expires.value
            && !SameId(l.identifier, cid) && l.ip.Some? && l.ip.value.Family() == family && l.ip.value.Num() == n {
      assert HeldByOther(family, cid, now, l);
    }
  }

  /** The pool runs from the first to the last address of the range, both included. */
  lemma PoolMeans(scope: Scope, n: int)
    requires ValidRange(scope)
    ensures InPool(scope, n) <==> scope.rangeStart.value.Num() <= n && n <= scope.rangeEnd.value.Num()
  {
  }

  /** A range that does not parse, is of the other family or runs backwards grants nothing but reservations. */
  lemma InvalidRangeGrantsNothing(scope: Scope, rs: seq<Reservation>, ls: seq<Lease>, cid: string, requested: Option<IpAddr>, now: int)
    requires forall x :: x in rs && SameId(x.identifier, cid) ==> x.ip.None?
    requires || scope.rangeStart.None? || scope.rangeEnd.None?
             || scope.rangeStart.value.Family() != scope.family || scope.rangeEnd.value.Family() != scope.family
             || scope.rangeEnd.value.Num() < scope.rangeStart.value.Num()
    ensures Allocation(scope, rs, ls, cid, requested, now) == None
  {
  }

  /** Of several own leases the first listed one that may be kept is. */
  lemma {:induction false} FirstOwnIsFirst(scope: Scope, used: set<U128>, ls: seq<Lease>, cid: string, now: int, i: nat)
    requires ValidRange(scope) && i < |ls| && OwnUsable(scope, used, cid, now, ls[i])
    requires forall j :: 0 <= j < i ==> !OwnUsable(scope, used, cid, now, ls[j])
    ensures FirstOwn(scope, used, ls, cid, now) == ls[i].ip
  {
    if i > 0 {
      assert !OwnUsable(scope, used, cid, now, ls[0]) && ls[1..][i - 1] == ls[i];
      FirstOwnIsFirst(scope, used, ls[1..], cid, now, i - 1);
    }
  }

  /** Every granted address is the client's reservation or a free pool address. */
  lemma AllocationIsJustified(scope: Scope, rs: seq<Reservation>, ls: seq<Lease>, cid: string,
                              requested: Option<IpAddr>, now: int)
    ensures var r := Allocation(scope, rs, ls, cid, requested, now);
            r.Some? ==> Justified(scope, rs, ls, cid, now, r.value)
  {
    var used := UsedNums(scope.family, rs, ls, cid, now);
    if ReservedFor(rs, cid).None? && ValidRange(scope) {
      var free := LowestFree(used, scope.rangeStart.value.Num(), ScanLimit(scope));
      if free.Some? {
        ScannedNumberKeepsItsValue(scope, free.value);
      }
    }
  }

  /** The rules never step on each other: each one fires exactly when the earlier ones do not apply. */
  lemma AllocationPriority(scope: Scope, rs: seq<Reservation>, ls: seq<Lease>, cid: string,
                           requested: Option<IpAddr>, now: int)
    requires ValidRange(scope)
    ensures var r := Allocation(scope, rs, ls, cid, requested, now);
            var used := UsedNums(scope.family, rs, ls, cid, now);
            var reserved := exists x :: x in rs && SameId(x.identifier, cid) && x.ip.Some?;
            var owns := exists l :: l in ls && OwnUsable(scope, used, cid, now, l);
            var wants := requested.Some? && requested.value.Family() == scope.family
                         && InPool(scope, requested.value.Num()) && requested.value.Num() !in used;
            && (reserved ==> exists x :: x in rs && SameId(x.identifier, cid) && x.ip.Some? && r == x.ip)
            && (!reserved && owns ==> exists l :: l in ls && OwnUsable(scope, used, cid, now, l) && r == l.ip)
            && (!reserved && !owns && wants ==> r == requested)
            && (!reserved && !owns && !wants && r.Some? ==>
                  && r.value.Family() == scope.family && InPool(scope, r.value.Num())
                  && r.value.Num() !in used
                  && forall k :: scope.rangeStart.value.Num() <= k < r.value.Num() ==> k in used)
  {
    var used := UsedNums(scope.family, rs, ls, cid, now);
    var free := LowestFree(used, scope.rangeStart.value.Num(), ScanLimit(scope));
    if free.Some? {
      ScannedNumberKeepsItsValue(scope, free.value);
    }
  }

  ghost function Interval(lo: int, hi: int): (s: set<int>)
    ensures forall k :: k in s <==> lo <= k < hi
    ensures |s| == Max(0, hi - lo)
    decreases hi - lo
  {
    if hi <= lo then {} else Interval(lo, hi - 1) + {hi - 1}
  }

  lemma SubsetIsNoLarger<T>(a: set<T>, b: set<T>)
    requires a <= b
    ensures |a| <= |b|
  {
    assert b == a + (b - a);
  }

  /**
   Exhaustion, exactly: a client without a reservation is refused on a valid range if and only if
   every number the scan may look at is used and neither its own lease nor its wish is available.
   Fewer used numbers than scanned ones (pigeonhole) therefore always yield an address.
   */
  lemma AllocationFailsOnlyWhenFull(scope: Scope, rs: seq<Reservation>, ls: seq<Lease>, cid: string,
                                    requested: Option<IpAddr>, now: int)
    requires ValidRange(scope) && ReservedFor(rs, cid).None?
    ensures var used := UsedNums(scope.family, rs, ls, cid, now);
            var r := Allocation(scope, rs, ls, cid, requested, now);
            var start, end := scope.rangeStart.value.Num(), scope.rangeEnd.value.Num();
            var reach := if scope.family.V6? && end - start + 1 > 65536 then 65536 else end - start + 1;
            var full := forall k :: start <= k < start + reach ==> k in used;
            var owns := exists l :: l in ls && OwnUsable(scope, used, cid, now, l);
            var wants := requested.Some? && requested.value.Family() == scope.family
                         && InPool(scope, requested.value.Num()) && requested.value.Num() !in used;
            && (r.None? <==> full && !owns && !wants)
            && (|used| < reach ==> r.Some?)
            && (scope.family.V4? ==> (r.None? <==> forall k :: start <= k <= end ==> k in used))
  {
    PoolScan(scope, UsedNums(scope.family, rs, ls, cid, now));
  }

  /** The scan finds nothing exactly when all it looks at is used, which needs that many used numbers. */
  lemma PoolScan(scope: Scope, used: set<U128>)
    requires ValidRange(scope)
    ensures var start := scope.rangeStart.value.Num();
            LowestFree(used, start, ScanLimit(scope)).None? ==> |used| >= ScanLimit(scope) - start
  {
    var start := scope.rangeStart.value.Num();
    if LowestFree(used, start, ScanLimit(scope)).None? {
      assert Interval(start, ScanLimit(scope)) <= used;
      SubsetIsNoLarger(Interval(start, ScanLimit(scope)), used);
    }
  }

}
