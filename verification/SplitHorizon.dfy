/** What a client may see: split-horizon override and noninterference between views (src/store.rs). */
module SplitHorizon {
  import opened Wrappers
  import opened Names
  import opened Seqs
  import opened Store

  // ----- One owner -----

  lemma ResolveMembers(recs: seq<StoredRecord>, v: int, t: int, r: StoredRecord)
    ensures r in Resolve(recs, v, t) <==>
            && r in recs && r.rdata.Type() == t
            && (r.view == Some(v) || (r.view.None? && forall s :: s in recs && s.rdata.Type() == t ==> s.view != Some(v)))
  {
    var specific := FilterMap(recs, SpecificTo(v, t));
    FilterMapMembers(recs, SpecificTo(v, t), r);
    FilterMapMembers(recs, ForAllViews(t), r);
    if specific == [] {
      forall s | s in recs && s.rdata.Type() == t ensures s.view != Some(v) {
        FilterMapMembers(recs, SpecificTo(v, t), s);
      }
    } else {
      FilterMapMembers(recs, SpecificTo(v, t), specific[0]);
      assert specific[0] in specific;
    }
  }

  function OnlyVisible(v: int): StoredRecord -> Option<StoredRecord> {
    (r: StoredRecord) => if r.view.None? || r.view == Some(v) then Some(r) else None
  }

  /** The override only looks at records of the client's view and of all views. */
  lemma ResolveSeesOnlyVisible(recs: seq<StoredRecord>, v: int, t: int)
    ensures Resolve(recs, v, t) == Resolve(FilterMap(recs, OnlyVisible(v)), v, t)
  {
    FilterMapCompose(recs, OnlyVisible(v), SpecificTo(v, t), SpecificTo(v, t));
    FilterMapCompose(recs, OnlyVisible(v), ForAllViews(t), ForAllViews(t));
  }

  lemma {:induction false} ConcatAgree<T>(f: int -> seq<T>, g: int -> seq<T>, n: nat)
    requires forall t :: 0 <= t < n ==> f(t) == g(t)
    ensures ConcatBelow(f, n) == ConcatBelow(g, n)
  {
    if n > 0 {
      ConcatAgree(f, g, n - 1);
    }
  }

  lemma SameVisibleSameDump(a: seq<StoredRecord>, b: seq<StoredRecord>, v: int)
    requires FilterMap(a, OnlyVisible(v)) == FilterMap(b, OnlyVisible(v))
    ensures forall t :: Resolve(a, v, t) == Resolve(b, v, t)
    ensures Dump(a, v) == Dump(b, v)
  {
    forall t ensures Resolve(a, v, t) == Resolve(b, v, t) {
      ResolveSeesOnlyVisible(a, v, t);
      ResolveSeesOnlyVisible(b, v, t);
    }
    ConcatAgree(ResolveType(a, v), ResolveType(b, v), U16_LIMIT);
  }

  // ----- Two zones that differ only in other views -----

  /** What one owner holds that view `v` may see; nothing if the owner is not stored. */
  function VisiblePart(zone: StoredZone, v: int, k: Name): seq<StoredRecord> {
    if k in zone.records then FilterMap(zone.records[k], OnlyVisible(v)) else []
  }

  /** The zones differ only in records of views other than `v`, and in owners that hold nothing else. */
  ghost predicate DifferInOtherViews(v: int, a: StoredZone, b: StoredZone) {
    && a.apex == b.apex && a.serial == b.serial && a.minimum == b.minimum
    && forall k :: VisiblePart(a, v, k) == VisiblePart(b, v, k)
  }

  /** The owner shows nothing to view `v`. */
  predicate Blank(zone: StoredZone, v: int, owner: Name) {
    owner in zone.records && Dump(zone.records[owner], v) == []
  }

  /** Each owner that only `a` stores is answered in `b` by a wildcard that shows nothing to view `v`. */
  ghost predicate Masked(v: int, a: StoredZone, b: StoredZone) {
    forall k :: k in a.records && k !in b.records ==> OwnerFor(b, k).Some? && Blank(b, v, OwnerFor(b, k).value)
  }

  ghost predicate SameFor(v: int, a: StoredZone, b: StoredZone) {
    DifferInOtherViews(v, a, b) && Masked(v, a, b) && Masked(v, b, a)
  }

  lemma BlankResolvesToNothing(recs: seq<StoredRecord>, v: int)
    requires Dump(recs, v) == []
    ensures forall t :: Resolve(recs, v, t) == []
  {
    forall t ensures Resolve(recs, v, t) == [] {
      if Resolve(recs, v, t) != [] {
        var r := Resolve(recs, v, t)[0];
        ResolveMembers(recs, v, t, r);
        DumpMembers(recs, v, r);
      }
    }
  }

  lemma OneSidedOwnersAreBlank(v: int, a: StoredZone, b: StoredZone, k: Name)
    requires DifferInOtherViews(v, a, b) && k in a.records && k !in b.records
    ensures Blank(a, v, k)
  {
    assert VisiblePart(a, v, k) == [];
    assert FilterMap<StoredRecord, StoredRecord>([], OnlyVisible(v)) == [];
    SameVisibleSameDump(a.records[k], [], v);
    NothingStoredShowsNothing(v);
  }

  lemma NothingStoredShowsNothing(v: int)
    ensures Dump([], v) == []
  {
    forall t ensures ResolveType([], v)(t) == [] {
    }
    ConcatOfOne(ResolveType([], v), -1, U16_LIMIT);
  }

  /** The walk from a wildcard that is not stored goes on as the walk it came from. */
  lemma {:induction false} WalkShifts(records: map<Name, seq<StoredRecord>>, key: Name, i: nat, j: nat)
    requires i + j <= |key|
    ensures WildcardFrom(records, ["*"] + key[i..], j + 1) == WildcardFrom(records, key, i + j)
    decreases |key| - j
  {
    var w := ["*"] + key[i..];
    assert w[j + 1..] == key[i + j..];
    if i + j < |key| {
      WalkShifts(records, key, i, j + 1);
    }
  }

  lemma MissingWildcardWalk(zone: StoredZone, key: Name, i: nat)
    requires i < |key| && ["*"] + key[i..] !in zone.records
    ensures OwnerFor(zone, ["*"] + key[i..]) == WildcardFrom(zone.records, key, i)
  {
    WalkShifts(zone.records, key, i, 0);
  }

  /** Both zones find the same owner, or owners that show nothing, or none. */
  ghost predicate OwnersMatch(v: int, a: StoredZone, b: StoredZone, x: Option<Name>, y: Option<Name>) {
    || (x == y && (x.Some? ==> x.value in a.records && x.value in b.records))
    || (x.Some? && y.Some? && Blank(a, v, x.value) && Blank(b, v, y.value))
  }

  lemma {:induction false} WalksMatch(v: int, a: StoredZone, b: StoredZone, key: Name, i: nat)
    requires SameFor(v, a, b) && i <= |key|
    ensures OwnersMatch(v, a, b, WildcardFrom(a.records, key, i), WildcardFrom(b.records, key, i))
    decreases |key| - i
  {
    if i < |key| {
      var w := ["*"] + key[i..];
      if w in a.records && w !in b.records {
        OneSidedOwnersAreBlank(v, a, b, w);
        MissingWildcardWalk(b, key, i);
      } else if w !in a.records && w in b.records {
        OneSidedOwnersAreBlank(v, b, a, w);
        MissingWildcardWalk(a, key, i);
      } else {
        WalksMatch(v, a, b, key, i + 1);
      }
    }
  }

  lemma SameForSameOwner(v: int, a: StoredZone, b: StoredZone, key: Name)
    requires SameFor(v, a, b)
    ensures OwnersMatch(v, a, b, OwnerFor(a, key), OwnerFor(b, key))
  {
    if key in a.records && key !in b.records {
      OneSidedOwnersAreBlank(v, a, b, key);
    } else if key !in a.records && key in b.records {
      OneSidedOwnersAreBlank(v, b, a, key);
    } else if key !in a.records && key != [] {
      WalksMatch(v, a, b, key, 1);
    }
  }

  lemma MatchingOwnersShowTheSame(v: int, a: StoredZone, b: StoredZone, x: Name, y: Name)
    requires DifferInOtherViews(v, a, b) && x in a.records && y in b.records
    requires OwnersMatch(v, a, b, Some(x), Some(y))
    ensures forall t :: Resolve(a.records[x], v, t) == Resolve(b.records[y], v, t)
    ensures Dump(a.records[x], v) == Dump(b.records[y], v)
  {
    if x == y {
      assert VisiblePart(a, v, x) == VisiblePart(b, v, x);
      SameVisibleSameDump(a.records[x], b.records[x], v);
    } else {
      BlankResolvesToNothing(a.records[x], v);
      BlankResolvesToNothing(b.records[y], v);
    }
  }

  lemma SameForSameSight(v: int, a: StoredZone, b: StoredZone, name: Name, t: int)
    requires SameFor(v, a, b)
    ensures SightOf(a, v)(name, t) == SightOf(b, v)(name, t)
  {
    SameForSameOwner(v, a, b, Key(name));
    var x, y := OwnerFor(a, Key(name)), OwnerFor(b, Key(name));
    if x.Some? {
      MatchingOwnersShowTheSame(v, a, b, x.value, y.value);
    }
  }

  ghost predicate SameSight(see: Sight, look: Sight) {
    forall name: Name, t: int :: see(name, t) == look(name, t)
  }

  lemma {:induction false} SameSightSameChase(apex: Name, see: Sight, look: Sight, qtype: int, current: Name,
                                              chase: seq<StoredRecord>, depth: nat)
    requires SameSight(see, look) && depth <= MAX_CHASE
    ensures Chase(apex, see, qtype, current, chase, depth) == Chase(apex, look, qtype, current, chase, depth)
    decreases MAX_CHASE - depth
  {
    var next := LastTarget(chase);
    if next.Some? && depth < MAX_CHASE {
      SameSightSameChase(apex, see, look, qtype, next.value, see(next.value, CNAME), depth + 1);
    }
  }

  lemma SameForSameRecords(v: int, a: StoredZone, b: StoredZone, key: Name)
    requires SameFor(v, a, b)
    ensures RecordsAt(a, key).Some? <==> RecordsAt(b, key).Some?
    ensures RecordsAt(a, key).Some? ==> Dump(RecordsAt(a, key).value, v) == Dump(RecordsAt(b, key).value, v)
  {
    SameForSameOwner(v, a, b, key);
    var x, y := OwnerFor(a, key), OwnerFor(b, key);
    if x.Some? {
      MatchingOwnersShowTheSame(v, a, b, x.value, y.value);
    }
  }

  lemma SameForSameSights(v: int, a: StoredZone, b: StoredZone)
    requires SameFor(v, a, b)
    ensures SameSight(SightOf(a, v), SightOf(b, v))
  {
    forall name: Name, t: int ensures SightOf(a, v)(name, t) == SightOf(b, v)(name, t) {
      SameForSameSight(v, a, b, name, t);
    }
  }

  lemma SameForSameLookup(v: int, a: StoredZone, b: StoredZone, q: Name, qtype: int)
    requires SameFor(v, a, b)
    ensures LookupInZone(a, v, q, qtype) == LookupInZone(b, v, q, qtype)
  {
    if qtype == ANY {
      SameForSameAny(v, a, b, q);
    } else {
      SameForSameType(v, a, b, q, qtype);
    }
  }

  lemma SameForSameAny(v: int, a: StoredZone, b: StoredZone, q: Name)
    requires SameFor(v, a, b)
    ensures LookupInZone(a, v, q, ANY) == LookupInZone(b, v, q, ANY)
  {
    SameForSameRecords(v, a, b, Key(q));
  }

  lemma SameForSameType(v: int, a: StoredZone, b: StoredZone, q: Name, qtype: int)
    requires SameFor(v, a, b) && qtype != ANY
    ensures LookupInZone(a, v, q, qtype) == LookupInZone(b, v, q, qtype)
  {
    assert RecordsAt(a, Key(q)).Some? <==> RecordsAt(b, Key(q)).Some? by {
      SameForSameRecords(v, a, b, Key(q));
    }
    assert LookupType(a, SightOf(a, v), q, qtype) == LookupType(b, SightOf(b, v), q, qtype) by {
      SameForSameSights(v, a, b);
      SameSightSameType(a, b, SightOf(a, v), SightOf(b, v), q, qtype);
    }
  }

  lemma SameSightSameType(a: StoredZone, b: StoredZone, see: Sight, look: Sight, q: Name, qtype: int)
    requires SameSight(see, look) && a.apex == b.apex && a.serial == b.serial && a.minimum == b.minimum
    ensures LookupType(a, see, q, qtype) == LookupType(b, look, q, qtype)
  {
    assert see(q, qtype) == look(q, qtype) && see(q, CNAME) == look(q, CNAME);
    SameSightSameChase(a.apex, see, look, qtype, q, see(q, CNAME), 0);
  }

  lemma {:induction false} SameForSameZone(v: int, a: seq<StoredZone>, b: seq<StoredZone>, q: Name)
    requires |a| == |b| && forall i :: 0 <= i < |a| ==> SameFor(v, a[i], b[i])
    ensures ZoneFor(a, q).Some? <==> ZoneFor(b, q).Some?
    ensures ZoneFor(a, q).Some? ==> SameFor(v, ZoneFor(a, q).value, ZoneFor(b, q).value)
  {
    if a != [] {
      assert SameFor(v, a[0], b[0]);
      forall i | 0 <= i < |a[1..]| ensures SameFor(v, a[1..][i], b[1..][i]) {
        assert SameFor(v, a[i + 1], b[i + 1]);
      }
      SameForSameZone(v, a[1..], b[1..], q);
    }
  }

  /**
   Split-horizon noninterference: changing records of other views changes nothing a client of view `v` gets, for
   every name and type, ANY and CNAME chases included, as long as owners that come or go with them are answered
   on the other side by a wildcard that shows nothing either. With the same owner names that holds trivially.
   */
  lemma OtherViewsDoNotInterfere(s: ZoneStore, t: ZoneStore, q: Name, qtype: int, c: Client)
    requires s.views == t.views && |s.zones| == |t.zones|
    requires forall i :: 0 <= i < |s.zones| ==> SameFor(ViewFor(s.views, c), s.zones[i], t.zones[i])
    ensures Lookup(s, q, qtype, c) == Lookup(t, q, qtype, c)
  {
    var v := ViewFor(s.views, c);
    SameForSameZone(v, s.zones, t.zones, q);
    if ZoneFor(s.zones, q).Some? {
      SameForSameLookup(v, ZoneFor(s.zones, q).value, ZoneFor(t.zones, q).value, q, qtype);
    }
  }

  ghost predicate AnswerAlike(v: int, a: StoredZone, b: StoredZone) {
    forall q: Name, t: U16 :: LookupInZone(a, v, q, t) == LookupInZone(b, v, q, t)
  }

  ghost predicate FoldedOwners(zone: StoredZone) {
    forall k :: k in zone.records ==> Key(k) == k
  }

  lemma AnyOutcome(zone: StoredZone, v: int, q: Name)
    ensures LookupInZone(zone, v, q, ANY).outcome
         == if OwnerFor(zone, Key(q)).None? then NxDomain
            else if Dump(zone.records[OwnerFor(zone, Key(q)).value], v) == [] then NoData
            else Authoritative
  {
  }

  lemma AlikeMeansMasked(v: int, a: StoredZone, b: StoredZone)
    requires DifferInOtherViews(v, a, b) && FoldedOwners(a) && AnswerAlike(v, a, b)
    ensures Masked(v, a, b)
  {
    forall k | k in a.records && k !in b.records ensures OwnerFor(b, k).Some? && Blank(b, v, OwnerFor(b, k).value) {
      OneSidedOwnersAreBlank(v, a, b, k);
      assert LookupInZone(a, v, k, ANY) == LookupInZone(b, v, k, ANY);
      AnyOutcome(a, v, k);
      AnyOutcome(b, v, k);
    }
  }

  /**
   Exactly: zones that differ only in other views' records give view `v` the same answers to all questions if and
   only if each owner stored on one side only is answered on the other by a wildcard that shows nothing to `v`.
   */
  lemma NoninterferenceIff(v: int, a: StoredZone, b: StoredZone)
    requires DifferInOtherViews(v, a, b) && FoldedOwners(a) && FoldedOwners(b)
    ensures AnswerAlike(v, a, b) <==> Masked(v, a, b) && Masked(v, b, a)
  {
    if Masked(v, a, b) && Masked(v, b, a) {
      forall q: Name, t: U16 ensures LookupInZone(a, v, q, t) == LookupInZone(b, v, q, t) {
        SameForSameLookup(v, a, b, q, t);
      }
    }
    if AnswerAlike(v, a, b) {
      AlikeMeansMasked(v, a, b);
      AlikeMeansMasked(v, b, a);
    }
  }

  /** Owner names are not view-specific: a record of another view can turn NXDOMAIN into NODATA. */
  lemma ForeignOwnerNamesShow(apex: Name, sub: string, text: string, v: int, w: int)
    requires v != w && Key(apex) == apex && Key([sub]) == [sub]
    ensures var hidden := StoredRecord(60, Some(w), Data(1, text));
            var name := [sub] + apex;
            && LookupInZone(StoredZone(apex, 1, 60, map[]), v, name, 1).outcome == NxDomain
            && LookupInZone(StoredZone(apex, 1, 60, map[name := [hidden]]), v, name, 1).outcome == NoData
  {
    var hidden := StoredRecord(60, Some(w), Data(1, text));
    var name := [sub] + apex;
    assert Key(name) == name;
    var zone := StoredZone(apex, 1, 60, map[name := [hidden]]);
    assert OwnerFor(zone, name) == Some(name);
    forall t ensures Resolve([hidden], v, t) == [] {
      FilterMapNone([hidden], SpecificTo(v, t));
      FilterMapNone([hidden], ForAllViews(t));
    }
    assert SightOf(zone, v)(name, 1) == [] && SightOf(zone, v)(name, CNAME) == [];
    EmptyZoneHasNoWildcard(name, 1);
  }

  lemma {:induction false} EmptyZoneHasNoWildcard(key: Name, i: nat)
    requires i <= |key|
    ensures WildcardFrom(map[], key, i) == None
    decreases |key| - i
  {
    if i < |key| {
      EmptyZoneHasNoWildcard(key, i + 1);
    }
  }

  // ----- Every answer is a visible record -----

  /** The record is one the client's view shows at the record's owner, wildcards included. */
  ghost predicate Backed(see: Sight, rec: Record) {
    exists r :: r in see(rec.owner, rec.rdata.Type()) && rec.ttl == r.ttl && rec.rdata == r.rdata
  }

  ghost predicate Typed(see: Sight) {
    forall name: Name, t: int, r :: r in see(name, t) ==> r.rdata.Type() == t
  }

  lemma SightIsTyped(zone: StoredZone, v: int)
    ensures Typed(SightOf(zone, v))
  {
    forall name: Name, t: int, r | r in SightOf(zone, v)(name, t) ensures r.rdata.Type() == t {
      ResolveMembers(RecordsAt(zone, Key(name)).value, v, t, r);
    }
  }

  lemma EmittedIsBacked(see: Sight, owner: Name, t: int)
    requires Typed(see)
    ensures forall rec :: rec in Emit(owner, see(owner, t)) ==> Backed(see, rec)
  {
    forall rec | rec in Emit(owner, see(owner, t)) ensures Backed(see, rec) {
      var i :| 0 <= i < |see(owner, t)| && rec == Record(owner, see(owner, t)[i].ttl, see(owner, t)[i].rdata);
      assert see(owner, t)[i] in see(owner, t);
    }
  }

  lemma {:induction false} ChaseIsBacked(apex: Name, see: Sight, qtype: int, current: Name, depth: nat)
    requires Typed(see) && depth <= MAX_CHASE
    ensures forall rec :: rec in Chase(apex, see, qtype, current, see(current, CNAME), depth) ==> Backed(see, rec)
    decreases MAX_CHASE - depth
  {
    EmittedIsBacked(see, current, CNAME);
    var next := LastTarget(see(current, CNAME));
    if next.Some? && depth < MAX_CHASE {
      EmittedIsBacked(see, next.value, qtype);
      ChaseIsBacked(apex, see, qtype, next.value, depth + 1);
    }
  }

  lemma DumpMembers(recs: seq<StoredRecord>, v: int, r: StoredRecord)
    ensures r in Dump(recs, v) <==> r in Resolve(recs, v, r.rdata.Type())
  {
    var f := ResolveType(recs, v);
    ConcatMembers(f, U16_LIMIT, r);
    forall u | r in f(u) ensures u == r.rdata.Type() {
      ResolveMembers(recs, v, u, r);
    }
    assert f(r.rdata.Type()) == Resolve(recs, v, r.rdata.Type());
  }

  lemma AnyIsBacked(zone: StoredZone, v: int, q: Name)
    requires RecordsAt(zone, Key(q)).Some?
    ensures forall rec :: rec in Emit(q, Dump(RecordsAt(zone, Key(q)).value, v)) ==> Backed(SightOf(zone, v), rec)
  {
    var recs := RecordsAt(zone, Key(q)).value;
    var all := Dump(recs, v);
    forall rec | rec in Emit(q, all) ensures Backed(SightOf(zone, v), rec) {
      var i :| 0 <= i < |all| && rec == Record(q, all[i].ttl, all[i].rdata);
      DumpMembers(recs, v, all[i]);
      assert all[i] in SightOf(zone, v)(q, rec.rdata.Type());
    }
  }

  /**
   The record is stored at its owner (or the wildcard that stands for it), tagged with the client's view, or
   tagged for all views while the client's view has no record of that type there.
   */
  ghost predicate Shown(zone: StoredZone, v: int, rec: Record) {
    var k := OwnerFor(zone, Key(rec.owner));
    && k.Some?
    && exists r :: && r in zone.records[k.value] && rec.ttl == r.ttl && rec.rdata == r.rdata
                   && (r.view == Some(v) || (r.view.None? && NoneSpecific(zone.records[k.value], v, rec.rdata.Type())))
  }

  ghost predicate NoneSpecific(recs: seq<StoredRecord>, v: int, t: int) {
    forall s :: s in recs && s.rdata.Type() == t ==> s.view != Some(v)
  }

  lemma BackedIsShown(zone: StoredZone, v: int, rec: Record)
    requires Backed(SightOf(zone, v), rec)
    ensures Shown(zone, v, rec)
  {
    var r :| r in SightOf(zone, v)(rec.owner, rec.rdata.Type()) && rec.ttl == r.ttl && rec.rdata == r.rdata;
    ResolveMembers(RecordsAt(zone, Key(rec.owner)).value, v, rec.rdata.Type(), r);
  }

  /** Every answered record other than the zone's SOA is one the client's view shows at its owner. */
  lemma AnswersAreVisible(zone: StoredZone, v: int, q: Name, qtype: int)
    ensures forall rec :: rec in LookupInZone(zone, v, q, qtype).answers ==> rec == SoaRecord(zone) || Shown(zone, v, rec)
  {
    forall rec | rec in LookupInZone(zone, v, q, qtype).answers && rec != SoaRecord(zone) ensures Shown(zone, v, rec) {
      AnswersAreBacked(zone, v, q, qtype);
      BackedIsShown(zone, v, rec);
    }
  }

  lemma AnswersAreBacked(zone: StoredZone, v: int, q: Name, qtype: int)
    ensures forall rec :: rec in LookupInZone(zone, v, q, qtype).answers ==>
              rec == SoaRecord(zone) || Backed(SightOf(zone, v), rec)
  {
    var see := SightOf(zone, v);
    SightIsTyped(zone, v);
    EmittedIsBacked(see, q, qtype);
    ChaseIsBacked(zone.apex, see, qtype, q, 0);
    if RecordsAt(zone, Key(q)).Some? {
      AnyIsBacked(zone, v, q);
    }
  }
}
