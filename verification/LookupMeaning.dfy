/**
 What a lookup answers, said of the stored records alone: which response code, which authority, which records
 (src/store.rs `lookup`; sections 2.1 and 2.2 of RFC 2308).
 */
module LookupMeaning {
  import opened Wrappers
  import opened Text
  import opened Names
  import opened Seqs
  import opened Store
  import opened Wildcards
  import opened SplitHorizon

  // ----- What an owner shows -----

  predicate VisibleTo(r: StoredRecord, v: int) {
    r.view.None? || r.view == Some(v)
  }

  /** View `v` may see some record of the type. */
  ghost predicate Shows(recs: seq<StoredRecord>, v: int, t: int) {
    exists r :: r in recs && r.rdata.Type() == t && VisibleTo(r, v)
  }

  ghost predicate ShowsAnything(recs: seq<StoredRecord>, v: int) {
    exists r :: r in recs && VisibleTo(r, v)
  }

  /** The record is tagged with the view, or for all views with no record of its type tagged with the view. */
  ghost predicate ShownAmong(recs: seq<StoredRecord>, v: int, r: StoredRecord) {
    r.view == Some(v) || (r.view.None? && forall s :: s in recs && s.rdata.Type() == r.rdata.Type() ==> s.view != Some(v))
  }

  lemma ResolvesIffShows(recs: seq<StoredRecord>, v: int, t: int)
    ensures Resolve(recs, v, t) != [] <==> Shows(recs, v, t)
  {
    if Resolve(recs, v, t) != [] {
      ResolveMembers(recs, v, t, Resolve(recs, v, t)[0]);
    }
    if r :| r in recs && r.rdata.Type() == t && VisibleTo(r, v) {
      if s :| s in recs && s.rdata.Type() == t && s.view == Some(v) {
        ResolveMembers(recs, v, t, s);
      } else {
        ResolveMembers(recs, v, t, r);
      }
    }
  }

  lemma DumpsIffShows(recs: seq<StoredRecord>, v: int)
    ensures Dump(recs, v) != [] <==> ShowsAnything(recs, v)
  {
    if Dump(recs, v) != [] {
      var r := Dump(recs, v)[0];
      DumpMembers(recs, v, r);
      ResolveMembers(recs, v, r.rdata.Type(), r);
    }
    if r :| r in recs && VisibleTo(r, v) {
      ResolvesIffShows(recs, v, r.rdata.Type());
      var s := Resolve(recs, v, r.rdata.Type())[0];
      ResolveMembers(recs, v, r.rdata.Type(), s);
      DumpMembers(recs, v, s);
    }
  }

  // ----- Each shown record once -----

  ghost function IfShown(recs: seq<StoredRecord>, v: int): StoredRecord -> Option<StoredRecord> {
    (r: StoredRecord) => if ShownAmong(recs, v, r) then Some(r) else None
  }

  ghost function IfShownOf(recs: seq<StoredRecord>, v: int, t: int): StoredRecord -> Option<StoredRecord> {
    (r: StoredRecord) => if r.rdata.Type() == t && ShownAmong(recs, v, r) then Some(r) else None
  }

  lemma {:induction false} FilterCount<T>(s: seq<T>, f: T -> Option<T>, y: T)
    requires forall x :: f(x).None? || f(x) == Some(x)
    ensures multiset(FilterMap(s, f))[y] == if f(y).Some? then multiset(s)[y] else 0
  {
    if s != [] {
      var rest := s[1..];
      FilterCount(rest, f, y);
      assert s == [s[0]] + rest;
      assert multiset(s) == multiset{s[0]} + multiset(rest);
      assert multiset(FilterMap(s, f)) == multiset(Kept(f(s[0]))) + multiset(FilterMap(rest, f));
    }
  }

  /** One type's resolution is the shown records of the type, in stored order. */
  lemma ResolveIsShown(recs: seq<StoredRecord>, v: int, t: int)
    ensures Resolve(recs, v, t) == FilterMap(recs, IfShownOf(recs, v, t))
  {
    var specific := FilterMap(recs, SpecificTo(v, t));
    if specific != [] {
      FilterMapMembers(recs, SpecificTo(v, t), specific[0]);
      assert specific[0] in specific;
      FilterMapAgree(recs, SpecificTo(v, t), IfShownOf(recs, v, t));
    } else {
      forall s | s in recs && s.rdata.Type() == t ensures s.view != Some(v) {
        FilterMapMembers(recs, SpecificTo(v, t), s);
      }
      FilterMapAgree(recs, ForAllViews(t), IfShownOf(recs, v, t));
    }
  }

  lemma ConcatCountStep<T>(f: int -> seq<T>, n: nat, y: T)
    ensures multiset(ConcatBelow(f, n + 1))[y] == multiset(ConcatBelow(f, n))[y] + multiset(f(n))[y]
  {
    assert multiset(ConcatBelow(f, n + 1)) == multiset(ConcatBelow(f, n)) + multiset(f(n));
  }

  lemma {:induction false} ConcatCount<T>(f: int -> seq<T>, t: int, n: nat, y: T)
    requires forall u :: u != t ==> multiset(f(u))[y] == 0
    ensures multiset(ConcatBelow(f, n))[y] == if 0 <= t < n then multiset(f(t))[y] else 0
  {
    if n > 0 {
      ConcatCount(f, t, n - 1, y);
      ConcatCountStep(f, n - 1, y);
      assert n - 1 != t ==> multiset(f(n - 1))[y] == 0;
    }
  }

  lemma ResolveCount(recs: seq<StoredRecord>, v: int, t: int, y: StoredRecord)
    ensures multiset(Resolve(recs, v, t))[y]
         == if y.rdata.Type() == t then multiset(FilterMap(recs, IfShown(recs, v)))[y] else 0
  {
    ResolveIsShown(recs, v, t);
    FilterCount(recs, IfShownOf(recs, v, t), y);
    FilterCount(recs, IfShown(recs, v), y);
  }

  /** The dump of an owner holds each shown record exactly once. */
  lemma DumpIsShownOnce(recs: seq<StoredRecord>, v: int)
    ensures multiset(Dump(recs, v)) == multiset(FilterMap(recs, IfShown(recs, v)))
  {
    forall y: StoredRecord ensures multiset(Dump(recs, v))[y] == multiset(FilterMap(recs, IfShown(recs, v)))[y] {
      var t: U16 := y.rdata.Type();
      forall u | u != t ensures multiset(ResolveType(recs, v)(u))[y] == 0 {
        ResolveCount(recs, v, u, y);
      }
      ConcatCount(ResolveType(recs, v), t, U16_LIMIT, y);
      ResolveCount(recs, v, t, y);
    }
  }

  function AsAnswer(owner: Name): StoredRecord -> Option<Record> {
    (r: StoredRecord) => Some(Record(owner, r.ttl, r.rdata))
  }

  lemma {:induction false} EmitIsMap(owner: Name, recs: seq<StoredRecord>)
    ensures Emit(owner, recs) == FilterMap(recs, AsAnswer(owner))
  {
    if recs != [] {
      EmitIsMap(owner, recs[1..]);
      assert Emit(owner, recs) == [Record(owner, recs[0].ttl, recs[0].rdata)] + Emit(owner, recs[1..]);
    }
  }

  lemma EmitPermutation(owner: Name, a: seq<StoredRecord>, b: seq<StoredRecord>)
    requires multiset(a) == multiset(b)
    ensures multiset(Emit(owner, a)) == multiset(Emit(owner, b))
  {
    EmitIsMap(owner, a);
    EmitIsMap(owner, b);
    FilterMapPermutation(a, b, AsAnswer(owner));
  }

  // ----- Which owner answers -----

  /** The name is stored or some proper ancestor has a wildcard. */
  ghost predicate Answerable(zone: StoredZone, key: Name) {
    key in zone.records || exists j :: 1 <= j < |key| && WildcardAt(key, j) in zone.records
  }

  /** `o` is the name itself, or the wildcard of its nearest ancestor that has one. */
  ghost predicate AnswersFor(zone: StoredZone, key: Name, o: Name) {
    if key in zone.records then o == key
    else exists j :: FirstWildcard(zone.records, key, 1, j) && o == WildcardAt(key, j)
  }

  lemma OwnerAnswers(zone: StoredZone, key: Name)
    ensures OwnerFor(zone, key).Some? <==> Answerable(zone, key)
    ensures forall o :: OwnerFor(zone, key) == Some(o) <==> AnswersFor(zone, key, o)
  {
    OwnerIsDeepestWildcard(zone, key);
    forall o ensures OwnerFor(zone, key) == Some(o) <==> AnswersFor(zone, key, o) {
      if key !in zone.records && AnswersFor(zone, key, o) {
        var j :| FirstWildcard(zone.records, key, 1, j) && o == WildcardAt(key, j);
        var i :| FirstWildcard(zone.records, key, 1, i) && OwnerFor(zone, key) == Some(WildcardAt(key, i));
        assert i == j;
      }
    }
  }

  // ----- The lookup -----

  predicate AsksApexSoa(zone: StoredZone, q: Name, qtype: int) {
    qtype == SOA && Key(q) == Key(zone.apex)
  }

  /** The answering owner shows neither the type nor a CNAME; for ANY it shows nothing. */
  ghost predicate ShowsNone(recs: seq<StoredRecord>, v: int, qtype: int) {
    if qtype == ANY then !ShowsAnything(recs, v) else !Shows(recs, v, qtype) && !Shows(recs, v, CNAME)
  }

  /** A lookup is not authoritative exactly when no zone covers the name; it then says nothing at all. */
  lemma NotAuthoritativeIff(store: ZoneStore, q: Name, qtype: int, c: Client)
    ensures Lookup(store, q, qtype, c).outcome == NotAuthoritative <==> forall z :: z in store.zones ==> !ZoneOf(z.apex, q)
    ensures Lookup(store, q, qtype, c).outcome == NotAuthoritative ==>
              Lookup(store, q, qtype, c) == LookupResult([], [], NoError, NotAuthoritative)
  {
  }

  lemma MissingInZone(zone: StoredZone, v: int, q: Name, qtype: int)
    ensures var r := LookupInZone(zone, v, q, qtype);
            && (r.rcode == NXDomain <==> !AsksApexSoa(zone, q, qtype) && OwnerFor(zone, Key(q)).None?)
            && (r.outcome == NxDomain <==> r.rcode == NXDomain)
  {
  }

  /** NXDOMAIN exactly for a name that is not stored and has no wildcard above it, the apex SOA apart. */
  lemma NxDomainIff(store: ZoneStore, q: Name, qtype: int, c: Client, zone: StoredZone)
    requires ZoneFor(store.zones, q) == Some(zone)
    ensures var r := Lookup(store, q, qtype, c);
            && (r.rcode == NXDomain <==> !AsksApexSoa(zone, q, qtype) && !Answerable(zone, Key(q)))
            && (r.outcome == NxDomain <==> r.rcode == NXDomain)
  {
    MissingInZone(zone, ViewFor(store.views, c), q, qtype);
    assert OwnerFor(zone, Key(q)).Some? <==> Answerable(zone, Key(q)) by {
      OwnerAnswers(zone, Key(q));
    }
  }

  lemma BlankInZone(zone: StoredZone, v: int, q: Name, qtype: int)
    ensures LookupInZone(zone, v, q, qtype).outcome == NoData <==>
            && !AsksApexSoa(zone, q, qtype) && OwnerFor(zone, Key(q)).Some?
            && ShowsNone(zone.records[OwnerFor(zone, Key(q)).value], v, qtype)
  {
    var owner := OwnerFor(zone, Key(q));
    if owner.Some? {
      var recs := zone.records[owner.value];
      ResolvesIffShows(recs, v, qtype);
      ResolvesIffShows(recs, v, CNAME);
      DumpsIffShows(recs, v);
    }
  }

  /** NODATA exactly when the answering owner shows neither the type nor a CNAME. */
  lemma NoDataIff(store: ZoneStore, q: Name, qtype: int, c: Client, zone: StoredZone)
    requires ZoneFor(store.zones, q) == Some(zone)
    ensures Lookup(store, q, qtype, c).outcome == NoData <==>
            && !AsksApexSoa(zone, q, qtype)
            && exists o :: AnswersFor(zone, Key(q), o) && o in zone.records
                           && ShowsNone(zone.records[o], ViewFor(store.views, c), qtype)
  {
    BlankInZone(zone, ViewFor(store.views, c), q, qtype);
    var owner := OwnerFor(zone, Key(q));
    assert owner.Some? ==> AnswersFor(zone, Key(q), owner.value) by {
      OwnerAnswers(zone, Key(q));
    }
    assert forall o :: AnswersFor(zone, Key(q), o) ==> owner == Some(o) by {
      OwnerAnswers(zone, Key(q));
    }
  }

  /** A negative answer holds no record and the zone's SOA alone as authority; any other answer is positive. */
  lemma AuthorityIsTheSoa(store: ZoneStore, q: Name, qtype: int, c: Client, zone: StoredZone)
    requires ZoneFor(store.zones, q) == Some(zone)
    ensures var r := Lookup(store, q, qtype, c);
            && r.outcome in {NxDomain, NoData, Authoritative}
            && r.authority == (if r.outcome == Authoritative then []
                               else [Record(zone.apex, Max(1, zone.minimum), SoaData(zone.serial, zone.minimum))])
            && (r.answers == [] <==> r.outcome != Authoritative)
            && (r.outcome != NxDomain ==> r.rcode == NoError)
  {
    var see := SightOf(zone, ViewFor(store.views, c));
    assert see(q, CNAME) != [] ==> |Chase(zone.apex, see, qtype, q, see(q, CNAME), 0)| >= |see(q, CNAME)|;
  }

  /** The apex SOA is answered with the zone's own. */
  lemma ApexSoaAnswer(store: ZoneStore, q: Name, c: Client, zone: StoredZone)
    requires ZoneFor(store.zones, q) == Some(zone) && Key(q) == Key(zone.apex)
    ensures Lookup(store, q, SOA, c).answers == [Record(zone.apex, Max(1, zone.minimum), SoaData(zone.serial, zone.minimum))]
  {
  }

  lemma AnyInZone(zone: StoredZone, v: int, q: Name, o: Name)
    requires OwnerFor(zone, Key(q)) == Some(o)
    ensures LookupInZone(zone, v, q, ANY).answers == Emit(q, Dump(zone.records[o], v))
  {
  }

  /** ANY is answered with each record the owner shows, exactly once, under the name asked for. */
  lemma AnyAnswersShown(store: ZoneStore, q: Name, c: Client, zone: StoredZone, o: Name)
    requires ZoneFor(store.zones, q) == Some(zone) && AnswersFor(zone, Key(q), o) && o in zone.records
    ensures var recs, v := zone.records[o], ViewFor(store.views, c);
            multiset(Lookup(store, q, ANY, c).answers) == multiset(Emit(q, FilterMap(recs, IfShown(recs, v))))
  {
    var recs, v := zone.records[o], ViewFor(store.views, c);
    assert Lookup(store, q, ANY, c).answers == Emit(q, Dump(recs, v)) by {
      OwnerAnswers(zone, Key(q));
      AnyInZone(zone, v, q, o);
    }
    DumpIsShownOnce(recs, v);
    EmitPermutation(q, Dump(recs, v), FilterMap(recs, IfShown(recs, v)));
  }

  /** Any other type that the owner shows is answered with exactly those records, in stored order. */
  lemma TypeAnswersShown(store: ZoneStore, q: Name, qtype: int, c: Client, zone: StoredZone, o: Name)
    requires ZoneFor(store.zones, q) == Some(zone) && AnswersFor(zone, Key(q), o) && o in zone.records
    requires qtype != ANY && !AsksApexSoa(zone, q, qtype) && Shows(zone.records[o], ViewFor(store.views, c), qtype)
    ensures var recs, v := zone.records[o], ViewFor(store.views, c);
            Lookup(store, q, qtype, c).answers == Emit(q, FilterMap(recs, IfShownOf(recs, v, qtype)))
  {
    var recs, v := zone.records[o], ViewFor(store.views, c);
    assert OwnerFor(zone, Key(q)) == Some(o) by {
      OwnerAnswers(zone, Key(q));
    }
    ResolvesIffShows(recs, v, qtype);
    ResolveIsShown(recs, v, qtype);
  }

  /** A name that shows CNAMEs but not the type is answered with all of them first, in stored order. */
  lemma CnameAnswersFirst(store: ZoneStore, q: Name, qtype: int, c: Client, zone: StoredZone, o: Name)
    requires ZoneFor(store.zones, q) == Some(zone) && AnswersFor(zone, Key(q), o) && o in zone.records
    requires qtype != ANY && !AsksApexSoa(zone, q, qtype)
    requires !Shows(zone.records[o], ViewFor(store.views, c), qtype) && Shows(zone.records[o], ViewFor(store.views, c), CNAME)
    ensures var recs, v := zone.records[o], ViewFor(store.views, c);
            var cnames := Emit(q, FilterMap(recs, IfShownOf(recs, v, CNAME)));
            cnames <= Lookup(store, q, qtype, c).answers
  {
    var recs, v := zone.records[o], ViewFor(store.views, c);
    assert OwnerFor(zone, Key(q)) == Some(o) by {
      OwnerAnswers(zone, Key(q));
    }
    ResolvesIffShows(recs, v, qtype);
    ResolvesIffShows(recs, v, CNAME);
    ResolveIsShown(recs, v, CNAME);
  }

  // ----- Case -----

  predicate IsUpper(c: char) {
    'A' <= c <= 'Z'
  }

  /** Equal, or the two cases of one ASCII letter. */
  predicate SameLetter(a: char, b: char) {
    || a == b
    || (IsUpper(a) && b as int == a as int + 32)
    || (IsUpper(b) && a as int == b as int + 32)
  }

  /** Two texts are taken for the same exactly when they differ only in the case of ASCII letters. */
  lemma SameIdMeans(a: string, b: string)
    ensures SameId(a, b) <==> |a| == |b| && forall i :: 0 <= i < |a| ==> SameLetter(a[i], b[i])
  {
    if SameId(a, b) {
      assert |Lower(a)| == |Lower(b)|;
      forall i | 0 <= i < |a| ensures SameLetter(a[i], b[i]) {
        assert Lower(a)[i] == Lower(b)[i];
      }
    }
  }

  /** Two names are taken for the same exactly when their labels are. */
  lemma SameKeyMeans(p: Name, q: Name)
    ensures Key(p) == Key(q) <==> |p| == |q| && forall i :: 0 <= i < |p| ==> SameId(p[i], q[i])
  {
    if Key(p) == Key(q) {
      forall i | 0 <= i < |p| ensures SameId(p[i], q[i]) {
        assert Key(p)[i] == Key(q)[i];
      }
    }
  }

  /** The two results differ at most in the owner names of the answers. */
  ghost predicate SameButOwners(a: LookupResult, b: LookupResult) {
    && a.outcome == b.outcome && a.rcode == b.rcode && a.authority == b.authority && |a.answers| == |b.answers|
    && forall i :: 0 <= i < |a.answers| ==> a.answers[i].ttl == b.answers[i].ttl && a.answers[i].rdata == b.answers[i].rdata
  }

  lemma {:induction false} SameZoneForKey(zones: seq<StoredZone>, p: Name, q: Name)
    requires Key(p) == Key(q)
    ensures ZoneFor(zones, p) == ZoneFor(zones, q)
  {
    if zones != [] {
      SameZoneForKey(zones[1..], p, q);
    }
  }

  lemma CaseOfType(zone: StoredZone, see: Sight, p: Name, q: Name, qtype: int)
    requires see(p, qtype) == see(q, qtype) && see(p, CNAME) == see(q, CNAME)
    ensures SameButOwners(LookupType(zone, see, p, qtype), LookupType(zone, see, q, qtype))
  {
    var chase := see(q, CNAME);
    var rest := ChaseOn(zone.apex, see, qtype, LastTarget(chase), 1);
    assert Chase(zone.apex, see, qtype, p, chase, 0) == Emit(p, chase) + rest;
    assert Chase(zone.apex, see, qtype, q, chase, 0) == Emit(q, chase) + rest;
  }

  lemma CaseInZone(zone: StoredZone, v: int, p: Name, q: Name, qtype: int)
    requires Key(p) == Key(q)
    ensures SameButOwners(LookupInZone(zone, v, p, qtype), LookupInZone(zone, v, q, qtype))
  {
    if qtype == ANY {
      CaseOfAny(zone, v, p, q);
    } else {
      CaseOfType(zone, SightOf(zone, v), p, q, qtype);
    }
  }

  lemma CaseOfAny(zone: StoredZone, v: int, p: Name, q: Name)
    requires Key(p) == Key(q)
    ensures SameButOwners(LookupInZone(zone, v, p, ANY), LookupInZone(zone, v, q, ANY))
  {
  }

  /** The case of a question does not matter. */
  lemma LookupIgnoresCase(store: ZoneStore, p: Name, q: Name, qtype: int, c: Client)
    requires Key(p) == Key(q)
    ensures SameButOwners(Lookup(store, p, qtype, c), Lookup(store, q, qtype, c))
  {
    SameZoneForKey(store.zones, p, q);
    if ZoneFor(store.zones, q).Some? {
      CaseInZone(ZoneFor(store.zones, q).value, ViewFor(store.views, c), p, q, qtype);
    }
  }
}
