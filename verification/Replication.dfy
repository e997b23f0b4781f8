/**
 Replication preserves meaning: a secondary that loads what an AXFR delivered answers every query as the
 primary answers the transferring client.
 */
module Replication {
  import opened Wrappers
  import opened Names
  import opened Seqs
  import opened Store
  import opened Wildcards
  import opened SplitHorizon
  import opened CnameChain
  import opened Loading
  import opened Axfr
  import opened Secondary

  // ----- Records without their view tag -----

  function Untag(): StoredRecord -> Option<StoredRecord> {
    (r: StoredRecord) => Some(StoredRecord(r.ttl, None, r.rdata))
  }

  function Untagged(recs: seq<StoredRecord>): seq<StoredRecord> {
    FilterMap(recs, Untag())
  }

  /** The two lists show the same records, in some order. */
  ghost predicate Alike(a: seq<StoredRecord>, b: seq<StoredRecord>) {
    multiset(Untagged(a)) == multiset(Untagged(b))
  }

  lemma UntaggedAt(a: seq<StoredRecord>)
    ensures |Untagged(a)| == |a|
    ensures forall i :: 0 <= i < |a| ==> Untagged(a)[i] == StoredRecord(a[i].ttl, None, a[i].rdata)
  {
    FilterMapAll(a, Untag());
  }

  lemma AlikeSize(a: seq<StoredRecord>, b: seq<StoredRecord>)
    requires Alike(a, b)
    ensures |a| == |b|
  {
    UntaggedAt(a);
    UntaggedAt(b);
    assert |multiset(Untagged(a))| == |multiset(Untagged(b))|;
  }

  function AsRecord(owner: Name): StoredRecord -> Option<Record> {
    (r: StoredRecord) => Some(Record(owner, r.ttl, r.rdata))
  }

  lemma EmitIgnoresTags(owner: Name, a: seq<StoredRecord>)
    ensures Emit(owner, a) == FilterMap(Untagged(a), AsRecord(owner))
  {
    UntaggedAt(a);
    FilterMapAll(Untagged(a), AsRecord(owner));
  }

  lemma AlikeEmit(owner: Name, a: seq<StoredRecord>, b: seq<StoredRecord>)
    requires Alike(a, b)
    ensures multiset(Emit(owner, a)) == multiset(Emit(owner, b))
  {
    EmitIgnoresTags(owner, a);
    EmitIgnoresTags(owner, b);
    FilterMapPermutation(Untagged(a), Untagged(b), AsRecord(owner));
  }

  lemma AlikeConcat(a: seq<StoredRecord>, b: seq<StoredRecord>, c: seq<StoredRecord>, d: seq<StoredRecord>)
    requires Alike(a, b) && Alike(c, d)
    ensures Alike(a + c, b + d)
  {
    FilterMapConcat(a, c, Untag());
    FilterMapConcat(b, d, Untag());
  }

  // ----- Sights that show the same -----

  ghost predicate AlikeSights(see: Sight, look: Sight) {
    forall name: Name, t: U16 :: Alike(see(name, t), look(name, t))
  }

  lemma AlikeSingles(a: seq<StoredRecord>, b: seq<StoredRecord>)
    requires Alike(a, b) && |a| <= 1
    ensures Untagged(a) == Untagged(b) && LastTarget(a) == LastTarget(b)
  {
    AlikeSize(a, b);
    UntaggedAt(a);
    UntaggedAt(b);
    if |a| == 1 {
      assert Untagged(a) == [Untagged(a)[0]] && Untagged(b) == [Untagged(b)[0]];
      assert Untagged(a)[0] in multiset(Untagged(b));
      assert LastTarget(a) == if a[0].rdata.CnameTo? then Some(a[0].rdata.target) else None;
      assert LastTarget(b) == if b[0].rdata.CnameTo? then Some(b[0].rdata.target) else None;
    }
  }

  lemma {:induction false} AlikeChase(apex: Name, see: Sight, look: Sight, qtype: U16, current: Name, depth: nat)
    requires AlikeSights(see, look) && SingleCnames(see) && depth <= MAX_CHASE
    ensures multiset(Chase(apex, see, qtype, current, see(current, CNAME), depth))
         == multiset(Chase(apex, look, qtype, current, look(current, CNAME), depth))
    decreases MAX_CHASE + 1 - depth, 0
  {
    assert Alike(see(current, CNAME), look(current, CNAME));
    AlikeEmit(current, see(current, CNAME), look(current, CNAME));
    AlikeSingles(see(current, CNAME), look(current, CNAME));
    var next := LastTarget(see(current, CNAME));
    AlikeChaseOn(apex, see, look, qtype, next, depth + 1);
  }

  lemma {:induction false} AlikeChaseOn(apex: Name, see: Sight, look: Sight, qtype: U16, next: Option<Name>, depth: nat)
    requires AlikeSights(see, look) && SingleCnames(see) && 0 < depth <= MAX_CHASE + 1
    ensures multiset(ChaseOn(apex, see, qtype, next, depth)) == multiset(ChaseOn(apex, look, qtype, next, depth))
    decreases MAX_CHASE + 1 - depth, 1
  {
    if next.Some? && depth <= MAX_CHASE && ZoneOf(apex, next.value) {
      assert Alike(see(next.value, qtype), look(next.value, qtype)) && Alike(see(next.value, CNAME), look(next.value, CNAME));
      AlikeSize(see(next.value, qtype), look(next.value, qtype));
      AlikeSize(see(next.value, CNAME), look(next.value, CNAME));
      AlikeEmit(next.value, see(next.value, qtype), look(next.value, qtype));
      if see(next.value, CNAME) != [] {
        AlikeChase(apex, see, look, qtype, next.value, depth);
      }
    }
  }

  /** Same outcome, response code and authority, and the same answers up to order. */
  ghost predicate SameAnswer(a: LookupResult, b: LookupResult) {
    && a.outcome == b.outcome && a.rcode == b.rcode && a.authority == b.authority
    && multiset(a.answers) == multiset(b.answers)
  }

  lemma AlikeLookupType(a: StoredZone, b: StoredZone, see: Sight, look: Sight, q: Name, qtype: U16)
    requires AlikeSights(see, look) && SingleCnames(see)
    requires a.apex == b.apex && a.serial == b.serial && a.minimum == b.minimum
    ensures SameAnswer(LookupType(a, see, q, qtype), LookupType(b, look, q, qtype))
  {
    assert Alike(see(q, qtype), look(q, qtype)) && Alike(see(q, CNAME), look(q, CNAME));
    AlikeSize(see(q, qtype), look(q, qtype));
    AlikeSize(see(q, CNAME), look(q, CNAME));
    AlikeEmit(q, see(q, qtype), look(q, qtype));
    AlikeChase(a.apex, see, look, qtype, q, 0);
  }

  ghost predicate AlikeAt(f: int -> seq<StoredRecord>, g: int -> seq<StoredRecord>, t: int) {
    Alike(f(t), g(t))
  }

  ghost predicate AlikeBelow(f: int -> seq<StoredRecord>, g: int -> seq<StoredRecord>, n: nat) {
    Alike(ConcatBelow(f, n), ConcatBelow(g, n))
  }

  lemma AlikeConcatStep(f: int -> seq<StoredRecord>, g: int -> seq<StoredRecord>, n: nat)
    requires AlikeBelow(f, g, n) && AlikeAt(f, g, n)
    ensures AlikeBelow(f, g, n + 1)
  {
    AlikeConcat(ConcatBelow(f, n), ConcatBelow(g, n), f(n), g(n));
  }

  lemma AlikeConcatNext(f: int -> seq<StoredRecord>, g: int -> seq<StoredRecord>, t: U16)
    requires AlikeBelow(f, g, t) && forall u: U16 :: AlikeAt(f, g, u)
    ensures AlikeBelow(f, g, t + 1)
  {
    assert AlikeAt(f, g, t);
    AlikeConcatStep(f, g, t);
  }

  lemma AlikeAtFirst(f: int -> seq<StoredRecord>, g: int -> seq<StoredRecord>)
    ensures AlikeBelow(f, g, 0)
  {
  }

  lemma AlikeConcatBelow(f: int -> seq<StoredRecord>, g: int -> seq<StoredRecord>, n: nat)
    requires n <= U16_LIMIT && forall t: U16 :: AlikeAt(f, g, t)
    ensures AlikeBelow(f, g, n)
  {
    var alike := (i: nat) => AlikeBelow(f, g, i);
    AlikeAtFirst(f, g);
    forall i: nat | i < n && alike(i) ensures alike(i + 1) {
      AlikeConcatNext(f, g, i);
    }
    StepByStep(alike, n);
  }

  /** `b` is a copy of what `a` shows to view `v`, for clients of view `w`. */
  ghost predicate Mirrors(a: StoredZone, v: int, b: StoredZone, w: int) {
    && a.apex == b.apex && a.serial == b.serial && a.minimum == b.minimum
    && a.records.Keys == b.records.Keys
    && forall k, t: U16 :: k in a.records ==> Alike(Resolve(a.records[k], v, t), Resolve(b.records[k], w, t))
  }

  lemma MirrorsAt(a: StoredZone, v: int, b: StoredZone, w: int, name: Name, t: U16)
    requires Mirrors(a, v, b, w)
    ensures Alike(VisibleAt(a, v, name, t), VisibleAt(b, w, name, t))
  {
    SameOwnersSameOwner(a, b, Key(name));
    var o := OwnerFor(a, Key(name));
    if o.Some? {
      assert Alike(Resolve(a.records[o.value], v, t), Resolve(b.records[o.value], w, t));
    }
  }

  lemma MirrorsSight(a: StoredZone, v: int, b: StoredZone, w: int)
    requires Mirrors(a, v, b, w)
    ensures AlikeSights(SightOf(a, v), SightOf(b, w))
  {
    forall name: Name, t: U16 ensures Alike(SightOf(a, v)(name, t), SightOf(b, w)(name, t)) {
      MirrorsAt(a, v, b, w, name, t);
    }
  }

  lemma MirrorsAny(a: StoredZone, v: int, b: StoredZone, w: int, k: Name)
    requires Mirrors(a, v, b, w) && k in a.records
    ensures Alike(Dump(a.records[k], v), Dump(b.records[k], w))
  {
    var f, g := ResolveType(a.records[k], v), ResolveType(b.records[k], w);
    forall t: U16 ensures AlikeAt(f, g, t) {
      assert Alike(Resolve(a.records[k], v, t), Resolve(b.records[k], w, t));
    }
    AlikeConcatBelow(f, g, U16_LIMIT);
  }

  lemma MirrorsAnyAnswer(a: StoredZone, v: int, b: StoredZone, w: int, q: Name, k: Name)
    requires Mirrors(a, v, b, w) && OwnerFor(a, Key(q)) == Some(k) == OwnerFor(b, Key(q))
    ensures SameAnswer(LookupInZone(a, v, q, ANY), LookupInZone(b, w, q, ANY))
  {
    MirrorsAny(a, v, b, w, k);
    var x, y := Dump(a.records[k], v), Dump(b.records[k], w);
    AlikeEmit(q, x, y);
    AlikeSize(x, y);
    assert LookupInZone(a, v, q, ANY) == if Emit(q, x) == [] then NoDataAnswer(a) else Positive(Emit(q, x));
    assert LookupInZone(b, w, q, ANY) == if Emit(q, y) == [] then NoDataAnswer(b) else Positive(Emit(q, y));
  }

  lemma MirrorsTypeAnswer(a: StoredZone, v: int, b: StoredZone, w: int, q: Name, qtype: U16)
    requires Mirrors(a, v, b, w) && SingleCnames(SightOf(a, v))
    ensures SameAnswer(LookupType(a, SightOf(a, v), q, qtype), LookupType(b, SightOf(b, w), q, qtype))
  {
    MirrorsSight(a, v, b, w);
    AlikeLookupType(a, b, SightOf(a, v), SightOf(b, w), q, qtype);
  }

  lemma MirrorsAnswer(a: StoredZone, v: int, b: StoredZone, w: int, q: Name, qtype: U16)
    requires Mirrors(a, v, b, w) && SingleCnames(SightOf(a, v))
    ensures SameAnswer(LookupInZone(a, v, q, qtype), LookupInZone(b, w, q, qtype))
  {
    SameOwnersSameOwner(a, b, Key(q));
    var o := OwnerFor(a, Key(q));
    if qtype == SOA && Key(q) == Key(a.apex) {
      assert LookupInZone(a, v, q, qtype) == Positive([SoaRecord(a)]) == LookupInZone(b, w, q, qtype);
    } else if o.None? {
      assert LookupInZone(a, v, q, qtype) == LookupInZone(b, w, q, qtype);
    } else if qtype == ANY {
      MirrorsAnyAnswer(a, v, b, w, q, o.value);
    } else {
      assert LookupInZone(a, v, q, qtype) == LookupType(a, SightOf(a, v), q, qtype);
      assert LookupInZone(b, w, q, qtype) == LookupType(b, SightOf(b, w), q, qtype);
      MirrorsTypeAnswer(a, v, b, w, q, qtype);
    }
  }

  // ----- What the secondary stores -----

  /** The stored copy of a transferred record of owner `k`. */
  function CopyAt(k: Name): Record -> Option<StoredRecord> {
    (r: Record) => if r.owner == k then Some(StoredRecord(r.ttl, None, r.rdata)) else None
  }

  lemma CopiesOfDump(zone: StoredZone, v: int, o: Name, k: Name)
    ensures FilterMap(OwnerDump(zone, v)(o), CopyAt(k))
         == if o == k && k in zone.records then Untagged(Dump(zone.records[k], v)) else []
  {
    if o in zone.records {
      CopiesOfOwner(o, Dump(zone.records[o], v), k);
    } else {
      assert OwnerDump(zone, v)(o) == [];
    }
  }

  lemma CopiesOfBody(zone: StoredZone, v: int, order: seq<Name>, k: Name)
    requires Enumerates(order, zone)
    ensures FilterMap(Body(zone, v, order), CopyAt(k)) == if k in zone.records then Untagged(Dump(zone.records[k], v)) else []
  {
    var part, kept := OwnerDump(zone, v), if k in zone.records then Untagged(Dump(zone.records[k], v)) else [];
    forall i | 0 <= i < |order| && order[i] != k ensures FilterMap(part(order[i]), CopyAt(k)) == [] {
      CopiesOfDump(zone, v, order[i], k);
    }
    CopiesOfDump(zone, v, k, k);
    FilterFlatMapOfOne(order, part, CopyAt(k), k, kept);
  }

  lemma CopiesOfOwner(o: Name, recs: seq<StoredRecord>, k: Name)
    ensures FilterMap(Emit(o, recs), CopyAt(k)) == if o == k then Untagged(recs) else []
  {
    if o == k {
      FilterMapAll(Emit(o, recs), CopyAt(k));
      UntaggedAt(recs);
    } else {
      FilterMapNone(Emit(o, recs), CopyAt(k));
    }
  }

  /** Record data of the zone survives printing and parsing. */
  ghost predicate TextRoundTrips(codec: RdataText, zone: StoredZone) {
    forall k, r :: k in zone.records && r in zone.records[k] ==>
      codec.parse(r.rdata.Type(), codec.show(r.rdata), zone.apex) == Some(r.rdata)
  }

  /** What one received record becomes in the secondary's store. */
  function ReplicaAt(codec: RdataText, z: ZoneRow, k: Name): Record -> Option<StoredRecord> {
    (r: Record) =>
      var row := ToRow(codec, z.name)(r);
      if row.None? then None else LoadedAt(codec, z, k)(row.value)
  }

  lemma OwnerDumpRecords(zone: StoredZone, v: int, o: Name, rec: Record)
    requires rec in OwnerDump(zone, v)(o)
    ensures Originates(zone, rec)
  {
    var all := Dump(zone.records[o], v);
    var i :| 0 <= i < |all| && rec == Record(o, all[i].ttl, all[i].rdata);
    DumpMembers(zone.records[o], v, all[i]);
    ResolveMembers(zone.records[o], v, all[i].rdata.Type(), all[i]);
  }

  /** The record's data is stored at its owner. */
  ghost predicate Originates(zone: StoredZone, rec: Record) {
    rec.owner in zone.records && exists r :: r in zone.records[rec.owner] && r.rdata == rec.rdata
  }

  lemma BodyRecords(zone: StoredZone, v: int, order: seq<Name>, rec: Record)
    requires rec in Body(zone, v, order)
    ensures Originates(zone, rec)
  {
    var part := OwnerDump(zone, v);
    FlatMapMembers(order, part, |order|, rec);
    var j :| 0 <= j < |order| && rec in part(order[j]);
    OwnerDumpRecords(zone, v, order[j], rec);
  }

  lemma BodyRecordIsCopied(codec: RdataText, zone: StoredZone, z: ZoneRow, rec: Record, k: Name)
    requires WellFormed(zone) && TextRoundTrips(codec, zone) && z.name == zone.apex
    requires Originates(zone, rec)
    ensures ReplicaAt(codec, z, k)(rec) == CopyAt(k)(rec) && !IsSoa(rec)
  {
    var r :| r in zone.records[rec.owner] && r.rdata == rec.rdata;
    assert Supported(r.rdata.Type());
    OwnersAreFolded(zone, rec.owner);
    RelativeNameRoundTrip(rec.owner, zone.apex);
    var row := ToRow(codec, z.name)(rec).value;
    assert row.rel == RelativeTo(rec.owner, Key(zone.apex)) && OwnerOf(z, row) == rec.owner;
    assert codec.parse(row.rtype, row.data, z.name) == Some(rec.rdata);
    assert Loaded(codec, z, row) == Some(StoredRecord(rec.ttl, None, rec.rdata));
  }

  lemma ReplicaOfBody(codec: RdataText, zone: StoredZone, v: int, order: seq<Name>, z: ZoneRow, k: Name)
    requires WellFormed(zone) && TextRoundTrips(codec, zone) && z.name == zone.apex && Enumerates(order, zone)
    ensures FilterMap(Body(zone, v, order), ReplicaAt(codec, z, k))
         == if k in zone.records then Untagged(Dump(zone.records[k], v)) else []
  {
    var f, body := ReplicaAt(codec, z, k), Body(zone, v, order);
    forall rec | rec in body ensures f(rec) == CopyAt(k)(rec) {
      BodyRecords(zone, v, order, rec);
      BodyRecordIsCopied(codec, zone, z, rec, k);
    }
    FilterMapAgree(body, f, CopyAt(k));
    CopiesOfBody(zone, v, order, k);
  }

  lemma SoaIsNotReplicated(codec: RdataText, z: ZoneRow, k: Name, soa: Record)
    requires IsSoa(soa)
    ensures ReplicaAt(codec, z, k)(soa) == None
  {
    assert ToRow(codec, z.name)(soa) == None;
  }

  lemma FilterBracketed<T>(soa: Record, body: seq<Record>, f: Record -> Option<T>)
    requires f(soa).None?
    ensures FilterMap([soa] + body + [soa], f) == FilterMap(body, f)
  {
    FilterMapConcat([soa] + body, [soa], f);
    FilterMapConcat([soa], body, f);
    FilterMapNone([soa], f);
  }

  lemma ReplicaOfStream(codec: RdataText, zone: StoredZone, v: int, order: seq<Name>, z: ZoneRow, stream: seq<Record>, k: Name)
    requires WellFormed(zone) && TextRoundTrips(codec, zone) && z.name == zone.apex
    requires IsTransfer(zone, v, order, stream)
    ensures FilterMap(FilterMap(stream, ToRow(codec, z.name)), LoadedAt(codec, z, k))
         == if k in zone.records then Untagged(Dump(zone.records[k], v)) else []
  {
    var f := ReplicaAt(codec, z, k);
    FilterMapCompose(stream, ToRow(codec, z.name), LoadedAt(codec, z, k), f);
    SoaIsNotReplicated(codec, z, k, SoaRecord(zone));
    FilterBracketed(SoaRecord(zone), Body(zone, v, order), f);
    ReplicaOfBody(codec, zone, v, order, z, k);
  }

  lemma OriginalsAreNoSoa(zone: StoredZone, rec: Record)
    requires WellFormed(zone) && Originates(zone, rec)
    ensures !IsSoa(rec)
  {
    var r :| r in zone.records[rec.owner] && r.rdata == rec.rdata;
    assert Supported(r.rdata.Type());
  }

  lemma BodyHasNoSoa(zone: StoredZone, v: int, order: seq<Name>, rec: Record)
    requires WellFormed(zone) && rec in Body(zone, v, order)
    ensures !IsSoa(rec)
  {
    BodyRecords(zone, v, order, rec);
    OriginalsAreNoSoa(zone, rec);
  }

  lemma BracketedBySoa(soa: Record, body: seq<Record>, stream: seq<Record>)
    requires IsSoa(soa) && (forall rec :: rec in body ==> !IsSoa(rec)) && stream == [soa] + body + [soa]
    ensures Bracketed(stream) && FirstSoa(stream) == Some(soa.rdata)
  {
    forall i | 0 < i < |stream| - 1 ensures !IsSoa(stream[i]) {
      assert stream[i] == body[i - 1] && body[i - 1] in body;
    }
    assert stream[0] == soa == stream[|stream| - 1];
  }

  lemma StreamIsBracketed(zone: StoredZone, v: int, order: seq<Name>, stream: seq<Record>)
    requires WellFormed(zone) && IsTransfer(zone, v, order, stream)
    ensures Bracketed(stream) && FirstSoa(stream) == Some(SoaData(zone.serial, zone.minimum))
  {
    forall rec | rec in Body(zone, v, order) ensures !IsSoa(rec) {
      BodyHasNoSoa(zone, v, order, rec);
    }
    BracketedBySoa(SoaRecord(zone), Body(zone, v, order), stream);
  }

  // ----- The secondary's view of the copy -----

  lemma AllUntagged(recs: seq<StoredRecord>, w: int, t: int)
    requires forall r :: r in recs ==> r.view.None?
    ensures Resolve(recs, w, t) == FilterMap(recs, ForAllViews(t))
  {
    FilterMapNone(recs, SpecificTo(w, t));
  }

  lemma UntaggedResolve(recs: seq<StoredRecord>, v: int, u: int, t: int)
    ensures FilterMap(Untagged(Resolve(recs, v, u)), ForAllViews(t)) == if u == t then Untagged(Resolve(recs, v, u)) else []
  {
    var seen := Resolve(recs, v, u);
    UntaggedAt(seen);
    forall r | r in Untagged(seen) ensures r.view.None? && r.rdata.Type() == u {
      var i :| 0 <= i < |seen| && Untagged(seen)[i] == r;
      ResolveMembers(recs, v, u, seen[i]);
    }
    if u == t {
      FilterMapAll(Untagged(seen), ForAllViews(t));
      assert FilterMap(Untagged(seen), ForAllViews(t)) == Untagged(seen);
    } else {
      FilterMapNone(Untagged(seen), ForAllViews(t));
    }
  }

  function UntaggedParts(f: int -> seq<StoredRecord>, t: int): int -> seq<StoredRecord> {
    (u: int) => FilterMap(Untagged(f(u)), ForAllViews(t))
  }

  lemma UntaggedConcatStep(f: int -> seq<StoredRecord>, t: int, n: nat)
    ensures FilterMap(Untagged(ConcatBelow(f, n + 1)), ForAllViews(t))
         == FilterMap(Untagged(ConcatBelow(f, n)), ForAllViews(t)) + FilterMap(Untagged(f(n)), ForAllViews(t))
  {
    FilterMapConcat(ConcatBelow(f, n), f(n), Untag());
    FilterMapConcat(Untagged(ConcatBelow(f, n)), Untagged(f(n)), ForAllViews(t));
  }

  lemma {:induction false} UntaggedConcat(f: int -> seq<StoredRecord>, t: int, n: nat)
    ensures FilterMap(Untagged(ConcatBelow(f, n)), ForAllViews(t)) == ConcatBelow(UntaggedParts(f, t), n)
  {
    if n > 0 {
      UntaggedConcat(f, t, n - 1);
      UntaggedConcatStep(f, t, n - 1);
    }
  }

  lemma UntaggedDump(recs: seq<StoredRecord>, v: int, t: U16)
    ensures FilterMap(Untagged(Dump(recs, v)), ForAllViews(t)) == Untagged(Resolve(recs, v, t))
  {
    var f := ResolveType(recs, v);
    var parts := UntaggedParts(f, t);
    forall u ensures parts(u) == if u == t then Untagged(Resolve(recs, v, t)) else [] {
      UntaggedResolve(recs, v, u, t);
    }
    UntaggedConcat(f, t, U16_LIMIT);
    ConcatOfOne(parts, t, U16_LIMIT);
  }

  lemma UntaggedIsStable(recs: seq<StoredRecord>)
    requires forall r :: r in recs ==> r.view.None?
    ensures Untagged(recs) == recs
  {
    UntaggedAt(recs);
    forall i | 0 <= i < |recs| ensures Untagged(recs)[i] == recs[i] {
      assert recs[i] in recs;
    }
  }

  lemma CopyIsUntagged(recs: seq<StoredRecord>, v: int, copy: seq<StoredRecord>)
    requires multiset(copy) == multiset(Untagged(Dump(recs, v)))
    ensures forall r :: r in copy ==> r.view.None?
  {
    UntaggedAt(Dump(recs, v));
    forall r | r in copy ensures r.view.None? {
      assert r in multiset(Untagged(Dump(recs, v)));
    }
  }

  lemma GeneralRecordsAreUntagged(copy: seq<StoredRecord>, t: int)
    ensures Untagged(FilterMap(copy, ForAllViews(t))) == FilterMap(copy, ForAllViews(t))
  {
    forall r | r in FilterMap(copy, ForAllViews(t)) ensures r.view.None? {
      FilterMapMembers(copy, ForAllViews(t), r);
    }
    UntaggedIsStable(FilterMap(copy, ForAllViews(t)));
  }

  /** A permuted copy of the dump resolves, for any view, to what the original resolves to for view `v`. */
  lemma CopyResolvesAlike(recs: seq<StoredRecord>, v: int, copy: seq<StoredRecord>, w: int, t: U16)
    requires multiset(copy) == multiset(Untagged(Dump(recs, v)))
    ensures Alike(Resolve(recs, v, t), Resolve(copy, w, t))
  {
    assert Resolve(copy, w, t) == FilterMap(copy, ForAllViews(t)) by {
      CopyIsUntagged(recs, v, copy);
      AllUntagged(copy, w, t);
    }
    GeneralRecordsAreUntagged(copy, t);
    calc {
      multiset(Untagged(Resolve(recs, v, t)));
      { UntaggedDump(recs, v, t); }
      multiset(FilterMap(Untagged(Dump(recs, v)), ForAllViews(t)));
      { FilterMapPermutation(copy, Untagged(Dump(recs, v)), ForAllViews(t)); }
      multiset(FilterMap(copy, ForAllViews(t)));
      multiset(Untagged(Resolve(copy, w, t)));
    }
  }

  /** Every owner shows at least one record to the view. */
  ghost predicate EveryOwnerVisible(zone: StoredZone, v: int) {
    forall k :: k in zone.records ==> Dump(zone.records[k], v) != []
  }

  /** `copy` holds, under each owner that shows something to view `v`, exactly what it shows, in some order. */
  ghost predicate IsCopy(zone: StoredZone, v: int, copy: StoredZone) {
    forall k: Name ::
      && (k in copy.records <==> k in zone.records && Dump(zone.records[k], v) != [])
      && (k in copy.records ==> multiset(copy.records[k]) == multiset(Untagged(Dump(zone.records[k], v))))
  }

  lemma CopyOfOwner(codec: RdataText, zone: StoredZone, v: int, order: seq<Name>, stream: seq<Record>,
                    z: ZoneRow, rows: seq<RecordRow>, copy: StoredZone, k: Name)
    requires WellFormed(zone) && TextRoundTrips(codec, zone)
    requires IsTransfer(zone, v, order, stream) && z.name == zone.apex
    requires multiset(rows) == multiset(FilterMap(stream, ToRow(codec, z.name)))
    requires IsLoaded(codec, z, rows, copy)
    ensures k in copy.records <==> k in zone.records && Dump(zone.records[k], v) != []
    ensures k in copy.records ==> multiset(copy.records[k]) == multiset(Untagged(Dump(zone.records[k], v)))
  {
    var f := LoadedAt(codec, z, k);
    var sent := FilterMap(stream, ToRow(codec, z.name));
    FilterMapPermutation(rows, sent, f);
    ReplicaOfStream(codec, zone, v, order, z, stream, k);
    var loaded := FilterMap(rows, f);
    assert |loaded| == |multiset(loaded)| == |multiset(FilterMap(sent, f))| == |FilterMap(sent, f)|;
    if k in zone.records {
      UntaggedAt(Dump(zone.records[k], v));
    }
  }

  lemma ReplicaIsCopy(codec: RdataText, zone: StoredZone, v: int, order: seq<Name>, stream: seq<Record>,
                      z: ZoneRow, rows: seq<RecordRow>, copy: StoredZone)
    requires WellFormed(zone) && TextRoundTrips(codec, zone)
    requires IsTransfer(zone, v, order, stream) && z.name == zone.apex
    requires multiset(rows) == multiset(FilterMap(stream, ToRow(codec, z.name)))
    requires IsLoaded(codec, z, rows, copy)
    ensures IsCopy(zone, v, copy)
  {
    forall k: Name
      ensures k in copy.records <==> k in zone.records && Dump(zone.records[k], v) != []
      ensures k in copy.records ==> multiset(copy.records[k]) == multiset(Untagged(Dump(zone.records[k], v)))
    {
      CopyOfOwner(codec, zone, v, order, stream, z, rows, copy, k);
    }
  }

  lemma CopyMirrors(zone: StoredZone, v: int, copy: StoredZone, w: int)
    requires IsCopy(zone, v, copy) && EveryOwnerVisible(zone, v)
    requires copy.apex == zone.apex && copy.serial == zone.serial && copy.minimum == zone.minimum
    ensures Mirrors(zone, v, copy, w)
  {
    CopyHasSameOwners(zone, v, copy);
    forall k, t: U16 | k in zone.records ensures Alike(Resolve(zone.records[k], v, t), Resolve(copy.records[k], w, t)) {
      CopyMirrorsOwner(zone, v, copy, w, k, t);
    }
  }

  lemma CopyHasSameOwners(zone: StoredZone, v: int, copy: StoredZone)
    requires IsCopy(zone, v, copy) && EveryOwnerVisible(zone, v)
    ensures zone.records.Keys == copy.records.Keys
  {
    assert forall k: Name :: k in zone.records <==> k in copy.records;
  }

  lemma CopyMirrorsOwner(zone: StoredZone, v: int, copy: StoredZone, w: int, k: Name, t: U16)
    requires IsCopy(zone, v, copy) && k in copy.records
    ensures Alike(Resolve(zone.records[k], v, t), Resolve(copy.records[k], w, t))
  {
    CopyResolvesAlike(zone.records[k], v, copy.records[k], w, t);
  }

  /**
   The visibility condition is exact: the copy has the primary's owner names if and only if every owner shows
   something to the transferring view.
   */
  lemma OwnersSurviveIffVisible(zone: StoredZone, v: int, copy: StoredZone)
    requires IsCopy(zone, v, copy)
    ensures (forall k :: k in zone.records <==> k in copy.records) <==> EveryOwnerVisible(zone, v)
  {
    if !EveryOwnerVisible(zone, v) {
      var k :| k in zone.records && Dump(zone.records[k], v) == [];
      assert k !in copy.records;
    }
  }

  /** What was copied shows on the secondary. */
  lemma CopiedOwnersShow(zone: StoredZone, v: int, copy: StoredZone, w: int, k: Name)
    requires IsCopy(zone, v, copy) && k in copy.records
    ensures Dump(copy.records[k], w) != []
  {
    var r := Dump(zone.records[k], v)[0];
    DumpMembers(zone.records[k], v, r);
    CopyMirrorsOwner(zone, v, copy, w, k, r.rdata.Type());
    AlikeSize(Resolve(zone.records[k], v, r.rdata.Type()), Resolve(copy.records[k], w, r.rdata.Type()));
    var s := Resolve(copy.records[k], w, r.rdata.Type())[0];
    ResolveMembers(copy.records[k], w, r.rdata.Type(), s);
    DumpMembers(copy.records[k], w, s);
  }

  /** An owner that shows nothing is lost: its NODATA becomes NXDOMAIN, or the answer of a wildcard it used to hide. */
  lemma InvisibleOwnersVanish(zone: StoredZone, v: int, copy: StoredZone, w: int, k: Name)
    requires IsCopy(zone, v, copy) && WellFormed(zone) && k in zone.records && Dump(zone.records[k], v) == []
    ensures LookupInZone(zone, v, k, ANY).outcome == NoData
    ensures LookupInZone(copy, w, k, ANY).outcome != NoData
  {
    OwnersAreFolded(zone, k);
    AnyOutcome(zone, v, k);
    AnyOutcome(copy, w, k);
    if OwnerFor(copy, k).Some? {
      CopiedOwnersShow(zone, v, copy, w, OwnerFor(copy, k).value);
    }
  }

  /** The copy answers every question like the original. */
  ghost predicate AnswersAlike(zone: StoredZone, v: int, copy: StoredZone, w: int) {
    forall q: Name, t: U16 :: SameAnswer(LookupInZone(zone, v, q, t), LookupInZone(copy, w, q, t))
  }

  /** Replication keeps all answers exactly when every owner of the primary shows something to the transferring view. */
  lemma AnswersSurviveIffVisible(zone: StoredZone, v: int, copy: StoredZone, w: int)
    requires IsCopy(zone, v, copy) && WellFormed(zone) && OneCnamePerOwner(zone, v)
    requires copy.apex == zone.apex && copy.serial == zone.serial && copy.minimum == zone.minimum
    ensures AnswersAlike(zone, v, copy, w) <==> EveryOwnerVisible(zone, v)
  {
    SingleCnamesOf(zone, v);
    if EveryOwnerVisible(zone, v) {
      CopyMirrors(zone, v, copy, w);
      forall q: Name, t: U16 ensures SameAnswer(LookupInZone(zone, v, q, t), LookupInZone(copy, w, q, t)) {
        MirrorsAnswer(zone, v, copy, w, q, t);
      }
    } else {
      var k :| k in zone.records && Dump(zone.records[k], v) == [];
      InvisibleOwnersVanish(zone, v, copy, w, k);
      assert !SameAnswer(LookupInZone(zone, v, k, ANY), LookupInZone(copy, w, k, ANY));
    }
  }

  // ----- The theorem -----

  /**
   End to end. The primary dumps `zone` to a client of view `v`; the stream is cut into messages at will; the
   secondary reassembles it, writes its rows, reads them back in any order and loads them as `copy`. Then for
   every name for which both servers use this zone, and for every type, the secondary gives any of its own
   clients what the primary gives the transferring client: outcome, response code, authority, and answers up
   to order.
   */
  lemma ReplicationPreservesAnswers(codec: RdataText, primary: ZoneStore, zone: StoredZone, ip: int,
                                    order: seq<Name>, stream: seq<Record>, msgs: seq<seq<Record>>,
                                    z: ZoneRow, pulled: (ZoneRow, seq<RecordRow>), rows: seq<RecordRow>,
                                    copy: StoredZone, secondary: ZoneStore, c: Client, q: Name, qtype: U16)
    requires var v := ViewFor(primary.views, Client(ip, None));
             && WellFormed(zone) && TextRoundTrips(codec, zone) && EveryOwnerVisible(zone, v)
             && OneCnamePerOwner(zone, v)
             && IsTransfer(zone, v, order, stream)
    requires |stream| <= MAX_RECORDS && Flatten(msgs) == stream && msgs != [] && msgs[0] != []
    requires z.name == zone.apex && Pulled(codec, z, Reassemble([], msgs)) == Ok(pulled)
    requires multiset(rows) == multiset(pulled.1) && IsLoaded(codec, pulled.0, rows, copy)
    requires ZoneFor(primary.zones, q) == Some(zone) && ZoneFor(secondary.zones, q) == Some(copy)
    ensures SameAnswer(Lookup(primary, q, qtype, Client(ip, None)), Lookup(secondary, q, qtype, c))
  {
    var v, w := ViewFor(primary.views, Client(ip, None)), ViewFor(secondary.views, c);
    StreamIsBracketed(zone, v, order, stream);
    AnySplitReassembles(msgs, stream);
    ReplicaIsCopy(codec, zone, v, order, stream, pulled.0, rows, copy);
    CopyMirrors(zone, v, copy, w);
    SingleCnamesOf(zone, v);
    MirrorsAnswer(zone, v, copy, w, q, qtype);
  }

  /** And the transfer never fails on such a stream. */
  lemma TransferSucceeds(codec: RdataText, zone: StoredZone, v: int, order: seq<Name>, stream: seq<Record>,
                         msgs: seq<seq<Record>>, z: ZoneRow)
    requires WellFormed(zone) && IsTransfer(zone, v, order, stream)
    requires |stream| <= MAX_RECORDS && Flatten(msgs) == stream && msgs != [] && msgs[0] != []
    ensures Pulled(codec, z, Reassemble([], msgs)).Ok?
    ensures Pulled(codec, z, Reassemble([], msgs)).value.0.serial == zone.serial
  {
    StreamIsBracketed(zone, v, order, stream);
    AnySplitReassembles(msgs, stream);
  }

  lemma ReplicaAnswersIffVisible(codec: RdataText, zone: StoredZone, v: int, order: seq<Name>, stream: seq<Record>,
                                 z: ZoneRow, rows: seq<RecordRow>, copy: StoredZone, w: int)
    requires WellFormed(zone) && TextRoundTrips(codec, zone) && OneCnamePerOwner(zone, v)
    requires IsTransfer(zone, v, order, stream) && z.name == zone.apex
    requires Pulled(codec, z, Ok(stream)).Ok?
    requires rows == Pulled(codec, z, Ok(stream)).value.1
    requires IsLoaded(codec, Pulled(codec, z, Ok(stream)).value.0, rows, copy)
    ensures AnswersAlike(zone, v, copy, w) <==> EveryOwnerVisible(zone, v)
  {
    StreamIsBracketed(zone, v, order, stream);
    ReplicaIsCopy(codec, zone, v, order, stream, Pulled(codec, z, Ok(stream)).value.0, rows, copy);
    AnswersSurviveIffVisible(zone, v, copy, w);
  }

  /**
   One refresh, both sides: the primary loads its rows and dumps the zone for view `v`; the secondary `z` pulls
   the stream, stores the rows and loads them. It fails only on a zone of too many records, and then the copy
   answers like the primary exactly when every owner shows something to `v`.
   */
  method Refresh(codec: RdataText, zrow: ZoneRow, rows: seq<RecordRow>, v: int, z: ZoneRow)
    returns (zone: StoredZone, r: Result<StoredZone>)
    requires WellTyped(codec) && z.name == zrow.name
    ensures IsLoaded(codec, zrow, rows, zone)
    ensures r.Err? ==> exists order, stream :: IsTransfer(zone, v, order, stream) && |stream| > MAX_RECORDS
    ensures r.Ok? && TextRoundTrips(codec, zone) && OneCnamePerOwner(zone, v) ==>
              forall w :: AnswersAlike(zone, v, r.value, w) <==> EveryOwnerVisible(zone, v)
  {
    zone := LoadZone(codec, zrow, rows);
    LoadedZonesAreWellFormed(codec, zrow, rows, zone);
    var stream, order := DumpZone(zone, v);
    var pulled := Pull(codec, z, [stream]);
    StreamIsBracketed(zone, v, order, stream);
    assert [] + stream == stream;
    if |stream| <= MAX_RECORDS {
      assert Flatten([stream]) == stream;
      AnySplitReassembles([stream], stream);
    }
    if pulled.Err? {
      return zone, Err;
    }
    var copy := LoadZone(codec, pulled.value.0, pulled.value.1);
    if TextRoundTrips(codec, zone) && OneCnamePerOwner(zone, v) {
      forall w: int ensures AnswersAlike(zone, v, copy, w) <==> EveryOwnerVisible(zone, v) {
        ReplicaAnswersIffVisible(codec, zone, v, order, stream, z, pulled.value.1, copy, w);
      }
    }
    r := Ok(copy);
  }
}
