/** The zone dump served to a transferring client (src/store.rs `axfr`; section 2.2 of RFC 5936). */
module Axfr {
  import opened Wrappers
  import opened Names
  import opened Seqs
  import opened Store
  import opened SplitHorizon
  import opened StoreLookup
  import opened Loading

  /** The records dumped for one owner. */
  function OwnerDump(zone: StoredZone, v: int): Name -> seq<Record> {
    (k: Name) => if k in zone.records then Emit(k, Dump(zone.records[k], v)) else []
  }

  /** The body when owners are visited in the given order (the source walks a hash map). */
  function Body(zone: StoredZone, v: int, order: seq<Name>): seq<Record> {
    FlatMap(order, OwnerDump(zone, v), |order|)
  }

  /** Every owner exactly once. */
  ghost predicate Enumerates(order: seq<Name>, zone: StoredZone) {
    && (forall k :: k in order <==> k in zone.records)
    && (forall i, j :: 0 <= i < j < |order| ==> order[i] != order[j])
  }

  ghost predicate IsTransfer(zone: StoredZone, v: int, order: seq<Name>, stream: seq<Record>) {
    Enumerates(order, zone) && stream == [SoaRecord(zone)] + Body(zone, v, order) + [SoaRecord(zone)]
  }

  /** Push what one owner of the map shows. */
  method DumpOwner(zone: StoredZone, v: int, k: Name, body: seq<Record>, ghost part: Name -> seq<Record>) returns (out: seq<Record>)
    requires part == OwnerDump(zone, v)
    ensures out == body + part(k)
  {
    out := body;
    if k in zone.records {
      var visible := CollectVisible(zone.records[k], v);
      out := PushAll(body, k, visible);
    }
  }

  /** The owners in the order the hash map happens to yield them. */
  method ListOwners(zone: StoredZone) returns (order: seq<Name>)
    ensures Enumerates(order, zone)
  {
    order := [];
    var rest := zone.records.Keys;
    while rest != {}
      invariant rest <= zone.records.Keys
      invariant forall k :: k in order <==> k in zone.records && k !in rest
      invariant forall a, b :: 0 <= a < b < |order| ==> order[a] != order[b]
      decreases rest
    {
      var k :| k in rest;
      order := order + [k];
      rest := rest - {k};
    }
  }

  /** The loop over the zone's owners. */
  method DumpOwners(zone: StoredZone, v: int, order: seq<Name>) returns (body: seq<Record>)
    ensures body == Body(zone, v, order)
  {
    body := [];
    ghost var part := OwnerDump(zone, v);
    for i := 0 to |order|
      invariant body == FlatMap(order, part, i)
    {
      body := DumpOwner(zone, v, order[i], body, part);
    }
  }

  /** The whole dump, bracketed by the SOA. */
  method DumpZone(zone: StoredZone, v: int) returns (stream: seq<Record>, order: seq<Name>)
    ensures IsTransfer(zone, v, order, stream)
  {
    order := ListOwners(zone);
    var body := DumpOwners(zone, v, order);
    stream := [SoaRecord(zone)] + body + [SoaRecord(zone)];
  }

  /** `axfr` for the zone at apex `q`; the client is matched by address only. */
  method Transfer(store: ZoneStore, q: Name, ip: int) returns (stream: Option<seq<Record>>, zone: Option<StoredZone>, order: seq<Name>)
    ensures stream.Some? <==> exists z :: z in store.zones && Key(z.apex) == Key(q)
    ensures stream.Some? ==>
      && zone.Some? && zone.value in store.zones && Key(zone.value.apex) == Key(q)
      && IsTransfer(zone.value, ViewFor(store.views, Client(ip, None)), order, stream.value)
  {
    order, stream, zone := [], None, None;
    for i := 0 to |store.zones|
      invariant stream.None? && forall j :: 0 <= j < i ==> Key(store.zones[j].apex) != Key(q)
    {
      var z := store.zones[i];
      if Key(z.apex) == Key(q) {
        var v := ViewFor(store.views, Client(ip, None));
        var out, visited := DumpZone(z, v);
        assert z in store.zones;
        return Some(out), Some(z), visited;
      }
    }
  }

  // ----- The dump agrees with queries -----

  function Having(k: Name, t: int): Record -> Option<Record> {
    (r: Record) => if r.owner == k && r.rdata.Type() == t then Some(r) else None
  }

  lemma EmitConcat(k: Name, a: seq<StoredRecord>, b: seq<StoredRecord>)
    ensures Emit(k, a + b) == Emit(k, a) + Emit(k, b)
  {
  }

  lemma ForeignOwnerIsSkipped(o: Name, recs: seq<StoredRecord>, k: Name, t: int)
    requires o != k
    ensures FilterMap(Emit(o, recs), Having(k, t)) == []
  {
    FilterMapNone(Emit(o, recs), Having(k, t));
  }

  lemma ResolvedTypeIsKept(k: Name, recs: seq<StoredRecord>, v: int, u: int, t: int)
    ensures FilterMap(Emit(k, Resolve(recs, v, u)), Having(k, t)) == if u == t then Emit(k, Resolve(recs, v, u)) else []
  {
    var out := Emit(k, Resolve(recs, v, u));
    forall r | r in out ensures r.rdata.Type() == u && r.owner == k {
      var i :| 0 <= i < |out| && out[i] == r;
      ResolveMembers(recs, v, u, Resolve(recs, v, u)[i]);
    }
    if u == t {
      FilterMapAll(out, Having(k, t));
      assert FilterMap(out, Having(k, t)) == out;
    } else {
      FilterMapNone(out, Having(k, t));
    }
  }

  lemma FilterConcatStep(k: Name, f: int -> seq<StoredRecord>, t: int, n: nat)
    ensures FilterMap(Emit(k, ConcatBelow(f, n + 1)), Having(k, t))
         == FilterMap(Emit(k, ConcatBelow(f, n)), Having(k, t)) + FilterMap(Emit(k, f(n)), Having(k, t))
  {
    EmitConcat(k, ConcatBelow(f, n), f(n));
    FilterMapConcat(Emit(k, ConcatBelow(f, n)), Emit(k, f(n)), Having(k, t));
  }

  /** The records of type `t` in each part. */
  function PartsHaving(k: Name, f: int -> seq<StoredRecord>, t: int): int -> seq<Record> {
    (u: int) => FilterMap(Emit(k, f(u)), Having(k, t))
  }

  lemma {:induction false} FilterConcat(k: Name, f: int -> seq<StoredRecord>, t: int, n: nat)
    ensures FilterMap(Emit(k, ConcatBelow(f, n)), Having(k, t)) == ConcatBelow(PartsHaving(k, f, t), n)
  {
    if n > 0 {
      FilterConcat(k, f, t, n - 1);
      FilterConcatStep(k, f, t, n - 1);
    }
  }

  lemma DumpHoldsEachTypeOnce(k: Name, recs: seq<StoredRecord>, v: int, t: U16)
    ensures FilterMap(Emit(k, Dump(recs, v)), Having(k, t)) == Emit(k, Resolve(recs, v, t))
  {
    var f := ResolveType(recs, v);
    var parts := PartsHaving(k, f, t);
    forall u ensures u == t || parts(u) == [] {
      ResolvedTypeIsKept(k, recs, v, u, t);
    }
    FilterConcat(k, f, t, U16_LIMIT);
    ConcatOfOne(parts, t, U16_LIMIT);
    ResolvedTypeIsKept(k, recs, v, t, t);
  }

  lemma OwnerDumpHaving(zone: StoredZone, v: int, o: Name, k: Name, t: U16)
    ensures FilterMap(OwnerDump(zone, v)(o), Having(k, t))
         == if o == k && k in zone.records then Emit(k, Resolve(zone.records[k], v, t)) else []
  {
    if o !in zone.records {
      assert OwnerDump(zone, v)(o) == [];
    } else if o == k {
      DumpHoldsEachTypeOnce(k, zone.records[k], v, t);
    } else {
      ForeignOwnerIsSkipped(o, Dump(zone.records[o], v), k, t);
    }
  }

  /** The body holds, for every owner and type, exactly the visible RRset, once, and nothing else. */
  lemma BodyHoldsEachRRsetOnce(zone: StoredZone, v: int, order: seq<Name>, k: Name, t: U16)
    requires Enumerates(order, zone)
    ensures FilterMap(Body(zone, v, order), Having(k, t))
         == if k in zone.records then Emit(k, Resolve(zone.records[k], v, t)) else []
  {
    var part, kept := OwnerDump(zone, v), if k in zone.records then Emit(k, Resolve(zone.records[k], v, t)) else [];
    forall i | 0 <= i < |order| && order[i] != k ensures FilterMap(part(order[i]), Having(k, t)) == [] {
      OwnerDumpHaving(zone, v, order[i], k, t);
    }
    OwnerDumpHaving(zone, v, k, k, t);
    FilterFlatMapOfOne(order, part, Having(k, t), k, kept);
  }

  /**
   For every stored owner not covered by a deeper zone and every type with visible records, the dump's
   records of that owner and type are exactly the answers to that query by the transferring client.
   */
  lemma DumpAgreesWithLookup(store: ZoneStore, zone: StoredZone, ip: int, order: seq<Name>, stream: seq<Record>, k: Name, t: U16)
    requires var v := ViewFor(store.views, Client(ip, None)); IsTransfer(zone, v, order, stream)
    requires WellFormed(zone) && k in zone.records && ZoneFor(store.zones, k) == Some(zone)
    requires t != ANY && Resolve(zone.records[k], ViewFor(store.views, Client(ip, None)), t) != []
    ensures FilterMap(stream[1..|stream| - 1], Having(k, t)) == Lookup(store, k, t, Client(ip, None)).answers
  {
    var v := ViewFor(store.views, Client(ip, None));
    assert stream[1..|stream| - 1] == Body(zone, v, order);
    BodyHoldsEachRRsetOnce(zone, v, order, k, t);
    StoredOwnerLookup(zone, v, k, t);
  }

  lemma StoredOwnerLookup(zone: StoredZone, v: int, k: Name, t: U16)
    requires WellFormed(zone) && k in zone.records && t != ANY && Resolve(zone.records[k], v, t) != []
    ensures LookupInZone(zone, v, k, t).answers == Emit(k, Resolve(zone.records[k], v, t))
  {
    OwnersAreFolded(zone, k);
    VisibleTypesAreSupported(zone, v, k, t);
    assert RecordsAt(zone, Key(k)) == Some(zone.records[k]);
    assert SightOf(zone, v)(k, t) == Resolve(zone.records[k], v, t);
  }

  lemma VisibleTypesAreSupported(zone: StoredZone, v: int, k: Name, t: U16)
    requires WellFormed(zone) && k in zone.records && Resolve(zone.records[k], v, t) != []
    ensures Supported(t)
  {
    var r := Resolve(zone.records[k], v, t)[0];
    ResolveMembers(zone.records[k], v, t, r);
    assert r in zone.records[k];
  }

  lemma OwnersAreFolded(zone: StoredZone, k: Name)
    requires WellFormed(zone) && k in zone.records
    ensures Key(k) == k
  {
    KeyIsIdempotent(zone.apex);
  }
}
