/**
 From a dynamic update to the answer: the tables that `dyndns_set_address` (src/db.rs) leaves behind, loaded by
 `build_from` and queried by `lookup` (src/store.rs).
 */
module DynDnsServing {
  import opened Wrappers
  import opened Text
  import opened Names
  import opened Seqs
  import opened Store
  import opened Loading
  import opened SplitHorizon
  import opened DynDns

  /** Record type names to numbers; unknown names have no supported number. */
  type TypeNumbers = string -> U16

  function RowOf(types: TypeNumbers, e: RecordEntry): RecordRow {
    RecordRow(RelName(e.name), types(e.rtype), e.ttl, e.view, e.data, e.enabled)
  }

  function RowIn(types: TypeNumbers, zoneId: int): RecordEntry -> Option<RecordRow> {
    (e: RecordEntry) => if e.zoneId == zoneId then Some(RowOf(types, e)) else None
  }

  /** The records of one zone, as the loader reads them. */
  function RowsOf(types: TypeNumbers, records: seq<RecordEntry>, zoneId: int): seq<RecordRow> {
    FilterMap(records, RowIn(types, zoneId))
  }

  // ----- When one row is served -----

  /** The lookup answers the question itself with this data. */
  ghost predicate Answers(zone: StoredZone, v: int, q: Name, qtype: int, data: RData) {
    exists rec :: rec in LookupInZone(zone, v, q, qtype).answers && rec.owner == q && rec.rdata == data
  }

  lemma AnswersIffSeen(zone: StoredZone, v: int, q: Name, data: RData)
    requires data.Type() == A || data.Type() == AAAA
    ensures Answers(zone, v, q, data.Type(), data) <==> exists r :: r in SightOf(zone, v)(q, data.Type()) && r.rdata == data
  {
    var t, see := data.Type(), SightOf(zone, v);
    AnswersAreBacked(zone, v, q, t);
    if r :| r in see(q, t) && r.rdata == data {
      var i :| 0 <= i < |see(q, t)| && see(q, t)[i] == r;
      assert Emit(q, see(q, t))[i] == Record(q, r.ttl, r.rdata);
      assert LookupInZone(zone, v, q, t).answers == Emit(q, see(q, t));
      assert Record(q, r.ttl, r.rdata) in LookupInZone(zone, v, q, t).answers;
    }
    if rec :| rec in LookupInZone(zone, v, q, t).answers && rec.owner == q && rec.rdata == data {
      assert rec != SoaRecord(zone);
      assert Backed(see, rec);
    }
  }

  /** A row tagged `view` is what view `v` sees at an owner for a type. */
  ghost predicate ViewSees(recs: seq<StoredRecord>, t: int, view: Option<int>, v: int) {
    view == Some(v) || (view.None? && forall s :: s in recs && s.rdata.Type() == t ==> s.view != Some(v))
  }

  /** The row loads to this data, under the owner that answers for `q`, and view `v` sees it there. */
  ghost predicate RowServes(codec: RdataText, z: ZoneRow, zone: StoredZone, row: RecordRow, data: RData, v: int, q: Name) {
    && Loaded(codec, z, row).Some? && Loaded(codec, z, row).value.rdata == data
    && OwnerFor(zone, Key(q)) == Some(OwnerOf(z, row))
    && ViewSees(zone.records[OwnerOf(z, row)], data.Type(), row.view, v)
  }

  lemma SeenComesFromRow(codec: RdataText, z: ZoneRow, rows: seq<RecordRow>, zone: StoredZone, data: RData, v: int, q: Name, r: StoredRecord)
    requires IsLoaded(codec, z, rows, zone)
    requires r in SightOf(zone, v)(q, data.Type()) && r.rdata == data
    ensures exists row :: row in rows && RowServes(codec, z, zone, row, data, v, q)
  {
    var o := OwnerFor(zone, Key(q)).value;
    ResolveMembers(zone.records[o], v, data.Type(), r);
    FilterMapMembers(rows, LoadedAt(codec, z, o), r);
    var row :| row in rows && LoadedAt(codec, z, o)(row) == Some(r);
    assert RowServes(codec, z, zone, row, data, v, q);
  }

  lemma RowIsSeen(codec: RdataText, z: ZoneRow, rows: seq<RecordRow>, zone: StoredZone, row: RecordRow, data: RData, v: int, q: Name)
    requires IsLoaded(codec, z, rows, zone) && row in rows && RowServes(codec, z, zone, row, data, v, q)
    ensures exists r :: r in SightOf(zone, v)(q, data.Type()) && r.rdata == data
  {
    var o, r := OwnerOf(z, row), Loaded(codec, z, row).value;
    FilterMapMembers(rows, LoadedAt(codec, z, o), r);
    assert LoadedAt(codec, z, o)(row) == Some(r);
    ResolveMembers(zone.records[o], v, data.Type(), r);
    assert r in SightOf(zone, v)(q, data.Type());
  }

  /**
   A question is answered with an address exactly when some row loads to it under the owner that answers for the
   name and the client's view sees that row there.
   */
  lemma RowIsServedIff(codec: RdataText, z: ZoneRow, rows: seq<RecordRow>, zone: StoredZone, data: RData, v: int, q: Name)
    requires IsLoaded(codec, z, rows, zone) && (data.Type() == A || data.Type() == AAAA)
    ensures Answers(zone, v, q, data.Type(), data) <==> exists row :: row in rows && RowServes(codec, z, zone, row, data, v, q)
  {
    AnswersIffSeen(zone, v, q, data);
    if r :| r in SightOf(zone, v)(q, data.Type()) && r.rdata == data {
      SeenComesFromRow(codec, z, rows, zone, data, v, q, r);
    }
    if row :| row in rows && RowServes(codec, z, zone, row, data, v, q) {
      RowIsSeen(codec, z, rows, zone, row, data, v, q);
    }
  }

  // ----- The same of table records -----

  /** The record text parses to this data. */
  predicate Carries(codec: RdataText, types: TypeNumbers, z: ZoneRow, e: RecordEntry, data: RData) {
    codec.parse(types(e.rtype), e.data, z.name) == Some(data)
  }

  /** An enabled record carries this data, its owner answers for `q`, and view `v` sees it there. */
  ghost predicate EntryServes(codec: RdataText, types: TypeNumbers, z: ZoneRow, zone: StoredZone, e: RecordEntry, data: RData, v: int, q: Name) {
    var o := OwnerOf(z, RowOf(types, e));
    && e.enabled && Carries(codec, types, z, e, data)
    && OwnerFor(zone, Key(q)) == Some(o) && ViewSees(zone.records[o], data.Type(), e.view, v)
  }

  lemma EntryServesLikeRow(codec: RdataText, types: TypeNumbers, z: ZoneRow, zone: StoredZone, e: RecordEntry, data: RData, v: int, q: Name)
    requires WellTyped(codec) && (data.Type() == A || data.Type() == AAAA)
    ensures EntryServes(codec, types, z, zone, e, data, v, q) <==> RowServes(codec, z, zone, RowOf(types, e), data, v, q)
  {
    if Carries(codec, types, z, e, data) {
      assert codec.parse(types(e.rtype), e.data, z.name).value.Type() == types(e.rtype);
    }
  }

  /** The rows of a zone, read in any order, hold exactly its records. */
  lemma RowsAreRecords(types: TypeNumbers, records: seq<RecordEntry>, zoneId: int, rows: seq<RecordRow>, row: RecordRow)
    requires multiset(rows) == multiset(RowsOf(types, records, zoneId))
    ensures row in rows <==> exists e :: e in records && e.zoneId == zoneId && RowOf(types, e) == row
  {
    assert row in rows <==> row in multiset(rows);
    assert row in RowsOf(types, records, zoneId) <==> row in multiset(RowsOf(types, records, zoneId));
    FilterMapMembers(records, RowIn(types, zoneId), row);
    if e :| e in records && RowIn(types, zoneId)(e) == Some(row) {
      assert e.zoneId == zoneId && RowOf(types, e) == row;
    }
    if e :| e in records && e.zoneId == zoneId && RowOf(types, e) == row {
      assert RowIn(types, zoneId)(e) == Some(row);
    }
  }

  /** The loaded zone answers with an address exactly when some record of the zone serves it. */
  lemma RecordIsServedIff(codec: RdataText, types: TypeNumbers, records: seq<RecordEntry>, zoneId: int,
                          z: ZoneRow, rows: seq<RecordRow>, zone: StoredZone, data: RData, v: int, q: Name)
    requires WellTyped(codec) && (data.Type() == A || data.Type() == AAAA)
    requires multiset(rows) == multiset(RowsOf(types, records, zoneId)) && IsLoaded(codec, z, rows, zone)
    ensures Answers(zone, v, q, data.Type(), data) <==>
            exists e :: e in records && e.zoneId == zoneId && EntryServes(codec, types, z, zone, e, data, v, q)
  {
    RowIsServedIff(codec, z, rows, zone, data, v, q);
    if row :| row in rows && RowServes(codec, z, zone, row, data, v, q) {
      RowsAreRecords(types, records, zoneId, rows, row);
      var e :| e in records && e.zoneId == zoneId && RowOf(types, e) == row;
      EntryServesLikeRow(codec, types, z, zone, e, data, v, q);
    }
    if e :| e in records && e.zoneId == zoneId && EntryServes(codec, types, z, zone, e, data, v, q) {
      RowsAreRecords(types, records, zoneId, rows, RowOf(types, e));
      EntryServesLikeRow(codec, types, z, zone, e, data, v, q);
    }
  }

  // ----- The record an update leaves -----

  /** The record that holds the address after an update that found a zone. */
  function WrittenEntry(db: Tables, at: nat, rel: string, rtype: string, address: string, view: Option<int>, ttl: U32): RecordEntry
    requires at < |db.zones|
  {
    var i := Existing(db.records, db.zones[at].id, rel, rtype, view);
    if i.None? then RecordEntry(db.zones[at].id, view, rel, rtype, Some(ttl), address, true)
    else db.records[i.value].(data := address)
  }

  /** Created, updated or unchanged, it is there; all other records were there before. */
  lemma WrittenIsThere(db: Tables, at: nat, rel: string, rtype: string, address: string, view: Option<int>, ttl: U32)
    requires at < |db.zones|
    ensures var (db', r) := Write(db, at, rel, rtype, address, view, ttl);
            var e := WrittenEntry(db, at, rel, rtype, address, view, ttl);
            && e in db'.records && e.data == address && Matches(e, db.zones[at].id, rel, rtype, view)
            && forall other :: other in db'.records && other != e ==> other in db.records
  {
    var (db', r) := Write(db, at, rel, rtype, address, view, ttl);
    var e := WrittenEntry(db, at, rel, rtype, address, view, ttl);
    var i := Existing(db.records, db.zones[at].id, rel, rtype, view);
    var n := if i.Some? then i.value else |db.records|;
    assert db'.records[n] == e;
    forall other | other in db'.records && other != e ensures other in db.records {
      var j :| 0 <= j < |db'.records| && db'.records[j] == other;
      assert j < |db.records| && other == db.records[j];
    }
  }

  /** No record of the zone carries this data yet. */
  ghost predicate NewData(codec: RdataText, types: TypeNumbers, z: ZoneRow, records: seq<RecordEntry>, zoneId: int, data: RData) {
    forall e :: e in records && e.zoneId == zoneId ==> !Carries(codec, types, z, e, data)
  }

  // ----- The owner does not depend on the case of the record name -----

  lemma {:induction false} TrimSpaceOfLower(s: string)
    ensures TrimSpace(Lower(s)) == Lower(TrimSpace(s))
    decreases |s|
  {
    if s != "" {
      if IsSpace(s[0]) {
        assert Lower(s)[1..] == Lower(s[1..]);
        TrimSpaceOfLower(s[1..]);
      } else if IsSpace(s[|s| - 1]) {
        assert Lower(s)[..|s| - 1] == Lower(s[..|s| - 1]);
        TrimSpaceOfLower(s[..|s| - 1]);
      }
    }
  }

  lemma {:induction false} TrimDotsOfLower(s: string)
    ensures TrimDots(Lower(s)) == Lower(TrimDots(s))
    decreases |s|
  {
    if s != "" && s[|s| - 1] == '.' {
      assert Lower(s)[..|s| - 1] == Lower(s[..|s| - 1]);
      TrimDotsOfLower(s[..|s| - 1]);
    }
  }

  lemma RelNameOfLower(s: string)
    ensures RelName(Lower(s)) == Key(RelName(s))
  {
    TrimSpaceOfLower(s);
    TrimDotsOfLower(TrimSpace(s));
    SplitLower(TrimDots(TrimSpace(s)));
  }

  lemma OwnerFoldsName(rel: Name, apex: Name)
    ensures Key(RecordFqdn(rel, apex)) == Key(RecordFqdn(Key(rel), apex))
  {
    if Key(rel) == ["@"] {
      OnlyAtFoldsToAt(rel);
    }
    KeyOfConcat(rel, apex);
    KeyOfConcat(Key(rel), apex);
    KeyIsIdempotent(rel);
    if rel == ["@"] {
      assert Lower("@") == "@";
      assert Key(rel) == ["@"];
    }
  }

  lemma OwnerIgnoresCase(a: string, b: string, apex: Name)
    requires SameId(a, b)
    ensures Key(RecordFqdn(RelName(a), apex)) == Key(RecordFqdn(RelName(b), apex))
  {
    OwnerFoldsName(RelName(a), apex);
    OwnerFoldsName(RelName(b), apex);
    RelNameOfLower(a);
    RelNameOfLower(b);
  }

  /** A good name is written where a query for the host looks. */
  lemma WrittenUnderHost(types: TypeNumbers, db: Tables, at: nat, host: string, rtype: string, address: string,
                         view: Option<int>, ttl: U32, z: ZoneRow)
    requires BestZone(db.zones, host) == Some(at) && Lower(host) == host && Key(z.name) == Split(ZoneName(db.zones[at]))
    requires Covers(ZoneName(db.zones[at]), host) && GoodName(host, ZoneName(db.zones[at]))
    ensures OwnerOf(z, RowOf(types, WrittenEntry(db, at, RelativeAt(db.zones, at, host), rtype, address, view, ttl)))
         == Key(Split(host))
  {
    var zone := ZoneName(db.zones[at]);
    var rel := Relative(host, zone);
    var e := WrittenEntry(db, at, rel, rtype, address, view, ttl);
    OwnerIgnoresCase(e.name, rel, z.name);
    RelativeNameReloads(host, zone, z.name);
  }

  /** The records stored under a key, if any. */
  function Under(zone: StoredZone, k: Name): seq<StoredRecord> {
    if k in zone.records then zone.records[k] else []
  }

  // ----- End to end -----

  /** What the way from an update to the answer has in common: the tables it left, loaded in any row order. */
  ghost predicate LoadedAfter(codec: RdataText, types: TypeNumbers, db: Tables, at: nat, fqdn: string, isV4: bool,
                              address: string, view: Option<int>, ttl: U32, z: ZoneRow, rows: seq<RecordRow>, zone: StoredZone)
  {
    && BestZone(db.zones, HostOf(fqdn)) == Some(at)
    && multiset(rows) == multiset(RowsOf(types, SetAddress(db, fqdn, isV4, address, view, ttl).0.records, db.zones[at].id))
    && IsLoaded(codec, z, rows, zone)
  }

  /** What the client asking for the host is told. */
  ghost predicate ClientGets(store: ZoneStore, c: Client, host: string, data: RData) {
    exists rec :: rec in Lookup(store, Split(host), data.Type(), c).answers && rec.owner == Split(host) && rec.rdata == data
  }

  lemma ClientGetsZoneAnswer(store: ZoneStore, c: Client, host: string, data: RData, zone: StoredZone)
    requires ZoneFor(store.zones, Split(host)) == Some(zone)
    ensures ClientGets(store, c, host, data) <==> Answers(zone, ViewFor(store.views, c), Split(host), data.Type(), data)
  {
  }

  /**
   The whole way, for every update, those that change nothing included: the update, the tables it leaves, the store
   loaded from them, and the answer. With the store choosing the zone that was updated, the client is answered with
   the address exactly when some enabled record of the zone carries it, that record's owner answers for the host,
   and the client's view sees it there.
   */
  lemma UpdateReachesTheClientIff(codec: RdataText, types: TypeNumbers, db: Tables, fqdn: string, at: nat, isV4: bool,
                                  address: string, view: Option<int>, ttl: U32,
                                  z: ZoneRow, rows: seq<RecordRow>, zone: StoredZone, data: RData,
                                  store: ZoneStore, c: Client)
    requires WellTyped(codec) && (data.Type() == A || data.Type() == AAAA)
    requires LoadedAfter(codec, types, db, at, fqdn, isV4, address, view, ttl, z, rows, zone)
    requires ZoneFor(store.zones, Split(HostOf(fqdn))) == Some(zone)
    ensures var db' := SetAddress(db, fqdn, isV4, address, view, ttl).0;
            ClientGets(store, c, HostOf(fqdn), data) <==>
            exists e :: e in db'.records && e.zoneId == db.zones[at].id
                        && EntryServes(codec, types, z, zone, e, data, ViewFor(store.views, c), Split(HostOf(fqdn)))
  {
    var db' := SetAddress(db, fqdn, isV4, address, view, ttl).0;
    ClientGetsZoneAnswer(store, c, HostOf(fqdn), data, zone);
    RecordIsServedIff(codec, types, db'.records, db.zones[at].id, z, rows, zone, data, ViewFor(store.views, c), Split(HostOf(fqdn)));
  }

  /** The host is a good name, so that its record lies where queries look. */
  ghost predicate GoodHost(db: Tables, at: nat, host: string, z: ZoneRow)
    requires at < |db.zones|
  {
    && Key(z.name) == Split(ZoneName(db.zones[at]))
    && Covers(ZoneName(db.zones[at]), host) && GoodName(host, ZoneName(db.zones[at]))
  }

  /** Under a good host name, the record written serves exactly when it is enabled and the client's view sees it. */
  lemma WrittenServesIff(codec: RdataText, types: TypeNumbers, db: Tables, fqdn: string, at: nat, isV4: bool,
                         address: string, view: Option<int>, ttl: U32,
                         z: ZoneRow, rows: seq<RecordRow>, zone: StoredZone, data: RData, v: int)
    requires WellTyped(codec) && (data.Type() == A || data.Type() == AAAA)
    requires LoadedAfter(codec, types, db, at, fqdn, isV4, address, view, ttl, z, rows, zone)
    requires GoodHost(db, at, HostOf(fqdn), z) && codec.parse(types(TypeFor(isV4)), address, z.name) == Some(data)
    ensures var host := HostOf(fqdn);
            var e := WrittenEntry(db, at, RelativeAt(db.zones, at, host), TypeFor(isV4), address, view, ttl);
            && e in SetAddress(db, fqdn, isV4, address, view, ttl).0.records && e.zoneId == db.zones[at].id
            && (EntryServes(codec, types, z, zone, e, data, v, Split(host))
                <==> e.enabled && ViewSees(Under(zone, Key(Split(host))), data.Type(), view, v))
  {
    var host := HostOf(fqdn);
    var rel := RelativeAt(db.zones, at, host);
    var e := WrittenEntry(db, at, rel, TypeFor(isV4), address, view, ttl);
    var db' := SetAddress(db, fqdn, isV4, address, view, ttl).0;
    LowerIsIdempotent(TrimDots(TrimSpace(fqdn)));
    WrittenIsThere(db, at, rel, TypeFor(isV4), address, view, ttl);
    WrittenUnderHost(types, db, at, host, TypeFor(isV4), address, view, ttl, z);
    if e.enabled {
      RecordIsStored(codec, types, db'.records, db.zones[at].id, z, rows, zone, e, data);
    }
  }

  /** An enabled record that carries an address is stored under its owner. */
  lemma RecordIsStored(codec: RdataText, types: TypeNumbers, records: seq<RecordEntry>, zoneId: int,
                       z: ZoneRow, rows: seq<RecordRow>, zone: StoredZone, e: RecordEntry, data: RData)
    requires WellTyped(codec) && (data.Type() == A || data.Type() == AAAA)
    requires multiset(rows) == multiset(RowsOf(types, records, zoneId)) && IsLoaded(codec, z, rows, zone)
    requires e in records && e.zoneId == zoneId && e.enabled && Carries(codec, types, z, e, data)
    ensures OwnerOf(z, RowOf(types, e)) in zone.records
  {
    var row := RowOf(types, e);
    RowsAreRecords(types, records, zoneId, rows, row);
    assert codec.parse(types(e.rtype), e.data, z.name).value.Type() == types(e.rtype);
    RowIsStored(codec, z, rows, zone, row);
  }

  lemma RowIsStored(codec: RdataText, z: ZoneRow, rows: seq<RecordRow>, zone: StoredZone, row: RecordRow)
    requires IsLoaded(codec, z, rows, zone) && row in rows && Loaded(codec, z, row).Some?
    ensures OwnerOf(z, row) in zone.records
  {
    var k := OwnerOf(z, row);
    FilterMapMembers(rows, LoadedAt(codec, z, k), Loaded(codec, z, row).value);
    assert LoadedAt(codec, z, k)(row) == Loaded(codec, z, row);
  }

  /**
   A new address under a good host name reaches the client exactly when the record written is enabled and the
   client's view sees it. The update says Updated of a disabled record too.
   */
  lemma NewAddressReachesTheClientIff(codec: RdataText, types: TypeNumbers, db: Tables, fqdn: string, at: nat, isV4: bool,
                                      address: string, view: Option<int>, ttl: U32,
                                      z: ZoneRow, rows: seq<RecordRow>, zone: StoredZone, data: RData,
                                      store: ZoneStore, c: Client)
    requires WellTyped(codec) && (data.Type() == A || data.Type() == AAAA)
    requires LoadedAfter(codec, types, db, at, fqdn, isV4, address, view, ttl, z, rows, zone)
    requires GoodHost(db, at, HostOf(fqdn), z) && codec.parse(types(TypeFor(isV4)), address, z.name) == Some(data)
    requires NewData(codec, types, z, db.records, db.zones[at].id, data)
    requires ZoneFor(store.zones, Split(HostOf(fqdn))) == Some(zone)
    ensures var host := HostOf(fqdn);
            var e := WrittenEntry(db, at, RelativeAt(db.zones, at, host), TypeFor(isV4), address, view, ttl);
            ClientGets(store, c, host, data)
            <==> e.enabled && ViewSees(Under(zone, Key(Split(host))), data.Type(), view, ViewFor(store.views, c))
  {
    var host, v := HostOf(fqdn), ViewFor(store.views, c);
    var rel := RelativeAt(db.zones, at, host);
    UpdateReachesTheClientIff(codec, types, db, fqdn, at, isV4, address, view, ttl, z, rows, zone, data, store, c);
    WrittenServesIff(codec, types, db, fqdn, at, isV4, address, view, ttl, z, rows, zone, data, v);
    WrittenIsThere(db, at, rel, TypeFor(isV4), address, view, ttl);
  }

  /** The input: one disabled record. The update reports Updated, and the address is not served to anybody. */
  lemma DisabledRecordIsNotServed(codec: RdataText, types: TypeNumbers, z: ZoneRow, rows: seq<RecordRow>, zone: StoredZone,
                                  data: RData, v: int, q: Name)
    requires WellTyped(codec) && (data.Type() == A || data.Type() == AAAA)
    requires var (db', r) := DisabledUpdate(); multiset(rows) == multiset(RowsOf(types, db'.records, 1))
    requires IsLoaded(codec, z, rows, zone)
    ensures DisabledUpdate().1 == Updated && DisabledUpdate().0.records[0].data == "192.0.2.2"
    ensures !Answers(zone, v, q, data.Type(), data)
  {
    var db' := DisabledUpdate().0;
    DisabledUpdateIs();
    RecordIsServedIff(codec, types, db'.records, 1, z, rows, zone, data, v, q);
  }

  function DisabledUpdate(): (r: (Tables, DynUpdate)) {
    SetAddress(Tables([ZoneEntry(1, "a", 1, true)], [RecordEntry(1, None, "@", "A", None, "192.0.2.1", false)]),
               "a", true, "192.0.2.2", None, 60)
  }

  lemma DisabledUpdateIs()
    ensures DisabledUpdate()
         == (Tables([ZoneEntry(1, "a", 2, true)], [RecordEntry(1, None, "@", "A", None, "192.0.2.2", false)]), Updated)
  {
    var zones := [ZoneEntry(1, "a", 1, true)];
    var records := [RecordEntry(1, None, "@", "A", None, "192.0.2.1", false)];
    assert ZoneName(zones[0]) == "a" && HostOf("a") == "a";
    assert zones[..0] == [] && BestZone(zones, "a") == Some(0);
    assert RelativeAt(zones, 0, "a") == "@";
    assert Matches(records[0], 1, "@", "A", None);
    ExistingIs(records, 1, "@", "A", None, 0);
    assert BumpSerial(zones, 0) == [ZoneEntry(1, "a", 2, true)];
    assert "192.0.2.1"[8] != "192.0.2.2"[8];
    assert records[0 := records[0].(data := "192.0.2.2")] == [RecordEntry(1, None, "@", "A", None, "192.0.2.2", false)];
  }
}
