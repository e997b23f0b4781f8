/** Building the store from database rows (src/store.rs `build_from`), and what zone and view choice then mean. */
module Loading {
  import opened Wrappers
  import opened Names
  import opened Seqs
  import opened Store

  /** Printing and parsing of record data; a relative name in the text is completed with the zone. */
  datatype RdataText = RdataText(show: RData -> string, parse: (int, string, Name) -> Option<RData>)

  /** Parsing text as a type yields data of that type. */
  ghost predicate WellTyped(codec: RdataText) {
    forall t: int, s: string, z: Name :: codec.parse(t, s, z).Some? ==> codec.parse(t, s, z).value.Type() == t
  }

  datatype ZoneRow = ZoneRow(name: Name, enabled: bool, serial: U32, minimum: U32, defaultTtl: U32)

  datatype RecordRow = RecordRow(rel: Name, rtype: U16, ttl: Option<U32>, view: Option<int>, data: string, enabled: bool)

  /** The stored form of a row, unless it is disabled, unsupported or unparsable. */
  function Loaded(codec: RdataText, z: ZoneRow, row: RecordRow): Option<StoredRecord> {
    if row.enabled && Supported(row.rtype) && codec.parse(row.rtype, row.data, z.name).Some? then
      Some(StoredRecord(if row.ttl.Some? then row.ttl.value else z.defaultTtl, row.view,
                        codec.parse(row.rtype, row.data, z.name).value))
    else None
  }

  function OwnerOf(z: ZoneRow, row: RecordRow): Name {
    Key(RecordFqdn(row.rel, z.name))
  }

  function LoadedAt(codec: RdataText, z: ZoneRow, k: Name): RecordRow -> Option<StoredRecord> {
    (row: RecordRow) => if OwnerOf(z, row) == k then Loaded(codec, z, row) else None
  }

  /** Exactly the loadable rows are stored, each under its owner, in row order. */
  ghost predicate IsLoaded(codec: RdataText, z: ZoneRow, rows: seq<RecordRow>, zone: StoredZone) {
    && zone.apex == z.name && zone.serial == z.serial && zone.minimum == z.minimum
    && IndexOf(codec, z, rows, zone.records)
  }

  ghost predicate IndexOf(codec: RdataText, z: ZoneRow, rows: seq<RecordRow>, records: map<Name, seq<StoredRecord>>) {
    forall k: Name ::
      && (k in records <==> FilterMap(rows, LoadedAt(codec, z, k)) != [])
      && (k in records ==> records[k] == FilterMap(rows, LoadedAt(codec, z, k)))
  }

  lemma IndexGrows(codec: RdataText, z: ZoneRow, rows: seq<RecordRow>, row: RecordRow, k: Name)
    ensures FilterMap(rows + [row], LoadedAt(codec, z, k))
         == FilterMap(rows, LoadedAt(codec, z, k))
            + if OwnerOf(z, row) == k then Kept(Loaded(codec, z, row)) else []
  {
    FilterMapConcat(rows, [row], LoadedAt(codec, z, k));
    assert FilterMap([row], LoadedAt(codec, z, k)) == Kept(LoadedAt(codec, z, k)(row)) + FilterMap([], LoadedAt(codec, z, k));
  }

  /** Push one row's record under its owner key, unless it is skipped. */
  method IndexRow(codec: RdataText, z: ZoneRow, ghost rows: seq<RecordRow>, row: RecordRow, records: map<Name, seq<StoredRecord>>)
    returns (out: map<Name, seq<StoredRecord>>)
    requires IndexOf(codec, z, rows, records)
    ensures IndexOf(codec, z, rows + [row], out)
  {
    out := records;
    var stored := Loaded(codec, z, row);
    if stored.Some? {
      var key := OwnerOf(z, row);
      var there := if key in records then records[key] else [];
      out := records[key := there + [stored.value]];
    }
    forall k: Name
      ensures (k in out <==> FilterMap(rows + [row], LoadedAt(codec, z, k)) != [])
      ensures k in out ==> out[k] == FilterMap(rows + [row], LoadedAt(codec, z, k))
    {
      IndexGrows(codec, z, rows, row, k);
      assert k in records <==> FilterMap(rows, LoadedAt(codec, z, k)) != [];
    }
  }

  /** The loop over the rows of a zone. */
  method IndexRecords(codec: RdataText, z: ZoneRow, rows: seq<RecordRow>) returns (records: map<Name, seq<StoredRecord>>)
    ensures IndexOf(codec, z, rows, records)
  {
    records := map[];
    for i := 0 to |rows|
      invariant IndexOf(codec, z, rows[..i], records)
    {
      records := IndexRow(codec, z, rows[..i], rows[i], records);
      assert rows[..i + 1] == rows[..i] + [rows[i]];
    }
    assert rows[..|rows|] == rows;
  }

  method LoadZone(codec: RdataText, z: ZoneRow, rows: seq<RecordRow>) returns (zone: StoredZone)
    ensures IsLoaded(codec, z, rows, zone)
  {
    var records := IndexRecords(codec, z, rows);
    zone := StoredZone(z.name, z.serial, z.minimum, records);
  }

  lemma LoadedRecord(codec: RdataText, z: ZoneRow, rows: seq<RecordRow>, zone: StoredZone, k: Name, r: StoredRecord)
    requires IsLoaded(codec, z, rows, zone) && WellTyped(codec) && k in zone.records && r in zone.records[k]
    ensures OwnerKey(k, zone.apex) && Supported(r.rdata.Type())
  {
    FilterMapMembers(rows, LoadedAt(codec, z, k), r);
    var row :| row in rows && LoadedAt(codec, z, k)(row) == Some(r);
    LoadedOwnersAreOwnerKeys(row.rel, z.name);
  }

  /** The row is stored as `r` under `k`: its own TTL or else the zone's, its view, and what its text parses to. */
  ghost predicate StoredAs(codec: RdataText, z: ZoneRow, row: RecordRow, k: Name, r: StoredRecord) {
    && row.enabled && Supported(row.rtype) && codec.parse(row.rtype, row.data, z.name) == Some(r.rdata)
    && Key(RecordFqdn(row.rel, z.name)) == k && r.view == row.view
    && (row.ttl.Some? ==> r.ttl == row.ttl.value) && (row.ttl.None? ==> r.ttl == z.defaultTtl)
  }

  /** A loaded zone stores exactly what its rows say. */
  lemma StoredIffRow(codec: RdataText, z: ZoneRow, rows: seq<RecordRow>, zone: StoredZone, k: Name, r: StoredRecord)
    requires IsLoaded(codec, z, rows, zone)
    ensures k in zone.records && r in zone.records[k] <==> exists row :: row in rows && StoredAs(codec, z, row, k, r)
  {
    var f := LoadedAt(codec, z, k);
    FilterMapMembers(rows, f, r);
    assert k in zone.records <==> FilterMap(rows, f) != [];
    if row :| row in rows && f(row) == Some(r) {
      assert StoredAs(codec, z, row, k, r);
    }
    if row :| row in rows && StoredAs(codec, z, row, k, r) {
      assert f(row) == Some(r);
    }
  }

  /** The types a row may have: neither SOA nor ANY, nor anything the server cannot print and parse. */
  lemma SupportedTypes(t: U16)
    ensures Supported(t) <==> t in {1, 2, 5, 12, 13, 15, 16, 28, 33, 35, 37, 44, 52, 53, 61, 62, 64, 65, 257, 65305}
    ensures !Supported(SOA) && !Supported(ANY) && Supported(A) && Supported(AAAA) && Supported(CNAME)
  {
  }

  /** The records of loaded zones sit under folded owners that a record name denotes, with supported types only. */
  lemma LoadedZonesAreWellFormed(codec: RdataText, z: ZoneRow, rows: seq<RecordRow>, zone: StoredZone)
    requires IsLoaded(codec, z, rows, zone) && WellTyped(codec)
    ensures WellFormed(zone)
  {
    forall k, r | k in zone.records && r in zone.records[k] ensures Supported(r.rdata.Type()) {
      LoadedRecord(codec, z, rows, zone, k, r);
    }
    forall k | k in zone.records ensures OwnerKey(k, zone.apex) {
      assert zone.records[k] != [];
      LoadedRecord(codec, z, rows, zone, k, zone.records[k][0]);
    }
  }

  ghost predicate WellFormed(zone: StoredZone) {
    && (forall k :: k in zone.records ==> OwnerKey(k, zone.apex))
    && (forall k, r :: k in zone.records && r in zone.records[k] ==> Supported(r.rdata.Type()))
  }

  // ----- Zone and view choice -----

  function FewerLabels(): StoredZone -> int {
    (z: StoredZone) => -|z.apex|
  }

  function Priority(): View -> int {
    (v: View) => v.priority
  }

  function IfEnabled(): ((ZoneRow, seq<RecordRow>)) -> Option<(ZoneRow, seq<RecordRow>)> {
    (p: (ZoneRow, seq<RecordRow>)) => if p.0.enabled then Some(p) else None
  }

  /** Exactly the enabled zones are taken. */
  lemma EnabledMeans(zones: seq<(ZoneRow, seq<RecordRow>)>, p: (ZoneRow, seq<RecordRow>))
    ensures p in FilterMap(zones, IfEnabled()) <==> p in zones && p.0.enabled
  {
    FilterMapMembers(zones, IfEnabled(), p);
    assert p.0.enabled ==> IfEnabled()(p) == Some(p);
  }

  /** One loaded zone for each pair of a zone row and its record rows, in order. */
  ghost predicate AllLoaded(codec: RdataText, pairs: seq<(ZoneRow, seq<RecordRow>)>, loaded: seq<StoredZone>) {
    && |loaded| == |pairs|
    && forall i :: 0 <= i < |pairs| ==> IsLoaded(codec, pairs[i].0, pairs[i].1, loaded[i])
  }

  /** The whole load: disabled zones are skipped, zones sorted by label count, views by priority. */
  method LoadStore(codec: RdataText, views: seq<View>, zones: seq<(ZoneRow, seq<RecordRow>)>)
    returns (store: ZoneStore, loaded: seq<StoredZone>)
    ensures store == ZoneStore(SortBy(views, Priority()), SortBy(loaded, FewerLabels()))
    ensures AllLoaded(codec, FilterMap(zones, IfEnabled()), loaded)
  {
    loaded := [];
    for i := 0 to |zones|
      invariant AllLoaded(codec, FilterMap(zones[..i], IfEnabled()), loaded)
    {
      assert zones[..i + 1] == zones[..i] + [zones[i]];
      FilterMapConcat(zones[..i], [zones[i]], IfEnabled());
      if zones[i].0.enabled {
        var zone := LoadZone(codec, zones[i].0, zones[i].1);
        loaded := loaded + [zone];
      }
    }
    assert zones[..|zones|] == zones;
    store := ZoneStore(SortBy(views, Priority()), SortBy(loaded, FewerLabels()));
  }

  lemma {:induction false} FirstZoneIsLongest(zones: seq<StoredZone>, q: Name)
    requires SortedBy(zones, FewerLabels())
    ensures ZoneFor(zones, q).Some? ==>
              forall z :: z in zones && ZoneOf(z.apex, q) ==> |z.apex| <= |ZoneFor(zones, q).value.apex|
  {
    if zones != [] {
      if ZoneOf(zones[0].apex, q) {
        forall z | z in zones ensures |z.apex| <= |zones[0].apex| {
          var i :| 0 <= i < |zones| && zones[i] == z;
          assert FewerLabels()(zones[0]) <= FewerLabels()(zones[i]);
        }
      } else {
        TailSorted(zones, FewerLabels());
        FirstZoneIsLongest(zones[1..], q);
        assert forall z :: z in zones <==> z == zones[0] || z in zones[1..];
      }
    }
  }

  /** In a loaded store the first match is the zone with the longest apex covering the name. */
  lemma ZoneChoiceIsLongestSuffix(loaded: seq<StoredZone>, q: Name)
    ensures var chosen := ZoneFor(SortBy(loaded, FewerLabels()), q);
            && (chosen.None? <==> forall z :: z in loaded ==> !ZoneOf(z.apex, q))
            && (chosen.Some? ==>
                  && chosen.value in loaded && ZoneOf(chosen.value.apex, q)
                  && forall z :: z in loaded && ZoneOf(z.apex, q) ==> |z.apex| <= |chosen.value.apex|)
  {
    var sorted := SortBy(loaded, FewerLabels());
    SortBySorts(loaded, FewerLabels());
    forall z ensures z in sorted <==> z in loaded {
      assert z in multiset(sorted) <==> z in multiset(loaded);
    }
    FirstZoneIsLongest(sorted, q);
  }

  /** A client is in a view by its address or by its geo data; a transferring client has only its address. */
  lemma InViewIff(v: View, ip: int, geo: string)
    ensures v.Matches(Client(ip, None)) <==> v.inNets(ip)
    ensures v.Matches(Client(ip, Some(geo))) <==> v.inNets(ip) || v.inGeo(geo)
  {
  }

  /** A client of no view has the reserved identifier, which no stored view may carry. */
  lemma {:induction false} NoViewMeansNone(views: seq<View>, c: Client)
    requires forall v :: v in views ==> !v.Matches(c)
    ensures ViewFor(views, c) == -0x8000_0000_0000_0000
  {
    if views != [] {
      NoViewMeansNone(views[1..], c);
    }
  }

  lemma {:induction false} FirstViewHasLowestPriority(views: seq<View>, c: Client)
    requires SortedBy(views, Priority()) && exists v :: v in views && v.Matches(c)
    ensures exists v :: && v in views && v.Matches(c) && ViewFor(views, c) == v.id
                        && forall w :: w in views && w.Matches(c) ==> v.priority <= w.priority
  {
    if views[0].Matches(c) {
      forall w | w in views ensures views[0].priority <= w.priority {
        var i :| 0 <= i < |views| && views[i] == w;
        assert Priority()(views[0]) <= Priority()(views[i]);
      }
      assert views[0] in views;
    } else {
      TailSorted(views, Priority());
      assert forall v :: v in views <==> v == views[0] || v in views[1..];
      FirstViewHasLowestPriority(views[1..], c);
      var v :| && v in views[1..] && v.Matches(c) && ViewFor(views[1..], c) == v.id
               && forall w :: w in views[1..] && w.Matches(c) ==> v.priority <= w.priority;
      assert v in views;
    }
  }
}
