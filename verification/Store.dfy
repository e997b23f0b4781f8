/**
 The in-memory authoritative store (src/store.rs): loading from database rows, view and zone choice,
 split-horizon override, wildcards, the CNAME chase, and the lookup.

 Record data is opaque except for a CNAME's target; the SOA is modelled by serial and minimum.
 */
module Store {
  import opened Wrappers
  import opened Names
  import opened Seqs

  // ----- Record types and data -----

  const A: U16 := 1
  const CNAME: U16 := 5
  const SOA: U16 := 6
  const AAAA: U16 := 28
  const ANY: U16 := 255

  /** A, NS, CNAME, PTR, HINFO, MX, TXT, AAAA, SRV, NAPTR, CERT, SSHFP, TLSA, SMIMEA, OPENPGPKEY, CSYNC, SVCB, HTTPS, CAA, ANAME */
  predicate Supported(t: U16) {
    || t == 1 || t == 2 || t == 5 || t == 12 || t == 13 || t == 15 || t == 16 || t == 28 || t == 33 || t == 35
    || t == 37 || t == 44 || t == 52 || t == 53 || t == 61 || t == 62 || t == 64 || t == 65 || t == 257 || t == 65305
  }

  /** Types whose data stays opaque: everything but CNAME and SOA. */
  type OtherType = t: U16 | t != 5 && t != 6 witness 1

  datatype RData = CnameTo(target: Name) | SoaData(serial: U32, minimum: U32) | Data(rtype: OtherType, text: string) {
    function Type(): U16 {
      match this
      case CnameTo(_) => CNAME
      case SoaData(_, _) => SOA
      case Data(t, _) => t
    }
  }

  datatype Record = Record(owner: Name, ttl: U32, rdata: RData)

  datatype StoredRecord = StoredRecord(ttl: U32, view: Option<int>, rdata: RData)

  datatype StoredZone = StoredZone(apex: Name, serial: U32, minimum: U32, records: map<Name, seq<StoredRecord>>)

  /** A client address plus the geo attribute a GeoIP database may have resolved. */
  datatype Client = Client(ip: int, geo: Option<string>)

  datatype View = View(id: int, priority: int, inNets: int -> bool, inGeo: string -> bool) {
    predicate Matches(c: Client) {
      inNets(c.ip) || (c.geo.Some? && inGeo(c.geo.value))
    }
  }

  datatype ZoneStore = ZoneStore(views: seq<View>, zones: seq<StoredZone>)

  datatype Outcome = Authoritative | NxDomain | NoData | NotAuthoritative

  datatype Rcode = NoError | NXDomain

  datatype LookupResult = LookupResult(answers: seq<Record>, authority: seq<Record>, rcode: Rcode, outcome: Outcome)

  // ----- Split horizon at one owner -----

  function SpecificTo(v: int, t: int): StoredRecord -> Option<StoredRecord> {
    (r: StoredRecord) => if r.rdata.Type() == t && r.view == Some(v) then Some(r) else None
  }

  function ForAllViews(t: int): StoredRecord -> Option<StoredRecord> {
    (r: StoredRecord) => if r.rdata.Type() == t && r.view.None? then Some(r) else None
  }

  /** The records of one type a client of view `v` sees: its own, else those of all views. */
  function Resolve(recs: seq<StoredRecord>, v: int, t: int): seq<StoredRecord> {
    var specific := FilterMap(recs, SpecificTo(v, t));
    if specific != [] then specific else FilterMap(recs, ForAllViews(t))
  }

  function Emit(owner: Name, recs: seq<StoredRecord>): (out: seq<Record>)
    ensures |out| == |recs|
  {
    seq(|recs|, i requires 0 <= i < |recs| => Record(owner, recs[i].ttl, recs[i].rdata))
  }

  /** `f(0) + f(1) + ... + f(n - 1)` */
  function ConcatBelow<T>(f: int -> seq<T>, n: nat): seq<T>
    decreases n
  {
    if n == 0 then [] else ConcatBelow(f, n - 1) + f(n - 1)
  }

  /** Exactly one part is not empty. */
  lemma {:induction false} ConcatOfOne<T>(f: int -> seq<T>, t: int, n: nat)
    requires forall u :: u == t || f(u) == []
    ensures ConcatBelow(f, n) == if 0 <= t < n then f(t) else []
  {
    if n > 0 {
      ConcatOfOne(f, t, n - 1);
      assert n - 1 == t || f(n - 1) == [];
    }
  }

  lemma {:induction false} ConcatMembers<T>(f: int -> seq<T>, n: nat, x: T)
    ensures x in ConcatBelow(f, n) <==> exists u :: 0 <= u < n && x in f(u)
  {
    if n > 0 {
      ConcatMembers(f, n - 1, x);
      assert x in ConcatBelow(f, n) <==> x in ConcatBelow(f, n - 1) || x in f(n - 1);
    }
  }

  function ResolveType(recs: seq<StoredRecord>, v: int): int -> seq<StoredRecord> {
    (t: int) => Resolve(recs, v, t)
  }

  /** Everything visible at one owner, by ascending type. */
  function Dump(recs: seq<StoredRecord>, v: int): seq<StoredRecord> {
    ConcatBelow(ResolveType(recs, v), U16_LIMIT)
  }

  // ----- Wildcards -----

  /** The first `*.rest` that exists, walking upward from `rest = key[i..]`. */
  function WildcardFrom(records: map<Name, seq<StoredRecord>>, key: Name, i: nat): (r: Option<Name>)
    requires i <= |key|
    ensures r.Some? ==> r.value in records
    decreases |key| - i
  {
    if i == |key| then None
    else if ["*"] + key[i..] in records then Some(["*"] + key[i..])
    else WildcardFrom(records, key, i + 1)
  }

  /** The owner whose records answer for `key`: itself, else the deepest wildcard above it. */
  function OwnerFor(zone: StoredZone, key: Name): (r: Option<Name>)
    ensures r.Some? ==> r.value in zone.records
  {
    if key in zone.records then Some(key)
    else if |key| == 0 then None
    else WildcardFrom(zone.records, key, 1)
  }

  function RecordsAt(zone: StoredZone, key: Name): Option<seq<StoredRecord>> {
    var o := OwnerFor(zone, key);
    if o.None? then None else Some(zone.records[o.value])
  }

  /** The records of one type that a client of view `v` sees at a name, wildcards included. */
  function VisibleAt(zone: StoredZone, v: int, name: Name, t: int): seq<StoredRecord> {
    var recs := RecordsAt(zone, Key(name));
    if recs.None? then [] else Resolve(recs.value, v, t)
  }

  // ----- Zone and view choice -----

  const NO_VIEW: int := -0x8000_0000_0000_0000

  function ViewFor(views: seq<View>, c: Client): int {
    if views == [] then NO_VIEW
    else if views[0].Matches(c) then views[0].id
    else ViewFor(views[1..], c)
  }

  function ZoneFor(zones: seq<StoredZone>, q: Name): (r: Option<StoredZone>)
    ensures r.Some? ==> r.value in zones && ZoneOf(r.value.apex, q)
    ensures r.None? ==> forall z :: z in zones ==> !ZoneOf(z.apex, q)
  {
    if zones == [] then None
    else if ZoneOf(zones[0].apex, q) then Some(zones[0])
    else ZoneFor(zones[1..], q)
  }

  // ----- Lookup -----

  function LastTarget(chase: seq<StoredRecord>): Option<Name> {
    if chase == [] then None
    else
      var r := chase[|chase| - 1].rdata;
      if r.CnameTo? then Some(r.target) else LastTarget(chase[..|chase| - 1])
  }

  const MAX_CHASE: nat := 8

  /** What a client of one view sees in one zone: the records of a type at a name. */
  type Sight = (Name, int) -> seq<StoredRecord>

  function SightOf(zone: StoredZone, v: int): Sight {
    (name: Name, t: int) => VisibleAt(zone, v, name, t)
  }

  /** The answers from following CNAMEs, `chase` being those at `current`, after `depth` earlier owners. */
  function Chase(apex: Name, see: Sight, qtype: int, current: Name, chase: seq<StoredRecord>, depth: nat): seq<Record>
    requires depth <= MAX_CHASE
    decreases MAX_CHASE + 1 - depth, 0
  {
    Emit(current, chase) + ChaseOn(apex, see, qtype, LastTarget(chase), depth + 1)
  }

  /** What follows the CNAMEs of `depth` owners, the last of which points to `next`. */
  function ChaseOn(apex: Name, see: Sight, qtype: int, next: Option<Name>, depth: nat): seq<Record>
    requires depth <= MAX_CHASE + 1
    decreases MAX_CHASE + 1 - depth, 1
  {
    if next.None? || depth > MAX_CHASE || !ZoneOf(apex, next.value) then []
    else if see(next.value, qtype) != [] then Emit(next.value, see(next.value, qtype))
    else if see(next.value, CNAME) == [] then []
    else Chase(apex, see, qtype, next.value, see(next.value, CNAME), depth)
  }

  function SoaRecord(zone: StoredZone): Record {
    Record(zone.apex, if zone.minimum < 1 then 1 else zone.minimum, SoaData(zone.serial, zone.minimum))
  }

  function Positive(answers: seq<Record>): LookupResult {
    LookupResult(answers, [], NoError, Authoritative)
  }

  function NoDataAnswer(zone: StoredZone): LookupResult {
    LookupResult([], [SoaRecord(zone)], NoError, NoData)
  }

  /** The lookup at a name that exists (itself or through a wildcard), for a type other than ANY. */
  function LookupType(zone: StoredZone, see: Sight, q: Name, qtype: int): LookupResult {
    if see(q, qtype) != [] then Positive(Emit(q, see(q, qtype)))
    else if see(q, CNAME) != [] then Positive(Chase(zone.apex, see, qtype, q, see(q, CNAME), 0))
    else NoDataAnswer(zone)
  }

  /** The lookup once the zone and the client's view are known. */
  function LookupInZone(zone: StoredZone, v: int, q: Name, qtype: int): LookupResult {
    if qtype == SOA && Key(q) == Key(zone.apex) then Positive([SoaRecord(zone)])
    else if RecordsAt(zone, Key(q)).None? then LookupResult([], [SoaRecord(zone)], NXDomain, NxDomain)
    else if qtype == ANY then
      var all := Emit(q, Dump(RecordsAt(zone, Key(q)).value, v));
      if all == [] then NoDataAnswer(zone) else Positive(all)
    else LookupType(zone, SightOf(zone, v), q, qtype)
  }

  function Lookup(store: ZoneStore, q: Name, qtype: int, c: Client): LookupResult {
    var zone := ZoneFor(store.zones, q);
    if zone.None? then LookupResult([], [], NoError, NotAuthoritative)
    else LookupInZone(zone.value, ViewFor(store.views, c), q, qtype)
  }
}
