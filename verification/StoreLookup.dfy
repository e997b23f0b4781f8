/** The store's lookup as the source runs it, proved to compute `Store.Lookup` (src/store.rs). */
module StoreLookup {
  import opened Wrappers
  import opened Names
  import opened Seqs
  import opened Store
  import opened Wildcards

  /** Push the records under one owner name. */
  method PushAll(answers: seq<Record>, owner: Name, recs: seq<StoredRecord>) returns (out: seq<Record>)
    ensures out == answers + Emit(owner, recs)
  {
    out := answers;
    for i := 0 to |recs|
      invariant out == answers + Emit(owner, recs)[..i]
    {
      out := out + [Record(owner, recs[i].ttl, recs[i].rdata)];
    }
  }

  ghost predicate Ascending(s: seq<U16>) {
    forall i, j :: 0 <= i < j < |s| ==> s[i] < s[j]
  }

  lemma InsertKeepsAscending(types: seq<U16>, t: U16, i: nat)
    requires Ascending(types) && i <= |types|
    requires (forall k :: 0 <= k < i ==> types[k] < t) && (i < |types| ==> t < types[i])
    ensures Ascending(types[..i] + [t] + types[i..])
  {
    var out := types[..i] + [t] + types[i..];
    forall k | i <= k < |types| ensures t < types[k] {
      assert k > i ==> types[i] < types[k];
    }
    forall a, b | 0 <= a < b < |out| ensures out[a] < out[b] {
      var x := if a < i then out[a] == types[a] else a == i || out[a] == types[a - 1];
      var y := if b < i then out[b] == types[b] else b == i || out[b] == types[b - 1];
      assert x && y;
    }
  }

  /** Insertion into the ordered set of types. */
  method InsertType(types: seq<U16>, t: U16) returns (out: seq<U16>)
    requires Ascending(types)
    ensures Ascending(out)
    ensures t in out && forall u :: u in types ==> u in out
  {
    var i := 0;
    while i < |types| && types[i] < t
      invariant 0 <= i <= |types| && forall k :: 0 <= k < i ==> types[k] < t
    {
      i := i + 1;
    }
    if i < |types| && types[i] == t {
      return types;
    }
    InsertKeepsAscending(types, t, i);
    out := types[..i] + [t] + types[i..];
    assert out[i] == t;
    forall u | u in types ensures u in out {
      var k :| 0 <= k < |types| && types[k] == u;
      assert out[if k < i then k else k + 1] == u;
    }
  }

  /** The distinct types at a name, in order. */
  method SeenTypes(recs: seq<StoredRecord>) returns (types: seq<U16>)
    ensures Ascending(types)
    ensures forall r :: r in recs ==> r.rdata.Type() in types
  {
    types := [];
    for i := 0 to |recs|
      invariant Ascending(types)
      invariant forall k :: 0 <= k < i ==> recs[k].rdata.Type() in types
    {
      types := InsertType(types, recs[i].rdata.Type());
    }
  }

  lemma AbsentTypeResolvesToNothing(recs: seq<StoredRecord>, v: int, t: int)
    requires forall r :: r in recs ==> r.rdata.Type() != t
    ensures Resolve(recs, v, t) == []
  {
    FilterMapNone(recs, SpecificTo(v, t));
    FilterMapNone(recs, ForAllViews(t));
  }

  function Gather<T>(f: int -> seq<T>, types: seq<U16>): seq<T> {
    if types == [] then [] else Gather(f, types[..|types| - 1]) + f(types[|types| - 1])
  }

  lemma GatherLast<T>(f: int -> seq<T>, types: seq<U16>, m: nat)
    requires types != [] && types[|types| - 1] == m - 1
    requires Gather(f, types[..|types| - 1]) == ConcatBelow(f, m - 1)
    ensures Gather(f, types) == ConcatBelow(f, m)
  {
  }

  lemma GatherSkip<T>(f: int -> seq<T>, types: seq<U16>, m: nat)
    requires m > 0 && f(m - 1) == [] && Gather(f, types) == ConcatBelow(f, m - 1)
    ensures Gather(f, types) == ConcatBelow(f, m)
  {
  }

  lemma LastIsLargest(types: seq<U16>, m: nat)
    requires Ascending(types) && forall i :: 0 <= i < |types| ==> types[i] < m
    requires m > 0 && (types == [] || types[|types| - 1] != m - 1)
    ensures m - 1 !in types && forall i :: 0 <= i < |types| ==> types[i] < m - 1
  {
    forall i | 0 <= i < |types| ensures types[i] < m - 1 {
      assert i < |types| - 1 ==> types[i] < types[|types| - 1];
    }
  }

  lemma FrontIsSmaller(types: seq<U16>)
    requires Ascending(types) && types != []
    ensures var front := types[..|types| - 1];
            && Ascending(front)
            && (forall i :: 0 <= i < |front| ==> front[i] < types[|types| - 1])
            && forall t :: t in types <==> t in front || t == types[|types| - 1]
  {
    assert types == types[..|types| - 1] + [types[|types| - 1]];
  }

  /** Skipping the arguments at which `f` is empty does not change the concatenation. */
  lemma {:induction false} GatherIsConcat<T>(f: int -> seq<T>, types: seq<U16>, m: nat)
    requires Ascending(types)
    requires forall i :: 0 <= i < |types| ==> types[i] < m
    requires forall t :: 0 <= t < m ==> t in types || f(t) == []
    ensures Gather(f, types) == ConcatBelow(f, m)
    decreases m
  {
    if m == 0 {
    } else if types != [] && types[|types| - 1] == m - 1 {
      FrontIsSmaller(types);
      GatherIsConcat(f, types[..|types| - 1], m - 1);
      GatherLast(f, types, m);
    } else {
      LastIsLargest(types, m);
      GatherIsConcat(f, types, m - 1);
      GatherSkip(f, types, m);
    }
  }

  /** Visiting only the types that occur, in ascending order, yields the full dump. */
  method CollectVisible(recs: seq<StoredRecord>, v: int) returns (out: seq<StoredRecord>)
    ensures out == Dump(recs, v)
  {
    var types := SeenTypes(recs);
    out := [];
    for i := 0 to |types|
      invariant out == Gather(ResolveType(recs, v), types[..i])
    {
      assert types[..i + 1][..i] == types[..i];
      out := out + Resolve(recs, v, types[i]);
    }
    assert types[..|types|] == types;
    AbsentTypesAreEmpty(recs, v, types);
    GatherIsConcat(ResolveType(recs, v), types, U16_LIMIT);
  }

  lemma AbsentTypesAreEmpty(recs: seq<StoredRecord>, v: int, types: seq<U16>)
    requires forall r :: r in recs ==> r.rdata.Type() in types
    ensures forall t :: t !in types ==> ResolveType(recs, v)(t) == []
  {
    forall t | t !in types ensures ResolveType(recs, v)(t) == [] {
      AbsentTypeResolvesToNothing(recs, v, t);
    }
  }

  /** The wildcard walk. */
  method FindRecords(zone: StoredZone, key: Name) returns (r: Option<seq<StoredRecord>>)
    ensures r == RecordsAt(zone, key)
    ensures key in zone.records ==> r == Some(zone.records[key])
    ensures key !in zone.records ==> (r.None? <==> forall j :: 1 <= j < |key| ==> WildcardAt(key, j) !in zone.records)
    ensures key !in zone.records && r.Some? ==>
              exists j :: FirstWildcard(zone.records, key, 1, j) && r == Some(zone.records[WildcardAt(key, j)])
  {
    OwnerIsDeepestWildcard(zone, key);
    if key in zone.records {
      return Some(zone.records[key]);
    }
    var i := 1;
    while i < |key|
      invariant key != [] ==> 1 <= i <= |key| && WildcardFrom(zone.records, key, 1) == WildcardFrom(zone.records, key, i)
    {
      var wildcard := ["*"] + key[i..];
      if wildcard in zone.records {
        return Some(zone.records[wildcard]);
      }
      i := i + 1;
    }
    return None;
  }

  /** The target of the last CNAME pushed, as the inner loop leaves it. */
  method NextTarget(chase: seq<StoredRecord>) returns (next: Option<Name>)
    ensures next == LastTarget(chase)
  {
    next := None;
    for i := 0 to |chase|
      invariant next == LastTarget(chase[..i])
    {
      assert chase[..i + 1][..i] == chase[..i];
      if chase[i].rdata.CnameTo? {
        next := Some(chase[i].rdata.target);
      }
    }
    assert chase[..|chase|] == chase;
  }

  /** `records_at` followed by `resolve`. */
  method FindVisible(zone: StoredZone, v: int, name: Name, t: int) returns (found: bool, recs: seq<StoredRecord>)
    ensures found == RecordsAt(zone, Key(name)).Some?
    ensures recs == SightOf(zone, v)(name, t)
    ensures !found ==> forall u :: SightOf(zone, v)(name, u) == []
  {
    var all := FindRecords(zone, Key(name));
    found := all.Some?;
    recs := if found then Resolve(all.value, v, t) else [];
  }

  /** One turn of the CNAME loop after the CNAMEs of an owner are pushed: stop, or go on at `next`. */
  method Advance(zone: StoredZone, v: int, ghost see: Sight, qtype: int, next: Name, depth: nat, answers: seq<Record>)
    returns (out: seq<Record>, chase: seq<StoredRecord>)
    requires depth <= MAX_CHASE && ZoneOf(zone.apex, next) && see == SightOf(zone, v)
    ensures answers + ChaseOn(zone.apex, see, qtype, Some(next), depth)
         == out + if chase == [] then [] else Chase(zone.apex, see, qtype, next, chase, depth)
  {
    out, chase := answers, [];
    var found, direct := FindVisible(zone, v, next, qtype);
    if found {
      if direct != [] {
        out := PushAll(answers, next, direct);
      } else {
        var _, more := FindVisible(zone, v, next, CNAME);
        chase := more;
      }
    }
  }

  lemma ChaseStep(apex: Name, see: Sight, qtype: int, answers: seq<Record>, current: Name, chase: seq<StoredRecord>, depth: nat)
    requires depth <= MAX_CHASE
    ensures answers + Chase(apex, see, qtype, current, chase, depth)
         == answers + Emit(current, chase) + ChaseOn(apex, see, qtype, LastTarget(chase), depth + 1)
  {
  }

  /** The CNAME loop over `current`, `chase`, `depth` and the growing answers. */
  method FollowCnames(zone: StoredZone, v: int, ghost see: Sight, qtype: int, q: Name, cnames: seq<StoredRecord>)
    returns (answers: seq<Record>)
    requires see == SightOf(zone, v)
    ensures answers == Chase(zone.apex, see, qtype, q, cnames, 0)
  {
    answers := [];
    var current, chase, depth := q, cnames, 0;
    ghost var goal := Chase(zone.apex, see, qtype, q, cnames, 0);
    while true
      invariant depth <= MAX_CHASE
      invariant goal == answers + Chase(zone.apex, see, qtype, current, chase, depth)
      decreases MAX_CHASE + 1 - depth
    {
      ChaseStep(zone.apex, see, qtype, answers, current, chase, depth);
      answers := PushAll(answers, current, chase);
      var next := NextTarget(chase);
      depth := depth + 1;
      if next.None? || depth > MAX_CHASE || !ZoneOf(zone.apex, next.value) {
        break;
      }
      answers, chase := Advance(zone, v, see, qtype, next.value, depth, answers);
      if chase == [] {
        break;
      }
      current := next.value;
    }
  }

  /** `lookup` after the zone is chosen. */
  method LookupZone(zone: StoredZone, v: int, q: Name, qtype: int) returns (r: LookupResult)
    ensures r == LookupInZone(zone, v, q, qtype)
  {
    if qtype == SOA && Key(q) == Key(zone.apex) {
      return Positive([SoaRecord(zone)]);
    }
    var recs := FindRecords(zone, Key(q));
    if recs.None? {
      return LookupResult([], [SoaRecord(zone)], NXDomain, NxDomain);
    }
    if qtype == ANY {
      var visible := CollectVisible(recs.value, v);
      var answers := PushAll([], q, visible);
      return if answers == [] then NoDataAnswer(zone) else Positive(answers);
    }
    var _, direct := FindVisible(zone, v, q, qtype);
    if direct != [] {
      var answers := PushAll([], q, direct);
      return Positive(answers);
    }
    var _, cnames := FindVisible(zone, v, q, CNAME);
    if cnames != [] {
      var answers := FollowCnames(zone, v, SightOf(zone, v), qtype, q, cnames);
      return Positive(answers);
    }
    return NoDataAnswer(zone);
  }

  /** `lookup` */
  method LookupStore(store: ZoneStore, q: Name, qtype: int, c: Client) returns (r: LookupResult)
    ensures r == Lookup(store, q, qtype, c)
  {
    var zone := ZoneFor(store.zones, q);
    if zone.None? {
      return LookupResult([], [], NoError, NotAuthoritative);
    }
    r := LookupZone(zone.value, ViewFor(store.views, c), q, qtype);
  }
}
