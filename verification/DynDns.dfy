/**
 Dynamic DNS updates (src/db.rs `dyndns_set_address`) and the store that later reads them back
 (src/store.rs, src/models.rs `record_fqdn_name`): both sides must agree on the zone and the owner.
 */
module DynDns {
  import opened Wrappers
  import opened Text
  import opened Names
  import opened Seqs
  import opened Store
  import opened Loading

  // ----- Dotted names and labels -----

  function Split(s: string): (r: Name)
    ensures |r| >= 1
  {
    if s == "" then [""]
    else if s[0] == '.' then [""] + Split(s[1..])
    else
      var r := Split(s[1..]);
      [[s[0]] + r[0]] + r[1..]
  }

  function Join(n: Name): string
    requires n != []
  {
    if |n| == 1 then n[0] else n[0] + "." + Join(n[1..])
  }

  lemma {:induction false} SplitAtDot(a: string, b: string)
    ensures Split(a + "." + b) == Split(a) + Split(b)
  {
    if a == "" {
      assert a + "." + b == "." + b && ("." + b)[1..] == b;
    } else {
      assert (a + "." + b)[1..] == a[1..] + "." + b;
      SplitAtDot(a[1..], b);
    }
  }

  lemma {:induction false} JoinSplit(s: string)
    ensures Join(Split(s)) == s
  {
    if s != "" {
      JoinSplit(s[1..]);
      var r := Split(s[1..]);
      assert s == [s[0]] + s[1..];
      if s[0] == '.' {
        assert ([""] + r)[1..] == r;
      } else {
        assert ([[s[0]] + r[0]] + r[1..])[1..] == r[1..];
      }
    }
  }

  lemma {:induction false} JoinConcat(a: Name, b: Name)
    requires a != [] && b != []
    ensures Join(a + b) == Join(a) + "." + Join(b)
  {
    assert (a + b)[1..] == a[1..] + b;
    if |a| > 1 {
      JoinConcat(a[1..], b);
    } else {
      assert a[1..] + b == b;
    }
  }

  lemma LowerCons(c: char, s: string)
    ensures Lower([c] + s) == [LowerChar(c)] + Lower(s)
  {
  }

  lemma SplitCons(c: char, s: string)
    ensures Split([c] + s) == if c == '.' then [""] + Split(s) else [[c] + Split(s)[0]] + Split(s)[1..]
  {
    assert ([c] + s)[1..] == s;
  }

  lemma KeyCons(x: string, n: Name)
    ensures Key([x] + n) == [Lower(x)] + Key(n)
  {
  }

  lemma {:induction false} SplitLower(s: string)
    ensures Split(Lower(s)) == Key(Split(s))
  {
    if s == "" {
      assert Lower("") == "";
    } else {
      var c, rest := s[0], s[1..];
      var r := Split(rest);
      assert s == [c] + rest && r == [r[0]] + r[1..];
      SplitLower(rest);
      LowerCons(c, rest);
      SplitCons(c, rest);
      SplitCons(LowerChar(c), Lower(rest));
      if c == '.' {
        KeyCons("", r);
      } else {
        KeyCons([c] + r[0], r[1..]);
        KeyCons(r[0], r[1..]);
        LowerCons(c, r[0]);
      }
    }
  }

  // ----- Zone choice on strings -----

  predicate EndsWith(s: string, t: string) {
    |t| <= |s| && s[|s| - |t|..] == t
  }

  /** `host == zone || host.ends_with(".zone")` */
  predicate Covers(zone: string, host: string) {
    host == zone || EndsWith(host, "." + zone)
  }

  lemma CoveredHasSuffix(zone: string, host: string)
    requires Covers(zone, host)
    ensures IsSuffix(Split(zone), Split(host))
  {
    if host != zone {
      var p := host[..|host| - |zone| - 1];
      assert host == p + "." + zone;
      SplitAtDot(p, zone);
    }
  }

  lemma JoinOfSuffix(a: Name, z: Name)
    requires z != []
    ensures Covers(Join(z), Join(a + z))
  {
    if a == [] {
      assert a + z == z;
    } else {
      JoinConcat(a, z);
      EndsWithTail(Join(a), "." + Join(z));
      assert Join(a) + "." + Join(z) == Join(a) + ("." + Join(z));
    }
  }

  lemma SuffixIsCovered(zone: string, host: string)
    requires IsSuffix(Split(zone), Split(host))
    ensures Covers(zone, host)
  {
    var h, z := Split(host), Split(zone);
    var a := h[..|h| - |z|];
    assert h == a + z;
    JoinOfSuffix(a, z);
    JoinSplit(host);
    JoinSplit(zone);
  }

  lemma EndsWithTail(p: string, t: string)
    ensures EndsWith(p + t, t)
  {
    assert (p + t)[|p|..] == t;
  }

  /** The string test is the label test. */
  lemma CoversIsSuffix(zone: string, host: string)
    ensures Covers(zone, host) <==> IsSuffix(Split(zone), Split(host))
  {
    if Covers(zone, host) {
      CoveredHasSuffix(zone, host);
    }
    if IsSuffix(Split(zone), Split(host)) {
      SuffixIsCovered(zone, host);
    }
  }

  lemma SuffixOfSuffix(a: Name, b: Name, h: Name)
    requires IsSuffix(a, h) && IsSuffix(b, h) && |a| <= |b|
    ensures IsSuffix(a, b)
  {
    assert b[|b| - |a|..] == h[|h| - |a|..];
  }

  /** Among zones covering one host, more labels means a longer string. */
  lemma LongerMeansMoreLabels(z: string, w: string, host: string)
    requires Covers(z, host) && Covers(w, host) && |Split(z)| <= |Split(w)|
    ensures |z| <= |w| && (|z| == |w| ==> z == w)
  {
    assert IsSuffix(Split(z), Split(w)) by {
      CoversIsSuffix(z, host);
      CoversIsSuffix(w, host);
      SuffixOfSuffix(Split(z), Split(w), Split(host));
    }
    assert Covers(z, w) by {
      CoversIsSuffix(z, w);
    }
  }

  datatype ZoneEntry = ZoneEntry(id: int, name: string, serial: nat, enabled: bool)

  function TrimDots(s: string): (r: string)
    ensures |r| <= |s|
  {
    if s != "" && s[|s| - 1] == '.' then TrimDots(s[..|s| - 1]) else s
  }

  predicate IsSpace(c: char) {
    c == ' ' || c == '\t' || c == '\n' || c == '\r'
  }

  function TrimSpace(s: string): (r: string)
    ensures |r| <= |s|
  {
    if s == "" then s
    else if IsSpace(s[0]) then TrimSpace(s[1..])
    else if IsSpace(s[|s| - 1]) then TrimSpace(s[..|s| - 1])
    else s
  }

  function ZoneName(z: ZoneEntry): string {
    Lower(TrimDots(z.name))
  }

  /** A covering zone of greatest length, the first of its length; `None` if no zone covers the host. */
  ghost predicate IsBest(zones: seq<ZoneEntry>, host: string, best: Option<nat>) {
    if best.None? then forall i :: 0 <= i < |zones| ==> !Covers(ZoneName(zones[i]), host)
    else
      && best.value < |zones| && Covers(ZoneName(zones[best.value]), host)
      && forall i :: 0 <= i < |zones| && Covers(ZoneName(zones[i]), host) ==>
           && |ZoneName(zones[i])| <= |ZoneName(zones[best.value])|
           && (i < best.value ==> |ZoneName(zones[i])| < |ZoneName(zones[best.value])|)
  }

  function BestZone(zones: seq<ZoneEntry>, host: string): (best: Option<nat>)
    ensures best.Some? ==> best.value < |zones|
  {
    if zones == [] then None
    else
      var n := |zones| - 1;
      var before := BestZone(zones[..n], host);
      if Covers(ZoneName(zones[n]), host) && (before.None? || |ZoneName(zones[n])| > |ZoneName(zones[before.value])|)
      then Some(n) else before
  }

  lemma {:induction false} BestZoneIsLongest(zones: seq<ZoneEntry>, host: string)
    ensures IsBest(zones, host, BestZone(zones, host))
  {
    if zones != [] {
      var n := |zones| - 1;
      var front := zones[..n];
      BestZoneIsLongest(front, host);
      forall i | 0 <= i < n ensures zones[i] == front[i] {
      }
    }
  }

  lemma BestSnoc(zones: seq<ZoneEntry>, i: nat, host: string)
    requires i < |zones|
    ensures var before := BestZone(zones[..i], host);
            BestZone(zones[..i + 1], host)
            == if Covers(ZoneName(zones[i]), host) && (before.None? || |ZoneName(zones[i])| > |ZoneName(zones[before.value])|)
               then Some(i) else before
  {
    assert zones[..i + 1][..i] == zones[..i];
  }

  /** The loop over `best`. */
  method FindZone(zones: seq<ZoneEntry>, host: string) returns (best: Option<nat>)
    ensures best == BestZone(zones, host)
  {
    best := None;
    for i := 0 to |zones|
      invariant best == BestZone(zones[..i], host)
    {
      BestSnoc(zones, i, host);
      var zn := ZoneName(zones[i]);
      var matches := host == zn || EndsWith(host, "." + zn);
      if matches && (best.None? || |zn| > |ZoneName(zones[best.value])|) {
        best := Some(i);
      }
    }
    assert zones[..|zones|] == zones;
  }

  /** The stored zone is one that the listed zone may be loaded as. */
  ghost predicate LoadedAs(z: ZoneEntry, s: StoredZone) {
    Key(s.apex) == Split(ZoneName(z))
  }

  /** The stored zones are those of the enabled listed zones. */
  ghost predicate StoredFrom(zones: seq<ZoneEntry>, stored: seq<StoredZone>) {
    && (forall s {:trigger Listed(zones, s)} :: s in stored ==> Listed(zones, s))
    && (forall i {:trigger HasStored(stored, zones[i])} :: 0 <= i < |zones| && zones[i].enabled ==> HasStored(stored, zones[i]))
  }

  ghost predicate Listed(zones: seq<ZoneEntry>, s: StoredZone) {
    exists i :: 0 <= i < |zones| && zones[i].enabled && LoadedAs(zones[i], s)
  }

  ghost predicate HasStored(stored: seq<StoredZone>, z: ZoneEntry) {
    exists s :: s in stored && LoadedAs(z, s)
  }

  lemma FoldedHost(host: string)
    requires Lower(host) == host
    ensures Key(Split(host)) == Split(host)
  {
    SplitLower(host);
  }

  lemma StoredCovers(z: ZoneEntry, s: StoredZone, host: string)
    requires LoadedAs(z, s) && Lower(host) == host
    ensures ZoneOf(s.apex, Split(host)) <==> Covers(ZoneName(z), host)
    ensures |s.apex| == |Split(ZoneName(z))|
  {
    FoldedHost(host);
    CoversIsSuffix(ZoneName(z), host);
  }

  lemma SplitIsInjective(a: string, b: string)
    requires Split(a) == Split(b)
    ensures a == b
  {
    JoinSplit(a);
    JoinSplit(b);
  }

  /** Reader and writer mean the same zone, or both none. */
  ghost predicate Agree(zones: seq<ZoneEntry>, chosen: Option<StoredZone>, best: Option<nat>)
    requires best.Some? ==> best.value < |zones|
  {
    && (chosen.None? <==> best.None?)
    && (chosen.Some? ==> LoadedAs(zones[best.value], chosen.value))
  }

  /** Some enabled zone has the name of zone number `at`; with unique names, that zone is enabled itself. */
  ghost predicate NameEnabled(zones: seq<ZoneEntry>, at: nat)
    requires at < |zones|
  {
    exists i :: 0 <= i < |zones| && zones[i].enabled && ZoneName(zones[i]) == ZoneName(zones[at])
  }

  lemma EnabledBestIsChosen(zones: seq<ZoneEntry>, stored: seq<StoredZone>, host: string, at: nat, i: nat)
    requires StoredFrom(zones, stored) && Lower(host) == host && IsBest(zones, host, Some(at))
    requires i < |zones| && zones[i].enabled && ZoneName(zones[i]) == ZoneName(zones[at])
    ensures Agree(zones, ZoneFor(SortBy(stored, FewerLabels()), Split(host)), Some(at))
  {
    var chosen := ZoneFor(SortBy(stored, FewerLabels()), Split(host));
    ZoneChoiceIsLongestSuffix(stored, Split(host));
    assert HasStored(stored, zones[i]);
    var s :| s in stored && LoadedAs(zones[i], s);
    StoredCovers(zones[i], s, host);
    assert Listed(zones, chosen.value);
    var j :| 0 <= j < |zones| && zones[j].enabled && LoadedAs(zones[j], chosen.value);
    StoredCovers(zones[j], chosen.value, host);
    LongerMeansMoreLabels(ZoneName(zones[at]), ZoneName(zones[j]), host);
  }

  lemma NothingCoversNothingChosen(zones: seq<ZoneEntry>, stored: seq<StoredZone>, host: string)
    requires StoredFrom(zones, stored) && Lower(host) == host && IsBest(zones, host, None)
    ensures ZoneFor(SortBy(stored, FewerLabels()), Split(host)).None?
  {
    ZoneChoiceIsLongestSuffix(stored, Split(host));
    forall s | s in stored ensures !ZoneOf(s.apex, Split(host)) {
      assert Listed(zones, s);
      var i :| 0 <= i < |zones| && zones[i].enabled && LoadedAs(zones[i], s);
      StoredCovers(zones[i], s, host);
    }
  }

  lemma ListedNamesAreEnabled(zones: seq<ZoneEntry>, s: StoredZone, at: nat)
    requires Listed(zones, s) && at < |zones|
    ensures LoadedAs(zones[at], s) ==> NameEnabled(zones, at)
  {
    var j :| 0 <= j < |zones| && zones[j].enabled && LoadedAs(zones[j], s);
    if LoadedAs(zones[at], s) {
      SplitIsInjective(ZoneName(zones[j]), ZoneName(zones[at]));
    }
  }

  /**
   The update looks at all zones, the store only at enabled ones: they mean the same zone exactly when no zone
   covers the host or the longest one that does is enabled.
   */
  lemma ReaderAndWriterAgreeIff(zones: seq<ZoneEntry>, stored: seq<StoredZone>, host: string)
    requires StoredFrom(zones, stored) && Lower(host) == host
    ensures var best := BestZone(zones, host);
            Agree(zones, ZoneFor(SortBy(stored, FewerLabels()), Split(host)), best)
            <==> best.None? || NameEnabled(zones, best.value)
  {
    var chosen := ZoneFor(SortBy(stored, FewerLabels()), Split(host));
    var best := BestZone(zones, host);
    BestZoneIsLongest(zones, host);
    if best.None? {
      NothingCoversNothingChosen(zones, stored, host);
    } else if NameEnabled(zones, best.value) {
      var i :| 0 <= i < |zones| && zones[i].enabled && ZoneName(zones[i]) == ZoneName(zones[best.value]);
      EnabledBestIsChosen(zones, stored, host, best.value, i);
    } else if chosen.Some? {
      ZoneChoiceIsLongestSuffix(stored, Split(host));
      assert Listed(zones, chosen.value);
      ListedNamesAreEnabled(zones, chosen.value, best.value);
    }
  }

  /** The input: the longest zone is disabled, so the update writes to a zone the store does not have. */
  lemma DisabledZoneDisagrees(stored: seq<StoredZone>)
    requires StoredFrom(DisabledChild(), stored)
    ensures BestZone(DisabledChild(), "x.b.a") == Some(1)
    ensures !Agree(DisabledChild(), ZoneFor(SortBy(stored, FewerLabels()), Split("x.b.a")), Some(1))
  {
    LongestIsDisabled();
    ReaderAndWriterAgreeIff(DisabledChild(), stored, "x.b.a");
  }

  lemma LongestIsDisabled()
    ensures BestZone(DisabledChild(), "x.b.a") == Some(1) && Lower("x.b.a") == "x.b.a" && !NameEnabled(DisabledChild(), 1)
  {
    var zones := DisabledChild();
    assert ZoneName(zones[0]) == "a" && ZoneName(zones[1]) == "b.a";
    assert "x.b.a"[|"x.b.a"| - |".a"|..] == ".a" && "x.b.a"[|"x.b.a"| - |".b.a"|..] == ".b.a";
    assert Covers("a", "x.b.a") && Covers("b.a", "x.b.a");
    assert zones[..1] == [zones[0]] && zones[..1][..0] == [];
    assert BestZone(zones[..1], "x.b.a") == Some(0);
  }

  function DisabledChild(): (zones: seq<ZoneEntry>) {
    [ZoneEntry(1, "a", 1, true), ZoneEntry(2, "b.a", 1, false)]
  }

  // ----- The relative name written and read back -----

  function Relative(host: string, zone: string): string
    requires Covers(zone, host)
  {
    if host == zone then "@" else host[..|host| - |zone| - 1]
  }

  /** A record name as the loader reads it: trimmed, and split into labels; empty for the apex. */
  function RelName(rel: string): Name {
    var rec := TrimDots(TrimSpace(rel));
    if rec == "" then [] else Split(rec)
  }

  lemma {:induction false} TrimSpaceKeepsLower(s: string)
    requires Lower(s) == s
    ensures Lower(TrimSpace(s)) == TrimSpace(s)
    decreases |s|
  {
    if s != "" {
      if IsSpace(s[0]) {
        LowerSlice(s, 1, |s|);
        TrimSpaceKeepsLower(s[1..]);
      } else if IsSpace(s[|s| - 1]) {
        LowerSlice(s, 0, |s| - 1);
        TrimSpaceKeepsLower(s[..|s| - 1]);
      }
    }
  }

  lemma {:induction false} TrimDotsKeepsLower(s: string)
    requires Lower(s) == s
    ensures Lower(TrimDots(s)) == TrimDots(s)
    decreases |s|
  {
    if s != "" && s[|s| - 1] == '.' {
      LowerSlice(s, 0, |s| - 1);
      TrimDotsKeepsLower(s[..|s| - 1]);
    }
  }

  lemma LowerSlice(s: string, i: nat, j: nat)
    requires i <= j <= |s| && Lower(s) == s
    ensures Lower(s[i..j]) == s[i..j]
  {
    forall k | 0 <= k < j - i ensures LowerChar(s[i..j][k]) == s[i..j][k] {
      assert Lower(s)[i + k] == s[i + k];
    }
  }

  /** The owner of a record name, as a dotted string. */
  function Dotted(rel: string, zone: string): string {
    var rec := TrimDots(TrimSpace(rel));
    if rec == "" || rec == "@" then zone else rec + "." + zone
  }

  /** The owner a folded record name gets in a zone whose folded apex spells `zone`. */
  lemma FqdnIsDotted(rel: string, zone: string, apex: Name)
    requires Lower(rel) == rel && Key(apex) == Split(zone)
    ensures Key(RecordFqdn(RelName(rel), apex)) == Split(Dotted(rel, zone))
  {
    var rec := TrimDots(TrimSpace(rel));
    TrimSpaceKeepsLower(rel);
    TrimDotsKeepsLower(TrimSpace(rel));
    if rec != "" && rec != "@" {
      if Split(rec) == ["@"] {
        JoinSplit(rec);
        assert false;
      }
      SplitAtDot(rec, zone);
      SplitLower(rec);
      KeyOfConcat(Split(rec), apex);
    } else if rec == "@" {
      assert "@"[1..] == "" && Split("") == [""];
      assert ['@'] + "" == "@" && [""][1..] == [];
      assert Split("@") == [['@'] + ""] + [""][1..] == ["@"];
    }
  }

  /**
   The record name an update writes loads to the owner that a query for the host looks up exactly when the host is
   the zone itself, or its relative part is not empty, not "@", and unchanged by trimming.
   */
  lemma RelativeNameReloads(host: string, zone: string, apex: Name)
    requires Covers(zone, host) && Lower(host) == host && Key(apex) == Split(zone)
    ensures Key(RecordFqdn(RelName(Relative(host, zone)), apex)) == Key(Split(host)) <==> GoodName(host, zone)
  {
    var rel := Relative(host, zone);
    FoldedHost(host);
    RelativeIsLower(host, zone);
    FqdnIsDotted(rel, zone, apex);
    DottedIsHost(host, zone);
    if Split(Dotted(rel, zone)) == Split(host) {
      SplitIsInjective(Dotted(rel, zone), host);
    }
  }

  lemma RelativeIsLower(host: string, zone: string)
    requires Covers(zone, host) && Lower(host) == host
    ensures Lower(Relative(host, zone)) == Relative(host, zone)
  {
    if host == zone {
      assert Lower("@") == "@";
    } else {
      LowerSlice(host, 0, |host| - |zone| - 1);
    }
  }

  lemma DottedIsHost(host: string, zone: string)
    requires Covers(zone, host)
    ensures Dotted(Relative(host, zone), zone) == host <==> GoodName(host, zone)
  {
    var rel := Relative(host, zone);
    var rec := TrimDots(TrimSpace(rel));
    if host != zone {
      assert host == rel + "." + zone;
      assert (rec + "." + zone)[..|rec|] == rec && host[..|rel|] == rel;
    }
  }

  predicate GoodName(host: string, zone: string)
    requires Covers(zone, host)
  {
    var rel := Relative(host, zone);
    host == zone || (TrimDots(TrimSpace(rel)) == rel && rel != "" && rel != "@")
  }

  /** A host whose relative part is "@" is written to the zone apex instead. */
  lemma AtHostLandsOnTheApex(zone: string)
    requires Lower(zone) == zone
    ensures "@." + zone != zone && Covers(zone, "@." + zone)
    ensures Key(RecordFqdn(RelName(Relative("@." + zone, zone)), Split(zone))) == Split(zone)
  {
    var host := "@." + zone;
    assert host[|host| - |"." + zone|..] == "." + zone;
    assert Relative(host, zone) == "@" && Lower("@") == "@";
    FoldedHost(zone);
    FqdnIsDotted("@", zone, Split(zone));
  }

  // ----- The update -----

  datatype RecordEntry = RecordEntry(zoneId: int, view: Option<int>, name: string, rtype: string, ttl: Option<U32>, data: string, enabled: bool)

  datatype Tables = Tables(zones: seq<ZoneEntry>, records: seq<RecordEntry>)

  datatype DynUpdate = Created | Updated | Unchanged | NoZone

  predicate Matches(r: RecordEntry, zoneId: int, rel: string, rtype: string, view: Option<int>) {
    r.zoneId == zoneId && SameId(r.name, rel) && r.rtype == rtype && r.view == view
  }

  /** The first record at this owner and type in the same view. */
  function Existing(rs: seq<RecordEntry>, zoneId: int, rel: string, rtype: string, view: Option<int>): (r: Option<nat>)
    ensures r.None? ==> forall i :: 0 <= i < |rs| ==> !Matches(rs[i], zoneId, rel, rtype, view)
    ensures r.Some? ==> r.value < |rs| && Matches(rs[r.value], zoneId, rel, rtype, view)
                        && forall i :: 0 <= i < r.value ==> !Matches(rs[i], zoneId, rel, rtype, view)
    decreases |rs|
  {
    if rs == [] then None
    else
      var n := |rs| - 1;
      var before := Existing(rs[..n], zoneId, rel, rtype, view);
      if before.Some? then before else if Matches(rs[n], zoneId, rel, rtype, view) then Some(n) else None
  }

  function BumpSerial(zones: seq<ZoneEntry>, i: nat): seq<ZoneEntry>
    requires i < |zones|
  {
    zones[i := zones[i].(serial := zones[i].serial + 1)]
  }

  function HostOf(fqdn: string): string {
    Lower(TrimDots(TrimSpace(fqdn)))
  }

  /** The update of the record at owner `rel` of zone number `at`. */
  function Write(db: Tables, at: nat, rel: string, rtype: string, address: string, view: Option<int>, ttl: U32): (Tables, DynUpdate)
    requires at < |db.zones|
  {
    var zoneId := db.zones[at].id;
    var i := Existing(db.records, zoneId, rel, rtype, view);
    if i.None? then
      (Tables(BumpSerial(db.zones, at), db.records + [RecordEntry(zoneId, view, rel, rtype, Some(ttl), address, true)]), Created)
    else if db.records[i.value].data == address then (db, Unchanged)
    else (Tables(BumpSerial(db.zones, at), db.records[i.value := db.records[i.value].(data := address)]), Updated)
  }

  function TypeFor(isV4: bool): string {
    if isV4 then "A" else "AAAA"
  }

  /** The owner an update writes, relative to the best zone. */
  function RelativeAt(zones: seq<ZoneEntry>, at: nat, host: string): string
    requires at < |zones|
  {
    var zone := ZoneName(zones[at]);
    if Covers(zone, host) then Relative(host, zone) else ""
  }

  /** `dyndns_set_address` as a function of the tables. */
  function SetAddress(db: Tables, fqdn: string, isV4: bool, address: string, view: Option<int>, ttl: U32): (Tables, DynUpdate) {
    var host := HostOf(fqdn);
    var best := BestZone(db.zones, host);
    if best.None? then (db, NoZone)
    else Write(db, best.value, RelativeAt(db.zones, best.value, host), TypeFor(isV4), address, view, ttl)
  }

  /** Zone `at` gains one on its serial; nothing else about any zone changes. */
  ghost predicate OnlySerialBumped(zones: seq<ZoneEntry>, zones': seq<ZoneEntry>, at: nat) {
    && |zones'| == |zones|
    && forall i :: 0 <= i < |zones| ==>
         zones'[i] == if i == at then zones[i].(serial := zones[i].serial + 1) else zones[i]
  }

  lemma WriteMovesOneSerial(db: Tables, at: nat, rel: string, rtype: string, address: string, view: Option<int>, ttl: U32)
    requires at < |db.zones|
    ensures var (db', r) := Write(db, at, rel, rtype, address, view, ttl);
            && !r.NoZone? && (r.Unchanged? ==> db' == db)
            && (!r.Unchanged? ==> db'.records != db.records && OnlySerialBumped(db.zones, db'.zones, at))
  {
    var i := Existing(db.records, db.zones[at].id, rel, rtype, view);
    var db' := Write(db, at, rel, rtype, address, view, ttl).0;
    if i.None? {
      assert |db'.records| == |db.records| + 1;
    } else {
      assert db'.records[i.value].data == address;
    }
  }

  /**
   Records change exactly when the update reports Created or Updated. Then the serial of the best zone rises by
   one, and no other zone and nothing else about that one changes; otherwise nothing changes at all.
   */
  lemma SerialMovesWithRecords(db: Tables, fqdn: string, isV4: bool, address: string, view: Option<int>, ttl: U32)
    ensures var (db', r) := SetAddress(db, fqdn, isV4, address, view, ttl);
            var best := BestZone(db.zones, HostOf(fqdn));
            && IsBest(db.zones, HostOf(fqdn), best) && (r.NoZone? <==> best.None?)
            && (r.Unchanged? || r.NoZone? ==> db' == db)
            && (r.Created? || r.Updated? ==>
                  db'.records != db.records && OnlySerialBumped(db.zones, db'.zones, best.value))
  {
    var host := HostOf(fqdn);
    BestZoneIsLongest(db.zones, host);
    var best := BestZone(db.zones, host);
    if best.Some? {
      WriteMovesOneSerial(db, best.value, RelativeAt(db.zones, best.value, host), TypeFor(isV4), address, view, ttl);
    }
  }

  lemma {:induction false} BestSeesOnlyNames(zones: seq<ZoneEntry>, other: seq<ZoneEntry>, host: string)
    requires |zones| == |other| && forall i :: 0 <= i < |zones| ==> ZoneName(zones[i]) == ZoneName(other[i])
    ensures BestZone(zones, host) == BestZone(other, host)
    decreases |zones|
  {
    if zones != [] {
      BestSeesOnlyNames(zones[..|zones| - 1], other[..|zones| - 1], host);
    }
  }

  lemma BestIgnoresSerials(zones: seq<ZoneEntry>, i: nat, host: string)
    requires i < |zones|
    ensures BestZone(BumpSerial(zones, i), host) == BestZone(zones, host)
  {
    var bumped := BumpSerial(zones, i);
    forall j | 0 <= j < |zones| ensures ZoneName(zones[j]) == ZoneName(bumped[j]) {
      assert zones[j].name == bumped[j].name;
    }
    BestSeesOnlyNames(zones, bumped, host);
  }

  lemma ExistingIs(rs: seq<RecordEntry>, zoneId: int, rel: string, rtype: string, view: Option<int>, i: nat)
    requires i < |rs| && Matches(rs[i], zoneId, rel, rtype, view)
    requires forall j :: 0 <= j < i ==> !Matches(rs[j], zoneId, rel, rtype, view)
    ensures Existing(rs, zoneId, rel, rtype, view) == Some(i)
  {
  }

  lemma WriteIsIdempotent(db: Tables, at: nat, rel: string, rtype: string, address: string, view: Option<int>, ttl: U32)
    requires at < |db.zones|
    ensures var db' := Write(db, at, rel, rtype, address, view, ttl).0;
            |db'.zones| == |db.zones| && Write(db', at, rel, rtype, address, view, ttl) == (db', Unchanged)
  {
    var zoneId := db.zones[at].id;
    var i := Existing(db.records, zoneId, rel, rtype, view);
    var db' := Write(db, at, rel, rtype, address, view, ttl).0;
    ExistingIs(db'.records, zoneId, rel, rtype, view, if i.Some? then i.value else |db.records|);
  }

  /** Repeating an update changes nothing. */
  lemma UpdateIsIdempotent(db: Tables, fqdn: string, isV4: bool, address: string, view: Option<int>, ttl: U32)
    ensures var (db', r) := SetAddress(db, fqdn, isV4, address, view, ttl);
            SetAddress(db', fqdn, isV4, address, view, ttl) == (db', if r.NoZone? then NoZone else Unchanged)
  {
    var host := HostOf(fqdn);
    var best := BestZone(db.zones, host);
    if best.Some? {
      var rel := RelativeAt(db.zones, best.value, host);
      var db' := Write(db, best.value, rel, TypeFor(isV4), address, view, ttl).0;
      WriteIsIdempotent(db, best.value, rel, TypeFor(isV4), address, view, ttl);
      BestIgnoresSerials(db.zones, best.value, host);
      assert db'.zones == db.zones || db'.zones == BumpSerial(db.zones, best.value);
      assert RelativeAt(db'.zones, best.value, host) == rel;
    }
  }

  /** After an update that found a zone, the host has a record of the address's own type with that address. */
  lemma AddressIsWritten(db: Tables, fqdn: string, isV4: bool, address: string, view: Option<int>, ttl: U32)
    ensures var (db', r) := SetAddress(db, fqdn, isV4, address, view, ttl);
            !r.NoZone? ==>
              var at := BestZone(db.zones, HostOf(fqdn)).value;
              var host, zone := HostOf(fqdn), ZoneName(db.zones[at]);
              exists e :: && e in db'.records && e.zoneId == db.zones[at].id && e.view == view && e.data == address
                          && e.rtype == (if isV4 then "A" else "AAAA")
                          && (host == zone ==> SameId(e.name, "@"))
                          && (host != zone ==> |host| > |zone| && SameId(e.name, host[..|host| - |zone| - 1]))
  {
    var (db', r) := SetAddress(db, fqdn, isV4, address, view, ttl);
    var host := HostOf(fqdn);
    BestZoneIsLongest(db.zones, host);
    if !r.NoZone? {
      var at := BestZone(db.zones, host).value;
      var i := Existing(db.records, db.zones[at].id, RelativeAt(db.zones, at, host), TypeFor(isV4), view);
      var n := if i.Some? then i.value else |db.records|;
      var e := db'.records[n];
      assert e in db'.records && Matches(e, db.zones[at].id, RelativeAt(db.zones, at, host), TypeFor(isV4), view);
    }
  }

  predicate Blank(s: string) {
    forall i :: 0 <= i < |s| ==> IsSpace(s[i])
  }

  lemma Around(c: char, front: string, core: string, back: string)
    ensures [c] + (front + core + back) == ([c] + front) + core + back
    ensures (front + core + back) + [c] == front + core + (back + [c])
  {
  }

  /** Trimming takes white space off both ends and nothing else. */
  lemma {:induction false} TrimSpaceMeans(s: string) returns (front: string, back: string)
    ensures s == front + TrimSpace(s) + back && Blank(front) && Blank(back)
    decreases |s|
  {
    if s == "" {
      return "", "";
    }
    if IsSpace(s[0]) {
      var f, b := TrimSpaceMeans(s[1..]);
      assert s == [s[0]] + s[1..];
      Around(s[0], f, TrimSpace(s), b);
      return [s[0]] + f, b;
    }
    var n := |s| - 1;
    if IsSpace(s[n]) {
      var f, b := TrimSpaceMeans(s[..n]);
      assert s == s[..n] + [s[n]];
      Around(s[n], f, TrimSpace(s), b);
      return f, b + [s[n]];
    }
    assert s == "" + s + "";
    return "", "";
  }

  lemma {:induction false} TrimmedEnds(s: string)
    ensures TrimSpace(s) != "" ==> !IsSpace(TrimSpace(s)[0]) && !IsSpace(TrimSpace(s)[|TrimSpace(s)| - 1])
    decreases |s|
  {
    if s != "" {
      if IsSpace(s[0]) {
        TrimmedEnds(s[1..]);
      } else if IsSpace(s[|s| - 1]) {
        TrimmedEnds(s[..|s| - 1]);
      }
    }
  }

  /** Trimming dots takes dots off the end and nothing else. */
  lemma {:induction false} TrimDotsMeans(s: string) returns (back: string)
    ensures s == TrimDots(s) + back && forall i :: 0 <= i < |back| ==> back[i] == '.'
    ensures TrimDots(s) != "" ==> TrimDots(s)[|TrimDots(s)| - 1] != '.'
    decreases |s|
  {
    back := "";
    if s != "" && s[|s| - 1] == '.' {
      var front := s[..|s| - 1];
      var dots := TrimDotsMeans(front);
      assert s == front + ".";
      AppendAssociates(TrimDots(front), dots, ".");
      back := dots + ".";
    }
  }

  /** A host name is trimmed of white space and trailing dots, and folded. */
  lemma HostOfIsTrimmed(fqdn: string)
    ensures var host := HostOf(fqdn);
            && Lower(host) == host && (host != "" ==> host[|host| - 1] != '.')
            && |host| <= |fqdn|
  {
    LowerIsIdempotent(TrimDots(TrimSpace(fqdn)));
    TrimDotsLeavesNone(TrimSpace(fqdn));
  }

  lemma {:induction false} TrimDotsLeavesNone(s: string)
    ensures TrimDots(s) != "" ==> TrimDots(s)[|TrimDots(s)| - 1] != '.' && Lower(TrimDots(s))[|TrimDots(s)| - 1] != '.'
    decreases |s|
  {
    if s != "" && s[|s| - 1] == '.' {
      TrimDotsLeavesNone(s[..|s| - 1]);
    }
  }

  /** The database the update works on. */
  class Database {
    var zones: seq<ZoneEntry>
    var records: seq<RecordEntry>

    method WriteRecord(at: nat, rel: string, rtype: string, address: string, view: Option<int>, ttl: U32) returns (r: DynUpdate)
      requires at < |zones|
      modifies this
      ensures (Tables(zones, records), r) == Write(Tables(old(zones), old(records)), at, rel, rtype, address, view, ttl)
    {
      var zoneId := zones[at].id;
      var i := Existing(records, zoneId, rel, rtype, view);
      if i.Some? {
        if records[i.value].data == address {
          return Unchanged;
        }
        records := records[i.value := records[i.value].(data := address)];
        zones := BumpSerial(zones, at);
        return Updated;
      }
      records := records + [RecordEntry(zoneId, view, rel, rtype, Some(ttl), address, true)];
      zones := BumpSerial(zones, at);
      return Created;
    }

    /** `dyndns_set_address`: longest zone, relative name, then update, create or leave alone. */
    method SetDynAddress(fqdn: string, isV4: bool, address: string, view: Option<int>, ttl: U32) returns (r: DynUpdate)
      modifies this
      ensures (Tables(zones, records), r) == SetAddress(Tables(old(zones), old(records)), fqdn, isV4, address, view, ttl)
    {
      var host := HostOf(fqdn);
      var best := FindZone(zones, host);
      if best.None? {
        return NoZone;
      }
      BestZoneIsLongest(zones, host);
      var zoneName := ZoneName(zones[best.value]);
      var rel := if host == zoneName then "@" else host[..|host| - |zoneName| - 1];
      r := WriteRecord(best.value, rel, TypeFor(isV4), address, view, ttl);
    }
  }
}
