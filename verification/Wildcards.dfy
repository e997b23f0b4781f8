/**
 What the wildcard walk computes (src/store.rs `records_at`), stated without the walk, and how it relates to the
 closest encloser of section 3.3.1 of RFC 4592.
 */
module Wildcards {
  import opened Wrappers
  import opened Text
  import opened Names
  import opened Store
  import opened Loading

  /** The wildcard whose parent is the ancestor of `key` that starts at label `i`. */
  function WildcardAt(key: Name, i: nat): Name
    requires i <= |key|
  {
    ["*"] + key[i..]
  }

  /** `j` is the first label from `i` on whose ancestor has a wildcard. */
  ghost predicate FirstWildcard(records: map<Name, seq<StoredRecord>>, key: Name, i: nat, j: nat) {
    && i <= j < |key| && WildcardAt(key, j) in records
    && forall k :: i <= k < j ==> WildcardAt(key, k) !in records
  }

  lemma {:induction false} WalkFindsFirst(records: map<Name, seq<StoredRecord>>, key: Name, i: nat)
    requires i <= |key|
    ensures WildcardFrom(records, key, i).None? ==> forall j :: i <= j < |key| ==> WildcardAt(key, j) !in records
    ensures WildcardFrom(records, key, i).Some? ==>
              exists j :: FirstWildcard(records, key, i, j) && WildcardFrom(records, key, i) == Some(WildcardAt(key, j))
    decreases |key| - i
  {
    if i < |key| {
      if WildcardAt(key, i) in records {
        assert FirstWildcard(records, key, i, i);
      } else {
        WalkFindsFirst(records, key, i + 1);
        if WildcardFrom(records, key, i).Some? {
          var j :| FirstWildcard(records, key, i + 1, j) && WildcardFrom(records, key, i + 1) == Some(WildcardAt(key, j));
          assert FirstWildcard(records, key, i, j);
        }
      }
    }
  }

  /**
   A stored name answers for itself. Any other name is answered by the wildcard of its nearest proper ancestor
   that has one, and by nothing exactly when none has.
   */
  lemma OwnerIsDeepestWildcard(zone: StoredZone, key: Name)
    ensures key in zone.records ==> OwnerFor(zone, key) == Some(key)
    ensures key !in zone.records ==>
              (OwnerFor(zone, key).None? <==> forall j :: 1 <= j < |key| ==> WildcardAt(key, j) !in zone.records)
    ensures key !in zone.records && OwnerFor(zone, key).Some? ==>
              exists j :: FirstWildcard(zone.records, key, 1, j) && OwnerFor(zone, key) == Some(WildcardAt(key, j))
  {
    if key != [] {
      WalkFindsFirst(zone.records, key, 1);
    }
  }

  // ----- Only the stored names matter -----

  lemma {:induction false} SameOwnersSameWildcard(a: map<Name, seq<StoredRecord>>, b: map<Name, seq<StoredRecord>>, key: Name, i: nat)
    requires a.Keys == b.Keys && i <= |key|
    ensures WildcardFrom(a, key, i) == WildcardFrom(b, key, i)
    decreases |key| - i
  {
    if i < |key| {
      assert ["*"] + key[i..] in a.Keys <==> ["*"] + key[i..] in b.Keys;
      SameOwnersSameWildcard(a, b, key, i + 1);
    }
  }

  lemma SameOwnersSameOwner(a: StoredZone, b: StoredZone, key: Name)
    requires a.records.Keys == b.records.Keys
    ensures OwnerFor(a, key) == OwnerFor(b, key)
  {
    assert key in a.records.Keys <==> key in b.records.Keys;
    if key != [] {
      SameOwnersSameWildcard(a.records, b.records, key, 1);
    }
  }

  // ----- RFC 4592 -----

  /** The name has records or something below it does (section 2.2.2 of RFC 4592); the apex has its SOA. */
  ghost predicate Exists(zone: StoredZone, n: Name) {
    IsSuffix(n, Key(zone.apex)) || exists k :: k in zone.records && IsSuffix(n, k)
  }

  /** Where the closest encloser of `key` starts: its longest existing ancestor from label `i` on. */
  ghost function Encloser(zone: StoredZone, key: Name, i: nat): (c: nat)
    requires i <= |key|
    ensures i <= c <= |key| && Exists(zone, key[c..]) && forall k :: i <= k < c ==> !Exists(zone, key[k..])
    decreases |key| - i
  {
    if Exists(zone, key[i..]) then i
    else if i == |key| then assert IsSuffix(key[i..], Key(zone.apex)); i
    else Encloser(zone, key, i + 1)
  }

  /** What answers for a name: its own records, a name that exists without records, a wildcard, or nothing. */
  datatype Source = Own | Blank | Synthesised(wildcard: Name) | Missing

  function CodeSource(zone: StoredZone, key: Name): Source {
    if key in zone.records then Own
    else if OwnerFor(zone, key).Some? then Synthesised(OwnerFor(zone, key).value)
    else Missing
  }

  ghost function RfcSource(zone: StoredZone, key: Name): Source {
    if key in zone.records then Own
    else if Exists(zone, key) then Blank
    else
      var w := WildcardAt(key, Encloser(zone, key, 0));
      if w in zone.records then Synthesised(w) else Missing
  }

  lemma WildcardParentExists(zone: StoredZone, key: Name, j: nat)
    requires j <= |key| && WildcardAt(key, j) in zone.records
    ensures Exists(zone, key[j..])
  {
    var w := WildcardAt(key, j);
    assert w[|w| - |key[j..]|..] == key[j..];
    assert IsSuffix(key[j..], w);
  }

  /** The closest encloser starts at `c`; nothing below it exists. */
  ghost predicate NothingBelow(zone: StoredZone, key: Name, c: nat) {
    c <= |key| && forall k :: 0 <= k < c ==> !Exists(zone, key[k..])
  }

  /** The walk passes over everything below the closest encloser. */
  lemma NoWildcardBelow(zone: StoredZone, key: Name, c: nat, j: nat)
    requires NothingBelow(zone, key, c) && j <= |key| && WildcardAt(key, j) in zone.records
    ensures c <= j
  {
    WildcardParentExists(zone, key, j);
  }

  /** The wildcard of the closest encloser is the one the walk finds. */
  lemma EncloserWildcardIsFound(zone: StoredZone, key: Name, c: nat)
    requires key !in zone.records && 1 <= c < |key| && WildcardAt(key, c) in zone.records && NothingBelow(zone, key, c)
    ensures OwnerFor(zone, key) == Some(WildcardAt(key, c))
  {
    OwnerIsDeepestWildcard(zone, key);
    var j :| FirstWildcard(zone.records, key, 1, j) && OwnerFor(zone, key) == Some(WildcardAt(key, j));
    NoWildcardBelow(zone, key, c, j);
  }

  /** The walk finds nothing exactly when no ancestor from the closest encloser up to the root has a wildcard. */
  lemma NothingFoundIff(zone: StoredZone, key: Name, c: nat)
    requires key !in zone.records && 1 <= c && NothingBelow(zone, key, c)
    ensures OwnerFor(zone, key).None? <==> forall j :: c <= j < |key| ==> WildcardAt(key, j) !in zone.records
  {
    OwnerIsDeepestWildcard(zone, key);
    if forall j :: c <= j < |key| ==> WildcardAt(key, j) !in zone.records {
      forall j | 1 <= j < |key| ensures WildcardAt(key, j) !in zone.records {
        if WildcardAt(key, j) in zone.records {
          NoWildcardBelow(zone, key, c, j);
        }
      }
    }
  }

  /** The closest encloser settles the answer: its own wildcard is stored, or none is from there up. */
  ghost predicate EncloserDecides(zone: StoredZone, key: Name, c: nat)
    requires c <= |key|
  {
    if c < |key| then
      WildcardAt(key, c) in zone.records || forall j :: c <= j < |key| ==> WildcardAt(key, j) !in zone.records
    else ["*"] !in zone.records
  }

  /**
   The walk and RFC 4592 agree on a name exactly when the name is stored, or does not exist at all and its closest
   encloser decides. A wildcard at the root of the name space is never found.
   */
  lemma AgreesWithRfc4592Iff(zone: StoredZone, key: Name)
    ensures CodeSource(zone, key) == RfcSource(zone, key) <==>
            key in zone.records || (!Exists(zone, key) && EncloserDecides(zone, key, Encloser(zone, key, 0)))
  {
    assert key[0..] == key;
    if key !in zone.records && !Exists(zone, key) {
      AgreesOnMissingIff(zone, key, Encloser(zone, key, 0));
    }
  }

  lemma AgreesOnMissingIff(zone: StoredZone, key: Name, c: nat)
    requires key !in zone.records && !Exists(zone, key) && c == Encloser(zone, key, 0)
    ensures CodeSource(zone, key) == RfcSource(zone, key) <==> EncloserDecides(zone, key, c)
  {
    assert key[0..] == key;
    assert c >= 1 && NothingBelow(zone, key, c);
    assert c == |key| ==> WildcardAt(key, c) == ["*"];
    NothingFoundIff(zone, key, c);
    if WildcardAt(key, c) in zone.records && c < |key| {
      EncloserWildcardIsFound(zone, key, c);
    }
  }

  // ----- Whole zones -----

  /** A folded name of the zone. */
  ghost predicate InZone(zone: StoredZone, n: Name) {
    Key(n) == n && IsSuffix(Key(zone.apex), n)
  }

  lemma EncloserInZone(zone: StoredZone, key: Name)
    requires zone.apex != [] && InZone(zone, key)
    ensures Encloser(zone, key, 0) < |key|
  {
    var c := |key| - |zone.apex|;
    assert key[c..] == Key(zone.apex);
    assert Exists(zone, key[c..]);
  }

  /** Inside a zone with a name, the root wildcard plays no part. */
  lemma AgreesInsideZoneIff(zone: StoredZone, key: Name)
    requires zone.apex != [] && InZone(zone, key)
    ensures var c := Encloser(zone, key, 0);
            CodeSource(zone, key) == RfcSource(zone, key) <==>
              || key in zone.records
              || (!Exists(zone, key)
                  && (WildcardAt(key, c) in zone.records || forall j :: c <= j < |key| ==> WildcardAt(key, j) !in zone.records))
  {
    AgreesWithRfc4592Iff(zone, key);
    EncloserInZone(zone, key);
  }

  ghost predicate AgreesEverywhere(zone: StoredZone) {
    forall key :: InZone(zone, key) ==> CodeSource(zone, key) == RfcSource(zone, key)
  }

  /** Every name of the zone that exists has records: there is no empty non-terminal, and the apex is stored. */
  ghost predicate NoEmptyNames(zone: StoredZone) {
    forall n :: InZone(zone, n) && Exists(zone, n) ==> n in zone.records
  }

  predicate IsWildcard(k: Name) {
    |k| >= 2 && k[0] == "*"
  }

  ghost predicate NoWildcards(zone: StoredZone) {
    forall k :: k in zone.records ==> !IsWildcard(k)
  }

  lemma {:induction false} LongestOf(s: set<Name>) returns (w: Name)
    requires s != {}
    ensures w in s && forall k :: k in s ==> |k| <= |w|
    decreases |s|
  {
    var k :| k in s;
    var rest := s - {k};
    assert forall v :: v in s ==> v == k || v in rest;
    if rest == {} {
      w := k;
    } else {
      var v := LongestOf(rest);
      w := if |v| < |k| then k else v;
    }
  }

  /** A bound on the length of every label of a finite set of names. */
  lemma {:induction false} LabelBound(s: set<Name>) returns (n: nat)
    ensures forall k, i :: k in s && 0 <= i < |k| ==> |k[i]| <= n
    decreases |s|
  {
    if s == {} {
      n := 0;
    } else {
      var k :| k in s;
      var rest := LabelBound(s - {k});
      n := rest;
      for i := 0 to |k|
        invariant rest <= n && forall j :: 0 <= j < i ==> |k[j]| <= n
      {
        n := if |k[i]| <= n then n else |k[i]|;
      }
    }
  }

  /** A folded label longer than `n` characters. */
  lemma FreshLabel(n: nat) returns (y: string)
    ensures |y| > n && Lower(y) == y
  {
    y := seq(n + 1, _ => 'y');
  }

  /** Below the longest stored wildcard, a name that does not exist is answered by that wildcard only by the code. */
  lemma BelowWildcardDisagrees(zone: StoredZone, w: Name, y: string)
    requires WellFormed(zone) && zone.apex != [] && w in zone.records && IsWildcard(w)
    requires Lower(y) == y && forall k, i :: k in zone.records && 0 <= i < |k| ==> |k[i]| < |y|
    requires forall i :: 0 <= i < |zone.apex| ==> |Key(zone.apex)[i]| < |y|
    requires ["*"] + w !in zone.records
    ensures InZone(zone, [y] + w) && CodeSource(zone, [y] + w) != RfcSource(zone, [y] + w)
  {
    var key := [y] + w;
    FreshNameIsMissing(zone, w, y);
    FreshNameInZone(zone, w, y);
    assert key[0..] == key && key[1..] == w && key[2..] == w[1..];
    assert IsSuffix(w, w);
    assert Exists(zone, key[1..]);
    assert Encloser(zone, key, 0) == 1;
    assert WildcardAt(key, 1) == ["*"] + w && WildcardAt(key, 2) == w;
    AgreesInsideZoneIff(zone, key);
  }

  lemma FreshNameIsMissing(zone: StoredZone, w: Name, y: string)
    requires forall k, i :: k in zone.records && 0 <= i < |k| ==> |k[i]| < |y|
    requires forall i :: 0 <= i < |zone.apex| ==> |Key(zone.apex)[i]| < |y|
    ensures !Exists(zone, [y] + w) && [y] + w !in zone.records
  {
    var key := [y] + w;
    forall k | k in zone.records ensures !IsSuffix(key, k) && k != key {
      if |key| <= |k| {
        assert |k[|k| - |key|]| < |y| && k[|k| - |key|..][0] == k[|k| - |key|] && key[0] == y;
      }
    }
    var apex := Key(zone.apex);
    if |key| <= |apex| {
      assert |apex[|apex| - |key|]| < |y| && apex[|apex| - |key|..][0] == apex[|apex| - |key|] && key[0] == y;
    }
  }

  lemma FreshNameInZone(zone: StoredZone, w: Name, y: string)
    requires WellFormed(zone) && w in zone.records && Lower(y) == y
    ensures InZone(zone, [y] + w)
  {
    var key := [y] + w;
    assert OwnerKey(w, zone.apex);
    KeyIsIdempotent(zone.apex);
    assert Key([y]) == [y];
    KeyOfConcat([y], w);
    assert IsSuffix(Key(zone.apex), w);
    assert key[|key| - |zone.apex|..] == w[|w| - |zone.apex|..];
  }

  lemma AgreementNeedsNoWildcards(zone: StoredZone)
    requires WellFormed(zone) && zone.apex != [] && AgreesEverywhere(zone)
    ensures NoWildcards(zone)
  {
    var wild := set k | k in zone.records && IsWildcard(k);
    if wild != {} {
      var w := LongestOf(wild);
      var n := LabelBound(zone.records.Keys + {Key(zone.apex)});
      var y := FreshLabel(n);
      assert IsWildcard(["*"] + w) && |["*"] + w| > |w|;
      BelowWildcardDisagrees(zone, w, y);
    }
    forall k | k in zone.records ensures !IsWildcard(k) {
      assert k !in wild;
    }
  }

  lemma AgreementNeedsNoEmptyNames(zone: StoredZone)
    requires AgreesEverywhere(zone)
    ensures NoEmptyNames(zone)
  {
    forall n | InZone(zone, n) && Exists(zone, n) ensures n in zone.records {
      assert CodeSource(zone, n) == RfcSource(zone, n);
    }
  }

  /**
   Zone by zone: code and RFC 4592 agree on every name of a loaded zone exactly when every name that exists in it
   has records, the apex included, and it stores no wildcard. Any wildcard makes them differ somewhere.
   */
  lemma AgreesEverywhereIff(zone: StoredZone)
    requires WellFormed(zone) && zone.apex != []
    ensures AgreesEverywhere(zone) <==> NoEmptyNames(zone) && NoWildcards(zone)
  {
    if AgreesEverywhere(zone) {
      AgreementNeedsNoWildcards(zone);
      AgreementNeedsNoEmptyNames(zone);
    }
    if NoEmptyNames(zone) && NoWildcards(zone) {
      forall key | InZone(zone, key) ensures CodeSource(zone, key) == RfcSource(zone, key) {
        AgreesInsideZoneIff(zone, key);
        forall j | 0 <= j < |key| ensures WildcardAt(key, j) !in zone.records {
          assert IsWildcard(WildcardAt(key, j));
        }
      }
    }
  }

  /** The zone `z` with the names `*.z` and `x.z`. */
  function TwoNames(z: Name, serial: U32, minimum: U32, wild: seq<StoredRecord>, host: seq<StoredRecord>): StoredZone {
    StoredZone(z, serial, minimum, map[["*"] + z := wild, ["x"] + z := host])
  }

  lemma WalkReachesWildcard(z: Name, serial: U32, minimum: U32, wild: seq<StoredRecord>, host: seq<StoredRecord>)
    requires z != []
    ensures CodeSource(TwoNames(z, serial, minimum, wild, host), ["y", "x"] + z) == Synthesised(["*"] + z)
  {
    var zone, key := TwoNames(z, serial, minimum, wild, host), ["y", "x"] + z;
    assert key !in zone.records && WildcardAt(key, 1) !in zone.records by {
      assert |key| == |z| + 2 && |WildcardAt(key, 1)| == |z| + 2;
      assert forall k :: k in zone.records ==> |k| == |z| + 1;
    }
    assert WildcardAt(key, 2) == ["*"] + z;
    assert WildcardFrom(zone.records, key, 1) == WildcardFrom(zone.records, key, 2);
  }

  lemma EncloserStops(z: Name, serial: U32, minimum: U32, wild: seq<StoredRecord>, host: seq<StoredRecord>)
    ensures RfcSource(TwoNames(z, serial, minimum, wild, host), ["y", "x"] + z) == Missing
  {
    var zone, key := TwoNames(z, serial, minimum, wild, host), ["y", "x"] + z;
    assert key[0..] == key && key[1..] == ["x"] + z;
    assert !Exists(zone, key) && key !in zone.records && WildcardAt(key, 1) !in zone.records by {
      assert |key| == |z| + 2 && |WildcardAt(key, 1)| == |z| + 2;
      assert forall k :: k in zone.records ==> |k| == |z| + 1;
    }
    assert IsSuffix(key[1..], ["x"] + z);
    assert Exists(zone, key[1..]);
    assert Encloser(zone, key, 0) == 1;
  }

  /** The difference: with `*.z` and `x.z` stored, `y.x.z` is answered by `*.z`, though `x.z` should keep that from applying. */
  lemma WildcardReachesPastTheEncloser(z: Name, serial: U32, minimum: U32, wild: seq<StoredRecord>, host: seq<StoredRecord>)
    requires z != []
    ensures var zone, key := TwoNames(z, serial, minimum, wild, host), ["y", "x"] + z;
            CodeSource(zone, key) == Synthesised(["*"] + z) && RfcSource(zone, key) == Missing
  {
    WalkReachesWildcard(z, serial, minimum, wild, host);
    EncloserStops(z, serial, minimum, wild, host);
  }
}
