/** DNS names as label sequences, leftmost label first (src/store.rs `name_key`, src/models.rs `record_fqdn_name`). */
module Names {
  import opened Text

  type Name = seq<string>

  /** The case-folded form under which names are stored and compared. */
  function Key(n: Name): (k: Name)
    ensures |k| == |n|
  {
    seq(|n|, i requires 0 <= i < |n| => Lower(n[i]))
  }

  predicate IsSuffix(s: Name, n: Name) {
    |s| <= |n| && n[|n| - |s|..] == s
  }

  /** The zone at `apex` covers `n`. */
  predicate ZoneOf(apex: Name, n: Name) {
    IsSuffix(Key(apex), Key(n))
  }

  /** Owner of a record written with name `rel` in zone `zone`; "@" and the empty name mean the apex. */
  function RecordFqdn(rel: Name, zone: Name): Name {
    if rel == [] || rel == ["@"] then zone else rel + zone
  }

  /** What a secondary stores for owner `f` in zone `zone` (both folded). */
  function RelativeTo(f: Name, zone: Name): Name {
    if f == zone then ["@"]
    else if IsSuffix(zone, f) then f[..|f| - |zone|]
    else f
  }

  lemma KeyIsIdempotent(n: Name)
    ensures Key(Key(n)) == Key(n)
  {
    forall i | 0 <= i < |n| ensures Lower(Lower(n[i])) == Lower(n[i]) {
      LowerIsIdempotent(n[i]);
    }
  }

  lemma KeyOfConcat(a: Name, b: Name)
    ensures Key(a + b) == Key(a) + Key(b)
  {
  }

  lemma OnlyAtFoldsToAt(rel: Name)
    requires Key(rel) == ["@"]
    ensures rel == ["@"]
  {
    assert Lower(rel[0]) == Key(rel)[0] == "@";
    assert LowerChar(rel[0][0]) == Lower(rel[0])[0] == '@';
    assert rel[0] == "@";
  }

  /** The zone itself is written "@", a name below it by its own labels, any other in full. */
  lemma RelativeToMeans(rel: Name, f: Name, zone: Name)
    ensures RelativeTo(zone, zone) == ["@"]
    ensures rel != [] ==> RelativeTo(rel + zone, zone) == rel
    ensures !IsSuffix(zone, f) ==> RelativeTo(f, zone) == f
  {
    assert (rel + zone)[|rel|..] == zone && (rel + zone)[..|rel|] == rel;
  }

  /** A folded owner that some record name in the zone denotes. */
  predicate OwnerKey(k: Name, zone: Name) {
    || k == Key(zone)
    || (|k| > |zone| && IsSuffix(Key(zone), k) && k[..|k| - |zone|] != ["@"] && Key(k) == k)
  }

  lemma LoadedOwnersAreOwnerKeys(rel: Name, zone: Name)
    ensures OwnerKey(Key(RecordFqdn(rel, zone)), zone)
  {
    if rel != [] && rel != ["@"] {
      KeyOfConcat(rel, zone);
      if Key(rel) == ["@"] {
        OnlyAtFoldsToAt(rel);
      }
      KeyIsIdempotent(rel + zone);
      var k := Key(rel + zone);
      assert k[|k| - |zone|..] == Key(zone) && k[..|k| - |zone|] == Key(rel);
    }
  }

  /** Writing an owner relative to the zone and loading it again gives the owner back. */
  lemma RelativeNameRoundTrip(k: Name, zone: Name)
    requires OwnerKey(k, zone)
    ensures Key(RecordFqdn(RelativeTo(k, Key(zone)), zone)) == k
  {
    if k != Key(zone) {
      var rel := k[..|k| - |zone|];
      assert k == rel + Key(zone);
      KeyOfConcat(rel, zone);
      KeyOfConcat(rel, Key(zone));
      KeyIsIdempotent(zone);
      assert Key(rel) == Key(k)[..|rel|] == rel;
    }
  }
}
