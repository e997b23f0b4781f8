/**
 The CNAME loop of the lookup is the bounded closure of "this owner is an alias of that one"
 (src/store.rs; section 3.6.2 of RFC 1034).
 */
module CnameChain {
  import opened Wrappers
  import opened Names
  import opened Seqs
  import opened Store
  import opened SplitHorizon

  /** At most one CNAME is visible at every owner. */
  ghost predicate SingleCnames(see: Sight) {
    forall name: Name :: |see(name, CNAME)| <= 1 && (see(name, CNAME) != [] ==> see(name, CNAME)[0].rdata.CnameTo?)
  }

  /** No stored owner shows two CNAMEs to view `v`. */
  ghost predicate OneCnamePerOwner(zone: StoredZone, v: int) {
    forall k :: k in zone.records ==> |Resolve(zone.records[k], v, CNAME)| <= 1
  }

  lemma SingleCnamesOf(zone: StoredZone, v: int)
    requires OneCnamePerOwner(zone, v)
    ensures SingleCnames(SightOf(zone, v))
  {
    SightIsTyped(zone, v);
    forall name: Name
      ensures |SightOf(zone, v)(name, CNAME)| <= 1
           && (SightOf(zone, v)(name, CNAME) != [] ==> SightOf(zone, v)(name, CNAME)[0].rdata.CnameTo?)
    {
      var seen := SightOf(zone, v)(name, CNAME);
      assert seen != [] ==> seen[0] in seen;
    }
  }

  /** Where an owner has several CNAMEs, the chase goes on with the last of them. */
  lemma {:induction false} ChaseFollowsTheLast(chase: seq<StoredRecord>, i: nat)
    requires i < |chase| && chase[i].rdata.CnameTo? && forall j :: i < j < |chase| ==> !chase[j].rdata.CnameTo?
    ensures LastTarget(chase) == Some(chase[i].rdata.target)
  {
    if i < |chase| - 1 {
      assert chase[..|chase| - 1][i] == chase[i];
      ChaseFollowsTheLast(chase[..|chase| - 1], i);
    }
  }

  /** `name` is an alias: its one visible CNAME is `link`, pointing to `target`. */
  ghost predicate AliasOf(see: Sight, name: Name, link: StoredRecord, target: Name) {
    see(name, CNAME) == [link] && link.rdata == CnameTo(target)
  }

  /**
   `names` is a chain of aliases through the zone, `links[i]` leading from `names[i]` to `names[i + 1]`;
   no owner between the first and the last has a record of the queried type.
   */
  ghost predicate Chain(apex: Name, see: Sight, qtype: int, names: seq<Name>, links: seq<StoredRecord>) {
    && |links| >= 1 && |names| == |links| + 1
    && (forall i :: 0 <= i < |links| ==> AliasOf(see, names[i], links[i], names[i + 1]))
    && (forall i :: 0 < i < |links| ==> ZoneOf(apex, names[i]) && see(names[i], qtype) == [])
  }

  /** The CNAME records of a chain, in order. */
  function ChainAnswers(names: seq<Name>, links: seq<StoredRecord>): seq<Record>
    requires |names| == |links| + 1
  {
    if links == [] then []
    else [Record(names[0], links[0].ttl, links[0].rdata)] + ChainAnswers(names[1..], links[1..])
  }

  /** The RRset the client asked for, at the end of the chain. */
  ghost function FinalAnswers(apex: Name, see: Sight, qtype: int, last: Name): seq<Record> {
    if ZoneOf(apex, last) then Emit(last, see(last, qtype)) else []
  }

  /** The chain cannot or may not go on behind `last`. */
  ghost predicate Ends(apex: Name, see: Sight, qtype: int, last: Name, length: nat) {
    || !ZoneOf(apex, last)
    || see(last, qtype) != []
    || see(last, CNAME) == []
    || length == 9
  }

  /** The answers behind a chain of `length` CNAMEs, counting from the query name. */
  ghost function Behind(apex: Name, see: Sight, qtype: int, last: Name, length: nat): seq<Record> {
    if length <= 8 then FinalAnswers(apex, see, qtype, last) else []
  }

  /** One alias: its CNAME, then whatever follows its target. */
  lemma ChaseOneLink(apex: Name, see: Sight, qtype: int, q: Name, link: StoredRecord, target: Name, depth: nat)
    requires AliasOf(see, q, link, target) && depth <= MAX_CHASE
    ensures Chase(apex, see, qtype, q, see(q, CNAME), depth)
         == [Record(q, link.ttl, link.rdata)] + ChaseOn(apex, see, qtype, Some(target), depth + 1)
  {
    assert LastTarget([link]) == Some(target);
    assert Emit(q, [link]) == [Record(q, link.ttl, link.rdata)];
  }

  lemma ChaseEnds(apex: Name, see: Sight, qtype: int, target: Name, depth: nat)
    requires depth <= MAX_CHASE + 1 && Ends(apex, see, qtype, target, depth)
    ensures ChaseOn(apex, see, qtype, Some(target), depth) == Behind(apex, see, qtype, target, depth)
  {
  }

  /** The chase from `q`, `depth` CNAMEs in, gives the chain's CNAMEs and what stands behind its end. */
  ghost predicate IsChaseOf(apex: Name, see: Sight, qtype: int, q: Name, depth: nat, names: seq<Name>, links: seq<StoredRecord>)
    requires depth <= MAX_CHASE
  {
    && Chain(apex, see, qtype, names, links) && names[0] == q
    && |links| + depth <= MAX_CHASE + 1
    && Ends(apex, see, qtype, names[|links|], |links| + depth)
    && Chase(apex, see, qtype, q, see(q, CNAME), depth)
       == ChainAnswers(names, links) + Behind(apex, see, qtype, names[|links|], |links| + depth)
  }

  lemma {:induction false} ChaseIsAChainFrom(apex: Name, see: Sight, qtype: int, q: Name, depth: nat)
    returns (names: seq<Name>, links: seq<StoredRecord>)
    requires SingleCnames(see) && see(q, CNAME) != [] && depth <= MAX_CHASE
    ensures IsChaseOf(apex, see, qtype, q, depth, names, links)
    decreases MAX_CHASE - depth
  {
    assert |see(q, CNAME)| == 1;
    var link := see(q, CNAME)[0];
    var target := link.rdata.target;
    if Ends(apex, see, qtype, target, depth + 1) {
      names, links := [q, target], [link];
      ChaseOfOneLink(apex, see, qtype, q, link, target, depth);
    } else {
      var ns, ls := ChaseIsAChainFrom(apex, see, qtype, target, depth + 1);
      names, links := [q] + ns, [link] + ls;
      ChaseOfMoreLinks(apex, see, qtype, q, link, target, depth, ns, ls);
    }
  }

  lemma ChaseOfOneLink(apex: Name, see: Sight, qtype: int, q: Name, link: StoredRecord, target: Name, depth: nat)
    requires depth <= MAX_CHASE && AliasOf(see, q, link, target) && Ends(apex, see, qtype, target, depth + 1)
    ensures IsChaseOf(apex, see, qtype, q, depth, [q, target], [link])
  {
    ChaseOneLink(apex, see, qtype, q, link, target, depth);
    ChaseEnds(apex, see, qtype, target, depth + 1);
    SingleLinkAnswers(q, target, link);
  }

  lemma ChaseOfMoreLinks(apex: Name, see: Sight, qtype: int, q: Name, link: StoredRecord, target: Name, depth: nat,
                         ns: seq<Name>, ls: seq<StoredRecord>)
    requires depth < MAX_CHASE && AliasOf(see, q, link, target) && !Ends(apex, see, qtype, target, depth + 1)
    requires IsChaseOf(apex, see, qtype, target, depth + 1, ns, ls)
    ensures IsChaseOf(apex, see, qtype, q, depth, [q] + ns, [link] + ls)
  {
    var names, links := [q] + ns, [link] + ls;
    ChaseOneLink(apex, see, qtype, q, link, target, depth);
    ChaseGoesOn(apex, see, qtype, target, depth + 1);
    ExtendChain(apex, see, qtype, q, link, ns, ls);
    assert names[|links|] == ns[|ls|] && |links| + depth == |ls| + (depth + 1);
    AppendAssociates([Record(q, link.ttl, link.rdata)], ChainAnswers(ns, ls),
                     Behind(apex, see, qtype, ns[|ls|], |ls| + (depth + 1)));
  }

  lemma ChaseGoesOn(apex: Name, see: Sight, qtype: int, target: Name, depth: nat)
    requires depth <= MAX_CHASE && !Ends(apex, see, qtype, target, depth)
    ensures ChaseOn(apex, see, qtype, Some(target), depth) == Chase(apex, see, qtype, target, see(target, CNAME), depth)
  {
  }

  lemma SingleLinkAnswers(q: Name, target: Name, link: StoredRecord)
    ensures ChainAnswers([q, target], [link]) == [Record(q, link.ttl, link.rdata)]
  {
    assert [link][1..] == [];
  }

  lemma ExtendChain(apex: Name, see: Sight, qtype: int, q: Name, link: StoredRecord, ns: seq<Name>, ls: seq<StoredRecord>)
    requires Chain(apex, see, qtype, ns, ls) && AliasOf(see, q, link, ns[0])
    requires ZoneOf(apex, ns[0]) && see(ns[0], qtype) == []
    ensures Chain(apex, see, qtype, [q] + ns, [link] + ls)
    ensures ChainAnswers([q] + ns, [link] + ls) == [Record(q, link.ttl, link.rdata)] + ChainAnswers(ns, ls)
  {
    var names, links := [q] + ns, [link] + ls;
    forall i | 0 <= i < |links| ensures AliasOf(see, names[i], links[i], names[i + 1]) {
      if i > 0 {
        assert AliasOf(see, ns[i - 1], ls[i - 1], ns[i]);
      }
    }
    assert names[1..] == ns && links[1..] == ls;
  }

  /**
   Soundness: the answers are the CNAMEs of an alias chain starting at the query name, at most nine of them
   even on loops, followed by the queried RRset of the chain's end if that lies in the zone and the chain was
   not cut off; and the chain only ends where it must.
   */
  lemma AnswersAreAChain(zone: StoredZone, v: int, q: Name, qtype: int)
    returns (names: seq<Name>, links: seq<StoredRecord>)
    requires OneCnamePerOwner(zone, v)
    requires SightOf(zone, v)(q, CNAME) != [] && SightOf(zone, v)(q, qtype) == []
    requires qtype != ANY && !(qtype == SOA && Key(q) == Key(zone.apex))
    ensures var see := SightOf(zone, v);
            && Chain(zone.apex, see, qtype, names, links) && names[0] == q
            && |links| <= 9
            && Ends(zone.apex, see, qtype, names[|links|], |links|)
            && LookupInZone(zone, v, q, qtype)
            == Positive(ChainAnswers(names, links) + Behind(zone.apex, see, qtype, names[|links|], |links|))
  {
    SingleCnamesOf(zone, v);
    names, links := ChaseIsAChainFrom(zone.apex, SightOf(zone, v), qtype, q, 0);
  }

  lemma {:induction false} ChainIsFollowedFrom(apex: Name, see: Sight, qtype: int, names: seq<Name>, links: seq<StoredRecord>, depth: nat)
    requires Chain(apex, see, qtype, names, links) && |links| + depth <= MAX_CHASE
    requires ZoneOf(apex, names[|links|]) && see(names[|links|], qtype) != []
    ensures Chase(apex, see, qtype, names[0], see(names[0], CNAME), depth)
         == ChainAnswers(names, links) + Emit(names[|links|], see(names[|links|], qtype))
    decreases |links|
  {
    assert AliasOf(see, names[0], links[0], names[1]);
    var link := links[0];
    assert LastTarget([link]) == Some(names[1]);
    assert Emit(names[0], [link]) == [Record(names[0], link.ttl, link.rdata)];
    if |links| > 1 {
      var ns, ls := names[1..], links[1..];
      forall i | 0 <= i < |ls| ensures AliasOf(see, ns[i], ls[i], ns[i + 1]) {
        assert AliasOf(see, names[i + 1], links[i + 1], names[i + 2]);
      }
      ChainIsFollowedFrom(apex, see, qtype, ns, ls, depth + 1);
      assert AliasOf(see, names[1], links[1], names[2]);
    } else {
      assert ChainAnswers(names[1..], links[1..]) == [];
    }
  }

  /** Completeness: every alias chain of one to eight CNAMEs that ends in the queried RRset is answered in full. */
  lemma ShortChainsAreFollowed(zone: StoredZone, v: int, qtype: int, names: seq<Name>, links: seq<StoredRecord>)
    requires var see := SightOf(zone, v);
             && Chain(zone.apex, see, qtype, names, links) && |links| <= 8
             && see(names[0], qtype) == [] && qtype != ANY && !(qtype == SOA && Key(names[0]) == Key(zone.apex))
             && ZoneOf(zone.apex, names[|links|]) && see(names[|links|], qtype) != []
    ensures LookupInZone(zone, v, names[0], qtype)
         == Positive(ChainAnswers(names, links) + Emit(names[|links|], SightOf(zone, v)(names[|links|], qtype)))
  {
    assert AliasOf(SightOf(zone, v), names[0], links[0], names[1]);
    ChainIsFollowedFrom(zone.apex, SightOf(zone, v), qtype, names, links, 0);
  }
}
