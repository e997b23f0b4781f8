/** Pulling a zone from a primary and storing it (src/dns/axfr.rs `axfr_transfer`, src/dns/secondary.rs `transfer`, src/db.rs `replace_secondary_zone`). */
module Secondary {
  import opened Wrappers
  import opened Names
  import opened Seqs
  import opened Store
  import opened Loading

  const MAX_RECORDS: nat := 2_000_000

  // ----- Reassembling the message stream -----

  predicate IsSoa(r: Record) {
    r.rdata.SoaData?
  }

  predicate Complete(records: seq<Record>) {
    |records| >= 2 && IsSoa(records[|records| - 1])
  }

  /** The record buffer after reading messages until the closing SOA; `Err` when refused, too long or cut off. */
  function Reassemble(acc: seq<Record>, msgs: seq<seq<Record>>): Result<seq<Record>>
    decreases |msgs|
  {
    if msgs == [] then Err
    else if acc == [] && (msgs[0] == [] || !IsSoa(msgs[0][0])) then Err
    else if |acc + msgs[0]| > MAX_RECORDS then Err
    else if Complete(acc + msgs[0]) then Ok(acc + msgs[0])
    else Reassemble(acc + msgs[0], msgs[1..])
  }

  /** The receive loop of `axfr_transfer`. */
  method Receive(msgs: seq<seq<Record>>) returns (r: Result<seq<Record>>)
    ensures r == Reassemble([], msgs)
  {
    var records: seq<Record> := [];
    for i := 0 to |msgs|
      invariant Reassemble([], msgs) == Reassemble(records, msgs[i..])
    {
      assert msgs[i..][1..] == msgs[i + 1..];
      if records == [] && (msgs[i] == [] || !IsSoa(msgs[i][0])) {
        return Err;
      }
      records := records + msgs[i];
      if |records| > MAX_RECORDS {
        return Err;
      }
      if Complete(records) {
        return Ok(records);
      }
    }
    return Err;
  }

  /** An SOA first and last and nowhere else. */
  ghost predicate Bracketed(stream: seq<Record>) {
    && |stream| >= 2 && IsSoa(stream[0]) && IsSoa(stream[|stream| - 1])
    && forall i :: 0 < i < |stream| - 1 ==> !IsSoa(stream[i])
  }

  lemma {:induction false} ReassembleFrom(acc: seq<Record>, msgs: seq<seq<Record>>, stream: seq<Record>)
    requires Bracketed(stream) && |stream| <= MAX_RECORDS
    requires acc + Flatten(msgs) == stream && |acc| < |stream|
    requires acc == [] ==> msgs != [] && msgs[0] != []
    ensures Reassemble(acc, msgs) == Ok(stream)
    decreases |msgs|
  {
    if msgs != [] {
      var next := acc + msgs[0];
      assert next + Flatten(msgs[1..]) == stream;
      assert next == stream[..|next|];
      if |next| < |stream| {
        ReassembleFrom(next, msgs[1..], stream);
      } else {
        assert next == stream;
      }
    }
  }

  /** However the stream is cut into messages (the first one not empty), the receiver gets the stream back. */
  lemma AnySplitReassembles(msgs: seq<seq<Record>>, stream: seq<Record>)
    requires Bracketed(stream) && |stream| <= MAX_RECORDS
    requires Flatten(msgs) == stream && msgs != [] && msgs[0] != []
    ensures Reassemble([], msgs) == Ok(stream)
  {
    ReassembleFrom([], msgs, stream);
  }

  // ----- From the stream to rows -----

  /** The buffer after the first `k` messages is the first one that ends in a closing SOA, and is not too long. */
  ghost predicate ClosesAt(acc: seq<Record>, msgs: seq<seq<Record>>, k: nat) {
    && 1 <= k <= |msgs| && (acc == [] ==> msgs[0] != [] && IsSoa(msgs[0][0]))
    && Complete(acc + Flatten(msgs[..k])) && |acc + Flatten(msgs[..k])| <= 2_000_000
    && forall j :: 1 <= j < k ==> !Complete(acc + Flatten(msgs[..j]))
  }

  lemma FlattenStep(acc: seq<Record>, msgs: seq<seq<Record>>, k: nat)
    requires 1 <= k <= |msgs|
    ensures acc + Flatten(msgs[..k]) == (acc + msgs[0]) + Flatten(msgs[1..][..k - 1])
  {
    assert msgs[..k][1..] == msgs[1..][..k - 1] && msgs[..k][0] == msgs[0];
    AppendAssociates(acc, msgs[0], Flatten(msgs[1..][..k - 1]));
  }

  lemma ClosesAtFirst(acc: seq<Record>, msgs: seq<seq<Record>>)
    requires msgs != []
    ensures acc + Flatten(msgs[..1]) == acc + msgs[0]
  {
    FlattenStep(acc, msgs, 1);
    assert Flatten(msgs[1..][..0]) == [];
  }

  lemma ClosesLater(acc: seq<Record>, msgs: seq<seq<Record>>, k: nat)
    requires msgs != [] && (acc == [] ==> msgs[0] != [] && IsSoa(msgs[0][0])) && !Complete(acc + msgs[0])
    ensures ClosesAt(acc, msgs, k + 1) <==> ClosesAt(acc + msgs[0], msgs[1..], k)
  {
    ClosesAtFirst(acc, msgs);
    if 1 <= k <= |msgs| - 1 {
      FlattenStep(acc, msgs, k + 1);
      if ClosesAt(acc + msgs[0], msgs[1..], k) {
        forall j | 1 <= j < k + 1 ensures !Complete(acc + Flatten(msgs[..j])) {
          FlattenStep(acc, msgs, j);
          assert j > 1 ==> !Complete((acc + msgs[0]) + Flatten(msgs[1..][..j - 1]));
        }
      }
      if ClosesAt(acc, msgs, k + 1) {
        forall j | 1 <= j < k ensures !Complete((acc + msgs[0]) + Flatten(msgs[1..][..j])) {
          FlattenStep(acc, msgs, j + 1);
          assert !Complete(acc + Flatten(msgs[..j + 1]));
        }
      }
    }
  }

  /** A transfer is accepted exactly when it opens with an SOA and closes in time, and then with all up to there. */
  lemma {:induction false} AcceptedIff(acc: seq<Record>, msgs: seq<seq<Record>>)
    ensures Reassemble(acc, msgs).Ok? <==> exists k: nat :: ClosesAt(acc, msgs, k)
    ensures forall k: nat :: ClosesAt(acc, msgs, k) ==> Reassemble(acc, msgs) == Ok(acc + Flatten(msgs[..k]))
    decreases |msgs|
  {
    if msgs != [] && (acc == [] ==> msgs[0] != [] && IsSoa(msgs[0][0])) {
      ClosesAtFirst(acc, msgs);
      if Complete(acc + msgs[0]) {
        if |acc + msgs[0]| <= MAX_RECORDS {
          assert ClosesAt(acc, msgs, 1);
        }
        assert forall k: nat :: ClosesAt(acc, msgs, k) ==> k == 1;
      } else {
        AcceptedLater(acc, msgs);
      }
    }
  }

  lemma {:induction false} AcceptedLater(acc: seq<Record>, msgs: seq<seq<Record>>)
    requires msgs != [] && (acc == [] ==> msgs[0] != [] && IsSoa(msgs[0][0])) && !Complete(acc + msgs[0])
    ensures Reassemble(acc, msgs).Ok? <==> exists k: nat :: ClosesAt(acc, msgs, k)
    ensures forall k: nat :: ClosesAt(acc, msgs, k) ==> Reassemble(acc, msgs) == Ok(acc + Flatten(msgs[..k]))
    decreases |msgs|, 0
  {
    var more, rest := acc + msgs[0], msgs[1..];
    AcceptedIff(more, rest);
    ClosesAtFirst(acc, msgs);
    if Reassemble(acc, msgs).Ok? {
      var k: nat :| ClosesAt(more, rest, k);
      ClosesLater(acc, msgs, k);
    }
    forall k: nat | ClosesAt(acc, msgs, k) ensures Reassemble(acc, msgs) == Ok(acc + Flatten(msgs[..k])) {
      assert k > 1;
      ClosesLater(acc, msgs, k - 1);
      FlattenStep(acc, msgs, k);
    }
  }

  /** The row stored for a transferred record; the SOA and unsupported types are not stored. */
  function ToRow(codec: RdataText, zone: Name): Record -> Option<RecordRow> {
    (r: Record) =>
      if IsSoa(r) || !Supported(r.rdata.Type()) then None
      else Some(RecordRow(RelativeTo(Key(r.owner), Key(zone)), r.rdata.Type(), Some(r.ttl), None, codec.show(r.rdata), true))
  }

  /** A transferred record is stored unless it is an SOA or of an unsupported type: for all views, with its own TTL. */
  lemma RowMeans(codec: RdataText, zone: Name, r: Record)
    ensures var row := ToRow(codec, zone)(r);
            && (row.None? <==> r.rdata.SoaData? || !Supported(r.rdata.Type()))
            && (row.Some? ==>
                  && row.value.rel == RelativeTo(Key(r.owner), Key(zone)) && row.value.rtype == r.rdata.Type()
                  && row.value.ttl == Some(r.ttl) && row.value.view == None && row.value.data == codec.show(r.rdata)
                  && row.value.enabled)
  {
  }

  function FirstSoa(records: seq<Record>): (r: Option<RData>)
    ensures r.Some? ==> r.value.SoaData?
  {
    if records == [] then None else if IsSoa(records[0]) then Some(records[0].rdata) else FirstSoa(records[1..])
  }

  /** The owner name relative to the zone, as the loop computes it. */
  method MakeRow(codec: RdataText, zone: Name, rec: Record) returns (row: RecordRow)
    requires !IsSoa(rec) && Supported(rec.rdata.Type())
    ensures ToRow(codec, zone)(rec) == Some(row)
  {
    var f, zoneLc := Key(rec.owner), Key(zone);
    var rel := if f == zoneLc then ["@"] else if IsSuffix(zoneLc, f) then f[..|f| - |zoneLc|] else f;
    row := RecordRow(rel, rec.rdata.Type(), Some(rec.ttl), None, codec.show(rec.rdata), true);
  }

  lemma FirstSoaAt(records: seq<Record>, i: nat)
    requires i < |records|
    ensures FirstSoa(records[i..]) == if IsSoa(records[i]) then Some(records[i].rdata) else FirstSoa(records[i + 1..])
  {
    assert records[i..][1..] == records[i + 1..];
  }

  /** What one received record adds to the rows. */
  method RowsFor(codec: RdataText, zone: Name, rec: Record) returns (rows: seq<RecordRow>)
    ensures rows == Kept(ToRow(codec, zone)(rec))
  {
    if IsSoa(rec) || !Supported(rec.rdata.Type()) {
      return [];
    }
    var row := MakeRow(codec, zone, rec);
    return [row];
  }

  /** The loop over the received records, with `soa` and the rows growing side by side. */
  method Digest(codec: RdataText, zone: Name, records: seq<Record>) returns (soa: Option<RData>, rows: seq<RecordRow>)
    ensures soa == FirstSoa(records)
    ensures rows == FilterMap(records, ToRow(codec, zone))
  {
    soa, rows := None, [];
    ghost var f := ToRow(codec, zone);
    ghost var goal := FilterMap(records, f);
    assert records[0..] == records;
    for i := 0 to |records|
      invariant FirstSoa(records) == if soa.Some? then soa else FirstSoa(records[i..])
      invariant goal == rows + FilterMap(records[i..], f)
    {
      soa := KeepFirst(soa, records, i);
      FilterMapAt(records, i, f);
      var more := RowsFor(codec, zone, records[i]);
      AppendAssociates(rows, more, FilterMap(records[i + 1..], f));
      rows := rows + more;
    }
  }

  method KeepFirst(soa: Option<RData>, records: seq<Record>, i: nat) returns (kept: Option<RData>)
    requires i < |records|
    ensures (if kept.Some? then kept else FirstSoa(records[i + 1..])) == if soa.Some? then soa else FirstSoa(records[i..])
  {
    FirstSoaAt(records, i);
    kept := if IsSoa(records[i]) && soa.None? then Some(records[i].rdata) else soa;
  }

  /** `transfer`: receive, keep the first SOA, turn the rest into rows, and replace the zone's contents. */
  method Pull(codec: RdataText, z: ZoneRow, msgs: seq<seq<Record>>) returns (r: Result<(ZoneRow, seq<RecordRow>)>)
    ensures r == Pulled(codec, z, Reassemble([], msgs))
  {
    var received := Receive(msgs);
    if received.Err? {
      return Err;
    }
    var soa, rows := Digest(codec, z.name, received.value);
    if soa.None? {
      return Err;
    }
    return Ok((z.(serial := soa.value.serial, minimum := soa.value.minimum), rows));
  }

  /** The zone and record rows a transfer leaves behind. */
  function Pulled(codec: RdataText, z: ZoneRow, received: Result<seq<Record>>): Result<(ZoneRow, seq<RecordRow>)> {
    match received
    case Err => Err
    case Ok(records) =>
      var soa := FirstSoa(records);
      if soa.None? then Err
      else Ok((z.(serial := soa.value.serial, minimum := soa.value.minimum), FilterMap(records, ToRow(codec, z.name))))
  }
}
