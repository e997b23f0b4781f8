/**
 The DHCPv6 frame and its identity associations by byte positions (src/dhcp/v6.rs `parse`, `parse_options`,
 `parse_ia_na`, `parse_ia_addr`; sections 7.3, 8, 21.1, 21.4 and 21.6 of RFC 8415).
 */
module Dhcp6Layout {
  import opened Wrappers
  import opened Seqs
  import opened Bytes
  import opened OptionLists
  import opened Dhcp6

  /** The message types of section 7.3 that the server knows, by number. */
  lemma TypesByNumber(n: Byte)
    ensures TypeOf(1) == Some(Solicit) && TypeOf(2) == Some(Advertise) && TypeOf(3) == Some(Request)
    ensures TypeOf(4) == Some(Confirm) && TypeOf(5) == Some(Renew) && TypeOf(6) == Some(Rebind) && TypeOf(7) == Some(Reply)
    ensures TypeOf(8) == Some(Release) && TypeOf(9) == Some(Decline) && TypeOf(11) == Some(InformationRequest)
    ensures n == 0 || n == 10 || n > 11 ==> TypeOf(n) == None
  {
  }

  /** Where the header fields of an accepted frame stand. */
  lemma HeaderByPosition(b: seq<Byte>)
    requires Decode(b).Ok?
    ensures |b| >= 4 && TypeOf(b[0]) == Some(Decode(b).value.msgType) && Decode(b).value.xid == [b[1], b[2], b[3]]
    ensures ParseOptions(b, 4) == Ok(Decode(b).value.options)
  {
  }

  /** Where the first option stands, and that the others follow it. */
  lemma OptionsByPosition(b: seq<Byte>, i: nat)
    requires i <= |b| && ParseOptions(b, i).Ok?
    ensures ParseOptions(b, i).value == [] <==> i == |b|
    ensures i < |b| ==>
              var opts := ParseOptions(b, i).value;
              && i + 4 <= |b| && opts[0].code == Value2(b, i) && |opts[0].value| == Value2(b, i + 2)
              && i + 4 + |opts[0].value| <= |b| && opts[0].value == b[i + 4..i + 4 + |opts[0].value|]
              && ParseOptions(b, i + 4 + |opts[0].value|) == Ok(opts[1..])
  {
    if i < |b| {
      U16IsBigEndian(b, i);
      U16IsBigEndian(b, i + 2);
    }
  }

  /** A frame is refused exactly when no message with fitting options builds to it. */
  lemma RefusedIff(b: seq<Byte>)
    ensures Decode(b).Err? <==> forall m: Message :: Fits(m.options) ==> Encode(m) != b
  {
    forall m: Message | Fits(m.options) && Encode(m) == b ensures Decode(b).Ok? {
      DecodeUndoesEncode(m);
    }
    if Decode(b).Ok? {
      EncodeUndoesDecode(b);
      EncodeUndoesParse(b, 4);
      assert Fits(Decode(b).value.options);
    }
  }

  // ----- Identity associations -----

  lemma IaNaByPosition(b: seq<Byte>)
    requires ParseIaNa(b).Ok?
    ensures |b| >= 12
    ensures var ia := ParseIaNa(b).value;
            ia.iaid == Value4(b, 0) && ia.t1 == Value4(b, 4) && ia.t2 == Value4(b, 8)
  {
    U32IsBigEndian(b, 0);
    U32IsBigEndian(b, 4);
    U32IsBigEndian(b, 8);
    assert b[0..4] == b[..4];
  }

  /** The address, preferred and valid lifetime of one IA Address option. */
  lemma AddressByPosition(b: seq<Byte>)
    ensures ParseIaAddress(b).Ok? <==> |b| >= 24
    ensures |b| >= 24 ==>
              var a := ParseIaAddress(b).value;
              a.addr == b[..16] && a.preferred == Value4(b, 16) && a.valid == Value4(b, 20)
  {
    if |b| >= 24 {
      U32IsBigEndian(b, 16);
      U32IsBigEndian(b, 20);
    }
  }

  function AddressIn(): Opt -> Option<IaAddress> {
    (o: Opt) => if o.code == 5 && ParseIaAddress(o.value).Ok? then Some(ParseIaAddress(o.value).value) else None
  }

  /** The IA Address options are read in order, others are skipped, and a short one fails the association. */
  lemma {:induction false} AddressesAreOption5(opts: seq<Opt>)
    ensures CollectAddresses(opts).Ok? <==> forall o :: o in opts && o.code == 5 ==> |o.value| >= 24
    ensures CollectAddresses(opts).Ok? ==> CollectAddresses(opts).value == FilterMap(opts, AddressIn())
  {
    if opts != [] {
      AddressesAreOption5(opts[1..]);
      AddressByPosition(opts[0].value);
      assert forall o :: o in opts <==> o == opts[0] || o in opts[1..];
    }
  }

  /** An association is refused exactly when it is short, its options do not parse, or an address is short. */
  lemma IaNaRefusedIff(b: seq<Byte>)
    ensures ParseIaNa(b).Err? <==>
              || |b| < 12 || ParseOptions(b, 12).Err?
              || exists o :: o in ParseOptions(b, 12).value && o.code == 5 && |o.value| < 24
    ensures ParseIaNa(b).Ok? ==> ParseIaNa(b).value.addresses == FilterMap(ParseOptions(b, 12).value, AddressIn())
  {
    if |b| >= 12 && ParseOptions(b, 12).Ok? {
      AddressesAreOption5(ParseOptions(b, 12).value);
    }
  }
}
