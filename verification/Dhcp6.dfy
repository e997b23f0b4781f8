/** The DHCPv6 message codec (src/dhcp/v6.rs; sections 8, 21.1, 21.4 and 21.6 of RFC 8415). */
module Dhcp6 {
  import opened Wrappers
  import opened Seqs
  import opened Bytes
  import opened OptionLists

  const OPT_IA_ADDR: U16 := 5

  type Opt = Coded<U16>

  // ----- Option lists -----

  function EncodeOption(o: Opt): (b: seq<Byte>)
    ensures |b| == 4 + Min(|o.value|, 65535)
  {
    var len := Min(|o.value|, 65535);
    U16Bytes(o.code) + U16Bytes(len) + o.value[..len]
  }

  function EncodeOptions(opts: seq<Opt>): seq<Byte> {
    if opts == [] then [] else EncodeOption(opts[0]) + EncodeOptions(opts[1..])
  }

  /** The options from position `i` to the end of the buffer. */
  function ParseOptions(b: seq<Byte>, i: nat): Result<seq<Opt>>
    requires i <= |b|
    decreases |b| - i
  {
    if i == |b| then Ok([])
    else if i + 4 > |b| || i + 4 + U16Of(b[i + 2..i + 4]) > |b| then Err
    else
      var next := i + 4 + U16Of(b[i + 2..i + 4]);
      var rest := ParseOptions(b, next);
      if rest.Err? then Err else Ok([Opt(U16Of(b[i..i + 2]), b[i + 4..next])] + rest.value)
  }

  /** What the two-byte length field can carry. */
  function Truncated(opts: seq<Opt>): seq<Opt> {
    if opts == [] then [] else [Opt(opts[0].code, opts[0].value[..Min(|opts[0].value|, 65535)])] + Truncated(opts[1..])
  }

  predicate Fits(opts: seq<Opt>) {
    forall i :: 0 <= i < |opts| ==> |opts[i].value| <= 65535
  }

  lemma OptionFields(pre: seq<Byte>, code: seq<Byte>, len: seq<Byte>, value: seq<Byte>, rest: seq<Byte>)
    requires |code| == 2 && |len| == 2
    ensures var b, i := pre + (code + len + value) + rest, |pre|;
            b[i..i + 2] == code && b[i + 2..i + 4] == len && b[i + 4..i + 4 + |value|] == value
  {
    var b, i := pre + (code + len + value) + rest, |pre|;
    assert forall k :: 0 <= k < |value| ==> b[i + 4 + k] == value[k];
    assert b[i + 4..i + 4 + |value|] == value;
  }

  /** One encoded option at the position behind `pre`. */
  lemma ParseEncodedOption(pre: seq<Byte>, o: Opt, rest: seq<Byte>, tail: seq<Opt>)
    requires ParseOptions(pre + EncodeOption(o) + rest, |pre + EncodeOption(o)|) == Ok(tail)
    ensures ParseOptions(pre + EncodeOption(o) + rest, |pre|)
         == Ok([Opt(o.code, o.value[..Min(|o.value|, 65535)])] + tail)
  {
    var len := Min(|o.value|, 65535);
    OptionFields(pre, U16Bytes(o.code), U16Bytes(len), o.value[..len], rest);
    U16RoundTrip(o.code);
    U16RoundTrip(len);
  }

  lemma EncodeFirst(pre: seq<Byte>, opts: seq<Opt>)
    requires opts != []
    ensures pre + EncodeOptions(opts) == pre + EncodeOption(opts[0]) + EncodeOptions(opts[1..])
  {
  }

  /** Parsing what was built, behind any prefix, gives the options back, cut to the length field's range. */
  lemma {:induction false} ParseUndoesEncode(pre: seq<Byte>, opts: seq<Opt>)
    ensures ParseOptions(pre + EncodeOptions(opts), |pre|) == Ok(Truncated(opts))
    decreases |opts|
  {
    if opts == [] {
      assert pre + EncodeOptions(opts) == pre;
    } else {
      EncodeFirst(pre, opts);
      ParseUndoesEncode(pre + EncodeOption(opts[0]), opts[1..]);
      ParseEncodedOption(pre, opts[0], EncodeOptions(opts[1..]), Truncated(opts[1..]));
    }
  }

  lemma {:induction false} TruncatedIffFits(opts: seq<Opt>)
    ensures Truncated(opts) == opts <==> Fits(opts)
  {
    if opts != [] {
      TruncatedIffFits(opts[1..]);
      assert opts == [opts[0]] + opts[1..];
      if Fits(opts) {
        assert opts[0].value[..|opts[0].value|] == opts[0].value;
      } else if Truncated(opts) == opts {
        assert Truncated(opts)[1..] == Truncated(opts[1..]);
        assert |opts[0].value| == |Truncated(opts)[0].value| <= 65535;
      }
      assert Fits(opts) <==> |opts[0].value| <= 65535 && Fits(opts[1..]) by {
        if |opts[0].value| <= 65535 && Fits(opts[1..]) {
          forall i | 0 <= i < |opts| ensures |opts[i].value| <= 65535 {
            assert i > 0 ==> opts[i] == opts[1..][i - 1];
          }
        }
      }
    }
  }

  lemma EncodeParsedOption(b: seq<Byte>, i: nat)
    requires i + 4 <= |b| && i + 4 + U16Of(b[i + 2..i + 4]) <= |b|
    ensures var next := i + 4 + U16Of(b[i + 2..i + 4]);
            EncodeOption(Opt(U16Of(b[i..i + 2]), b[i + 4..next])) + b[next..] == b[i..]
  {
    var len := U16Of(b[i + 2..i + 4]);
    U16BytesOf(b[i..i + 2]);
    U16BytesOf(b[i + 2..i + 4]);
    var v := b[i + 4..i + 4 + len];
    assert v[..len] == v;
    assert b[i..] == b[i..i + 2] + b[i + 2..i + 4] + v + b[i + 4 + len..];
  }

  /** Building what was parsed gives the bytes back: parsing loses nothing. */
  lemma {:induction false} EncodeUndoesParse(b: seq<Byte>, i: nat)
    requires i <= |b|
    ensures ParseOptions(b, i).Ok? ==> EncodeOptions(ParseOptions(b, i).value) == b[i..] && Fits(ParseOptions(b, i).value)
    decreases |b| - i
  {
    if i < |b| && ParseOptions(b, i).Ok? {
      var next := i + 4 + U16Of(b[i + 2..i + 4]);
      EncodeUndoesParse(b, next);
      EncodeParsedOption(b, i);
      assert ParseOptions(b, i).value[1..] == ParseOptions(b, next).value;
    }
  }

  /** The whole parse, given what was collected before position `i`. */
  ghost predicate Continues(goal: Result<seq<Opt>>, out: seq<Opt>, b: seq<Byte>, i: nat)
    requires i <= |b|
  {
    && (goal.Ok? <==> ParseOptions(b, i).Ok?)
    && (goal.Ok? ==> goal.value == out + ParseOptions(b, i).value)
  }

  lemma ContinuesOption(goal: Result<seq<Opt>>, out: seq<Opt>, b: seq<Byte>, i: nat)
    requires i + 4 <= |b| && i + 4 + U16Of(b[i + 2..i + 4]) <= |b| && Continues(goal, out, b, i)
    ensures var next := i + 4 + U16Of(b[i + 2..i + 4]);
            Continues(goal, out + [Opt(U16Of(b[i..i + 2]), b[i + 4..next])], b, next)
  {
  }

  lemma ContinuesToEnd(goal: Result<seq<Opt>>, out: seq<Opt>, b: seq<Byte>)
    requires Continues(goal, out, b, |b|)
    ensures goal == Ok(out)
  {
    assert goal.value == out;
  }

  /** The parsing loop: in bounds on every input. */
  method ParseOptionsLoop(b: seq<Byte>, start: nat) returns (r: Result<seq<Opt>>)
    requires start <= |b|
    ensures r == ParseOptions(b, start)
  {
    var out: seq<Opt> := [];
    var i := start;
    ghost var goal := ParseOptions(b, start);
    while i < |b|
      invariant start <= i <= |b| && Continues(goal, out, b, i)
    {
      if i + 4 > |b| {
        return Err;
      }
      var code := U16Of(b[i..i + 2]);
      var len := U16Of(b[i + 2..i + 4]);
      i := i + 4;
      if i + len > |b| {
        return Err;
      }
      ContinuesOption(goal, out, b, i - 4);
      out := out + [Opt(code, b[i..i + len])];
      i := i + len;
    }
    ContinuesToEnd(goal, out, b);
    return Ok(out);
  }

  // ----- Messages -----

  /** SOLICIT 1, ADVERTISE 2, REQUEST 3, CONFIRM 4, RENEW 5, REBIND 6, REPLY 7, RELEASE 8, DECLINE 9, INFORMATION-REQUEST 11 */
  datatype MessageType =
    Solicit | Advertise | Request | Confirm | Renew | Rebind | Reply | Release | Decline | InformationRequest

  function TypeCode(t: MessageType): Byte {
    match t
    case Solicit => 1
    case Advertise => 2
    case Request => 3
    case Confirm => 4
    case Renew => 5
    case Rebind => 6
    case Reply => 7
    case Release => 8
    case Decline => 9
    case InformationRequest => 11
  }

  function TypeOf(n: Byte): (r: Option<MessageType>)
    ensures r.Some? ==> TypeCode(r.value) == n
  {
    match n
    case 1 => Some(Solicit)
    case 2 => Some(Advertise)
    case 3 => Some(Request)
    case 4 => Some(Confirm)
    case 5 => Some(Renew)
    case 6 => Some(Rebind)
    case 7 => Some(Reply)
    case 8 => Some(Release)
    case 9 => Some(Decline)
    case 11 => Some(InformationRequest)
    case _ => None
  }

  type TransactionId = s: seq<Byte> | |s| == 3 witness [0, 0, 0]

  datatype Message = Message(msgType: MessageType, xid: TransactionId, options: seq<Opt>)

  function Encode(m: Message): seq<Byte> {
    [TypeCode(m.msgType)] + m.xid + EncodeOptions(m.options)
  }

  function Decode(b: seq<Byte>): Result<Message> {
    if |b| < 4 || TypeOf(b[0]).None? then Err
    else
      var opts := ParseOptions(b, 4);
      if opts.Err? then Err else Ok(Message(TypeOf(b[0]).value, b[1..4], opts.value))
  }

  /** `build`: header, then each option pushed onto the buffer. */
  method Build(m: Message) returns (buf: seq<Byte>)
    ensures buf == Encode(m)
  {
    buf := [TypeCode(m.msgType)] + m.xid;
    for i := 0 to |m.options|
      invariant Encode(m) == buf + EncodeOptions(m.options[i..])
    {
      assert m.options[i..][1..] == m.options[i + 1..];
      AppendAssociates(buf, EncodeOption(m.options[i]), EncodeOptions(m.options[i + 1..]));
      buf := PushOption(buf, m.options[i].code, m.options[i].value);
    }
  }

  method PushOption(buf: seq<Byte>, code: U16, value: seq<Byte>) returns (out: seq<Byte>)
    ensures out == buf + EncodeOption(Opt(code, value))
  {
    var len := if |value| <= 65535 then |value| else 65535;
    out := buf + U16Bytes(code);
    out := out + U16Bytes(len);
    out := out + value[..len];
  }

  method Parse(b: seq<Byte>) returns (r: Result<Message>)
    ensures r == Decode(b)
  {
    if |b| < 4 {
      return Err;
    }
    var t := TypeOf(b[0]);
    if t.None? {
      return Err;
    }
    var opts := ParseOptionsLoop(b, 4);
    return if opts.Err? then Err else Ok(Message(t.value, b[1..4], opts.value));
  }

  lemma TypeRoundTrip(t: MessageType)
    ensures TypeOf(TypeCode(t)) == Some(t)
  {
  }

  /** A message survives the wire if and only if every option value fits the length field. */
  lemma DecodeUndoesEncode(m: Message)
    ensures Decode(Encode(m)) == Ok(m.(options := Truncated(m.options)))
    ensures Decode(Encode(m)) == Ok(m) <==> Fits(m.options)
  {
    var b := Encode(m);
    assert b[1..4] == m.xid;
    ParseUndoesEncode([TypeCode(m.msgType)] + m.xid, m.options);
    TruncatedIffFits(m.options);
    TypeRoundTrip(m.msgType);
  }

  /** Every accepted frame is exactly what its message builds to. */
  lemma EncodeUndoesDecode(b: seq<Byte>)
    ensures Decode(b).Ok? ==> Encode(Decode(b).value) == b
  {
    if Decode(b).Ok? {
      EncodeUndoesParse(b, 4);
      assert b == [b[0]] + b[1..4] + b[4..];
    }
  }

  // ----- The nested identity association -----

  type Octets16 = s: seq<Byte> | |s| == 16 witness seq(16, i => 0)

  datatype IaAddress = IaAddress(addr: Octets16, preferred: U32, valid: U32)

  datatype IaNa = IaNa(iaid: U32, t1: U32, t2: U32, addresses: seq<IaAddress>)

  function IaAddressBytes(a: IaAddress): (b: seq<Byte>)
    ensures |b| == 24
  {
    a.addr + U32Bytes(a.preferred) + U32Bytes(a.valid)
  }

  function AddressOptions(addrs: seq<IaAddress>): seq<Opt> {
    if addrs == [] then [] else [Opt(OPT_IA_ADDR, IaAddressBytes(addrs[0]))] + AddressOptions(addrs[1..])
  }

  function EncodeIaNa(ia: IaNa): seq<Byte> {
    U32Bytes(ia.iaid) + U32Bytes(ia.t1) + U32Bytes(ia.t2) + EncodeOptions(AddressOptions(ia.addresses))
  }

  function ParseIaAddress(b: seq<Byte>): Result<IaAddress> {
    if |b| < 24 then Err else Ok(IaAddress(b[..16], U32Of(b[16..20]), U32Of(b[20..24])))
  }

  /** The IA Address options in order; other options are skipped, a short one fails the whole. */
  function CollectAddresses(opts: seq<Opt>): Result<seq<IaAddress>> {
    if opts == [] then Ok([])
    else if opts[0].code != OPT_IA_ADDR then CollectAddresses(opts[1..])
    else
      var a := ParseIaAddress(opts[0].value);
      var rest := CollectAddresses(opts[1..]);
      if a.Err? || rest.Err? then Err else Ok([a.value] + rest.value)
  }

  function ParseIaNa(b: seq<Byte>): Result<IaNa> {
    if |b| < 12 then Err
    else
      var opts := ParseOptions(b, 12);
      if opts.Err? then Err
      else
        var addrs := CollectAddresses(opts.value);
        if addrs.Err? then Err else Ok(IaNa(U32Of(b[..4]), U32Of(b[4..8]), U32Of(b[8..12]), addrs.value))
  }

  lemma IaAddressRoundTrip(a: IaAddress)
    ensures ParseIaAddress(IaAddressBytes(a)) == Ok(a)
  {
    var b := IaAddressBytes(a);
    assert b[..16] == a.addr && b[16..20] == U32Bytes(a.preferred) && b[20..24] == U32Bytes(a.valid);
    U32RoundTrip(a.preferred);
    U32RoundTrip(a.valid);
  }

  lemma {:induction false} AddressesRoundTrip(addrs: seq<IaAddress>)
    ensures Truncated(AddressOptions(addrs)) == AddressOptions(addrs)
    ensures CollectAddresses(AddressOptions(addrs)) == Ok(addrs)
  {
    if addrs != [] {
      AddressesRoundTrip(addrs[1..]);
      IaAddressRoundTrip(addrs[0]);
      var b := IaAddressBytes(addrs[0]);
      assert b[..|b|] == b;
      assert AddressOptions(addrs)[1..] == AddressOptions(addrs[1..]);
      assert addrs == [addrs[0]] + addrs[1..];
    }
  }

  /** An encoded IA_NA parses back to the same IAID, T1, T2 and address list, whatever its length. */
  lemma IaNaRoundTrip(ia: IaNa)
    ensures ParseIaNa(EncodeIaNa(ia)) == Ok(ia)
  {
    var b := EncodeIaNa(ia);
    assert b[..4] == U32Bytes(ia.iaid) && b[4..8] == U32Bytes(ia.t1) && b[8..12] == U32Bytes(ia.t2);
    U32RoundTrip(ia.iaid);
    U32RoundTrip(ia.t1);
    U32RoundTrip(ia.t2);
    ParseUndoesEncode(U32Bytes(ia.iaid) + U32Bytes(ia.t1) + U32Bytes(ia.t2), AddressOptions(ia.addresses));
    AddressesRoundTrip(ia.addresses);
  }

  lemma AddressesAt(addrs: seq<IaAddress>, i: nat)
    requires i < |addrs|
    ensures EncodeOptions(AddressOptions(addrs[i..]))
         == EncodeOption(Opt(OPT_IA_ADDR, IaAddressBytes(addrs[i]))) + EncodeOptions(AddressOptions(addrs[i + 1..]))
  {
    assert addrs[i..][1..] == addrs[i + 1..];
    assert AddressOptions(addrs[i..])[1..] == AddressOptions(addrs[i + 1..]);
  }

  /** `encode_ia_na` */
  method BuildIaNa(ia: IaNa) returns (out: seq<Byte>)
    ensures out == EncodeIaNa(ia)
  {
    out := U32Bytes(ia.iaid);
    out := out + U32Bytes(ia.t1);
    out := out + U32Bytes(ia.t2);
    for i := 0 to |ia.addresses|
      invariant EncodeIaNa(ia) == out + EncodeOptions(AddressOptions(ia.addresses[i..]))
    {
      AddressesAt(ia.addresses, i);
      AppendAssociates(out, EncodeOption(Opt(OPT_IA_ADDR, IaAddressBytes(ia.addresses[i]))),
                       EncodeOptions(AddressOptions(ia.addresses[i + 1..])));
      out := PushOption(out, OPT_IA_ADDR, IaAddressBytes(ia.addresses[i]));
    }
  }

  /** `parse_ia_na` */
  method ReadIaNa(b: seq<Byte>) returns (r: Result<IaNa>)
    ensures r == ParseIaNa(b)
  {
    if |b| < 12 {
      return Err;
    }
    var opts := ParseOptionsLoop(b, 12);
    if opts.Err? {
      return Err;
    }
    var addrs: seq<IaAddress> := [];
    assert opts.value[0..] == opts.value;
    for i := 0 to |opts.value|
      invariant CollectAddresses(opts.value).Ok? <==> CollectAddresses(opts.value[i..]).Ok?
      invariant CollectAddresses(opts.value).Ok? ==>
                  CollectAddresses(opts.value).value == addrs + CollectAddresses(opts.value[i..]).value
    {
      assert opts.value[i..][1..] == opts.value[i + 1..];
      if opts.value[i].code == OPT_IA_ADDR {
        var a := ParseIaAddress(opts.value[i].value);
        if a.Err? {
          return Err;
        }
        addrs := addrs + [a.value];
      }
    }
    assert CollectAddresses(opts.value).value == addrs;
    return Ok(IaNa(U32Of(b[..4]), U32Of(b[4..8]), U32Of(b[8..12]), addrs));
  }
}
