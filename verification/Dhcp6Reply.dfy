/**
 DHCPv6 replies: the reply builder and what a client reads back from the wire
 (src/dhcp/server.rs `build_v6_reply`; sections 16, 21.2 to 21.4 of RFC 8415).

 A configured option carries its encoded bytes, or `None` when encoding its text fails.
 */
module Dhcp6Reply {
  import opened Wrappers
  import opened OptionLists
  import opened Dhcp6

  const OPT_CLIENT_ID: U16 := 1
  const OPT_SERVER_ID: U16 := 2
  const OPT_IA_NA: U16 := 3
  const OPT_DNS_SERVERS: U16 := 23
  const OPT_DOMAIN_LIST: U16 := 24

  datatype Configured = Configured(code: U16, encoded: Option<seq<Byte>>)

  // ----- The reply -----

  /** The server's identity and what the scope contributes. */
  datatype ReplyScope = ReplyScope(duid: seq<Byte>, leaseSecs: U32, options: seq<Configured>)

  /** The IAID of the request's first IA_NA, or 1 when it has none that parses. */
  function IaidOf(req: Message): U32 {
    var value := OptionOf(req.options, OPT_IA_NA);
    if value.None? || ParseIaNa(value.value).Err? then 1 else ParseIaNa(value.value).value.iaid
  }

  /** The association granted: one address for the whole lease, renewed at half and rebound at four fifths of it. */
  function Granted(req: Message, scope: ReplyScope, address: Octets16): IaNa {
    IaNa(IaidOf(req), scope.leaseSecs / 2, scope.leaseSecs / 5 * 4, [IaAddress(address, scope.leaseSecs, scope.leaseSecs)])
  }

  predicate Forwarded(c: U16) {
    c == OPT_DNS_SERVERS || c == OPT_DOMAIN_LIST
  }

  function ApplyOptions(opts: seq<Opt>, configured: seq<Configured>): seq<Opt> {
    if configured == [] then opts
    else
      var before := ApplyOptions(opts, configured[..|configured| - 1]);
      var e := configured[|configured| - 1];
      if Forwarded(e.code) && e.encoded.Some? then SetOption(before, e.code, e.encoded.value) else before
  }

  /** The last configured value of a code that encodes. */
  function LastValue(configured: seq<Configured>, c: U16): Option<seq<Byte>> {
    if configured == [] then None
    else
      var e := configured[|configured| - 1];
      if e.code == c && e.encoded.Some? then e.encoded else LastValue(configured[..|configured| - 1], c)
  }

  function FixedOptions(req: Message, scope: ReplyScope, address: Octets16): seq<Opt> {
    var client := OptionOf(req.options, OPT_CLIENT_ID);
    var echoed := if client.Some? then SetOption([], OPT_CLIENT_ID, client.value) else [];
    SetOption(SetOption(echoed, OPT_SERVER_ID, scope.duid), OPT_IA_NA, EncodeIaNa(Granted(req, scope, address)))
  }

  function ReplyMessage(req: Message, scope: ReplyScope, address: Octets16, t: MessageType): Message {
    Message(t, req.xid, ApplyOptions(FixedOptions(req, scope, address), scope.options))
  }

  /** The loop over the scope's options. */
  method AddOptions(opts: seq<Opt>, configured: seq<Configured>) returns (out: seq<Opt>)
    ensures out == ApplyOptions(opts, configured)
  {
    out := opts;
    for i := 0 to |configured|
      invariant out == ApplyOptions(opts, configured[..i])
    {
      assert configured[..i + 1][..i] == configured[..i];
      if Forwarded(configured[i].code) && configured[i].encoded.Some? {
        out := SetOptionInPlace(out, configured[i].code, configured[i].encoded.value);
      }
    }
    assert configured[..|configured|] == configured;
  }

  /** `build_v6_reply` */
  method BuildReply(req: Message, scope: ReplyScope, address: Octets16, t: MessageType) returns (bytes: seq<Byte>)
    ensures bytes == Encode(ReplyMessage(req, scope, address, t))
  {
    var opts: seq<Opt> := [];
    var client := OptionOf(req.options, OPT_CLIENT_ID);
    if client.Some? {
      opts := SetOptionInPlace(opts, OPT_CLIENT_ID, client.value);
    }
    opts := SetOptionInPlace(opts, OPT_SERVER_ID, scope.duid);
    var ia := BuildIaNa(Granted(req, scope, address));
    opts := SetOptionInPlace(opts, OPT_IA_NA, ia);
    opts := AddOptions(opts, scope.options);
    bytes := Build(Message(t, req.xid, opts));
  }

  // ----- Through the wire -----

  lemma {:induction false} OptionOnTheWire(opts: seq<Opt>, c: U16)
    ensures OptionOf(Truncated(opts), c) == Cut(OptionOf(opts, c), 65535)
  {
    if opts != [] {
      OptionOnTheWire(opts[1..], c);
    }
  }

  lemma {:induction false} OptionAfterApply(opts: seq<Opt>, configured: seq<Configured>, c: U16)
    ensures OptionOf(ApplyOptions(opts, configured), c)
         == if Forwarded(c) && LastValue(configured, c).Some? then LastValue(configured, c) else OptionOf(opts, c)
  {
    if configured != [] {
      var front, e := configured[..|configured| - 1], configured[|configured| - 1];
      OptionAfterApply(opts, front, c);
      if Forwarded(e.code) && e.encoded.Some? {
        OptionAfterSet(ApplyOptions(opts, front), e.code, e.encoded.value, c);
      }
    }
  }

  /** The last configured entry of the code that encodes is the one that counts. */
  lemma {:induction false} LastValueMeans(configured: seq<Configured>, c: U16, i: nat)
    requires i < |configured| && configured[i].code == c && configured[i].encoded.Some?
    requires forall j :: i < j < |configured| ==> !(configured[j].code == c && configured[j].encoded.Some?)
    ensures LastValue(configured, c) == configured[i].encoded
  {
    if i < |configured| - 1 {
      assert configured[..|configured| - 1][i] == configured[i];
      LastValueMeans(configured[..|configured| - 1], c, i);
    }
  }

  lemma FixedOption(req: Message, scope: ReplyScope, address: Octets16, c: U16)
    ensures OptionOf(FixedOptions(req, scope, address), c)
         == if c == OPT_CLIENT_ID then OptionOf(req.options, OPT_CLIENT_ID)
            else if c == OPT_SERVER_ID then Some(scope.duid)
            else if c == OPT_IA_NA then Some(EncodeIaNa(Granted(req, scope, address)))
            else None
  {
    var client := OptionOf(req.options, OPT_CLIENT_ID);
    var echoed := if client.Some? then SetOption([], OPT_CLIENT_ID, client.value) else [];
    if client.Some? {
      OptionAfterSet([], OPT_CLIENT_ID, client.value, c);
    }
    OptionAfterSet(echoed, OPT_SERVER_ID, scope.duid, c);
    OptionAfterSet(SetOption(echoed, OPT_SERVER_ID, scope.duid), OPT_IA_NA, EncodeIaNa(Granted(req, scope, address)), c);
  }

  lemma FixedAreDistinct(req: Message, scope: ReplyScope, address: Octets16)
    ensures DistinctCodes(FixedOptions(req, scope, address))
  {
    var client := OptionOf(req.options, OPT_CLIENT_ID);
    var none: seq<Opt> := [];
    var echoed: seq<Opt> := if client.Some? then SetOption(none, OPT_CLIENT_ID, client.value) else none;
    if client.Some? {
      SetKeepsDistinct<U16>(none, OPT_CLIENT_ID, client.value);
    }
    SetKeepsDistinct<U16>(echoed, OPT_SERVER_ID, scope.duid);
    SetKeepsDistinct<U16>(SetOption(echoed, OPT_SERVER_ID, scope.duid), OPT_IA_NA, EncodeIaNa(Granted(req, scope, address)));
  }

  lemma {:induction false} ApplyKeepsDistinct(opts: seq<Opt>, configured: seq<Configured>)
    requires DistinctCodes(opts)
    ensures DistinctCodes(ApplyOptions(opts, configured))
  {
    if configured != [] {
      var front, e := configured[..|configured| - 1], configured[|configured| - 1];
      ApplyKeepsDistinct(opts, front);
      if Forwarded(e.code) && e.encoded.Some? {
        SetKeepsDistinct<U16>(ApplyOptions(opts, front), e.code, e.encoded.value);
      }
    }
  }

  lemma {:induction false} TruncatedKeepsCodes(opts: seq<Opt>)
    ensures |Truncated(opts)| == |opts| && forall i :: 0 <= i < |opts| ==> Truncated(opts)[i].code == opts[i].code
  {
    if opts != [] {
      TruncatedKeepsCodes(opts[1..]);
    }
  }

  lemma IaNaFits(ia: IaNa)
    requires |ia.addresses| == 1
    ensures |EncodeIaNa(ia)| == 40
  {
    assert ia.addresses[1..] == [];
    assert AddressOptions(ia.addresses) == [Opt(OPT_IA_ADDR, IaAddressBytes(ia.addresses[0]))];
    assert AddressOptions(ia.addresses)[1..] == [];
    assert EncodeOptions(AddressOptions(ia.addresses)) == EncodeOption(AddressOptions(ia.addresses)[0]) + [];
  }

  /** One address, for the lease time, to be renewed at half of it and rebound at four fifths. */
  predicate GrantsOnly(ia: Result<IaNa>, address: Octets16, lease: U32) {
    && ia.Ok? && |ia.value.addresses| == 1 && ia.value.addresses[0].addr == address
    && ia.value.addresses[0].preferred == lease && ia.value.addresses[0].valid == lease
    && ia.value.t1 == lease / 2 && ia.value.t2 == lease / 5 * 4
  }

  /**
   A client parsing a reply reads back its transaction, its own and the server's identity, one address for exactly
   the lease time under its own IAID, the scope's last encodable DNS server and search list options, each code once and nothing else.
   */
  lemma ReplyThroughTheWire(req: Message, scope: ReplyScope, address: Octets16, t: MessageType, c: U16)
    ensures var r := Decode(Encode(ReplyMessage(req, scope, address, t)));
            var asked := OptionOf(req.options, OPT_IA_NA);
            && r.Ok? && r.value.msgType == t && r.value.xid == req.xid && DistinctCodes(r.value.options)
            && OptionOf(r.value.options, OPT_CLIENT_ID) == Cut(OptionOf(req.options, OPT_CLIENT_ID), 65535)
            && OptionOf(r.value.options, OPT_SERVER_ID) == Cut(Some(scope.duid), 65535)
            && OptionOf(r.value.options, OPT_IA_NA).Some?
            && GrantsOnly(ParseIaNa(OptionOf(r.value.options, OPT_IA_NA).value), address, scope.leaseSecs)
            && ParseIaNa(OptionOf(r.value.options, OPT_IA_NA).value).value.iaid
               == (if asked.Some? && ParseIaNa(asked.value).Ok? then ParseIaNa(asked.value).value.iaid else 1)
            && (c == 23 || c == 24 ==> OptionOf(r.value.options, c) == Cut(LastValue(scope.options, c), 65535))
            && (c !in {1, 2, 3, 23, 24} ==> OptionOf(r.value.options, c).None?)
  {
    var m := ReplyMessage(req, scope, address, t);
    DecodeUndoesEncode(m);
    FixedAreDistinct(req, scope, address);
    ApplyKeepsDistinct(FixedOptions(req, scope, address), scope.options);
    TruncatedKeepsCodes(m.options);
    OptionRead(req, scope, address, t, OPT_CLIENT_ID);
    OptionRead(req, scope, address, t, OPT_SERVER_ID);
    OptionRead(req, scope, address, t, OPT_IA_NA);
    OptionRead(req, scope, address, t, c);
    var ia := Granted(req, scope, address);
    IaNaFits(ia);
    assert EncodeIaNa(ia)[..40] == EncodeIaNa(ia);
    IaNaRoundTrip(ia);
  }

  lemma OptionRead(req: Message, scope: ReplyScope, address: Octets16, t: MessageType, c: U16)
    ensures OptionOf(Truncated(ReplyMessage(req, scope, address, t).options), c)
         == Cut(if c == OPT_CLIENT_ID then OptionOf(req.options, OPT_CLIENT_ID)
                else if c == OPT_SERVER_ID then Some(scope.duid)
                else if c == OPT_IA_NA then Some(EncodeIaNa(Granted(req, scope, address)))
                else if Forwarded(c) then LastValue(scope.options, c)
                else None, 65535)
  {
    OptionOnTheWire(ReplyMessage(req, scope, address, t).options, c);
    OptionAfterApply(FixedOptions(req, scope, address), scope.options, c);
    FixedOption(req, scope, address, c);
  }

  /** The timers a client reads are ordered as section 21.4 of RFC 8415 asks, T2 being left open for leases under five seconds. */
  lemma TimersAreOrdered(req: Message, scope: ReplyScope, address: Octets16)
    ensures var ia := Granted(req, scope, address);
            && (ia.t2 == 0 <==> scope.leaseSecs < 5)
            && (ia.t2 != 0 ==> ia.t1 <= ia.t2 <= ia.addresses[0].preferred <= ia.addresses[0].valid)
  {
    var n: int := scope.leaseSecs;
    assert n == n / 5 * 5 + n % 5 && n == n / 2 * 2 + n % 2;
  }
}
