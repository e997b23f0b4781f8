/**
 The lease machine joined to the wire (src/dhcp/server.rs `v4_loop`, `handle_v4`, `v4_client_id`,
 `merged_for_client`; src/dhcp/v4.rs option accessors): datagrams in, datagrams out, and what clients read in them.
 */
module DhcpWire {
  import opened Wrappers
  import opened Text
  import opened Bytes
  import opened OptionLists
  import opened LeaseAllocation
  import opened LeaseEngine
  import opened LeaseServer
  import opened LeaseOutcomes
  import Frame = Dhcp4
  import Reply4 = Dhcp4Reply

  // ----- The scope as configured -----

  /** A reservation with the options it overrides. */
  datatype Entry = Entry(reservation: Reservation, options: seq<Reply4.Served>)

  /** A v4 scope with everything its replies need. */
  datatype Setup = Setup(scope: Scope, serverId: Option<U32>, mask: Option<U32>, options: seq<Reply4.Served>, entries: seq<Entry>)

  function ReservationsOf(entries: seq<Entry>): seq<Reservation> {
    seq(|entries|, i requires 0 <= i < |entries| => entries[i].reservation)
  }

  function CfgOf(s: Setup): Config {
    Config(s.scope, ReservationsOf(s.entries))
  }

  function ReplyScopeOf(s: Setup): Reply4.ReplyScope {
    Reply4.ReplyScope(s.serverId, s.mask, s.scope.leaseSecs)
  }

  // ----- Which reservation gives the options, and which the address -----

  /** The first entry of the client from number `i` on. */
  function FirstEntry(entries: seq<Entry>, cid: string, i: nat): (r: Option<nat>)
    requires i <= |entries|
    ensures r.Some? ==> i <= r.value < |entries| && SameId(entries[r.value].reservation.identifier, cid)
    ensures r.Some? ==> forall j :: i <= j < r.value ==> !SameId(entries[j].reservation.identifier, cid)
    ensures r.None? ==> forall j :: i <= j < |entries| ==> !SameId(entries[j].reservation.identifier, cid)
    decreases |entries| - i
  {
    if i == |entries| then None
    else if SameId(entries[i].reservation.identifier, cid) then Some(i)
    else FirstEntry(entries, cid, i + 1)
  }

  /** The first entry of the client from number `i` on whose address parses. */
  function FirstUsable(entries: seq<Entry>, cid: string, i: nat): (r: Option<nat>)
    requires i <= |entries|
    ensures r.Some? ==> i <= r.value < |entries| && SameId(entries[r.value].reservation.identifier, cid)
                        && entries[r.value].reservation.ip.Some?
    ensures r.Some? ==> forall j :: i <= j < r.value ==>
              !(SameId(entries[j].reservation.identifier, cid) && entries[j].reservation.ip.Some?)
    ensures r.None? ==> forall j :: i <= j < |entries| ==>
              !(SameId(entries[j].reservation.identifier, cid) && entries[j].reservation.ip.Some?)
    decreases |entries| - i
  {
    if i == |entries| then None
    else if SameId(entries[i].reservation.identifier, cid) && entries[i].reservation.ip.Some? then Some(i)
    else FirstUsable(entries, cid, i + 1)
  }

  /** `merged_for_client`: the options of the client's first reservation override the scope's. */
  function MergedFor(s: Setup, cid: string): seq<Reply4.Served> {
    var i := FirstEntry(s.entries, cid, 0);
    if i.None? then s.options else Reply4.Merge(s.options, s.entries[i.value].options)
  }

  lemma {:induction false} AddressComesFromFirstUsableFrom(entries: seq<Entry>, cid: string, i: nat)
    requires i <= |entries|
    ensures ReservedFor(ReservationsOf(entries)[i..], cid)
         == var j := FirstUsable(entries, cid, i); if j.None? then None else entries[j.value].reservation.ip
    decreases |entries| - i
  {
    if i < |entries| {
      var rs := ReservationsOf(entries);
      assert rs[i..][0] == entries[i].reservation && rs[i..][1..] == rs[i + 1..];
      AddressComesFromFirstUsableFrom(entries, cid, i + 1);
    }
  }

  /** The reserved address is that of the first reservation whose address parses. */
  lemma AddressComesFromFirstUsable(entries: seq<Entry>, cid: string)
    ensures ReservedFor(ReservationsOf(entries), cid)
         == var j := FirstUsable(entries, cid, 0); if j.None? then None else entries[j.value].reservation.ip
  {
    assert ReservationsOf(entries)[0..] == ReservationsOf(entries);
    AddressComesFromFirstUsableFrom(entries, cid, 0);
  }

  /**
   Address and options come from the same reservation exactly when the client has none, or the address of its
   first one parses.
   */
  lemma SameReservationIff(entries: seq<Entry>, cid: string)
    ensures var i := FirstEntry(entries, cid, 0);
            i == FirstUsable(entries, cid, 0) <==> i.None? || entries[i.value].reservation.ip.Some?
  {
    var i, j := FirstEntry(entries, cid, 0), FirstUsable(entries, cid, 0);
    if i.Some? && entries[i.value].reservation.ip.Some? {
      assert j.Some? && j.value <= i.value;
    }
  }

  /** The input: a first reservation that does not parse lends its options to the address of a second one. */
  lemma UnparsableReservationSplits(s: Setup, cid: string, a: IpAddr, first: seq<Reply4.Served>, second: seq<Reply4.Served>)
    requires s.entries == [Entry(Reservation(cid, None), first), Entry(Reservation(cid, Some(a)), second)]
    ensures ReservedFor(CfgOf(s).reservations, cid) == Some(a) && MergedFor(s, cid) == Reply4.Merge(s.options, first)
  {
    AddressComesFromFirstUsable(s.entries, cid);
    assert FirstUsable(s.entries, cid, 0) == FirstUsable(s.entries, cid, 1) == Some(1);
  }

  // ----- Reading requests -----

  function HexDigit(n: nat): char
    requires n < 16
  {
    if n < 10 then '0' + n as char else 'a' + (n - 10) as char
  }

  function HexByte(b: Byte): (r: string)
    ensures |r| == 2
  {
    [HexDigit(b / 16), HexDigit(b % 16)]
  }

  function Hex(bytes: seq<Byte>): string {
    if bytes == [] then "" else HexByte(bytes[0]) + Hex(bytes[1..])
  }

  /** Two digits a byte, with colons between. */
  function ColonHex(bytes: seq<Byte>): string {
    if bytes == [] then "" else if |bytes| == 1 then HexByte(bytes[0]) else HexByte(bytes[0]) + ":" + ColonHex(bytes[1..])
  }

  /** A non-empty option 61. */
  function OwnId(m: Frame.Message): Option<seq<Byte>> {
    var id := OptionOf(m.options, 61);
    if id.Some? && id.value != [] then id else None
  }

  function Hardware(m: Frame.Message): seq<Byte> {
    m.chaddr[..Min(m.hlen, 16)]
  }

  /** `v4_client_id`: a non-empty option 61, else the hardware address. */
  function ClientId(m: Frame.Message): string {
    if OwnId(m).Some? then Hex(OwnId(m).value) else ColonHex(Hardware(m))
  }

  // ----- When two messages come from one client -----

  lemma HexByteInjective(a: Byte, b: Byte)
    requires HexByte(a) == HexByte(b)
    ensures a == b
  {
    assert HexByte(a)[0] == HexByte(b)[0] && HexByte(a)[1] == HexByte(b)[1];
    assert a == a / 16 * 16 + a % 16 && b == b / 16 * 16 + b % 16;
  }

  predicate NoUpper(s: string) {
    forall i :: 0 <= i < |s| ==> !('A' <= s[i] <= 'Z')
  }

  lemma NoUpperIsFolded(s: string)
    requires NoUpper(s)
    ensures Lower(s) == s
  {
  }

  lemma {:induction false} HexShape(a: seq<Byte>)
    ensures |Hex(a)| == 2 * |a| && NoUpper(Hex(a)) && forall i :: 0 <= i < |Hex(a)| ==> Hex(a)[i] != ':'
  {
    if a != [] {
      HexShape(a[1..]);
    }
  }

  lemma {:induction false} ColonHexShape(a: seq<Byte>)
    ensures |ColonHex(a)| == (if a == [] then 0 else 3 * |a| - 1) && NoUpper(ColonHex(a))
    ensures |a| >= 2 ==> ColonHex(a)[2] == ':'
  {
    if |a| >= 2 {
      ColonHexShape(a[1..]);
    }
  }

  lemma {:induction false} HexInjective(a: seq<Byte>, b: seq<Byte>)
    requires Hex(a) == Hex(b)
    ensures a == b
  {
    HexShape(a);
    HexShape(b);
    if a != [] {
      assert Hex(a)[..2] == HexByte(a[0]) && Hex(b)[..2] == HexByte(b[0]);
      HexByteInjective(a[0], b[0]);
      assert Hex(a)[2..] == Hex(a[1..]) && Hex(b)[2..] == Hex(b[1..]);
      HexInjective(a[1..], b[1..]);
    }
  }

  lemma {:induction false} ColonHexInjective(a: seq<Byte>, b: seq<Byte>)
    requires ColonHex(a) == ColonHex(b)
    ensures a == b
  {
    ColonHexShape(a);
    ColonHexShape(b);
    if a != [] {
      assert ColonHex(a)[..2] == HexByte(a[0]) && ColonHex(b)[..2] == HexByte(b[0]);
      HexByteInjective(a[0], b[0]);
      if |a| > 1 {
        assert ColonHex(a)[3..] == ColonHex(a[1..]) && ColonHex(b)[3..] == ColonHex(b[1..]);
        ColonHexInjective(a[1..], b[1..]);
      }
    }
  }

  /** Without a colon an identifier is a hardware address of at most one byte. */
  lemma MixedIds(a: seq<Byte>, b: seq<Byte>)
    requires a != []
    ensures Hex(a) == ColonHex(b) <==> a == b && |b| == 1
  {
    HexShape(a);
    ColonHexShape(b);
    if |b| >= 2 {
      assert |Hex(a)| > 2 ==> Hex(a)[2] != ColonHex(b)[2];
      assert Hex(a) != ColonHex(b);
    }
    if Hex(a) == ColonHex(b) {
      assert |b| == 1;
      assert Hex(b) == HexByte(b[0]) + Hex(b[1..]) == ColonHex(b);
      HexInjective(a, b);
    }
    if a == b && |b| == 1 {
      assert Hex(a) == HexByte(a[0]) + Hex(a[1..]);
    }
  }

  /**
   The two messages come from one client: by equal non-empty option 61, by equal hardware addresses where neither has
   one, and otherwise only if the one's option 61 is the other's hardware address of a single byte.
   */
  predicate SameClient(m: Frame.Message, p: Frame.Message) {
    var x, y := OptionOf(m.options, 61), OptionOf(p.options, 61);
    var named, known := x.Some? && x.value != [], y.Some? && y.value != [];
    var h, g := m.chaddr[..if m.hlen <= 16 then m.hlen else 16], p.chaddr[..if p.hlen <= 16 then p.hlen else 16];
    if named && known then x.value == y.value
    else if !named && !known then h == g
    else if named then g == x.value && |g| == 1
    else h == y.value && |h| == 1
  }

  lemma IdIsFolded(m: Frame.Message)
    ensures Lower(ClientId(m)) == ClientId(m)
  {
    if OwnId(m).Some? {
      HexShape(OwnId(m).value);
    } else {
      ColonHexShape(Hardware(m));
    }
    NoUpperIsFolded(ClientId(m));
  }

  /** Identifiers are the same text exactly when the messages come from one client. */
  lemma SameClientIff(m: Frame.Message, p: Frame.Message)
    ensures SameId(ClientId(m), ClientId(p)) <==> SameClient(m, p)
  {
    IdIsFolded(m);
    IdIsFolded(p);
    if ClientId(m) == ClientId(p) && OwnId(m).Some? && OwnId(p).Some? {
      HexInjective(OwnId(m).value, OwnId(p).value);
    }
    if ClientId(m) == ClientId(p) && OwnId(m).None? && OwnId(p).None? {
      ColonHexInjective(Hardware(m), Hardware(p));
    }
    if OwnId(m).Some? && OwnId(p).None? {
      MixedIds(OwnId(m).value, Hardware(p));
    }
    if OwnId(m).None? && OwnId(p).Some? {
      MixedIds(OwnId(p).value, Hardware(m));
    }
  }

  /** `message_type`: the first byte of option 53. */
  function TypeByte(m: Frame.Message): Option<Byte> {
    var v := OptionOf(m.options, 53);
    if v.Some? && v.value != [] then Some(v.value[0]) else None
  }

  /** `requested_ip`: option 50, if it has four bytes. */
  function RequestedIp(m: Frame.Message): Option<U32> {
    var v := OptionOf(m.options, 50);
    if v.Some? && |v.value| == 4 then Some(U32Of(v.value)) else None
  }

  /** What a message asks of the lease machine. */
  function AsAction(m: Frame.Message): Action {
    match TypeByte(m)
    case Some(1) => Message(ClientId(m), Discover(RequestedIp(m)))
    case Some(3) => Message(ClientId(m), Request(RequestedIp(m), m.ciaddr))
    case Some(4) => Message(ClientId(m), Decline)
    case Some(7) => Message(ClientId(m), Release)
    case Some(8) => Message(ClientId(m), Inform)
    case _ => Ignored
  }

  /** What the first byte of option 53 makes of a message, whatever else it holds. */
  lemma ActionByType(m: Frame.Message, kind: seq<Byte>)
    requires OptionOf(m.options, 53) == Some(kind)
    ensures kind == [] || kind[0] !in {1, 3, 4, 7, 8} ==> AsAction(m) == Ignored
    ensures kind != [] && kind[0] in {1, 3, 4, 7, 8} ==> AsAction(m).Message? && AsAction(m).cid == ClientId(m)
    ensures kind != [] && kind[0] == 4 ==> AsAction(m).request == Decline
    ensures kind != [] && kind[0] == 7 ==> AsAction(m).request == Release
    ensures kind != [] && kind[0] == 8 ==> AsAction(m).request == Inform
    ensures kind != [] && kind[0] == 1 ==> AsAction(m).request.Discover?
    ensures kind != [] && kind[0] == 3 ==> AsAction(m).request.Request? && AsAction(m).request.ciaddr == m.ciaddr
  {
  }

  /** A message without option 53 is ignored. */
  lemma NoTypeIsIgnored(m: Frame.Message)
    requires OptionOf(m.options, 53) == None
    ensures AsAction(m) == Ignored
  {
  }

  /** Option 50 asks for the address its four bytes spell, most significant first; any other length is no wish. */
  lemma WishIsOption50(m: Frame.Message)
    ensures var v := OptionOf(m.options, 50);
            if v.Some? && |v.value| == 4 then
              var w: int, x: int, y: int, z: int := v.value[0], v.value[1], v.value[2], v.value[3];
              RequestedIp(m) == Some(((w * 256 + x) * 256 + y) * 256 + z)
            else RequestedIp(m) == None
    ensures AsAction(m).Message? && AsAction(m).request.Discover? ==> AsAction(m).request.requested == RequestedIp(m)
    ensures AsAction(m).Message? && AsAction(m).request.Request? ==> AsAction(m).request.wanted == RequestedIp(m)
  {
  }

  // ----- A run of datagrams -----

  datatype Input = Datagram(bytes: seq<Byte>) | Sweeping | Deleting(ip: IpAddr)

  datatype Arrival = Arrival(now: int, input: Input)

  function EventOf(x: Arrival): Event {
    Event(x.now,
          match x.input
          case Datagram(b) => (match Frame.Decode(b) case Ok(m) => AsAction(m) case Err => Ignored)
          case Sweeping => Sweep
          case Deleting(a) => AdminDelete(a))
  }

  function EventsOf(xs: seq<Arrival>): seq<Event> {
    seq(|xs|, i requires 0 <= i < |xs| => EventOf(xs[i]))
  }

  /** The datagram that carries a reply of the lease machine to the sender of `m`. */
  function Carry(s: Setup, m: Frame.Message, r: Reply): Option<seq<Byte>> {
    var merged := MergedFor(s, ClientId(m));
    match r
    case Offer(V4Addr(n)) => Some(Frame.Encode(Reply4.ReplyMessage(m, ReplyScopeOf(s), merged, n, Reply4.Offer)))
    case Ack(V4Addr(n)) => Some(Frame.Encode(Reply4.ReplyMessage(m, ReplyScopeOf(s), merged, n, Reply4.Ack)))
    case Nak => Some(Frame.Encode(Reply4.ReplyMessage(m, ReplyScopeOf(s), [], 0, Reply4.Nak)))
    case InformAck => Some(Frame.Encode(Reply4.ReplyMessage(m, ReplyScopeOf(s), merged, 0, Reply4.Ack)))
    case _ => None
  }

  /** What goes out for one arrival, given the machine's reply to it. */
  function Out(s: Setup, x: Arrival, r: Reply): Option<seq<Byte>> {
    if x.input.Datagram? && Frame.Decode(x.input.bytes).Ok? then Carry(s, Frame.Decode(x.input.bytes).value, r) else None
  }

  ghost function Sent(s: Setup, xs: seq<Arrival>, k: nat): Option<seq<Byte>>
    requires k < |xs|
  {
    Out(s, xs[k], ReplyAt(CfgOf(s), EventsOf(xs), k))
  }

  // ----- What clients read -----

  /** The datagram parses to a message of type `t` that assigns address `n`. */
  ghost predicate Reads(out: Option<seq<Byte>>, t: Byte, n: U32) {
    && out.Some? && Frame.Decode(out.value).Ok?
    && OptionOf(Frame.Decode(out.value).value.options, 53) == Some([t]) && Frame.Decode(out.value).value.yiaddr == n
  }

  const OFFER: Byte := 2
  const ACK: Byte := 5
  const NAK: Byte := 6

  lemma CarriedTypeAndAddress(s: Setup, m: Frame.Message, merged: seq<Reply4.Served>, n: U32, t: Reply4.MessageType)
    requires !t.Nak?
    ensures var r := Frame.Decode(Frame.Encode(Reply4.ReplyMessage(m, ReplyScopeOf(s), merged, n, t)));
            r.Ok? && OptionOf(r.value.options, 53) == Some([Reply4.TypeCode(t)]) && r.value.yiaddr == n
  {
    Reply4.ReplyThroughTheWire(m, ReplyScopeOf(s), merged, n, t, 53);
  }

  /** A client reads a lease of a real address exactly when the machine granted it one. */
  lemma CarryReads(s: Setup, m: Frame.Message, r: Reply, n: U32)
    requires n != 0
    ensures Reads(Carry(s, m, r), ACK, n) <==> r == Ack(V4Addr(n))
    ensures Reads(Carry(s, m, r), OFFER, n) <==> r == Offer(V4Addr(n))
  {
    CarryCases(s, m, r);
  }

  /** The type and address a client reads, reply by reply. */
  lemma CarryCases(s: Setup, m: Frame.Message, r: Reply)
    ensures forall t: Byte, n: U32 :: Reads(Carry(s, m, r), t, n) <==>
              || (t == OFFER && r == Offer(V4Addr(n)))
              || (t == ACK && (r == Ack(V4Addr(n)) || (r == InformAck && n == 0)))
              || (t == NAK && r == Nak && n == 0)
  {
    var merged := MergedFor(s, ClientId(m));
    match r
    case Offer(V4Addr(k)) => CarriedTypeAndAddress(s, m, merged, k, Reply4.Offer);
    case Ack(V4Addr(k)) => CarriedTypeAndAddress(s, m, merged, k, Reply4.Ack);
    case Nak => Reply4.NakThroughTheWire(m, ReplyScopeOf(s), [], 0);
    case InformAck => CarriedTypeAndAddress(s, m, merged, 0, Reply4.Ack);
    case _ =>
  }

  /** The options of the client's first reservation, if it has one. */
  function FirstOptions(s: Setup, cid: string): seq<Reply4.Served> {
    var i := FirstEntry(s.entries, cid, 0);
    if i.None? then [] else s.entries[i.value].options
  }

  lemma MergedIsMerge(s: Setup, cid: string)
    ensures MergedFor(s, cid) == Reply4.Merge(s.options, FirstOptions(s, cid))
  {
  }

  /**
   The options a client reads with a grant: the lease time, server and mask of the scope, and under every code it may
   configure what prevails between the scope and the client's first reservation.
   */
  lemma ReadOptions(s: Setup, m: Frame.Message, r: Reply, c: Byte)
    requires GrantOf(r).Some? && GrantOf(r).value.V4Addr? && GrantOf(r).value.v4 != 0
    ensures Carry(s, m, r).Some? && Frame.Decode(Carry(s, m, r).value).Ok?
    ensures var opts := Frame.Decode(Carry(s, m, r).value).value.options;
            && OptionOf(opts, 51) == Some(U32Bytes(s.scope.leaseSecs))
            && OptionOf(opts, 54) == Some(U32Bytes(if s.serverId.Some? then s.serverId.value else 0))
            && OptionOf(opts, 1) == (if s.mask.None? then None else Some(U32Bytes(s.mask.value)))
            && (2 <= c <= 254 && c !in {51, 53, 54} ==>
                  OptionOf(opts, c) == Cut(Reply4.Prevailing(s.options, FirstOptions(s, ClientId(m)), c), 255))
  {
    var merged, t := MergedFor(s, ClientId(m)), if r.Offer? then Reply4.Offer else Reply4.Ack;
    Reply4.OwnOptionsOnTheWire(m, ReplyScopeOf(s), merged, GrantOf(r).value.v4, t);
    MergedIsMerge(s, ClientId(m));
    if 2 <= c <= 254 && c !in {51, 53, 54} {
      Reply4.ReservationReachesTheClient(m, ReplyScopeOf(s), s.options, FirstOptions(s, ClientId(m)), GrantOf(r).value.v4, t, c);
    }
  }

  lemma RepliesAnswerDatagrams(s: Setup, xs: seq<Arrival>, k: nat)
    requires k < |xs| && !ReplyAt(CfgOf(s), EventsOf(xs), k).Silent?
    ensures EventsOf(xs)[k].action.Message? && xs[k].input.Datagram? && Frame.Decode(xs[k].input.bytes).Ok?
  {
  }

  lemma SentReads(s: Setup, xs: seq<Arrival>, k: nat, n: U32)
    requires k < |xs| && n != 0
    ensures Reads(Sent(s, xs, k), ACK, n) <==> ReplyAt(CfgOf(s), EventsOf(xs), k) == Ack(V4Addr(n))
    ensures Reads(Sent(s, xs, k), OFFER, n) <==> ReplyAt(CfgOf(s), EventsOf(xs), k) == Offer(V4Addr(n))
  {
    var r := ReplyAt(CfgOf(s), EventsOf(xs), k);
    if xs[k].input.Datagram? && Frame.Decode(xs[k].input.bytes).Ok? {
      CarryReads(s, Frame.Decode(xs[k].input.bytes).value, r, n);
    } else if !r.Silent? {
      RepliesAnswerDatagrams(s, xs, k);
    }
  }

  /** The address the machine would choose for a request at this point of the run. */
  ghost function ChoiceAt(s: Setup, xs: seq<Arrival>, k: nat, m: Frame.Message): Option<IpAddr>
    requires k < |xs|
  {
    Choose(CfgOf(s), After(CfgOf(s), EventsOf(xs), k), ClientId(m),
           if RequestedIp(m).Some? then Some(V4Addr(RequestedIp(m).value)) else None, xs[k].now)
  }

  /**
   Refusals on the wire: a client can read a NAK exactly when its datagram is a REQUEST and there is no v4 choice, or
   the one there is is not what it insists on. It always can after an INFORM read an ACK without an address.
   */
  lemma ReadRefusalIff(s: Setup, xs: seq<Arrival>, k: nat, m: Frame.Message)
    requires s.scope.family.V4? && k < |xs| && xs[k].input.Datagram? && Frame.Decode(xs[k].input.bytes) == Ok(m)
    ensures var choice := ChoiceAt(s, xs, k, m);
            Reads(Sent(s, xs, k), NAK, 0) <==>
              TypeByte(m) == Some(3)
              && (choice.None? || choice.value.V6Addr? || InsistsOnOther(RequestedIp(m), m.ciaddr, choice.value.v4))
    ensures TypeByte(m) == Some(8) ==> Reads(Sent(s, xs, k), ACK, 0)
    ensures TypeByte(m) in {None, Some(2), Some(4), Some(5), Some(6), Some(7)} ==> Sent(s, xs, k) == None
  {
    var cfg, t := CfgOf(s), After(CfgOf(s), EventsOf(xs), k);
    var r := Step(cfg, t, Event(xs[k].now, AsAction(m))).1;
    assert EventsOf(xs)[k] == Event(xs[k].now, AsAction(m));
    assert Sent(s, xs, k) == Carry(s, m, r);
    CarryCases(s, m, r);
    AnswerByType(cfg, t, m, xs[k].now);
  }

  /** How the machine answers a message, by its type. */
  lemma AnswerByType(cfg: Config, t: Table, m: Frame.Message, now: int)
    requires cfg.scope.family.V4?
    ensures var r := Step(cfg, t, Event(now, AsAction(m))).1;
            var choice := Choose(cfg, t, ClientId(m), if RequestedIp(m).Some? then Some(V4Addr(RequestedIp(m).value)) else None, now);
            && (r == Nak <==>
                  TypeByte(m) == Some(3)
                  && (choice.None? || choice.value.V6Addr? || InsistsOnOther(RequestedIp(m), m.ciaddr, choice.value.v4)))
            && (TypeByte(m) == Some(8) ==> r == InformAck)
            && (TypeByte(m) in {None, Some(2), Some(4), Some(5), Some(6), Some(7)} ==> r == Silent)
  {
    match TypeByte(m)
    case Some(1) => DiscoverOutcome(cfg, t, ClientId(m), RequestedIp(m), now);
    case Some(3) => RequestOutcome(cfg, t, ClientId(m), RequestedIp(m), m.ciaddr, now);
    case Some(4) => DeclineOutcome(cfg, t, ClientId(m), now);
    case Some(7) => ReleaseOutcome(cfg, t, ClientId(m), now);
    case Some(8) => InformOutcome(cfg, t, ClientId(m), now);
    case _ =>
  }

  ghost predicate TimesAscend(xs: seq<Arrival>) {
    forall i, j :: 0 <= i <= j < |xs| ==> xs[i].now <= xs[j].now
  }

  /** A datagram that parses to a message of the client of `m`. */
  predicate From(x: Arrival, m: Frame.Message) {
    x.input.Datagram? && Frame.Decode(x.input.bytes).Ok? && SameClient(Frame.Decode(x.input.bytes).value, m)
  }

  /** A datagram of the client of `m` whose option 53 starts with `kind`. */
  predicate Says(x: Arrival, kind: Byte, m: Frame.Message) {
    From(x, m) && TypeByte(Frame.Decode(x.input.bytes).value) == Some(kind)
  }

  lemma EventIsBy(x: Arrival, m: Frame.Message)
    ensures IsBy(EventOf(x), ClientId(m)) ==> From(x, m)
    ensures IsBy(EventOf(x), ClientId(m)) && GivesBack(EventOf(x).action.request) ==> Says(x, 4, m) || Says(x, 7, m)
    ensures IsBy(EventOf(x), ClientId(m)) && EventOf(x).action.request.Discover? ==> Says(x, 1, m)
    ensures Says(x, 3, m) ==> IsBy(EventOf(x), ClientId(m)) && EventOf(x).action.request.Request?
  {
    if x.input.Datagram? && Frame.Decode(x.input.bytes).Ok? {
      SameClientIff(Frame.Decode(x.input.bytes).value, m);
    }
  }

  lemma ExclusiveFor(cfg: Config, evs: seq<Event>, i: nat, j: nat, a: IpAddr, cid: string)
    requires ClockNeverRunsBack(evs) && SoleOwner(cfg, cid)
    requires i < j < |evs| && IsBy(evs[i], cid) && ReplyAt(cfg, evs, i) == Ack(a)
    requires evs[j].now < evs[i].now + cfg.scope.leaseSecs
    requires forall k :: i < k < j ==> Undisturbed(cfg, evs[k], evs[j].now, a, cid)
    ensures GrantOf(ReplyAt(cfg, evs, j)) == Some(a) ==> IsBy(evs[j], cid)
  {
    var owner := evs[i].action.cid;
    SoleOwnerIgnoresCase(cfg, cid, owner);
    forall k | i < k < j
      ensures evs[k].action != AdminDelete(a)
      ensures IsBy(evs[k], owner) ==>
                && !GivesBack(evs[k].action.request)
                && (evs[k].action.request.Discover? || evs[k].action.request.Solicit6? ==>
                      evs[j].now < evs[k].now + OfferHold(cfg))
    {
      assert Undisturbed(cfg, evs[k], evs[j].now, a, cid);
    }
    GrantsAreExclusive(cfg, evs, i, j, a);
  }

  /** The event leaves the client's lease of `a` alone up to and including time `until`. */
  predicate Undisturbed(cfg: Config, ev: Event, until: int, a: IpAddr, cid: string) {
    && ev.action != AdminDelete(a)
    && (IsBy(ev, cid) ==>
          && !GivesBack(ev.action.request)
          && (ev.action.request.Discover? || ev.action.request.Solicit6? ==> until < ev.now + OfferHold(cfg)))
  }

  lemma NoSolicit(x: Arrival)
    ensures EventOf(x).action.Message? ==> !EventOf(x).action.request.Solicit6?
  {
  }

  /**
   Exclusive grants, on the wire: once a client can read an ACK for an address, no other client can read an OFFER
   or ACK for it in any datagram sent before the lease ends, unless the owner released or declined it, an
   administrator deleted the row, or the offer hold since the owner's own DISCOVER is over. Clients are told apart by
   the bytes of their messages.
   */
  lemma ReadGrantsAreExclusive(s: Setup, xs: seq<Arrival>, i: nat, j: nat, n: U32, m: Frame.Message)
    requires s.scope.family.V4? && TimesAscend(xs) && i < j < |xs| && n != 0
    requires xs[i].input.Datagram? && Frame.Decode(xs[i].input.bytes) == Ok(m) && SoleOwner(CfgOf(s), ClientId(m))
    requires Reads(Sent(s, xs, i), ACK, n) && xs[j].now < xs[i].now + s.scope.leaseSecs
    requires forall k :: i < k < j ==>
      && xs[k].input != Deleting(V4Addr(n)) && !Says(xs[k], 4, m) && !Says(xs[k], 7, m)
      && (Says(xs[k], 1, m) ==> xs[j].now < xs[k].now + OfferHold(CfgOf(s)))
    ensures Reads(Sent(s, xs, j), ACK, n) || Reads(Sent(s, xs, j), OFFER, n) ==> From(xs[j], m)
  {
    var cfg, evs, a, cid := CfgOf(s), EventsOf(xs), V4Addr(n), ClientId(m);
    OwnGrant(s, xs, i, n, m);
    SentReads(s, xs, j, n);
    forall k | i < k < j ensures Undisturbed(cfg, evs[k], evs[j].now, a, cid) {
      assert xs[k].input != Deleting(a) && !Says(xs[k], 4, m) && !Says(xs[k], 7, m);
      Between(xs[k], a, m);
    }
    ExclusiveFor(cfg, evs, i, j, a, cid);
    EventIsBy(xs[j], m);
  }

  /** What a datagram that neither gives the address back nor deletes its row is to the machine. */
  lemma Between(x: Arrival, a: IpAddr, m: Frame.Message)
    requires x.input != Deleting(a) && !Says(x, 4, m) && !Says(x, 7, m)
    ensures EventOf(x).action != AdminDelete(a)
    ensures IsBy(EventOf(x), ClientId(m)) ==> !GivesBack(EventOf(x).action.request) && !EventOf(x).action.request.Solicit6?
    ensures IsBy(EventOf(x), ClientId(m)) && EventOf(x).action.request.Discover? ==> Says(x, 1, m)
  {
    NoSolicit(x);
    DeletionsAreSeen(x, a);
    EventIsBy(x, m);
  }

  /** What the client of `m` can read in the reply to `m` was granted to it. */
  lemma OwnGrant(s: Setup, xs: seq<Arrival>, i: nat, n: U32, m: Frame.Message)
    requires i < |xs| && n != 0 && xs[i].input.Datagram? && Frame.Decode(xs[i].input.bytes) == Ok(m)
    requires Reads(Sent(s, xs, i), ACK, n) || Reads(Sent(s, xs, i), OFFER, n)
    ensures IsBy(EventsOf(xs)[i], ClientId(m)) && GrantOf(ReplyAt(CfgOf(s), EventsOf(xs), i)) == Some(V4Addr(n))
    ensures Reads(Sent(s, xs, i), ACK, n) ==> ReplyAt(CfgOf(s), EventsOf(xs), i) == Ack(V4Addr(n))
    ensures Reads(Sent(s, xs, i), OFFER, n) ==> ReplyAt(CfgOf(s), EventsOf(xs), i) == Offer(V4Addr(n))
  {
    SentReads(s, xs, i, n);
    RepliesAnswerDatagrams(s, xs, i);
    OwnEvent(xs[i], m);
  }

  lemma OwnEvent(x: Arrival, m: Frame.Message)
    requires x.input.Datagram? && Frame.Decode(x.input.bytes) == Ok(m) && EventOf(x).action.Message?
    ensures IsBy(EventOf(x), ClientId(m))
  {
  }

  lemma DeletionsAreSeen(x: Arrival, a: IpAddr)
    ensures EventOf(x).action == AdminDelete(a) <==> x.input == Deleting(a)
  {
  }

  lemma SoleOwnerIgnoresCase(cfg: Config, c: string, d: string)
    requires SameId(c, d) && SoleOwner(cfg, c)
    ensures SoleOwner(cfg, d)
  {
    ReservedForIgnoresCase(cfg.reservations, c, d);
    forall e: string ensures !ReservationClash(cfg, d, e) {
      assert !ReservationClash(cfg, c, e);
    }
  }

  /** The message asks for `n`: its option 50 spells it, or it has none of four bytes and ciaddr is `n` or zero. */
  predicate AsksFor(p: Frame.Message, n: U32) {
    var v := OptionOf(p.options, 50);
    if v.Some? && |v.value| == 4 then v.value == U32Bytes(n) else p.ciaddr == 0 || p.ciaddr == n
  }

  lemma AskedIsDesired(p: Frame.Message, n: U32)
    requires AsksFor(p, n)
    ensures Desired(RequestedIp(p), p.ciaddr) == None || Desired(RequestedIp(p), p.ciaddr) == Some(V4Addr(n))
  {
    U32RoundTrip(n);
  }

  /**
   Honoured offers, on the wire: a client that can read an OFFER for an address and sends a request for it within
   the offer hold can read an ACK for it, whatever datagrams of other clients, sweeps and its own other datagrams
   come between.
   */
  lemma ReadOffersAreHonoured(s: Setup, xs: seq<Arrival>, i: nat, j: nat, n: U32, m: Frame.Message)
    requires s.scope.family.V4? && TimesAscend(xs) && i < j < |xs| && n != 0
    requires xs[i].input.Datagram? && Frame.Decode(xs[i].input.bytes) == Ok(m) && Reads(Sent(s, xs, i), OFFER, n)
    requires Says(xs[j], 3, m) && AsksFor(Frame.Decode(xs[j].input.bytes).value, n)
    requires xs[j].now < xs[i].now + OfferHold(CfgOf(s))
    requires forall k :: i < k < j ==> xs[k].input != Deleting(V4Addr(n)) && !Says(xs[k], 4, m) && !Says(xs[k], 7, m)
    ensures Reads(Sent(s, xs, j), ACK, n)
  {
    var cfg, evs, a, cid := CfgOf(s), EventsOf(xs), V4Addr(n), ClientId(m);
    OwnGrant(s, xs, i, n, m);
    SentReads(s, xs, j, n);
    AskingEvent(xs[j], m, n);
    forall k | i < k < j ensures evs[k].action != AdminDelete(a) && (IsBy(evs[k], cid) ==> !GivesBack(evs[k].action.request)) {
      assert xs[k].input != Deleting(a) && !Says(xs[k], 4, m) && !Says(xs[k], 7, m);
      Between(xs[k], a, m);
    }
    HonouredFor(cfg, evs, i, j, a, cid);
  }

  lemma AskingEvent(x: Arrival, m: Frame.Message, n: U32)
    requires Says(x, 3, m) && AsksFor(Frame.Decode(x.input.bytes).value, n)
    ensures IsBy(EventOf(x), ClientId(m)) && EventOf(x).action.request.Request?
    ensures var q := EventOf(x).action.request;
            Desired(q.wanted, q.ciaddr) == None || Desired(q.wanted, q.ciaddr) == Some(V4Addr(n))
  {
    EventIsBy(x, m);
    AskedIsDesired(Frame.Decode(x.input.bytes).value, n);
  }

  lemma HonouredFor(cfg: Config, evs: seq<Event>, i: nat, j: nat, a: IpAddr, cid: string)
    requires ClockNeverRunsBack(evs) && cfg.scope.family.V4?
    requires i < j < |evs| && IsBy(evs[i], cid) && ReplyAt(cfg, evs, i) == Offer(a)
    requires IsBy(evs[j], cid) && evs[j].action.request.Request?
    requires var q := evs[j].action.request; Desired(q.wanted, q.ciaddr) == None || Desired(q.wanted, q.ciaddr) == Some(a)
    requires evs[j].now < evs[i].now + OfferHold(cfg)
    requires forall k :: i < k < j ==>
      evs[k].action != AdminDelete(a) && (IsBy(evs[k], cid) ==> !GivesBack(evs[k].action.request))
    ensures ReplyAt(cfg, evs, j) == Ack(a)
  {
    var owner, q := evs[i].action.cid, evs[j].action.request;
    forall k | i < k < j
      ensures evs[k].action != AdminDelete(a) && (IsBy(evs[k], owner) ==> !GivesBack(evs[k].action.request))
    {
      assert IsBy(evs[k], owner) == IsBy(evs[k], cid);
    }
    OffersAreHonoured(cfg, evs, i, j, a, q.wanted, q.ciaddr);
  }

  // ----- The loop -----

  /** `merged_for_client` */
  method MergeFor(s: Setup, cid: string) returns (merged: seq<Reply4.Served>)
    ensures merged == MergedFor(s, cid)
  {
    var i := 0;
    while i < |s.entries| && !SameId(s.entries[i].reservation.identifier, cid)
      invariant 0 <= i <= |s.entries| && FirstEntry(s.entries, cid, 0) == FirstEntry(s.entries, cid, i)
    {
      i := i + 1;
    }
    if i == |s.entries| {
      return s.options;
    }
    merged := Reply4.MergeOptions(s.options, s.entries[i].options);
  }

  /** The reply part of `handle_v4`. */
  method BuildCarried(s: Setup, m: Frame.Message, r: Reply) returns (out: Option<seq<Byte>>)
    ensures out == Carry(s, m, r)
  {
    var merged := MergeFor(s, ClientId(m));
    var bytes: seq<Byte>;
    match r {
      case Offer(V4Addr(n)) => bytes := Reply4.BuildReply(m, ReplyScopeOf(s), merged, n, Reply4.Offer);
      case Ack(V4Addr(n)) => bytes := Reply4.BuildReply(m, ReplyScopeOf(s), merged, n, Reply4.Ack);
      case Nak => bytes := Reply4.BuildReply(m, ReplyScopeOf(s), [], 0, Reply4.Nak);
      case InformAck => bytes := Reply4.BuildReply(m, ReplyScopeOf(s), merged, 0, Reply4.Ack);
      case _ => return None;
    }
    return Some(bytes);
  }

  /** One arrival: parse, step, build. */
  method ServeArrival(server: Server, s: Setup, x: Arrival) returns (out: Option<seq<Byte>>)
    requires server.cfg == CfgOf(s) && Inv(server.cfg, server.rows, x.now)
    modifies server
    ensures server.rows == Step(server.cfg, old(server.rows), EventOf(x)).0
    ensures out == Out(s, x, Step(server.cfg, old(server.rows), EventOf(x)).1)
  {
    var reply := server.Take(EventOf(x));
    if x.input.Datagram? {
      var m := Frame.Parse(x.input.bytes);
      if m.Ok? {
        out := BuildCarried(s, m.value, reply);
        return;
      }
    }
    return None;
  }

  lemma NextTable(s: Setup, xs: seq<Arrival>, k: nat)
    requires k < |xs| && TimesAscend(xs)
    ensures ClockNeverRunsBack(EventsOf(xs))
    ensures Inv(CfgOf(s), After(CfgOf(s), EventsOf(xs), k), xs[k].now)
  {
    ReachableTablesAreGood(CfgOf(s), EventsOf(xs), k, xs[k].now);
  }

  /** What is sent at each point of the run. */
  ghost function SentBy(s: Setup, xs: seq<Arrival>): nat -> Option<seq<Byte>> {
    (k: nat) => if k < |xs| then Sent(s, xs, k) else None
  }

  /** The server stands where the first `k` arrivals leave it. */
  ghost predicate StandsAt(server: Server, s: Setup, xs: seq<Arrival>, k: nat)
    reads server
  {
    k <= |xs| && server.cfg == CfgOf(s) && TimesAscend(xs) && server.rows == After(CfgOf(s), EventsOf(xs), k)
  }

  method ServeNext(server: Server, s: Setup, xs: seq<Arrival>, k: nat) returns (out: Option<seq<Byte>>)
    requires k < |xs| && StandsAt(server, s, xs, k)
    modifies server
    ensures StandsAt(server, s, xs, k + 1) && out == SentBy(s, xs)(k)
  {
    NextTable(s, xs, k);
    assert EventsOf(xs)[k] == EventOf(xs[k]);
    out := ServeArrival(server, s, xs[k]);
  }

  /** A whole run of datagrams, sweeps and deletions, on the empty table to start with. */
  method ServeDatagrams(server: Server, s: Setup, xs: seq<Arrival>) returns (outs: seq<Option<seq<Byte>>>)
    requires StandsAt(server, s, xs, 0)
    modifies server
    ensures StandsAt(server, s, xs, |xs|)
    ensures |outs| == |xs| && forall k :: 0 <= k < |xs| ==> outs[k] == SentBy(s, xs)(k)
  {
    outs := [];
    ghost var sent := SentBy(s, xs);
    for k := 0 to |xs|
      invariant StandsAt(server, s, xs, k)
      invariant |outs| == k && forall i :: 0 <= i < k ==> outs[i] == sent(i)
    {
      var out := ServeNext(server, s, xs, k);
      outs := outs + [out];
    }
  }
}
