/**
 DHCPv4 replies: option merging, the reply builder, and what a client reads back from the wire
 (src/dhcp/server.rs `merge_options`, `build_v4_reply`; section 4.3.1 of RFC 2131).

 A configured option carries its encoded bytes (`None` when encoding its text fails), its raw text, and the
 IPv4 address that text spells, if any.
 */
module Dhcp4Reply {
  import opened Wrappers
  import opened Bytes
  import opened OptionLists
  import opened Dhcp4

  datatype Served = Served(code: U16, encoded: Option<seq<Byte>>, text: seq<Byte>, textIp: Option<U32>)

  datatype MessageType = Discover | Offer | Request | Decline | Ack | Nak | Release | Inform

  function TypeCode(t: MessageType): Byte {
    match t
    case Discover => 1
    case Offer => 2
    case Request => 3
    case Decline => 4
    case Ack => 5
    case Nak => 6
    case Release => 7
    case Inform => 8
  }

  // ----- Merging -----

  function MergeOne(out: seq<Served>, ro: Served): seq<Served> {
    if out == [] then [ro]
    else if out[0].code == ro.code then [ro] + out[1..]
    else [out[0]] + MergeOne(out[1..], ro)
  }

  function Merge(scope: seq<Served>, res: seq<Served>): seq<Served> {
    if res == [] then scope else MergeOne(Merge(scope, res[..|res| - 1]), res[|res| - 1])
  }

  lemma {:induction false} MergeOneIs(slots: seq<Served>, ro: Served, i: nat)
    requires i <= |slots| && (forall j :: 0 <= j < i ==> slots[j].code != ro.code)
    requires i < |slots| ==> slots[i].code == ro.code
    ensures MergeOne(slots, ro) == if i < |slots| then slots[i := ro] else slots + [ro]
    decreases i
  {
    if i > 0 {
      MergeOneIs(slots[1..], ro, i - 1);
      assert slots == [slots[0]] + slots[1..];
    }
  }

  method MergeInPlace(slots: seq<Served>, ro: Served) returns (out: seq<Served>)
    ensures out == MergeOne(slots, ro)
  {
    var k := 0;
    while k < |slots| && slots[k].code != ro.code
      invariant 0 <= k <= |slots| && forall j :: 0 <= j < k ==> slots[j].code != ro.code
    {
      k := k + 1;
    }
    MergeOneIs(slots, ro, k);
    out := if k < |slots| then slots[k := ro] else slots + [ro];
  }

  /** `merge_options`: each reservation option replaces the first slot with its code, else is appended. */
  method MergeOptions(scope: seq<Served>, res: seq<Served>) returns (out: seq<Served>)
    ensures out == Merge(scope, res)
  {
    out := scope;
    for i := 0 to |res|
      invariant out == Merge(scope, res[..i])
    {
      assert res[..i + 1][..i] == res[..i];
      out := MergeInPlace(out, res[i]);
    }
    assert res[..|res|] == res;
  }

  /** The last entry with a code. */
  function LastEntry(s: seq<Served>, c: int): Option<Served> {
    if s == [] then None
    else if s[|s| - 1].code == c then Some(s[|s| - 1])
    else LastEntry(s[..|s| - 1], c)
  }

  // ----- The option part of a reply -----

  predicate Reserved(c: int) {
    c == 1 || c == 51 || c == 53 || c == 54
  }

  /** An entry the builder emits. */
  predicate Emitted(e: Served) {
    !Reserved(e.code) && e.code <= 255 && e.encoded.Some?
  }

  function ApplyOptions(opts: seq<Opt>, merged: seq<Served>): seq<Opt> {
    if merged == [] then opts
    else
      var before := ApplyOptions(opts, merged[..|merged| - 1]);
      var e := merged[|merged| - 1];
      if Emitted(e) then SetOption(before, e.code, e.encoded.value) else before
  }

  /** The value the last emitted entry of a code sets. */
  function ServedValue(merged: seq<Served>, c: int): Option<seq<Byte>> {
    if merged == [] then None
    else
      var e := merged[|merged| - 1];
      if e.code == c && Emitted(e) then e.encoded else ServedValue(merged[..|merged| - 1], c)
  }

  lemma {:induction false} OptionAfterApply(opts: seq<Opt>, merged: seq<Served>, c: Byte)
    ensures OptionOf(ApplyOptions(opts, merged), c)
         == if ServedValue(merged, c).Some? then ServedValue(merged, c) else OptionOf(opts, c)
  {
    if merged != [] {
      var front, e := merged[..|merged| - 1], merged[|merged| - 1];
      OptionAfterApply(opts, front, c);
      if Emitted(e) {
        OptionAfterSet(ApplyOptions(opts, front), e.code, e.encoded.value, c);
      }
    }
  }

  lemma {:induction false} ApplyKeepsDistinct(opts: seq<Opt>, merged: seq<Served>)
    requires DistinctCodes(opts)
    ensures DistinctCodes(ApplyOptions(opts, merged))
  {
    if merged != [] {
      var front, e := merged[..|merged| - 1], merged[|merged| - 1];
      ApplyKeepsDistinct(opts, front);
      if Emitted(e) {
        SetKeepsDistinct(ApplyOptions(opts, front), e.code, e.encoded.value);
      }
    }
  }

  lemma {:induction false} ReservedIsNeverServed(merged: seq<Served>, c: int)
    requires Reserved(c)
    ensures ServedValue(merged, c) == None
  {
    if merged != [] {
      ReservedIsNeverServed(merged[..|merged| - 1], c);
    }
  }

  // ----- Which entry prevails -----

  /** The entries behind the first one with the code. */
  function Later(s: seq<Served>, c: int): seq<Served> {
    if s == [] then [] else if s[0].code == c then s[1..] else Later(s[1..], c)
  }

  /** What one entry sets under a code. */
  function Sets(e: Served, c: int): Option<seq<Byte>> {
    if e.code == c && Emitted(e) then e.encoded else None
  }

  function Or<T>(x: Option<T>, y: Option<T>): Option<T> {
    if x.Some? then x else y
  }

  lemma {:induction false} ServedFromTheFront(e: Served, s: seq<Served>, c: int)
    ensures ServedValue([e] + s, c) == Or(ServedValue(s, c), Sets(e, c))
  {
    var all := [e] + s;
    if s == [] {
      assert all[..0] == [];
    } else {
      assert all[..|all| - 1] == [e] + s[..|s| - 1];
      ServedFromTheFront(e, s[..|s| - 1], c);
    }
  }

  lemma {:induction false} MergeOneServes(m: seq<Served>, ro: Served, c: int)
    ensures ServedValue(MergeOne(m, ro), c)
         == if ro.code == c then Or(ServedValue(Later(m, c), c), Sets(ro, c)) else ServedValue(m, c)
    ensures ServedValue(Later(MergeOne(m, ro), c), c) == ServedValue(Later(m, c), c)
  {
    if m == [] {
      ServedFromTheFront(ro, [], c);
      assert [ro][1..] == [] && [ro] + [] == [ro];
    } else {
      var rest := m[1..];
      assert m == [m[0]] + rest;
      ServedFromTheFront(m[0], rest, c);
      if m[0].code == ro.code {
        ServedFromTheFront(ro, rest, c);
      } else {
        MergeOneServes(rest, ro, c);
        ServedFromTheFront(m[0], MergeOne(rest, ro), c);
        LaterBehind(m[0], MergeOne(rest, ro), c);
      }
    }
  }

  lemma LaterBehind(e: Served, s: seq<Served>, c: int)
    ensures Later([e] + s, c) == if e.code == c then s else Later(s, c)
  {
    assert ([e] + s)[1..] == s;
  }

  /**
   The value that prevails for a code: without a reservation entry the scope's; otherwise what the scope lists
   behind its first entry, which is the only one replaced, and only then the reservation's last entry.
   */
  function Prevailing(scope: seq<Served>, res: seq<Served>, c: int): Option<seq<Byte>> {
    var r := LastEntry(res, c);
    if r.None? then ServedValue(scope, c) else Or(ServedValue(Later(scope, c), c), Sets(r.value, c))
  }

  /** For every scope and reservation, repeated codes included. */
  lemma {:induction false} MergeServesPrevailing(scope: seq<Served>, res: seq<Served>, c: int)
    ensures ServedValue(Merge(scope, res), c) == Prevailing(scope, res, c)
    ensures ServedValue(Later(Merge(scope, res), c), c) == ServedValue(Later(scope, c), c)
  {
    if res != [] {
      var front, ro := res[..|res| - 1], res[|res| - 1];
      MergeServesPrevailing(scope, front, c);
      MergeOneServes(Merge(scope, front), ro, c);
    }
  }

  /**
   A reservation's value is the one served if and only if the scope lists no other value that encodes behind its
   first entry with the code. In particular it wins where the scope lists the code once.
   */
  lemma ReservationWinsIff(scope: seq<Served>, res: seq<Served>, c: int)
    requires LastEntry(res, c).Some? && Emitted(LastEntry(res, c).value)
    ensures var v := LastEntry(res, c).value.encoded;
            ServedValue(Merge(scope, res), c) == v
            <==> ServedValue(Later(scope, c), c).None? || ServedValue(Later(scope, c), c) == v
  {
    MergeServesPrevailing(scope, res, c);
    LastEntryHasCode(res, c);
  }

  lemma {:induction false} LastEntryHasCode(s: seq<Served>, c: int)
    ensures LastEntry(s, c).Some? ==> LastEntry(s, c).value in s && LastEntry(s, c).value.code == c
    ensures LastEntry(s, c).None? <==> forall x :: x in s ==> x.code != c
  {
    if s != [] {
      var front := s[..|s| - 1];
      LastEntryHasCode(front, c);
      assert forall x :: x in s <==> x in front || x == s[|s| - 1];
    }
  }

  lemma {:induction false} OptionOnTheWire(opts: seq<Opt>, c: Byte)
    ensures OptionOf(Normal(opts), c) == if c == PAD || c == END then None else Cut(OptionOf(opts, c), 255)
  {
    if opts != [] {
      OptionOnTheWire(opts[1..], c);
    }
  }

  lemma {:induction false} NormalKeepsDistinct(opts: seq<Opt>)
    requires DistinctCodes(opts)
    ensures DistinctCodes(Normal(opts))
    ensures forall o :: o in Normal(opts) ==> exists p :: p in opts && p.code == o.code
  {
    if opts != [] {
      var rest := opts[1..];
      NormalKeepsDistinct(rest);
      assert forall p :: p in rest ==> p in opts;
      var r := Normal(rest);
      forall i | 0 <= i < |r| ensures r[i].code != opts[0].code {
        assert r[i] in r;
        var p :| p in rest && p.code == r[i].code;
        var j :| 0 <= j < |rest| && rest[j] == p;
        assert opts[j + 1] == p;
      }
    }
  }

  // ----- The reply -----

  /** The scope's fields a reply needs; `None` for text that does not parse. */
  datatype ReplyScope = ReplyScope(serverId: Option<U32>, mask: Option<U32>, leaseSecs: U32)

  function ServerOf(scope: ReplyScope): U32 {
    if scope.serverId.Some? then scope.serverId.value else 0
  }

  function Overlay(file: Bytes128, text: seq<Byte>): Bytes128 {
    var n := Min(|text|, 128);
    text[..n] + file[n..]
  }

  /** Option 67 is mirrored into `file`, a literal address in option 66 into `siaddr`. */
  function FileAfter(merged: seq<Served>): Bytes128 {
    if merged == [] then seq(128, i => 0)
    else
      var e := merged[|merged| - 1];
      if e.code == 67 then Overlay(FileAfter(merged[..|merged| - 1]), e.text) else FileAfter(merged[..|merged| - 1])
  }

  function SiaddrAfter(merged: seq<Served>, server: U32): U32 {
    if merged == [] then server
    else
      var e := merged[|merged| - 1];
      if e.code == 66 && e.textIp.Some? then e.textIp.value else SiaddrAfter(merged[..|merged| - 1], server)
  }

  function FixedOptions(scope: ReplyScope, yiaddr: U32, t: MessageType): seq<Opt> {
    var o := SetOption(SetOption([], 53, [TypeCode(t)]), 54, U32Bytes(ServerOf(scope)));
    var p := if yiaddr != 0 then SetOption(o, 51, U32Bytes(scope.leaseSecs)) else o;
    if scope.mask.Some? then SetOption(p, 1, U32Bytes(scope.mask.value)) else p
  }

  function ReplyMessage(req: Message, scope: ReplyScope, merged: seq<Served>, yiaddr: U32, t: MessageType): Message {
    if t.Nak? then
      Message(2, req.htype, req.hlen, 0, req.xid, 0, req.flags, req.ciaddr, 0, ServerOf(scope), req.giaddr, req.chaddr,
              seq(64, i => 0), seq(128, i => 0), SetOption(SetOption([], 53, [TypeCode(t)]), 54, U32Bytes(ServerOf(scope))))
    else
      Message(2, req.htype, req.hlen, 0, req.xid, 0, req.flags, req.ciaddr, yiaddr, SiaddrAfter(merged, ServerOf(scope)),
              req.giaddr, req.chaddr, seq(64, i => 0), FileAfter(merged),
              ApplyOptions(FixedOptions(scope, yiaddr, t), merged))
  }

  /** The loop over the merged options. */
  method AddOptions(opts: seq<Opt>, merged: seq<Served>) returns (out: seq<Opt>)
    ensures out == ApplyOptions(opts, merged)
  {
    out := opts;
    for i := 0 to |merged|
      invariant out == ApplyOptions(opts, merged[..i])
    {
      assert merged[..i + 1][..i] == merged[..i];
      var e := merged[i];
      if Reserved(e.code) || e.code > 255 {
        continue;
      }
      if e.encoded.Some? {
        out := SetOptionInPlace(out, e.code, e.encoded.value);
      }
    }
    assert merged[..|merged|] == merged;
  }

  /** The loop that bridges to the legacy BOOTP header fields. */
  method Bridge(merged: seq<Served>, server: U32) returns (file: Bytes128, siaddr: U32)
    ensures file == FileAfter(merged) && siaddr == SiaddrAfter(merged, server)
  {
    file, siaddr := seq(128, i => 0), server;
    for i := 0 to |merged|
      invariant file == FileAfter(merged[..i]) && siaddr == SiaddrAfter(merged[..i], server)
    {
      assert merged[..i + 1][..i] == merged[..i];
      var e := merged[i];
      if e.code == 67 {
        var n := if |e.text| <= 128 then |e.text| else 128;
        file := e.text[..n] + file[n..];
      } else if e.code == 66 && e.textIp.Some? {
        siaddr := e.textIp.value;
      }
    }
    assert merged[..|merged|] == merged;
  }

  /** `build_v4_reply` */
  method BuildReply(req: Message, scope: ReplyScope, merged: seq<Served>, yiaddr: U32, t: MessageType) returns (bytes: seq<Byte>)
    ensures bytes == Encode(ReplyMessage(req, scope, merged, yiaddr, t))
  {
    var server := ServerOf(scope);
    var opts := SetOptionInPlace([], 53, [TypeCode(t)]);
    opts := SetOptionInPlace(opts, 54, U32Bytes(server));
    if t.Nak? {
      bytes := Build(Message(2, req.htype, req.hlen, 0, req.xid, 0, req.flags, req.ciaddr, 0, server, req.giaddr,
                             req.chaddr, seq(64, i => 0), seq(128, i => 0), opts));
      return;
    }
    if yiaddr != 0 {
      opts := SetOptionInPlace(opts, 51, U32Bytes(scope.leaseSecs));
    }
    if scope.mask.Some? {
      opts := SetOptionInPlace(opts, 1, U32Bytes(scope.mask.value));
    }
    opts := AddOptions(opts, merged);
    var file, siaddr := Bridge(merged, server);
    bytes := Build(Message(2, req.htype, req.hlen, 0, req.xid, 0, req.flags, req.ciaddr, yiaddr, siaddr, req.giaddr,
                           req.chaddr, seq(64, i => 0), file, opts));
  }

  /** The header fields a reply echoes. */
  ghost predicate Echoes(req: Message, p: Message) {
    && p.op == 2 && p.htype == req.htype && p.hlen == req.hlen && p.xid == req.xid && p.flags == req.flags
    && p.chaddr == req.chaddr && p.giaddr == req.giaddr && p.ciaddr == req.ciaddr && p.hops == 0 && p.secs == 0
  }

  /** What every code of a non-NAK reply carries, as the merged list and the server decide it. */
  function ExpectedOption(scope: ReplyScope, merged: seq<Served>, yiaddr: U32, t: MessageType, c: int): Option<seq<Byte>> {
    if c == 53 then Some([TypeCode(t)])
    else if c == 54 then Some(U32Bytes(ServerOf(scope)))
    else if c == 51 then (if yiaddr != 0 then Some(U32Bytes(scope.leaseSecs)) else None)
    else if c == 1 then (if scope.mask.Some? then Some(U32Bytes(scope.mask.value)) else None)
    else if c <= PAD || END <= c then None
    else Cut(ServedValue(merged, c), 255)
  }

  lemma FixedOption(scope: ReplyScope, yiaddr: U32, t: MessageType, c: Byte)
    ensures OptionOf(FixedOptions(scope, yiaddr, t), c)
         == if Reserved(c) then ExpectedOption(scope, [], yiaddr, t, c) else None
    ensures DistinctCodes(FixedOptions(scope, yiaddr, t))
  {
    var none: seq<Opt> := [];
    var a: seq<Opt> := SetOption(none, 53, [TypeCode(t)]);
    OptionAfterSet<Byte>(none, 53, [TypeCode(t)], c);
    SetKeepsDistinct<Byte>(none, 53, [TypeCode(t)]);
    var o: seq<Opt> := SetOption(a, 54, U32Bytes(ServerOf(scope)));
    OptionAfterSet<Byte>(a, 54, U32Bytes(ServerOf(scope)), c);
    SetKeepsDistinct<Byte>(a, 54, U32Bytes(ServerOf(scope)));
    var p: seq<Opt> := if yiaddr != 0 then SetOption(o, 51, U32Bytes(scope.leaseSecs)) else o;
    OptionAfterSet<Byte>(o, 51, U32Bytes(scope.leaseSecs), c);
    SetKeepsDistinct<Byte>(o, 51, U32Bytes(scope.leaseSecs));
    if scope.mask.Some? {
      OptionAfterSet<Byte>(p, 1, U32Bytes(scope.mask.value), c);
      SetKeepsDistinct<Byte>(p, 1, U32Bytes(scope.mask.value));
    }
  }

  /** A client parsing a non-NAK reply reads back its own header fields and, code by code, the expected options and no others. */
  lemma ReplyThroughTheWire(req: Message, scope: ReplyScope, merged: seq<Served>, yiaddr: U32, t: MessageType, c: Byte)
    requires !t.Nak?
    ensures var r := Decode(Encode(ReplyMessage(req, scope, merged, yiaddr, t)));
            && r.Ok? && Echoes(req, r.value) && r.value.yiaddr == yiaddr
            && r.value.siaddr == SiaddrAfter(merged, ServerOf(scope)) && r.value.file == FileAfter(merged)
            && r.value.sname == seq(64, i => 0)
            && DistinctCodes(r.value.options)
            && OptionOf(r.value.options, c) == ExpectedOption(scope, merged, yiaddr, t, c)
  {
    var m := ReplyMessage(req, scope, merged, yiaddr, t);
    DecodeUndoesEncode(m);
    FixedOption(scope, yiaddr, t, c);
    ApplyKeepsDistinct(FixedOptions(scope, yiaddr, t), merged);
    NormalKeepsDistinct(m.options);
    OptionOnTheWire(m.options, c);
    OptionAfterApply(FixedOptions(scope, yiaddr, t), merged, c);
    if Reserved(c) {
      ReservedIsNeverServed(merged, c);
      var x := OptionOf(m.options, c);
      assert x.Some? ==> x.value[..|x.value|] == x.value;
    }
  }

  // ----- What the fixed parts are -----

  /** The server's own options as a client reads them, by number. */
  lemma OwnOptionsOnTheWire(req: Message, scope: ReplyScope, merged: seq<Served>, yiaddr: U32, t: MessageType)
    requires t.Offer? || t.Ack?
    ensures var r := Decode(Encode(ReplyMessage(req, scope, merged, yiaddr, t)));
            && r.Ok?
            && OptionOf(r.value.options, 53) == Some([if t.Offer? then 2 else 5])
            && OptionOf(r.value.options, 54) == Some(U32Bytes(if scope.serverId.Some? then scope.serverId.value else 0))
            && OptionOf(r.value.options, 51) == (if yiaddr == 0 then None else Some(U32Bytes(scope.leaseSecs)))
            && OptionOf(r.value.options, 1) == (if scope.mask.None? then None else Some(U32Bytes(scope.mask.value)))
  {
    ReplyThroughTheWire(req, scope, merged, yiaddr, t, 53);
    ReplyThroughTheWire(req, scope, merged, yiaddr, t, 54);
    ReplyThroughTheWire(req, scope, merged, yiaddr, t, 51);
    ReplyThroughTheWire(req, scope, merged, yiaddr, t, 1);
  }

  /** Entry `i` names the next server: option 66 spelling an address. */
  predicate NamesServer(e: Served) {
    e.code == 66 && e.textIp.Some?
  }

  /** `siaddr` is the address of the last option 66 that spells one. */
  lemma {:induction false} NextServerIsLastNamed(merged: seq<Served>, server: U32, i: nat)
    requires i < |merged| && NamesServer(merged[i]) && forall j :: i < j < |merged| ==> !NamesServer(merged[j])
    ensures SiaddrAfter(merged, server) == merged[i].textIp.value
  {
    if i < |merged| - 1 {
      assert merged[..|merged| - 1][i] == merged[i];
      NextServerIsLastNamed(merged[..|merged| - 1], server, i);
    }
  }

  /** Without one it is the server's own. */
  lemma {:induction false} NextServerIsOwn(merged: seq<Served>, server: U32)
    requires forall j :: 0 <= j < |merged| ==> !NamesServer(merged[j])
    ensures SiaddrAfter(merged, server) == server
  {
    if merged != [] {
      NextServerIsOwn(merged[..|merged| - 1], server);
    }
  }

  /** Entry `e` gives a boot file name that reaches position `p`. */
  predicate Fills(e: Served, p: nat) {
    e.code == 67 && p < |e.text|
  }

  /** Each byte of `file` is that of the last option 67 long enough to reach it. */
  lemma {:induction false} FileByteIsLastFilled(merged: seq<Served>, p: nat, i: nat)
    requires p < 128 && i < |merged| && Fills(merged[i], p) && forall j :: i < j < |merged| ==> !Fills(merged[j], p)
    ensures FileAfter(merged)[p] == merged[i].text[p]
  {
    if i < |merged| - 1 {
      assert merged[..|merged| - 1][i] == merged[i];
      FileByteIsLastFilled(merged[..|merged| - 1], p, i);
    }
  }

  /** Where none reaches, it is zero. */
  lemma {:induction false} FileByteIsZero(merged: seq<Served>, p: nat)
    requires p < 128 && forall j :: 0 <= j < |merged| ==> !Fills(merged[j], p)
    ensures FileAfter(merged)[p] == 0
  {
    if merged != [] {
      FileByteIsZero(merged[..|merged| - 1], p);
    }
  }

  /** A NAK carries its type and the server identifier, nothing else, and no address. */
  lemma NakThroughTheWire(req: Message, scope: ReplyScope, merged: seq<Served>, yiaddr: U32)
    ensures var r := Decode(Encode(ReplyMessage(req, scope, merged, yiaddr, Nak)));
            var server := if scope.serverId.Some? then scope.serverId.value else 0;
            && r.Ok? && Echoes(req, r.value) && r.value.yiaddr == 0 && r.value.siaddr == server
            && r.value.options == [Opt(53, [6]), Opt(54, U32Bytes(server))]
  {
    var m := ReplyMessage(req, scope, merged, yiaddr, Nak);
    DecodeUndoesEncode(m);
    NakOptions(U32Bytes(ServerOf(scope)));
    NormalIffCarried(m.options);
  }

  lemma NakOptions(server: seq<Byte>)
    requires |server| == 4
    ensures var none: seq<Opt> := [];
            var opts: seq<Opt> := SetOption(SetOption(none, 53, [TypeCode(Nak)]), 54, server);
            opts == [Opt(53, [6]), Opt(54, server)] && forall o :: o in opts ==> Carried(o)
  {
    var first: seq<Opt> := [Opt(53, [6])];
    assert first[1..] == [];
    assert SetOption(first, 54, server) == first + [Opt(54, server)];
  }

  /**
   End to end, for every scope and reservation: under every code outside the server's own the client reads the
   prevailing value, cut at 255 bytes. It reads the reservation's value if and only if no different value (as the
   wire carries it) stands behind the scope's first entry with the code.
   */
  lemma ReservationReachesTheClient(req: Message, scope: ReplyScope, opts: seq<Served>, res: seq<Served>,
                                    yiaddr: U32, t: MessageType, c: Byte)
    requires !t.Nak? && 2 <= c <= 254 && c !in {51, 53, 54}
    ensures var r := Decode(Encode(ReplyMessage(req, scope, Merge(opts, res), yiaddr, t)));
            && r.Ok?
            && OptionOf(r.value.options, c) == Cut(Prevailing(opts, res, c), 255)
            && (LastEntry(res, c).Some? && LastEntry(res, c).value.encoded.Some? ==>
                  var v := LastEntry(res, c).value.encoded;
                  OptionOf(r.value.options, c) == Cut(v, 255)
                  <==> ServedValue(Later(opts, c), c).None? || Cut(ServedValue(Later(opts, c), c), 255) == Cut(v, 255))
  {
    ReplyThroughTheWire(req, scope, Merge(opts, res), yiaddr, t, c);
    MergeServesPrevailing(opts, res, c);
    LastEntryHasCode(res, c);
  }

  /**
   The smallest input on which the reservation loses: a later scope entry beats it, since only the first slot is
   replaced but the last one is sent.
   */
  lemma DuplicateScopeCodeBeatsReservation(c: U16, x: seq<Byte>, y: seq<Byte>, z: seq<Byte>)
    requires 2 <= c <= 254 && !Reserved(c)
    ensures ServedValue(Merge([Served(c, Some(x), [], None), Served(c, Some(y), [], None)], [Served(c, Some(z), [], None)]), c)
         == Some(y)
  {
    var a, b, r := Served(c, Some(x), [], None), Served(c, Some(y), [], None), Served(c, Some(z), [], None);
    assert [r][..0] == [] && Merge([a, b], [r]) == MergeOne([a, b], r) == [r, b];
  }
}
