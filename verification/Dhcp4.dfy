/** The DHCPv4 message codec (src/dhcp/v4.rs; section 2 of RFC 2131, section 2 of RFC 2132). */
module Dhcp4 {
  import opened Wrappers
  import opened Seqs
  import opened Bytes
  import opened OptionLists

  const MAGIC_COOKIE: seq<Byte> := [0x63, 0x82, 0x53, 0x63]
  const COOKIE_OFFSET: int := 236
  const MIN_LEN: int := 240
  const PAD: Byte := 0
  const END: Byte := 255

  type Opt = Coded<Byte>

  // ----- The option region -----

  /** PAD and END are never written as data; a value is cut to what one length byte can carry. */
  function EncodeOption(o: Opt): seq<Byte> {
    if o.code == PAD || o.code == END then []
    else
      var len := Min(|o.value|, 255);
      [o.code, len] + o.value[..len]
  }

  function EncodeOptions(opts: seq<Opt>): seq<Byte> {
    if opts == [] then [END] else EncodeOption(opts[0]) + EncodeOptions(opts[1..])
  }

  /** The options from position `i` to the END marker or the end of the buffer. */
  function ParseOptions(b: seq<Byte>, i: nat): Result<seq<Opt>>
    requires i <= |b|
    decreases |b| - i
  {
    if i == |b| then Ok([])
    else if b[i] == PAD then ParseOptions(b, i + 1)
    else if b[i] == END then Ok([])
    else if i + 2 > |b| || i + 2 + b[i + 1] > |b| then Err
    else
      var next := i + 2 + b[i + 1];
      var rest := ParseOptions(b, next);
      if rest.Err? then Err else Ok([Opt(b[i], b[i + 2..next])] + rest.value)
  }

  /** An option the region can carry unchanged: codes 1 to 254, at most 255 bytes. */
  predicate Carried(o: Opt) {
    o.code != PAD && o.code != END && |o.value| <= 255
  }

  /** What is left of an option list on the wire. */
  function Normal(opts: seq<Opt>): seq<Opt> {
    if opts == [] then []
    else if opts[0].code == PAD || opts[0].code == END then Normal(opts[1..])
    else [Opt(opts[0].code, opts[0].value[..Min(|opts[0].value|, 255)])] + Normal(opts[1..])
  }

  /** One encoded option at the position behind `pre`. */
  lemma ParseEncodedOption(pre: seq<Byte>, o: Opt, rest: seq<Byte>, tail: seq<Opt>)
    requires o.code != PAD && o.code != END
    requires ParseOptions(pre + EncodeOption(o) + rest, |pre + EncodeOption(o)|) == Ok(tail)
    ensures ParseOptions(pre + EncodeOption(o) + rest, |pre|)
         == Ok([Opt(o.code, o.value[..Min(|o.value|, 255)])] + tail)
  {
    var b, i, len := pre + EncodeOption(o) + rest, |pre|, Min(|o.value|, 255);
    assert b[i] == o.code && b[i + 1] == len && b[i + 2..i + 2 + len] == o.value[..len];
  }

  lemma EncodeFirst(pre: seq<Byte>, opts: seq<Opt>)
    requires opts != []
    ensures pre + EncodeOptions(opts) == pre + EncodeOption(opts[0]) + EncodeOptions(opts[1..])
  {
  }

  /** Parsing what was built, behind any prefix, gives the options back as far as the region carries them. */
  lemma {:induction false} ParseUndoesEncode(pre: seq<Byte>, opts: seq<Opt>)
    ensures ParseOptions(pre + EncodeOptions(opts), |pre|) == Ok(Normal(opts))
    decreases |opts|
  {
    if opts == [] {
      assert (pre + [END])[|pre|] == END;
    } else {
      var o := opts[0];
      EncodeFirst(pre, opts);
      ParseUndoesEncode(pre + EncodeOption(o), opts[1..]);
      if o.code == PAD || o.code == END {
        assert pre + EncodeOption(o) == pre;
      } else {
        ParseEncodedOption(pre, o, EncodeOptions(opts[1..]), Normal(opts[1..]));
      }
    }
  }

  lemma {:induction false} NormalSize(opts: seq<Opt>)
    ensures |Normal(opts)| <= |opts|
  {
    if opts != [] {
      NormalSize(opts[1..]);
    }
  }

  lemma {:induction false} NormalIffCarried(opts: seq<Opt>)
    ensures Normal(opts) == opts <==> forall o :: o in opts ==> Carried(o)
  {
    if opts != [] {
      var o, rest := opts[0], opts[1..];
      NormalIffCarried(rest);
      NormalSize(rest);
      assert opts == [o] + rest;
      assert (forall x :: x in opts ==> Carried(x)) <==> Carried(o) && forall x :: x in rest ==> Carried(x);
      if Carried(o) {
        assert o.value[..|o.value|] == o.value;
        assert Normal(opts) == [o] + Normal(rest);
        assert Normal(opts)[1..] == Normal(rest);
      } else if o.code != PAD && o.code != END {
        assert |Normal(opts)[0].value| == 255 < |o.value|;
      }
    }
  }

  lemma {:induction false} ParsedOptionsAreCarried(b: seq<Byte>, i: nat)
    requires i <= |b|
    ensures ParseOptions(b, i).Ok? ==> forall o :: o in ParseOptions(b, i).value ==> Carried(o)
    decreases |b| - i
  {
    if i < |b| && ParseOptions(b, i).Ok? && b[i] != END {
      ParsedOptionsAreCarried(b, if b[i] == PAD then i + 1 else i + 2 + b[i + 1]);
    }
  }

  /** The whole parse, given what was collected before position `i`. */
  ghost predicate Continues(goal: Result<seq<Opt>>, out: seq<Opt>, b: seq<Byte>, i: nat)
    requires i <= |b|
  {
    && (goal.Ok? <==> ParseOptions(b, i).Ok?)
    && (goal.Ok? ==> goal.value == out + ParseOptions(b, i).value)
  }

  lemma ContinuesOption(goal: Result<seq<Opt>>, out: seq<Opt>, b: seq<Byte>, i: nat)
    requires i + 2 <= |b| && b[i] != PAD && b[i] != END && i + 2 + b[i + 1] <= |b| && Continues(goal, out, b, i)
    ensures Continues(goal, out + [Opt(b[i], b[i + 2..i + 2 + b[i + 1]])], b, i + 2 + b[i + 1])
  {
  }

  lemma ContinuesToEnd(goal: Result<seq<Opt>>, out: seq<Opt>, b: seq<Byte>, i: nat)
    requires i <= |b| && Continues(goal, out, b, i) && (i == |b| || b[i] == END)
    ensures goal == Ok(out)
  {
    assert goal.value == out;
  }

  /** `parse_options`: an index loop, in bounds on every input. */
  method ParseOptionsLoop(b: seq<Byte>, start: nat) returns (r: Result<seq<Opt>>)
    requires start <= |b|
    ensures r == ParseOptions(b, start)
  {
    var out: seq<Opt> := [];
    var i := start;
    ghost var goal := ParseOptions(b, start);
    while i < |b| && b[i] != END
      invariant start <= i <= |b| && Continues(goal, out, b, i)
    {
      var code := b[i];
      i := i + 1;
      if code == PAD {
        continue;
      }
      if i >= |b| {
        return Err;
      }
      var len := b[i];
      i := i + 1;
      if i + len > |b| {
        return Err;
      }
      ContinuesOption(goal, out, b, i - 2);
      out := out + [Opt(code, b[i..i + len])];
      i := i + len;
    }
    ContinuesToEnd(goal, out, b, i);
    return Ok(out);
  }

  // ----- Messages -----

  type Bytes16 = s: seq<Byte> | |s| == 16 witness seq(16, i => 0)
  type Bytes64 = s: seq<Byte> | |s| == 64 witness seq(64, i => 0)
  type Bytes128 = s: seq<Byte> | |s| == 128 witness seq(128, i => 0)

  /** Addresses are big-endian 32-bit numbers; 0 is the unspecified address. */
  datatype Message = Message(
    op: Byte, htype: Byte, hlen: Byte, hops: Byte, xid: U32, secs: U16, flags: U16,
    ciaddr: U32, yiaddr: U32, siaddr: U32, giaddr: U32,
    chaddr: Bytes16, sname: Bytes64, file: Bytes128, options: seq<Opt>)

  function Words(m: Message): (b: seq<Byte>)
    ensures |b| == 12
  {
    [m.op, m.htype, m.hlen, m.hops] + U32Bytes(m.xid) + U16Bytes(m.secs) + U16Bytes(m.flags)
  }

  function Addresses(m: Message): (b: seq<Byte>)
    ensures |b| == 16
  {
    U32Bytes(m.ciaddr) + U32Bytes(m.yiaddr) + U32Bytes(m.siaddr) + U32Bytes(m.giaddr)
  }

  function Header(m: Message): (b: seq<Byte>)
    ensures |b| == COOKIE_OFFSET
  {
    Words(m) + Addresses(m) + m.chaddr + m.sname + m.file
  }

  function Encode(m: Message): seq<Byte> {
    Header(m) + MAGIC_COOKIE + EncodeOptions(m.options)
  }

  function Decode(b: seq<Byte>): Result<Message> {
    if |b| < MIN_LEN || b[COOKIE_OFFSET..MIN_LEN] != MAGIC_COOKIE then Err
    else
      var opts := ParseOptions(b, MIN_LEN);
      if opts.Err? then Err
      else Ok(Message(b[0], b[1], b[2], b[3], U32Of(b[4..8]), U16Of(b[8..10]), U16Of(b[10..12]),
                      U32Of(b[12..16]), U32Of(b[16..20]), U32Of(b[20..24]), U32Of(b[24..28]),
                      b[28..44], b[44..108], b[108..236], opts.value))
  }

  method PushHeader(m: Message) returns (buf: seq<Byte>)
    ensures buf == Header(m)
  {
    buf := [m.op, m.htype, m.hlen, m.hops];
    buf := buf + U32Bytes(m.xid) + U16Bytes(m.secs) + U16Bytes(m.flags);
    var addrs := U32Bytes(m.ciaddr) + U32Bytes(m.yiaddr) + U32Bytes(m.siaddr) + U32Bytes(m.giaddr);
    buf := buf + addrs;
    buf := buf + m.chaddr + m.sname + m.file;
  }

  lemma EncodeAt(opts: seq<Opt>, i: nat)
    requires i < |opts|
    ensures EncodeOptions(opts[i..]) == EncodeOption(opts[i]) + EncodeOptions(opts[i + 1..])
  {
    assert opts[i..][1..] == opts[i + 1..];
  }

  method PushOption(buf: seq<Byte>, o: Opt) returns (out: seq<Byte>)
    ensures out == buf + EncodeOption(o)
  {
    if o.code == PAD || o.code == END {
      return buf;
    }
    var len := if |o.value| <= 255 then |o.value| else 255;
    out := buf + ([o.code, len] + o.value[..len]);
  }

  method PushOptions(buf: seq<Byte>, opts: seq<Opt>) returns (out: seq<Byte>)
    ensures out == buf + EncodeOptions(opts)
  {
    out := buf;
    assert opts[0..] == opts;
    for i := 0 to |opts|
      invariant buf + EncodeOptions(opts) == out + EncodeOptions(opts[i..])
    {
      EncodeAt(opts, i);
      AppendAssociates(out, EncodeOption(opts[i]), EncodeOptions(opts[i + 1..]));
      out := PushOption(out, opts[i]);
    }
    assert EncodeOptions(opts[|opts|..]) == [END];
    out := out + [END];
  }

  /** `build`: the header, the cookie and each option, then END. */
  method Build(m: Message) returns (buf: seq<Byte>)
    ensures buf == Encode(m)
  {
    buf := PushHeader(m);
    buf := PushOptions(buf + MAGIC_COOKIE, m.options);
  }

  method Parse(b: seq<Byte>) returns (r: Result<Message>)
    ensures r == Decode(b)
  {
    if |b| < MIN_LEN {
      return Err;
    }
    if b[COOKIE_OFFSET..COOKIE_OFFSET + 4] != MAGIC_COOKIE {
      return Err;
    }
    var opts := ParseOptionsLoop(b, MIN_LEN);
    if opts.Err? {
      return Err;
    }
    return Ok(Message(b[0], b[1], b[2], b[3], U32Of(b[4..8]), U16Of(b[8..10]), U16Of(b[10..12]),
                      U32Of(b[12..16]), U32Of(b[16..20]), U32Of(b[20..24]), U32Of(b[24..28]),
                      b[28..44], b[44..108], b[108..236], opts.value));
  }

  lemma WordsDecode(m: Message)
    ensures var w := Words(m);
            && w[0] == m.op && w[1] == m.htype && w[2] == m.hlen && w[3] == m.hops
            && U32Of(w[4..8]) == m.xid && U16Of(w[8..10]) == m.secs && U16Of(w[10..12]) == m.flags
  {
    var w := Words(m);
    assert w[4..8] == U32Bytes(m.xid) && w[8..10] == U16Bytes(m.secs) && w[10..12] == U16Bytes(m.flags);
    U32RoundTrip(m.xid);
    U16RoundTrip(m.secs);
    U16RoundTrip(m.flags);
  }

  lemma AddressesDecode(m: Message)
    ensures var a := Addresses(m);
            && U32Of(a[0..4]) == m.ciaddr && U32Of(a[4..8]) == m.yiaddr
            && U32Of(a[8..12]) == m.siaddr && U32Of(a[12..16]) == m.giaddr
  {
    var a := Addresses(m);
    assert a[0..4] == U32Bytes(m.ciaddr) && a[4..8] == U32Bytes(m.yiaddr);
    assert a[8..12] == U32Bytes(m.siaddr) && a[12..16] == U32Bytes(m.giaddr);
    U32RoundTrip(m.ciaddr);
    U32RoundTrip(m.yiaddr);
    U32RoundTrip(m.siaddr);
    U32RoundTrip(m.giaddr);
  }

  /** A slice of a slice, for fields inside a header block. */
  lemma SubSlice(b: seq<Byte>, lo: nat, hi: nat, i: nat, j: nat)
    requires lo <= hi <= |b| && i <= j <= hi - lo
    ensures b[lo..hi][i..j] == b[lo + i..lo + j]
  {
    var x, y := b[lo..hi][i..j], b[lo + i..lo + j];
    assert |x| == |y| && forall k :: 0 <= k < |x| ==> x[k] == y[k];
  }

  lemma HeaderBlocks(m: Message)
    ensures var b := Encode(m);
            && |b| >= MIN_LEN
            && b[0..12] == Words(m) && b[12..28] == Addresses(m)
            && b[28..44] == m.chaddr && b[44..108] == m.sname && b[108..236] == m.file
            && b[COOKIE_OFFSET..MIN_LEN] == MAGIC_COOKIE
  {
    var b := Encode(m);
    assert b[0..12] == Words(m);
    assert b[12..28] == Addresses(m);
  }

  /** What a built message parses to: the same message, up to what the option region cannot carry. */
  lemma DecodeUndoesEncode(m: Message)
    ensures Decode(Encode(m)) == Ok(m.(options := Normal(m.options)))
  {
    var b := Encode(m);
    HeaderBlocks(m);
    WordsDecode(m);
    AddressesDecode(m);
    ParseUndoesEncode(Header(m) + MAGIC_COOKIE, m.options);
    SubSlice(b, 0, 12, 4, 8);
    SubSlice(b, 0, 12, 8, 10);
    SubSlice(b, 0, 12, 10, 12);
    SubSlice(b, 12, 28, 0, 4);
    SubSlice(b, 12, 28, 4, 8);
    SubSlice(b, 12, 28, 8, 12);
    SubSlice(b, 12, 28, 12, 16);
    assert b[0] == b[0..12][0] && b[1] == b[0..12][1] && b[2] == b[0..12][2] && b[3] == b[0..12][3];
  }

  /** A message survives the wire if and only if its options have codes 1 to 254 and at most 255 bytes. */
  lemma RoundTripIffCarried(m: Message)
    ensures Decode(Encode(m)) == Ok(m) <==> forall o :: o in m.options ==> Carried(o)
  {
    DecodeUndoesEncode(m);
    NormalIffCarried(m.options);
  }

  /** Rebuilding an accepted frame and parsing it again gives the same message. */
  lemma ReparsingIsStable(b: seq<Byte>)
    ensures Decode(b).Ok? ==> Decode(Encode(Decode(b).value)) == Decode(b)
  {
    if Decode(b).Ok? {
      ParsedOptionsAreCarried(b, MIN_LEN);
      RoundTripIffCarried(Decode(b).value);
    }
  }
}
