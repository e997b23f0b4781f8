/**
 The DHCPv4 frame by byte positions, and the option region by its grammar: what every byte string parses to
 (src/dhcp/v4.rs `parse`, `parse_options`; section 2 of RFC 2131, section 2 of RFC 2132).
 */
module Dhcp4Layout {
  import opened Wrappers
  import opened Seqs
  import opened Bytes
  import opened OptionLists
  import opened Dhcp4

  /** Where the fields of an accepted frame stand. */
  lemma FieldsByPosition(b: seq<Byte>)
    requires Decode(b).Ok?
    ensures |b| >= 240 && b[236..240] == [99, 130, 83, 99]
    ensures var m := Decode(b).value;
            && m.op == b[0] && m.htype == b[1] && m.hlen == b[2] && m.hops == b[3]
            && m.xid == Value4(b, 4) && m.secs == Value2(b, 8) && m.flags == Value2(b, 10)
            && m.ciaddr == Value4(b, 12) && m.yiaddr == Value4(b, 16) && m.siaddr == Value4(b, 20) && m.giaddr == Value4(b, 24)
            && m.chaddr == b[28..44] && m.sname == b[44..108] && m.file == b[108..236]
  {
    U32IsBigEndian(b, 4);
    U16IsBigEndian(b, 8);
    U16IsBigEndian(b, 10);
    U32IsBigEndian(b, 12);
    U32IsBigEndian(b, 16);
    U32IsBigEndian(b, 20);
    U32IsBigEndian(b, 24);
  }

  // ----- The option region -----

  /** One item of the region: a pad byte, or an option with its code and length. */
  datatype Item = Padding | Single(opt: Opt)

  predicate Printable(items: seq<Item>) {
    forall x :: x in items && x.Single? ==> 1 <= x.opt.code <= 254 && |x.opt.value| <= 255
  }

  function PrintItem(x: Item): seq<Byte>
    requires x.Single? ==> |x.opt.value| <= 255
  {
    if x.Padding? then [0] else [x.opt.code, |x.opt.value|] + x.opt.value
  }

  function Print(items: seq<Item>): seq<Byte>
    requires Printable(items)
  {
    if items == [] then [] else PrintItem(items[0]) + Print(items[1..])
  }

  function OptionsIn(items: seq<Item>): seq<Opt> {
    if items == [] then [] else (if items[0].Single? then [items[0].opt] else []) + OptionsIn(items[1..])
  }

  /** The region ends here, or with an END byte, whatever follows that. */
  predicate Stops(tail: seq<Byte>) {
    tail == [] || tail[0] == 255
  }

  /** An option begins here whose length byte or value is not all there. */
  predicate CutShort(tail: seq<Byte>) {
    tail != [] && tail[0] != 0 && tail[0] != 255 && (|tail| < 2 || |tail| - 2 < tail[1])
  }

  lemma ItemParses(pre: seq<Byte>, x: Item, rest: seq<Byte>)
    requires x.Single? ==> 1 <= x.opt.code <= 254 && |x.opt.value| <= 255
    ensures var b, next := pre + PrintItem(x) + rest, ParseOptions(pre + PrintItem(x) + rest, |pre + PrintItem(x)|);
            ParseOptions(b, |pre|) == if next.Err? then Err else Ok((if x.Single? then [x.opt] else []) + next.value)
  {
    var b, i := pre + PrintItem(x) + rest, |pre|;
    if x.Padding? {
      assert b[i] == 0;
      var next := ParseOptions(b, i + 1);
      assert next.Ok? ==> [] + next.value == next.value;
    } else {
      var v := x.opt.value;
      assert b[i] == x.opt.code && b[i + 1] == |v| && b[i + 2..i + 2 + |v|] == v;
    }
  }

  lemma TailParses(pre: seq<Byte>, tail: seq<Byte>)
    ensures Stops(tail) ==> ParseOptions(pre + tail, |pre|) == Ok([])
    ensures CutShort(tail) ==> ParseOptions(pre + tail, |pre|) == Err
  {
    var b, i := pre + tail, |pre|;
    assert tail != [] ==> b[i] == tail[0];
    assert |tail| >= 2 ==> b[i + 1] == tail[1];
  }

  /** Items parse to their options, up to the end of the region; an option that is cut short fails the whole. */
  lemma {:induction false} PrintedParses(pre: seq<Byte>, items: seq<Item>, tail: seq<Byte>)
    requires Printable(items)
    ensures Stops(tail) ==> ParseOptions(pre + Print(items) + tail, |pre|) == Ok(OptionsIn(items))
    ensures CutShort(tail) ==> ParseOptions(pre + Print(items) + tail, |pre|) == Err
    decreases |items|
  {
    if items == [] {
      assert pre + [] + tail == pre + tail;
      TailParses(pre, tail);
    } else {
      var x, rest := items[0], items[1..];
      PrintedParses(pre + PrintItem(x), rest, tail);
      ItemParses(pre, x, Print(rest) + tail);
      Regrouped(pre, PrintItem(x), Print(rest), tail);
    }
  }

  lemma Regrouped(a: seq<Byte>, b: seq<Byte>, c: seq<Byte>, d: seq<Byte>)
    ensures a + (b + c) + d == a + b + c + d == a + b + (c + d)
  {
  }

  /** Every byte string is items followed by the end of the region or by an option that is cut short. */
  lemma {:induction false} EveryRegionIsPrinted(b: seq<Byte>, i: nat) returns (items: seq<Item>, tail: seq<Byte>)
    requires i <= |b|
    ensures Printable(items) && b[i..] == Print(items) + tail && (Stops(tail) || CutShort(tail))
    decreases |b| - i
  {
    if i == |b| || b[i] == 255 || (b[i] != 0 && (i + 2 > |b| || i + 2 + b[i + 1] > |b|)) {
      items, tail := [], b[i..];
    } else {
      var next := if b[i] == 0 then i + 1 else i + 2 + b[i + 1];
      var x := if b[i] == 0 then Padding else Single(Opt(b[i], b[i + 2..next]));
      var rest;
      rest, tail := EveryRegionIsPrinted(b, next);
      items := [x] + rest;
      assert items[1..] == rest;
      assert b[i..next] == PrintItem(x);
      assert b[i..] == b[i..next] + b[next..];
      assert b[i..] == PrintItem(x) + (Print(rest) + tail) == PrintItem(x) + Print(rest) + tail;
    }
  }

  /** The region of a frame parses exactly when it does not end in an option cut short, and then to its options. */
  lemma RegionMeans(b: seq<Byte>) returns (items: seq<Item>, tail: seq<Byte>)
    requires |b| >= 240
    ensures Printable(items) && b[240..] == Print(items) + tail && (Stops(tail) || CutShort(tail))
    ensures ParseOptions(b, 240).Err? <==> CutShort(tail)
    ensures ParseOptions(b, 240).Ok? ==> ParseOptions(b, 240).value == OptionsIn(items)
  {
    items, tail := EveryRegionIsPrinted(b, 240);
    PrintedParses(b[..240], items, tail);
    assert b[..240] + Print(items) + tail == b by {
      assert b == b[..240] + b[240..];
      AppendAssociates(b[..240], Print(items), tail);
    }
  }

  /** A frame is refused exactly when it is short, has another cookie, or ends in an option cut short. */
  lemma RefusedIff(b: seq<Byte>) returns (items: seq<Item>, tail: seq<Byte>)
    ensures |b| >= 240 ==> Printable(items) && b[240..] == Print(items) + tail && (Stops(tail) || CutShort(tail))
    ensures Decode(b).Err? <==> |b| < 240 || b[236..240] != [99, 130, 83, 99] || CutShort(tail)
    ensures Decode(b).Ok? ==> Decode(b).value.options == OptionsIn(items)
  {
    items, tail := [], [];
    if |b| >= 240 {
      items, tail := RegionMeans(b);
    }
  }

  /** What is built: options with codes 1 to 254 in order, values cut to 255 bytes, then END. */
  function Sendable(opts: seq<Opt>): seq<Item> {
    if opts == [] then []
    else if opts[0].code == 0 || opts[0].code == 255 then Sendable(opts[1..])
    else [Single(Opt(opts[0].code, opts[0].value[..if |opts[0].value| <= 255 then |opts[0].value| else 255]))] + Sendable(opts[1..])
  }

  lemma {:induction false} BuiltRegion(opts: seq<Opt>)
    ensures Printable(Sendable(opts)) && EncodeOptions(opts) == Print(Sendable(opts)) + [255]
  {
    if opts != [] {
      BuiltRegion(opts[1..]);
      if opts[0].code != 0 && opts[0].code != 255 {
        var items := Sendable(opts);
        assert items[1..] == Sendable(opts[1..]);
        assert Print(items) == PrintItem(items[0]) + Print(items[1..]);
      }
    }
  }

  /** The option region a frame is built with. */
  lemma BuiltFrame(m: Message)
    ensures |Encode(m)| >= 240 && Printable(Sendable(m.options)) && Encode(m)[240..] == Print(Sendable(m.options)) + [255]
  {
    BuiltRegion(m.options);
  }
}
