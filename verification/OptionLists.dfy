/**
 Lists of coded options with in-place replacement, shared by both DHCP versions (`option` and `set_option` of
 src/dhcp/v4.rs with one-byte codes and of src/dhcp/v6.rs with two-byte codes).
 */
module OptionLists {
  import opened Wrappers

  datatype Coded<C> = Opt(code: C, value: seq<Byte>)

  /** `option`: the first value under a code. */
  function OptionOf<C(==)>(opts: seq<Coded<C>>, c: C): Option<seq<Byte>> {
    if opts == [] then None else if opts[0].code == c then Some(opts[0].value) else OptionOf(opts[1..], c)
  }

  function SetOption<C(==)>(opts: seq<Coded<C>>, c: C, value: seq<Byte>): seq<Coded<C>> {
    if opts == [] then [Opt(c, value)]
    else if opts[0].code == c then [Opt(c, value)] + opts[1..]
    else [opts[0]] + SetOption(opts[1..], c, value)
  }

  lemma {:induction false} SetOptionIs<C>(opts: seq<Coded<C>>, c: C, value: seq<Byte>, i: nat)
    requires i <= |opts| && (forall j :: 0 <= j < i ==> opts[j].code != c) && (i < |opts| ==> opts[i].code == c)
    ensures SetOption(opts, c, value) == if i < |opts| then opts[i := Opt(c, value)] else opts + [Opt(c, value)]
    decreases i
  {
    if i > 0 {
      SetOptionIs(opts[1..], c, value, i - 1);
      assert opts == [opts[0]] + opts[1..];
    }
  }

  /** `set_option`: replace the first slot with the code, else append. */
  method SetOptionInPlace<C(==)>(opts: seq<Coded<C>>, c: C, value: seq<Byte>) returns (out: seq<Coded<C>>)
    ensures out == SetOption(opts, c, value)
  {
    var i := 0;
    while i < |opts| && opts[i].code != c
      invariant 0 <= i <= |opts| && forall j :: 0 <= j < i ==> opts[j].code != c
    {
      i := i + 1;
    }
    SetOptionIs(opts, c, value, i);
    out := if i < |opts| then opts[i := Opt(c, value)] else opts + [Opt(c, value)];
  }

  /** Reading after writing. */
  lemma {:induction false} OptionAfterSet<C>(opts: seq<Coded<C>>, c: C, value: seq<Byte>, d: C)
    ensures OptionOf(SetOption(opts, c, value), d) == if d == c then Some(value) else OptionOf(opts, d)
  {
    if opts != [] && opts[0].code != c {
      OptionAfterSet(opts[1..], c, value, d);
    }
  }

  predicate DistinctCodes<C(==)>(opts: seq<Coded<C>>) {
    forall i, j :: 0 <= i < j < |opts| ==> opts[i].code != opts[j].code
  }

  lemma {:induction false} SetMembers<C>(opts: seq<Coded<C>>, c: C, value: seq<Byte>)
    ensures forall o :: o in SetOption(opts, c, value) ==> o == Opt(c, value) || o in opts
  {
    if opts != [] && opts[0].code != c {
      SetMembers(opts[1..], c, value);
    }
  }

  lemma {:induction false} SetKeepsDistinct<C>(opts: seq<Coded<C>>, c: C, value: seq<Byte>)
    requires DistinctCodes(opts)
    ensures DistinctCodes(SetOption(opts, c, value))
  {
    if opts != [] && opts[0].code != c {
      var rest, r := opts[1..], SetOption(opts[1..], c, value);
      SetKeepsDistinct(rest, c, value);
      SetMembers(rest, c, value);
      forall i | 0 <= i < |r| ensures r[i].code != opts[0].code {
        assert r[i] in r;
      }
    }
  }

  /** What a length field that counts to `limit` lets through. */
  function Cut(v: Option<seq<Byte>>, limit: nat): Option<seq<Byte>> {
    if v.None? then None else Some(v.value[..Min(|v.value|, limit)])
  }
}
