/** The TTL answer cache (src/dns/cache.rs) against the record of accepted answers. */
module Cache {
  import opened Wrappers
  import opened Names
  import opened Seqs

  const SECOND: int := 1_000_000_000
  const NEGATIVE_TTL: int := 30

  datatype Rcode = NoError | NXDomain | ServFail | OtherCode(code: int)

  datatype Rec = Rec(ttl: U32, data: string)

  datatype Answer = Answer(answers: seq<Rec>, authority: seq<Rec>, rcode: Rcode)

  datatype Entry = Entry(answer: Answer, stored: int, expires: int)

  type CacheKey = (Name, U16)

  datatype Limits = Limits(cap: nat, minTtl: U32, maxTtl: U32)

  /** `clamp` panics otherwise, so the configuration must keep the bounds in order. */
  predicate Ordered(l: Limits) {
    l.cap >= 1 && 1 <= l.maxTtl && Max(l.minTtl, 1) <= l.maxTtl
  }

  function SmallestTtl(recs: seq<Rec>): Option<U32> {
    if recs == [] then None
    else
      var rest := SmallestTtl(recs[1..]);
      if rest.None? then Some(recs[0].ttl) else Some(if recs[0].ttl <= rest.value then recs[0].ttl else rest.value)
  }

  /** The smallest record TTL clamped to the bounds, or the negative TTL when there are no records. */
  function TtlOf(l: Limits, a: Answer): (ttl: int)
    requires Ordered(l)
    ensures Max(1, l.minTtl) <= ttl <= l.maxTtl
  {
    var smallest := SmallestTtl(a.answers + a.authority);
    var raw: int := if smallest.Some? then smallest.value else NEGATIVE_TTL;
    Max(Max(l.minTtl, 1), Min(raw, l.maxTtl))
  }

  /** The smallest TTL of all records of the answer; thirty seconds for one without records. */
  ghost predicate IsRawTtl(a: Answer, raw: int) {
    if a.answers == [] && a.authority == [] then raw == 30
    else
      && (exists r :: (r in a.answers || r in a.authority) && r.ttl == raw)
      && forall r :: r in a.answers || r in a.authority ==> raw <= r.ttl
  }

  /** The lifetime is that TTL where the bounds allow it, and otherwise the nearer bound. */
  ghost predicate IsLifetime(l: Limits, a: Answer, ttl: int)
    requires Ordered(l)
  {
    exists raw: int :: IsRawTtl(a, raw) && ttl == Clamped(raw, if l.minTtl <= 1 then 1 else l.minTtl, l.maxTtl)
  }

  function Clamped(x: int, lo: int, hi: int): (y: int)
    requires lo <= hi
    ensures lo <= y <= hi && (lo <= x <= hi ==> y == x) && (x < lo ==> y == lo) && (hi < x ==> y == hi)
  {
    if x < lo then lo else if hi < x then hi else x
  }

  lemma {:induction false} SmallestIsLeast(recs: seq<Rec>)
    ensures SmallestTtl(recs).None? <==> recs == []
    ensures recs != [] ==> exists r :: r in recs && r.ttl == SmallestTtl(recs).value
    ensures forall r :: r in recs ==> SmallestTtl(recs).Some? && SmallestTtl(recs).value <= r.ttl
  {
    if recs != [] {
      SmallestIsLeast(recs[1..]);
      assert forall r :: r in recs <==> r == recs[0] || r in recs[1..];
    }
  }

  lemma TtlIsLifetime(l: Limits, a: Answer)
    requires Ordered(l)
    ensures IsLifetime(l, a, TtlOf(l, a))
  {
    var recs := a.answers + a.authority;
    SmallestIsLeast(recs);
    assert forall r :: r in recs <==> r in a.answers || r in a.authority;
    assert recs == [] <==> a.answers == [] && a.authority == [];
    var raw: int := if SmallestTtl(recs).Some? then SmallestTtl(recs).value else NEGATIVE_TTL;
    assert IsRawTtl(a, raw);
  }

  lemma LifetimeIsUnique(l: Limits, a: Answer, x: int, y: int)
    requires Ordered(l) && IsLifetime(l, a, x) && IsLifetime(l, a, y)
    ensures x == y
  {
  }

  /** An answer whose smallest TTL lies within the bounds lives exactly that long. */
  lemma LivesForItsSmallestTtl(l: Limits, a: Answer, r: Rec)
    requires Ordered(l) && (r in a.answers || r in a.authority)
    requires forall s :: s in a.answers || s in a.authority ==> r.ttl <= s.ttl
    requires 1 <= r.ttl && l.minTtl <= r.ttl <= l.maxTtl
    ensures TtlOf(l, a) == r.ttl
  {
    TtlIsLifetime(l, a);
    assert IsRawTtl(a, r.ttl);
    assert IsLifetime(l, a, r.ttl);
    LifetimeIsUnique(l, a, TtlOf(l, a), r.ttl);
  }

  // ----- The reference: what was accepted last under each key -----

  type Ledger = map<CacheKey, Entry>

  function Live(m: Ledger, now: int): Ledger {
    map k | k in m && now < m[k].expires :: m[k]
  }

  /** An entry is live until its expiry. */
  lemma LiveMeans(m: Ledger, now: int, k: CacheKey)
    ensures k in Live(m, now) <==> k in m && now < m[k].expires
    ensures k in Live(m, now) ==> Live(m, now)[k] == m[k]
  {
  }

  /** An answer is kept unless it is a ServFail or the cache is full of live entries. */
  predicate Accepts(l: Limits, m: Ledger, a: Answer, now: int) {
    !a.rcode.ServFail? && |Live(m, now)| < l.cap
  }

  /** The entry stored for an accepted answer; its lifetime lies within the bounds. */
  function NewEntry(l: Limits, a: Answer, now: int): (e: Entry)
    requires Ordered(l)
    ensures e.answer == a && e.stored == now
    ensures Max(1, l.minTtl) * SECOND <= e.expires - e.stored <= l.maxTtl * SECOND
  {
    Entry(a, now, now + TtlOf(l, a) * SECOND)
  }

  function Recorded(l: Limits, m: Ledger, k: CacheKey, a: Answer, now: int): Ledger
    requires Ordered(l)
  {
    if Accepts(l, m, a, now) then m[k := NewEntry(l, a, now)] else m
  }

  function Answered(m: Ledger, k: CacheKey, now: int): Option<Answer> {
    if k in m && now < m[k].expires then Some(m[k].answer) else None
  }

  // ----- The cache -----

  class DnsCache {
    const limits: Limits
    var entries: Ledger
    var hits: nat
    var misses: nat
    /** The last accepted answer under every key since the cache was cleared. */
    ghost var ledger: Ledger
    ghost var clock: int
    ghost var gets: nat

    ghost predicate Valid()
      reads this
    {
      && limits.cap >= 1 && limits.maxTtl >= 1
      && |entries| <= limits.cap
      && (forall k :: k in entries ==> k in ledger && entries[k] == ledger[k])
      && (forall k :: k in ledger && k !in entries ==> ledger[k].expires <= clock)
      && (forall k :: k in ledger ==>
            Max(1, limits.minTtl) * SECOND <= ledger[k].expires - ledger[k].stored <= limits.maxTtl * SECOND)
      && hits + misses == gets
    }

    /** Capacity and maximum TTL are raised to at least one. */
    constructor (cap: nat, minTtl: U32, maxTtl: U32, now: int)
      ensures Valid() && ledger == map[] && clock == now && gets == 0 && hits == 0
      ensures limits == Limits(Max(cap, 1), minTtl, Max(maxTtl, 1))
    {
      limits := Limits(if cap == 0 then 1 else cap, minTtl, if maxTtl == 0 then 1 else maxTtl);
      entries, hits, misses := map[], 0, 0;
      ledger, clock, gets := map[], now, 0;
    }

    /** `get`: a fresh entry is a hit; a stale one is removed and missed. */
    method Get(name: Name, rtype: U16, now: int) returns (r: Option<Answer>)
      requires Valid() && clock <= now
      modifies this
      ensures Valid() && ledger == old(ledger) && clock == now && gets == old(gets) + 1
      ensures r == Answered(ledger, (Key(name), rtype), now)
      ensures hits == old(hits) + if r.Some? then 1 else 0
    {
      var k := (Key(name), rtype);
      clock, gets := now, gets + 1;
      if k in entries {
        if entries[k].expires > now {
          hits := hits + 1;
          return Some(entries[k].answer);
        }
        RemovingShrinks(entries, k);
        entries := entries - {k};
      }
      misses := misses + 1;
      return None;
    }

    /** Sweep expired entries when the cache is full; room is left unless it is full of live ones. */
    method MakeRoom(now: int) returns (room: bool)
      requires Valid() && clock == now
      modifies this`entries
      ensures Valid()
      ensures room <==> |Live(ledger, now)| < limits.cap
      ensures room ==> |entries| < limits.cap
    {
      LiveIsShared(entries, ledger, now);
      LiveIsSmaller(entries, now);
      if |entries| >= limits.cap {
        entries := Live(entries, now);
      }
      room := |entries| < limits.cap;
    }

    /** `put`: sweep when full, and give up if that frees no room. */
    method Put(name: Name, rtype: U16, a: Answer, now: int)
      requires Valid() && clock <= now && Ordered(limits)
      modifies this
      ensures Valid() && clock == now && gets == old(gets) && hits == old(hits)
      ensures ledger == Recorded(limits, old(ledger), (Key(name), rtype), a, now)
    {
      var k := (Key(name), rtype);
      clock := now;
      if a.rcode.ServFail? {
        return;
      }
      var room := MakeRoom(now);
      if !room {
        return;
      }
      Insert(k, NewEntry(limits, a, now));
    }

    method Insert(k: CacheKey, e: Entry)
      requires Valid() && |entries| < limits.cap
      requires Max(1, limits.minTtl) * SECOND <= e.expires - e.stored <= limits.maxTtl * SECOND
      modifies this`entries, this`ledger
      ensures Valid() && ledger == old(ledger)[k := e]
    {
      AddingGrows(entries, k, e);
      entries := entries[k := e];
      ledger := ledger[k := e];
    }

    /** `stats`: counters and the number of live entries. */
    method Stats(now: int) returns (h: nat, m: nat, size: nat)
      requires Valid() && clock <= now
      ensures h + m == gets && size == |Live(ledger, now)| <= limits.cap
    {
      LiveIsShared(entries, ledger, now);
      LiveIsSmaller(entries, now);
      h, m, size := hits, misses, |Live(entries, now)|;
    }

    /** `clear` */
    method Clear()
      requires Valid()
      modifies this
      ensures Valid() && ledger == map[] && clock == old(clock) && gets == 0 && hits == 0
    {
      entries, hits, misses := map[], 0, 0;
      ledger, gets := map[], 0;
    }

    /** One operation of a run. */
    method Do(op: Op) returns (reply: Option<Answer>)
      requires Valid() && Ordered(limits) && (!op.DoClear? ==> clock <= op.now)
      modifies this
      ensures Valid() && clock == if op.DoClear? then old(clock) else op.now
      ensures ledger == NextLedger(limits, old(ledger), op)
      ensures op.DoGet? ==> reply == Answered(old(ledger), (Key(op.name), op.rtype), op.now)
      ensures gets == if op.DoClear? then 0 else if op.DoGet? then old(gets) + 1 else old(gets)
      ensures hits == if op.DoClear? then 0 else if op.DoGet? && reply.Some? then old(hits) + 1 else old(hits)
    {
      reply := None;
      match op {
        case DoPut(name, rtype, a, now) => Put(name, rtype, a, now);
        case DoGet(name, rtype, now) => reply := Get(name, rtype, now);
        case DoClear => Clear();
      }
    }

    /** The cache is as the operations leave a new one. */
    ghost predicate IsAfter(ops: seq<Op>)
      requires Ordered(limits)
      reads this
    {
      ledger == LedgerAfter(limits, ops) && gets == GetsSinceClear(ops) && hits == HitsSinceClear(limits, ops)
    }

    /** The next operation of a run. */
    method DoNext(ops: seq<Op>, k: nat) returns (reply: Option<Answer>)
      requires k < |ops| && Valid() && Ordered(limits) && IsAfter(ops[..k]) && (!ops[k].DoClear? ==> clock <= ops[k].now)
      modifies this
      ensures Valid() && IsAfter(ops[..k + 1]) && clock == if ops[k].DoClear? then old(clock) else ops[k].now
      ensures ops[k].DoGet? ==> AnsweredFromHistory(limits, ops, k, reply)
    {
      assert ops[..k + 1][..k] == ops[..k];
      reply := Do(ops[k]);
      if ops[k].DoGet? {
        GetIsAnsweredFromHistory(limits, ops, k);
      }
    }

    /**
     A whole run on a new cache: every get is answered from the last accepted put under its key since the last
     clear, while that lives, and the counters count the gets and the answered gets since the last clear.
     */
    method RunAll(ops: seq<Op>) returns (replies: seq<Option<Answer>>)
      requires Valid() && Ordered(limits) && IsAfter([]) && InOrder(ops, clock)
      modifies this
      ensures Valid() && ledger == LedgerAfter(limits, ops)
      ensures hits + misses == GetsSinceClear(ops) && hits == HitsSinceClear(limits, ops)
      ensures |replies| == |ops|
      ensures forall i :: 0 <= i < |ops| && ops[i].DoGet? ==> AnsweredFromHistory(limits, ops, i, replies[i])
    {
      replies := [];
      for k := 0 to |ops|
        invariant Valid() && IsAfter(ops[..k])
        invariant forall j :: k <= j < |ops| && !ops[j].DoClear? ==> clock <= ops[j].now
        invariant |replies| == k
        invariant forall i :: 0 <= i < k && ops[i].DoGet? ==> AnsweredFromHistory(limits, ops, i, replies[i])
      {
        var reply := DoNext(ops, k);
        replies := replies + [reply];
      }
      assert ops[..|ops|] == ops;
    }
  }

  lemma RemovingShrinks(m: Ledger, k: CacheKey)
    requires k in m
    ensures |m - {k}| < |m|
  {
    assert (m - {k}).Keys == m.Keys - {k};
  }

  lemma AddingGrows(m: Ledger, k: CacheKey, e: Entry)
    ensures |m[k := e]| <= |m| + 1
  {
    assert m[k := e].Keys == m.Keys + {k};
  }

  lemma LiveIsSmaller(m: Ledger, now: int)
    ensures |Live(m, now)| <= |m|
  {
    var rest := m.Keys - Live(m, now).Keys;
    assert m.Keys == Live(m, now).Keys + rest;
  }

  /** Entries dropped from the cache were expired, so both hold the same live entries. */
  lemma LiveIsShared(m: Ledger, ledger: Ledger, now: int)
    requires forall k :: k in m ==> k in ledger && m[k] == ledger[k]
    requires forall k :: k in ledger && k !in m ==> ledger[k].expires <= now
    ensures Live(m, now) == Live(ledger, now)
  {
  }

  // ----- Runs -----

  datatype Op = DoPut(name: Name, rtype: U16, answer: Answer, now: int) | DoGet(name: Name, rtype: U16, now: int) | DoClear

  /** What one operation makes of the ledger. */
  function NextLedger(l: Limits, m: Ledger, op: Op): Ledger
    requires Ordered(l)
  {
    match op
    case DoPut(name, rtype, a, now) => Recorded(l, m, (Key(name), rtype), a, now)
    case DoGet(_, _, _) => m
    case DoClear => map[]
  }

  function LedgerAfter(l: Limits, ops: seq<Op>): Ledger
    requires Ordered(l)
  {
    if ops == [] then map[] else NextLedger(l, LedgerAfter(l, ops[..|ops| - 1]), ops[|ops| - 1])
  }

  /** Times do not run back, from `start` on. */
  ghost predicate InOrder(ops: seq<Op>, start: int) {
    && (forall i :: 0 <= i < |ops| && !ops[i].DoClear? ==> start <= ops[i].now)
    && forall i, j :: 0 <= i < j < |ops| && !ops[i].DoClear? && !ops[j].DoClear? ==> ops[i].now <= ops[j].now
  }

  function GetsSinceClear(ops: seq<Op>): nat {
    if ops == [] || ops[|ops| - 1].DoClear? then 0
    else GetsSinceClear(ops[..|ops| - 1]) + if ops[|ops| - 1].DoGet? then 1 else 0
  }

  function HitsSinceClear(l: Limits, ops: seq<Op>): nat
    requires Ordered(l)
  {
    if ops == [] || ops[|ops| - 1].DoClear? then 0
    else
      var front, op := ops[..|ops| - 1], ops[|ops| - 1];
      HitsSinceClear(l, front)
      + if op.DoGet? && Answered(LedgerAfter(l, front), (Key(op.name), op.rtype), op.now).Some? then 1 else 0
  }

  function IfGet(): Op -> Option<Op> {
    (op: Op) => if op.DoGet? then Some(op) else None
  }

  /** The gets counted are those after the last clear. */
  lemma {:induction false} GetsAreThoseSinceClear(before: seq<Op>, since: seq<Op>)
    requires before == [] || before[|before| - 1].DoClear?
    requires forall op :: op in since ==> !op.DoClear?
    ensures GetsSinceClear(before + since) == |FilterMap(since, IfGet())|
  {
    if since == [] {
      assert before + since == before;
    } else {
      var n := |since| - 1;
      var front := since[..n];
      GetsAreThoseSinceClear(before, front);
      assert since == front + [since[n]] && (before + since)[..|before + since| - 1] == before + front;
      FilterMapConcat(front, [since[n]], IfGet());
    }
  }

  /** The gets among `since` that are answered, `before` having come first. */
  ghost function AnsweredGets(l: Limits, before: seq<Op>, since: seq<Op>): set<nat>
    requires Ordered(l)
  {
    set i: nat | && i < |since| && since[i].DoGet?
                 && Answered(LedgerAfter(l, before + since[..i]), (Key(since[i].name), since[i].rtype), since[i].now).Some?
  }

  /** The last operation of `since` is an answered get. */
  ghost predicate EndsInHit(l: Limits, before: seq<Op>, since: seq<Op>)
    requires Ordered(l) && since != []
  {
    var op, front := since[|since| - 1], since[..|since| - 1];
    op.DoGet? && Answered(LedgerAfter(l, before + front), (Key(op.name), op.rtype), op.now).Some?
  }

  lemma AnsweredGetsStep(l: Limits, before: seq<Op>, since: seq<Op>)
    requires Ordered(l) && since != []
    ensures |AnsweredGets(l, before, since)|
         == |AnsweredGets(l, before, since[..|since| - 1])| + if EndsInHit(l, before, since) then 1 else 0
  {
    var n := |since| - 1;
    var rest := AnsweredGets(l, before, since[..n]);
    forall i: nat | i < n ensures since[..n][..i] == since[..i] && since[..n][i] == since[i] {
    }
    assert AnsweredGets(l, before, since) == rest + if EndsInHit(l, before, since) then {n} else {};
    assert n !in rest;
  }

  lemma HitsStep(l: Limits, before: seq<Op>, since: seq<Op>)
    requires Ordered(l) && since != [] && !since[|since| - 1].DoClear?
    ensures HitsSinceClear(l, before + since)
         == HitsSinceClear(l, before + since[..|since| - 1]) + if EndsInHit(l, before, since) then 1 else 0
  {
    var n := |since| - 1;
    assert (before + since)[..|before + since| - 1] == before + since[..n] && (before + since)[|before + since| - 1] == since[n];
  }

  /** The hits counted are the answered gets after the last clear. */
  lemma {:induction false} HitsAreAnsweredGets(l: Limits, before: seq<Op>, since: seq<Op>)
    requires Ordered(l) && (before == [] || before[|before| - 1].DoClear?)
    requires forall op :: op in since ==> !op.DoClear?
    ensures HitsSinceClear(l, before + since) == |AnsweredGets(l, before, since)|
  {
    if since == [] {
      assert before + since == before && AnsweredGets(l, before, since) == {};
    } else {
      HitsAreAnsweredGets(l, before, since[..|since| - 1]);
      AnsweredGetsStep(l, before, since);
      HitsStep(l, before, since);
    }
  }

  /** Operation `i` stores under key `k`. */
  ghost predicate StoresAt(l: Limits, ops: seq<Op>, i: nat, k: CacheKey)
    requires Ordered(l) && i < |ops|
  {
    && ops[i].DoPut? && (Key(ops[i].name), ops[i].rtype) == k && ops[i].answer.rcode != ServFail
    && |Live(LedgerAfter(l, ops[..i]), ops[i].now)| < l.cap
  }

  /** Operation `i` is the last accepted put under `k`, and nothing was cleared since. */
  ghost predicate LastStore(l: Limits, ops: seq<Op>, i: nat, k: CacheKey)
    requires Ordered(l) && i < |ops|
  {
    StoresAt(l, ops, i, k) && forall j: nat :: i < j < |ops| ==> !ops[j].DoClear? && !StoresAt(l, ops, j, k)
  }

  /** `i` points to the last accepted put under `k`, if there is one. */
  ghost predicate Explains(l: Limits, ops: seq<Op>, k: CacheKey, i: Option<nat>)
    requires Ordered(l)
  {
    if i.None? then k !in LedgerAfter(l, ops) && forall j: nat :: j < |ops| ==> !LastStore(l, ops, j, k)
    else
      && i.value < |ops| && LastStore(l, ops, i.value, k)
      && k in LedgerAfter(l, ops)
      && var op := ops[i.value];
         LedgerAfter(l, ops)[k] == NewEntry(l, op.answer, op.now)
  }

  lemma StoreInPrefix(l: Limits, ops: seq<Op>, i: nat, k: CacheKey)
    requires Ordered(l) && i < |ops| - 1
    ensures StoresAt(l, ops, i, k) <==> StoresAt(l, ops[..|ops| - 1], i, k)
  {
    assert ops[..|ops| - 1][..i] == ops[..i];
  }

  /** The ledger holds, for every key, exactly what the last accepted put since the last clear stored. */
  lemma {:induction false} LedgerIsLastStore(l: Limits, ops: seq<Op>, k: CacheKey) returns (i: Option<nat>)
    requires Ordered(l)
    ensures Explains(l, ops, k, i)
  {
    if ops == [] {
      return None;
    }
    var front, n := ops[..|ops| - 1], |ops| - 1;
    var before := LedgerIsLastStore(l, front, k);
    forall j: nat | j < n ensures StoresAt(l, ops, j, k) <==> StoresAt(l, front, j, k) {
      StoreInPrefix(l, ops, j, k);
    }
    if ops[n].DoClear? {
      i := None;
    } else if StoresAt(l, ops, n, k) {
      i := Some(n);
    } else {
      i := before;
      if i.None? {
        forall j: nat | j < |ops| ensures !LastStore(l, ops, j, k) {
          if j < n && LastStore(l, ops, j, k) {
            assert LastStore(l, front, j, k);
          }
        }
      }
    }
  }

  /** The last accepted put is unique, so the reply to a get is determined by the history of puts and clears. */
  lemma GetAnswersFromTheLastStore(l: Limits, ops: seq<Op>, name: Name, rtype: U16, now: int, i: nat, ttl: int)
    requires Ordered(l) && i < |ops| && LastStore(l, ops, i, (Key(name), rtype)) && IsLifetime(l, ops[i].answer, ttl)
    ensures Answered(LedgerAfter(l, ops), (Key(name), rtype), now)
         == if now < ops[i].now + ttl * SECOND then Some(ops[i].answer) else None
  {
    var k := (Key(name), rtype);
    var j := LedgerIsLastStore(l, ops, k);
    assert j.Some?;
    LastStoreIsUnique(l, ops, i, j.value, k);
    TtlIsLifetime(l, ops[i].answer);
    LifetimeIsUnique(l, ops[i].answer, ttl, TtlOf(l, ops[i].answer));
  }

  /** The get at `i` is answered with the last accepted put under its key before it, while that lives, or not at all. */
  ghost predicate AnsweredFromHistory(l: Limits, ops: seq<Op>, i: nat, reply: Option<Answer>)
    requires Ordered(l) && i < |ops| && ops[i].DoGet?
  {
    exists e: Option<nat>, ttl: int :: AnsweredBy(l, ops, i, reply, e, ttl)
  }

  /** `e` points to that put, if there is one, and `ttl` is its lifetime. */
  ghost predicate AnsweredBy(l: Limits, ops: seq<Op>, i: nat, reply: Option<Answer>, e: Option<nat>, ttl: int)
    requires Ordered(l) && i < |ops| && ops[i].DoGet?
  {
    && Explains(l, ops[..i], (Key(ops[i].name), ops[i].rtype), e)
    && (e.Some? ==> IsLifetime(l, ops[e.value].answer, ttl))
    && reply == if e.Some? && ops[i].now < ops[e.value].now + ttl * SECOND then Some(ops[e.value].answer) else None
  }

  lemma GetIsAnsweredFromHistory(l: Limits, ops: seq<Op>, i: nat)
    requires Ordered(l) && i < |ops| && ops[i].DoGet?
    ensures AnsweredFromHistory(l, ops, i, Answered(LedgerAfter(l, ops[..i]), (Key(ops[i].name), ops[i].rtype), ops[i].now))
  {
    var before, k := ops[..i], (Key(ops[i].name), ops[i].rtype);
    var e := LedgerIsLastStore(l, before, k);
    assert e.Some? ==> before[e.value] == ops[e.value];
    var ttl := if e.Some? then TtlOf(l, ops[e.value].answer) else 0;
    if e.Some? {
      TtlIsLifetime(l, ops[e.value].answer);
    }
    assert AnsweredBy(l, ops, i, Answered(LedgerAfter(l, before), k, ops[i].now), e, ttl);
  }

  lemma LastStoreIsUnique(l: Limits, ops: seq<Op>, i: nat, j: nat, k: CacheKey)
    requires Ordered(l) && i < |ops| && j < |ops| && LastStore(l, ops, i, k) && LastStore(l, ops, j, k)
    ensures i == j
  {
  }
}
