/** The per-second ring of query counts (src/stats.rs `Series`) against the full history of bumps. */
module Series {
  import opened Wrappers

  const WINDOW: int := 300
  const OUTPUT: int := 60

  /** How many of the bumps fell into second `s`. */
  function Count(history: seq<nat>, s: int): nat {
    if history == [] then 0
    else Count(history[..|history| - 1], s) + if history[|history| - 1] == s then 1 else 0
  }

  /** Bumps in the seconds `lo` to `hi`. */
  function Total(history: seq<nat>, lo: int, hi: int): nat
    decreases hi - lo
  {
    if hi < lo then 0 else Total(history, lo, hi - 1) + Count(history, hi)
  }

  /** A count is how often the second occurs among the bumps. */
  lemma {:induction false} CountIsMultiplicity(history: seq<nat>, s: nat)
    ensures Count(history, s) == multiset(history)[s]
  {
    if history != [] {
      var n := |history| - 1;
      CountIsMultiplicity(history[..n], s);
      assert history == history[..n] + [history[n]];
    }
  }

  /** A total counts each bump of the window once. */
  lemma {:induction false} TotalCountsEachBump(history: seq<nat>, x: nat, lo: int, hi: int)
    ensures Total([], lo, hi) == 0
    ensures Total(history + [x], lo, hi) == Total(history, lo, hi) + if lo <= x <= hi then 1 else 0
    decreases hi - lo
  {
    if lo <= hi {
      TotalCountsEachBump(history, x, lo, hi - 1);
      assert (history + [x])[..|history|] == history;
    }
  }

  lemma {:induction false} NothingAfterLast(history: seq<nat>, last: nat, s: int)
    requires (forall i :: 0 <= i < |history| ==> history[i] <= last) && last < s
    ensures Count(history, s) == 0
  {
    if history != [] {
      NothingAfterLast(history[..|history| - 1], last, s);
    }
  }

  /** Seconds less than a window apart have different slots. */
  lemma SlotsDiffer(a: int, b: int)
    requires 0 < b - a < WINDOW
    ensures a % WINDOW != b % WINDOW
  {
  }

  class Ring {
    const buckets: array<nat>
    var lastSec: nat
    ghost var history: seq<nat>

    ghost predicate Valid()
      reads this, buckets
    {
      && buckets.Length == WINDOW
      && (forall i :: 0 <= i < |history| ==> history[i] <= lastSec)
      && (forall s :: 0 <= s && lastSec - WINDOW < s <= lastSec ==> buckets[s % WINDOW] == Count(history, s))
    }

    constructor ()
      ensures Valid() && history == [] && lastSec == 0 && fresh(buckets)
    {
      buckets := new nat[WINDOW](i => 0);
      lastSec := 0;
      history := [];
    }

    /** Zero the slots of the seconds after the last one; at most one whole turn. */
    method ClearUpTo(sec: nat)
      requires Valid() && lastSec < sec
      modifies buckets
      ensures forall s :: lastSec < s <= sec && sec - WINDOW < s ==> buckets[s % WINDOW] == 0
      ensures forall s :: 0 <= s <= lastSec && sec - WINDOW < s ==> buckets[s % WINDOW] == old(buckets[s % WINDOW])
    {
      var gap := if sec - lastSec < WINDOW then sec - lastSec else WINDOW;
      for i := 1 to gap + 1
        invariant forall s :: lastSec < s < lastSec + i ==> buckets[s % WINDOW] == 0
        invariant forall s :: 0 <= s <= lastSec && lastSec + i - 1 - WINDOW < s ==> buckets[s % WINDOW] == old(buckets[s % WINDOW])
      {
        forall s | lastSec + i - WINDOW < s < lastSec + i ensures s % WINDOW != (lastSec + i) % WINDOW {
          SlotsDiffer(s, lastSec + i);
        }
        buckets[(lastSec + i) % WINDOW] := 0;
      }
      forall s | lastSec < s <= sec && sec - WINDOW < s ensures buckets[s % WINDOW] == 0 {
        if sec - lastSec > WINDOW {
          SameSlotInTurn(lastSec, s);
        }
      }
    }

    /** `bump` */
    method Bump(sec: nat)
      requires Valid() && lastSec <= sec
      modifies this, buckets
      ensures Valid() && history == old(history) + [sec] && lastSec == sec
    {
      if sec != lastSec {
        ClearUpTo(sec);
        forall s | lastSec < s ensures Count(history, s) == 0 {
          NothingAfterLast(history, lastSec, s);
        }
        lastSec := sec;
      }
      assert forall s :: 0 <= s && sec - WINDOW < s <= sec ==> buckets[s % WINDOW] == Count(history, s);
      forall s | sec - WINDOW < s < sec ensures s % WINDOW != sec % WINDOW {
        SlotsDiffer(s, sec);
      }
      buckets[sec % WINDOW] := buckets[sec % WINDOW] + 1;
      history := history + [sec];
      assert history[..|history| - 1] == old(history);
    }

    /** A slot read for a second still inside the ring. */
    method At(s: nat) returns (v: nat)
      requires Valid()
      ensures lastSec - WINDOW < s ==> v == Count(history, s)
    {
      if s > lastSec {
        NothingAfterLast(history, lastSec, s);
        v := 0;
      } else {
        v := buckets[s % WINDOW];
      }
    }

    /** `recent`: the counts of the last 60 seconds, oldest first. */
    method Recent(now: nat) returns (out: seq<nat>)
      requires Valid()
      ensures var start := Max(0, now - (OUTPUT - 1));
              && |out| == now - start + 1
              && (lastSec - WINDOW < start ==> forall i :: 0 <= i < |out| ==> out[i] == Count(history, start + i))
    {
      out := [];
      var start := if now < OUTPUT - 1 then 0 else now - (OUTPUT - 1);
      for s := start to now + 1
        invariant |out| == s - start
        invariant lastSec - WINDOW < start ==> forall i :: 0 <= i < |out| ==> out[i] == Count(history, start + i)
      {
        var v := At(s);
        out := out + [v];
      }
    }

    /** The accumulating loop behind the rate. */
    method SumUp(start: nat, now: nat) returns (sum: nat)
      requires Valid() && start <= now + 1
      ensures lastSec - WINDOW < start ==> sum == Total(history, start, now)
    {
      sum := 0;
      for s := start to now + 1
        invariant lastSec - WINDOW < start ==> sum == Total(history, start, s - 1)
      {
        var v := At(s);
        sum := sum + v;
      }
    }

    /** `qps`: the exact total over the window, divided by its length. */
    method Qps(now: nat, window: nat) returns (rate: real)
      requires Valid() && window >= 1
      ensures var start := Max(0, now - (window - 1));
              lastSec - WINDOW < start ==> rate == Quotient(Total(history, start, now), window)
    {
      var start := if now < window - 1 then 0 else now - (window - 1);
      var sum := SumUp(start, now);
      rate := Quotient(sum, window);
    }
  }

  /** The number that gives `sum` back when taken `window` times. */
  function Quotient(sum: nat, window: nat): (q: real)
    requires window >= 1
    ensures q * window as real == sum as real
  {
    sum as real / window as real
  }

  /** A whole turn visits every slot. */
  lemma SameSlotInTurn(last: int, s: int)
    ensures exists t :: last < t <= last + WINDOW && t % WINDOW == s % WINDOW
  {
    var t := last + 1 + (s - last - 1) % WINDOW;
    assert t == s - WINDOW * ((s - last - 1) / WINDOW);
    assert (s - WINDOW * ((s - last - 1) / WINDOW)) % WINDOW == s % WINDOW;
  }
}
