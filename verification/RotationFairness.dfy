/**
 How fair the rotation is to one name. All names draw from one 64-bit counter (src/state.rs `next_rotation`), so a
 name sees only the values its own queries happen to draw, and the counter wraps around.
 */
module RotationFairness {
  import opened Wrappers
  import opened Store
  import opened LoadBalance

  /** The number of values of the counter. */
  const COUNTER_LIMIT: int := 0x1_0000_0000_0000_0000

  // ----- Greatest common divisors -----

  function Gcd(a: nat, b: nat): nat
    decreases b
  {
    if b == 0 then a else Gcd(b, a % b)
  }

  lemma {:induction false} GcdDivides(a: nat, b: nat) returns (p: nat, q: nat)
    ensures a == p * Gcd(a, b) && b == q * Gcd(a, b)
    decreases b
  {
    if b == 0 {
      p, q := 1, 0;
    } else {
      var g := Gcd(b, a % b);
      var x, y := GcdDivides(b, a % b);
      p, q := a / b * x + y, x;
      Distribute(a / b, x, y, g);
      assert a == a / b * b + a % b;
      assert a / b * b == a / b * (x * g);
    }
  }

  lemma Distribute(k: int, x: int, y: int, g: int)
    ensures (k * x + y) * g == k * (x * g) + y * g
  {
  }

  lemma {:induction false} Bezout(a: nat, b: nat) returns (x: int, y: int)
    ensures x * a + y * b == Gcd(a, b)
    decreases b
  {
    if b == 0 {
      x, y := 1, 0;
    } else {
      var k := a / b;
      var u, w := Bezout(b, a % b);
      x, y := w, u - w * k;
      BezoutStep(u, w, a, b, k, a % b);
    }
  }

  lemma BezoutStep(u: int, w: int, a: int, b: int, k: int, r: int)
    requires a == k * b + r
    ensures w * a + (u - w * k) * b == u * b + w * r
  {
    assert w * a == w * (k * b) + w * r;
    assert (u - w * k) * b == u * b - w * (k * b);
  }

  /** If `n` divides `k * s` and shares no factor with `s`, it divides `k`. */
  lemma CoprimeDivides(k: int, s: nat, n: nat, m: int) returns (w: int)
    requires k * s == m * n && Gcd(s, n) == 1
    ensures k == w * n
  {
    var x, y := Bezout(s, n);
    w := x * m + k * y;
    calc {
      k;
      k * (x * s + y * n);
      x * (k * s) + k * y * n;
      x * (m * n) + k * y * n;
      (x * m + k * y) * n;
    }
  }

  // ----- One name's queries -----

  /** The counter value the name's query number `i` draws, when every query draws `s` after the one before. */
  function Drawn(c: nat, s: nat, i: nat): nat {
    c + i * s
  }

  /** Among `n` queries in a row no address comes first twice; so each of `n` addresses comes first exactly once. */
  ghost predicate NoneTwice(n: nat, first: nat -> nat) {
    forall i: nat, j: nat :: i < j < n ==> first(i) != first(j)
  }

  function FirstDrawn(n: nat, c: nat, s: nat): nat -> nat
    requires n > 0
  {
    (i: nat) => FirstIndex(n, Drawn(c, s, i))
  }

  /** The places of the first `k` queries. */
  function Places(first: nat -> nat, k: nat): seq<nat> {
    seq(k, i requires 0 <= i < k => first(i))
  }

  ghost function Members(places: seq<nat>): set<nat> {
    set p | p in places
  }

  lemma {:induction false} DistinctPlaces(places: seq<nat>)
    requires forall i, j :: 0 <= i < j < |places| ==> places[i] != places[j]
    ensures |Members(places)| == |places|
  {
    if places != [] {
      var m := |places| - 1;
      var front := places[..m];
      DistinctPlaces(front);
      assert Members(places) == Members(front) + {places[m]};
      assert places[m] !in front;
    }
  }

  lemma {:induction false} BelowHas(n: nat, s: set<nat>)
    requires forall v :: v in s ==> v < n
    ensures |s| <= n
    ensures |s| == n ==> forall a: nat :: a < n ==> a in s
  {
    if n == 0 {
      assert s == {};
    } else {
      var rest := s - {n - 1};
      BelowHas(n - 1, rest);
      if n - 1 in s {
        assert s == rest + {n - 1};
      } else {
        assert s == rest;
      }
    }
  }

  /** Pigeonhole: `n` first places that differ reach every address. */
  lemma EachComesFirst(n: nat, first: nat -> nat, a: nat)
    requires NoneTwice(n, first) && (forall i: nat :: first(i) < n) && a < n
    ensures exists i: nat :: i < n && first(i) == a
  {
    var places := Places(first, n);
    DistinctPlaces(places);
    BelowHas(n, Members(places));
    assert a in Members(places);
    var i :| 0 <= i < n && places[i] == a;
    assert first(i) == a;
  }

  /** A divisor that is not one leaves a proper part. */
  lemma ProperPart(n: nat, q: nat, g: nat)
    requires n > 0 && q * g == n && g != 1
    ensures 1 <= q < n
  {
    if g >= 2 {
      MultipleIsLarge(g - 1, q);
      assert q * g == q + (g - 1) * q;
    }
  }

  lemma SharedFactorRepeats(n: nat, c: nat, s: nat)
    requires n > 0 && Gcd(s, n) != 1
    ensures !NoneTwice(n, FirstDrawn(n, c, s))
  {
    var g := Gcd(s, n);
    var p, q := GcdDivides(s, n);
    ProperPart(n, q, g);
    Exchange(p, q, g);
    SamePlace(n, c, s, q, p);
    var first := FirstDrawn(n, c, s);
    assert first(0) == first(q);
  }

  lemma Exchange(p: int, q: int, g: int)
    ensures q * (p * g) == p * (q * g)
  {
  }

  lemma SamePlace(n: nat, c: nat, s: nat, q: nat, p: nat)
    requires n > 0 && q * s == p * n
    ensures FirstIndex(n, Drawn(c, s, q)) == FirstIndex(n, Drawn(c, s, 0))
  {
    MulModulus(p, c, n);
  }

  lemma SameRemainder(n: nat, a: nat, b: nat) returns (m: int)
    requires n > 0 && FirstIndex(n, a) == FirstIndex(n, b)
    ensures b - a == m * n
  {
    m := b / n - a / n;
    assert a == a / n * n + a % n && b == b / n * n + b % n;
  }

  lemma CoprimeStepsDiffer(n: nat, s: nat, a: nat, b: nat, k: nat)
    requires 0 < k < n && Gcd(s, n) == 1 && k * s == b - a
    ensures FirstIndex(n, a) != FirstIndex(n, b)
  {
    if FirstIndex(n, a) == FirstIndex(n, b) {
      var m := SameRemainder(n, a, b);
      var w := CoprimeDivides(k, s, n, m);
      NoMultipleBetween(w, n, k);
    }
  }

  lemma DrawnApart(c: nat, s: nat, i: nat, j: nat)
    ensures (j - i) * s == Drawn(c, s, j) - Drawn(c, s, i)
  {
  }

  lemma NoSharedFactorNoRepeat(n: nat, c: nat, s: nat, i: nat, j: nat)
    requires n > 0 && Gcd(s, n) == 1 && i < j < n
    ensures FirstDrawn(n, c, s)(i) != FirstDrawn(n, c, s)(j)
  {
    DrawnApart(c, s, i, j);
    CoprimeStepsDiffer(n, s, Drawn(c, s, i), Drawn(c, s, j), j - i);
  }

  /**
   A name whose queries draw every `s`-th counter value is served fairly (over as many queries as it has addresses,
   each comes first exactly once) if and only if the stride and the number of addresses share no factor.
   */
  lemma StrideIsFairIff(n: nat, c: nat, s: nat)
    requires n > 0
    ensures NoneTwice(n, FirstDrawn(n, c, s)) <==> Gcd(s, n) == 1
  {
    if Gcd(s, n) == 1 {
      forall i: nat, j: nat | i < j < n ensures FirstDrawn(n, c, s)(i) != FirstDrawn(n, c, s)(j) {
        NoSharedFactorNoRepeat(n, c, s, i, j);
      }
    } else {
      SharedFactorRepeats(n, c, s);
    }
  }

  /** The answers themselves: what comes first in the `i`-th answer is the address at that place. */
  lemma FirstAddressDrawn(answers: seq<Answer>, t: U16, c: nat, s: nat, i: nat)
    requires (t == A || t == AAAA) && OfType(answers, t) != []
    ensures var family := OfType(answers, t);
            var served := OfType(Balanced(answers, Drawn(c, s, i)), t);
            served != [] && FirstDrawn(|family|, c, s)(i) < |family| && served[0] == family[FirstDrawn(|family|, c, s)(i)]
  {
    FirstOfRotation(answers, t, Drawn(c, s, i));
  }

  /** Two names of two addresses asked in turn: each always sees the same address first. */
  lemma AlternatingNamesNeverRotate(answers: seq<Answer>, t: U16, c: nat, i: nat)
    requires (t == A || t == AAAA) && |OfType(answers, t)| == 2
    ensures var served, before := OfType(Balanced(answers, Drawn(c, 2, i)), t), OfType(Balanced(answers, Drawn(c, 2, 0)), t);
            served != [] && before != [] && served[0] == before[0]
  {
    FirstAddressDrawn(answers, t, c, 2, i);
    FirstAddressDrawn(answers, t, c, 2, 0);
    SamePlace(2, c, 2, i, i);
  }

  // ----- The counter wraps around -----

  function FirstWrapping(n: nat, limit: nat, c: nat): nat -> nat
    requires n > 0 && limit > 0
  {
    (i: nat) => FirstIndex(n, (c + i) % limit)
  }

  lemma Residue(m: nat, k: nat, n: nat)
    requires n > 0 && k <= FirstIndex(n, m)
    ensures k <= m && FirstIndex(n, m - k) == FirstIndex(n, m) - k
  {
    var q, r := m / n, m % n;
    assert m == q * n + r && q * n >= 0;
    MulModulus(q, r - k, n);
    SmallModulus(r - k, n);
  }

  lemma Differ(n: nat, x: nat, y: nat)
    requires n > 0 && x < y < x + n
    ensures FirstIndex(n, x) != FirstIndex(n, y)
  {
    if FirstIndex(n, x) == FirstIndex(n, y) {
      ResidueInjective(n, x, y);
    }
  }

  lemma NoWrapNoRepeat(n: nat, limit: nat, c: nat, i: nat, j: nat)
    requires 0 < n <= limit && c < limit && c + n <= limit && i < j < n
    ensures FirstWrapping(n, limit, c)(i) != FirstWrapping(n, limit, c)(j)
  {
    var x, y := (c + i) % limit, (c + j) % limit;
    assert x == c + i by {
      SmallModulus(c + i, limit);
    }
    assert y == c + j by {
      SmallModulus(c + j, limit);
    }
    Differ(n, x, y);
  }

  lemma EvenWrapNoRepeat(n: nat, limit: nat, c: nat, i: nat, j: nat)
    requires 0 < n <= limit && c < limit && FirstIndex(n, limit) == 0 && i < j < n
    ensures FirstWrapping(n, limit, c)(i) != FirstWrapping(n, limit, c)(j)
  {
    EvenWrap(c + i, limit, n);
    EvenWrap(c + j, limit, n);
    Differ(n, c + i, c + j);
  }

  lemma EvenWrap(x: nat, limit: nat, n: nat)
    requires n > 0 && limit > 0 && FirstIndex(n, limit) == 0
    ensures FirstIndex(n, x % limit) == FirstIndex(n, x)
  {
    var q, k, y := x / limit, limit / n, x % limit;
    assert limit == k * n;
    assert x == q * limit + y;
    Regroup(q, k, n, limit);
    MulModulus(q * k, y, n);
  }

  lemma Regroup(q: nat, k: nat, n: nat, limit: nat)
    requires limit == k * n
    ensures q * limit == (q * k) * n
  {
  }

  lemma WrapTo(limit: nat, c: nat, i: nat, x: nat)
    requires x < limit && (c + i == x || c + i == x + limit)
    ensures (c + i) % limit == x
  {
    if c + i == x {
      SmallModulus(x, limit);
    } else {
      AddModulus(x, limit);
    }
  }

  /** Two draws whose counter values leave the same remainder. */
  lemma Collides(n: nat, limit: nat, c: nat, i: nat, j: nat, x: nat, y: nat)
    requires 0 < n <= limit && i < j < n && x < limit && y < limit
    requires (c + i == x || c + i == x + limit) && (c + j == y || c + j == y + limit)
    requires FirstIndex(n, x) == FirstIndex(n, y)
    ensures !NoneTwice(n, FirstWrapping(n, limit, c))
  {
    WrapTo(limit, c, i, x);
    WrapTo(limit, c, j, y);
    var first := FirstWrapping(n, limit, c);
    assert first(i) == first(j);
  }

  lemma UnevenWrapRepeats(n: nat, limit: nat, c: nat)
    requires 0 < n <= limit && c < limit && c + n > limit && FirstIndex(n, limit) != 0
    ensures !NoneTwice(n, FirstWrapping(n, limit, c))
  {
    var r, k := FirstIndex(n, limit), limit - c;
    if r <= k {
      Residue(limit, r, n);
      SmallModulus(0, n);
      Collides(n, limit, c, k - r, k, limit - r, 0);
    } else {
      Residue(limit, k, n);
      SmallModulus(r - k, n);
      Collides(n, limit, c, 0, r, c, r - k);
    }
  }

  /**
   With a stride of one, a window of `n` draws is fair exactly when the counter does not wrap inside it or `n`
   divides the number of its values.
   */
  lemma WrapIsFairIff(n: nat, c: nat)
    requires 0 < n <= COUNTER_LIMIT && c < COUNTER_LIMIT
    ensures NoneTwice(n, FirstWrapping(n, COUNTER_LIMIT, c)) <==> c + n <= COUNTER_LIMIT || COUNTER_LIMIT % n == 0
  {
    WrapWithLimit(n, COUNTER_LIMIT, c);
  }

  lemma WrapWithLimit(n: nat, limit: nat, c: nat)
    requires 0 < n <= limit && c < limit
    ensures NoneTwice(n, FirstWrapping(n, limit, c)) <==> c + n <= limit || FirstIndex(n, limit) == 0
  {
    if c + n <= limit {
      forall i: nat, j: nat | i < j < n ensures FirstWrapping(n, limit, c)(i) != FirstWrapping(n, limit, c)(j) {
        NoWrapNoRepeat(n, limit, c, i, j);
      }
    } else if FirstIndex(n, limit) == 0 {
      forall i: nat, j: nat | i < j < n ensures FirstWrapping(n, limit, c)(i) != FirstWrapping(n, limit, c)(j) {
        EvenWrapNoRepeat(n, limit, c, i, j);
      }
    } else {
      UnevenWrapRepeats(n, limit, c);
    }
  }
}
