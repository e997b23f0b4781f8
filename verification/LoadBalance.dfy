/** Round-robin ordering of address answers (src/dns/resolve.rs `apply_load_balance`, src/state.rs `next_rotation`). */
module LoadBalance {
  import opened Wrappers
  import opened Seqs
  import opened Store

  datatype Mode = Off | RoundRobin | Random

  datatype Answer = Answer(rtype: U16, data: string)

  // ----- One address family -----

  /** The answers of one type, in order. */
  function OfType(s: seq<Answer>, t: U16): seq<Answer> {
    if s == [] then []
    else (if s[0].rtype == t then [s[0]] else []) + OfType(s[1..], t)
  }

  function NotOfType(s: seq<Answer>, t: U16): seq<Answer> {
    if s == [] then []
    else (if s[0].rtype == t then [] else [s[0]]) + NotOfType(s[1..], t)
  }

  /** The answers of type `t` replaced, in order, by `g`; everything else stays. */
  function WithGroup(s: seq<Answer>, t: U16, g: seq<Answer>): seq<Answer>
    requires |g| == |OfType(s, t)|
  {
    if s == [] then []
    else if s[0].rtype == t then [g[0]] + WithGroup(s[1..], t, g[1..])
    else [s[0]] + WithGroup(s[1..], t, g)
  }

  function RotateLeft(g: seq<Answer>, k: nat): (r: seq<Answer>)
    requires k <= |g|
    ensures |r| == |g|
  {
    g[k..] + g[..k]
  }

  /** The round-robin order of one family. */
  function RotateFamily(s: seq<Answer>, t: U16, offset: nat): (r: seq<Answer>)
  {
    var g := OfType(s, t);
    if |g| < 2 then s else WithGroup(s, t, RotateLeft(g, offset % |g|))
  }

  lemma {:induction false} WithGroupShape(s: seq<Answer>, t: U16, g: seq<Answer>)
    requires |g| == |OfType(s, t)| && forall i :: 0 <= i < |g| ==> g[i].rtype == t
    ensures |WithGroup(s, t, g)| == |s|
    ensures forall i :: 0 <= i < |s| ==> WithGroup(s, t, g)[i].rtype == s[i].rtype
    ensures forall i :: 0 <= i < |s| && s[i].rtype != t ==> WithGroup(s, t, g)[i] == s[i]
    ensures OfType(WithGroup(s, t, g), t) == g && NotOfType(WithGroup(s, t, g), t) == NotOfType(s, t)
  {
    if s != [] {
      WithGroupShape(s[1..], t, if s[0].rtype == t then g[1..] else g);
      assert WithGroup(s, t, g)[1..] == WithGroup(s[1..], t, if s[0].rtype == t then g[1..] else g);
    }
  }

  lemma {:induction false} Partition(s: seq<Answer>, t: U16)
    ensures multiset(s) == multiset(OfType(s, t)) + multiset(NotOfType(s, t))
  {
    if s != [] {
      Partition(s[1..], t);
      assert s == [s[0]] + s[1..];
    }
  }

  lemma {:induction false} OfTypeTyped(s: seq<Answer>, t: U16)
    ensures forall i :: 0 <= i < |OfType(s, t)| ==> OfType(s, t)[i].rtype == t
  {
    if s != [] {
      OfTypeTyped(s[1..], t);
    }
  }

  lemma RotationPermutes(g: seq<Answer>, k: nat)
    requires k <= |g|
    ensures multiset(RotateLeft(g, k)) == multiset(g)
  {
    assert g == g[..k] + g[k..];
  }

  lemma GroupRotation(s: seq<Answer>, t: U16, k: nat)
    requires k < |OfType(s, t)|
    ensures var r := WithGroup(s, t, RotateLeft(OfType(s, t), k));
            && |r| == |s| && multiset(r) == multiset(s)
            && (forall i :: 0 <= i < |s| ==> r[i].rtype == s[i].rtype)
            && (forall i :: 0 <= i < |s| && s[i].rtype != t ==> r[i] == s[i])
            && OfType(r, t) == RotateLeft(OfType(s, t), k)
  {
    var g := OfType(s, t);
    OfTypeTyped(s, t);
    WithGroupShape(s, t, RotateLeft(g, k));
    RotationPermutes(g, k);
    Partition(s, t);
    Partition(WithGroup(s, t, RotateLeft(g, k)), t);
  }

  /** `r` is `s` with the answers of type `t` in another order. */
  ghost predicate Reordered(s: seq<Answer>, r: seq<Answer>, t: U16) {
    && |r| == |s| && multiset(r) == multiset(s)
    && (forall i :: 0 <= i < |s| ==> r[i].rtype == s[i].rtype)
    && (forall i :: 0 <= i < |s| && s[i].rtype != t ==> r[i] == s[i])
  }

  /** `h` is `g` rotated left by the offset modulo its length. */
  ghost predicate RotatedBy(g: seq<Answer>, h: seq<Answer>, offset: nat) {
    |h| == |g| && (g != [] ==> forall j :: 0 <= j < |g| ==> h[j] == g[(j + offset % |g|) % |g|])
  }

  lemma RotateLeftRotates(g: seq<Answer>, offset: nat)
    requires |g| > 0
    ensures RotatedBy(g, RotateLeft(g, offset % |g|), offset)
  {
    var k := offset % |g|;
    forall j | 0 <= j < |g| ensures RotateLeft(g, k)[j] == g[(j + k) % |g|] {
      RotatedIndex(j, k, |g|);
    }
  }

  lemma ShortGroupRotates(g: seq<Answer>, offset: nat)
    requires |g| < 2
    ensures RotatedBy(g, g, offset)
  {
  }

  /**
   One family's turn: a permutation that keeps every index's type, leaves the other records in place, and
   rotates the family by the offset.
   */
  lemma FamilyRotation(s: seq<Answer>, t: U16, offset: nat)
    ensures Reordered(s, RotateFamily(s, t, offset), t)
    ensures RotatedBy(OfType(s, t), OfType(RotateFamily(s, t, offset), t), offset)
  {
    var g := OfType(s, t);
    if |g| >= 2 {
      GroupRotation(s, t, offset % |g|);
      RotateLeftRotates(g, offset);
    } else {
      ShortGroupRotates(g, offset);
    }
  }

  lemma RotatedIndex(j: nat, k: nat, n: nat)
    requires j < n && k < n
    ensures (j + k) % n == if j + k < n then j + k else j + k - n
  {
  }

  lemma {:induction false} OtherFamilyUnmoved(s: seq<Answer>, r: seq<Answer>, t: U16)
    requires |r| == |s| && (forall i :: 0 <= i < |s| ==> r[i].rtype == s[i].rtype)
    requires forall i :: 0 <= i < |s| && s[i].rtype == t ==> r[i] == s[i]
    ensures OfType(r, t) == OfType(s, t)
  {
    if s != [] {
      OtherFamilyUnmoved(s[1..], r[1..], t);
    }
  }

  /** The whole reordering. */
  function Balanced(s: seq<Answer>, offset: nat): seq<Answer> {
    RotateFamily(RotateFamily(s, A, offset), AAAA, offset)
  }

  /**
   Round robin is a permutation: every index keeps its record type, records other than addresses do not move,
   and the addresses of each family are rotated by the counter modulo their number.
   */
  lemma RoundRobinRotates(s: seq<Answer>, offset: nat, t: U16)
    requires t == A || t == AAAA
    ensures var r := Balanced(s, offset);
            && |r| == |s| && multiset(r) == multiset(s)
            && (forall i :: 0 <= i < |s| ==> r[i].rtype == s[i].rtype)
            && (forall i :: 0 <= i < |s| && s[i].rtype != A && s[i].rtype != AAAA ==> r[i] == s[i])
            && RotatedBy(OfType(s, t), OfType(r, t), offset)
  {
    var m := RotateFamily(s, A, offset);
    FamilyRotation(s, A, offset);
    FamilyRotation(m, AAAA, offset);
    OtherFamilyUnmoved(s, m, AAAA);
    OtherFamilyUnmoved(m, Balanced(s, offset), A);
  }

  /** Fairness: over `n` consecutive counter values each of the `n` addresses comes first exactly once. */
  lemma RoundRobinIsFair(s: seq<Answer>, t: U16, counter: nat, a: nat)
    requires (t == A || t == AAAA) && a < |OfType(s, t)|
    ensures var n := |OfType(s, t)|;
            && (exists c :: counter <= c < counter + n && FirstIndex(n, c) == a)
            && (forall c, d :: counter <= c < counter + n && counter <= d < counter + n && FirstIndex(n, c) == FirstIndex(n, d) ==> c == d)
            && (forall c: nat :: OfType(Balanced(s, c), t) != [] && OfType(Balanced(s, c), t)[0] == OfType(s, t)[FirstIndex(n, c)])
  {
    var n := |OfType(s, t)|;
    ResidueOnce(n, counter, a);
    forall c, d | counter <= c < counter + n && counter <= d < counter + n && FirstIndex(n, c) == FirstIndex(n, d) ensures c == d {
      ResidueInjective(n, c, d);
    }
    forall c: nat ensures OfType(Balanced(s, c), t) != [] && OfType(Balanced(s, c), t)[0] == OfType(s, t)[FirstIndex(n, c)] {
      FirstOfRotation(s, t, c);
    }
  }

  lemma FirstOfRotation(s: seq<Answer>, t: U16, c: nat)
    requires (t == A || t == AAAA) && OfType(s, t) != []
    ensures OfType(Balanced(s, c), t) != []
    ensures OfType(Balanced(s, c), t)[0] == OfType(s, t)[FirstIndex(|OfType(s, t)|, c)]
  {
    var n := |OfType(s, t)|;
    RoundRobinRotates(s, c, t);
    RotatedIndex(0, c % n, n);
  }

  /** The position, among a family's `n` addresses, of the one that counter value `c` puts first. */
  function FirstIndex(n: nat, c: nat): nat
    requires n > 0
  {
    c % n
  }

  lemma ResidueOnce(n: nat, counter: nat, a: nat)
    requires a < n
    ensures exists c :: counter <= c < counter + n && FirstIndex(n, c) == a
  {
    var r := counter % n;
    var d := if r <= a then a - r else a + n - r;
    ResidueReached(counter, r, d, a, n);
    assert FirstIndex(n, counter + d) == a;
  }

  lemma ResidueReached(counter: nat, r: nat, d: nat, a: nat, n: nat)
    requires a < n && r == counter % n && (r + d == a || r + d == a + n)
    ensures (counter + d) % n == a
  {
    ModPlus(counter, d, n);
    if r + d == a + n {
      AddModulus(a, n);
    } else {
      SmallModulus(a, n);
    }
  }

  lemma SmallModulus(x: nat, n: nat)
    requires x < n
    ensures x % n == x
  {
  }

  lemma AddModulus(x: nat, n: nat)
    requires n > 0 && x < n
    ensures (x + n) % n == x
  {
  }

  lemma ModPlus(x: nat, d: nat, n: nat)
    requires n > 0
    ensures (x + d) % n == (x % n + d) % n
  {
    var q := x / n;
    assert x == q * n + x % n;
    MulModulus(q, x % n + d, n);
  }

  lemma {:induction false} MulModulus(q: nat, y: nat, n: nat)
    requires n > 0
    ensures (q * n + y) % n == y % n
  {
    if q > 0 {
      MulModulus(q - 1, y, n);
      assert q * n + y == (q - 1) * n + y + n;
      AddWhole((q - 1) * n + y, n);
    }
  }

  lemma {:induction false} MultipleIsLarge(k: nat, n: nat)
    requires k >= 1
    ensures k * n >= n
  {
    if k > 1 {
      MultipleIsLarge(k - 1, n);
      assert k * n == (k - 1) * n + n;
    }
  }

  lemma NoMultipleBelow(k: nat, n: nat)
    requires k * n < n
    ensures k == 0
  {
    if k > 0 {
      MultipleIsLarge(k, n);
    }
  }

  lemma NoMultipleBetween(k: int, n: nat, x: int)
    requires n > 0 && x == k * n && x < n && -x < n
    ensures k == 0
  {
    var m: nat := if k < 0 then -k else k;
    assert m * n < n by {
      assert (-k) * n == -x;
    }
    NoMultipleBelow(m, n);
  }

  lemma AddWhole(x: nat, n: nat)
    requires n > 0
    ensures (x + n) % n == x % n
  {
    var a, b := (x + n) / n, x / n;
    assert (x + n) % n - x % n == (b + 1 - a) * n;
    NoMultipleBetween(b + 1 - a, n, (x + n) % n - x % n);
  }

  lemma ResidueInjective(n: nat, c: nat, d: nat)
    requires n > 0 && c % n == d % n && c - d < n && d - c < n
    ensures c == d
  {
    assert c - d == (c / n - d / n) * n;
    NoMultipleBetween(c / n - d / n, n, c - d);
  }

  // ----- The reordering in place -----

  lemma {:induction false} OfTypeSnoc(s: seq<Answer>, x: Answer, t: U16)
    ensures OfType(s + [x], t) == OfType(s, t) + if x.rtype == t then [x] else []
  {
    if s == [] {
      assert s + [x] == [x] && [x][1..] == [];
    } else {
      var head: seq<Answer> := if s[0].rtype == t then [s[0]] else [];
      var last: seq<Answer> := if x.rtype == t then [x] else [];
      OfTypeSnoc(s[1..], x, t);
      assert (s + [x])[1..] == s[1..] + [x] && (s + [x])[0] == s[0];
      assert OfType(s + [x], t) == head + (OfType(s[1..], t) + last);
      AppendAssociates(head, OfType(s[1..], t), last);
    }
  }

  /** How many answers of the type come before position `i`. */
  function Rank(s: seq<Answer>, t: U16, i: nat): nat
    requires i <= |s|
  {
    |OfType(s[..i], t)|
  }

  lemma {:induction false} WithGroupAt(s: seq<Answer>, t: U16, g: seq<Answer>, i: nat)
    requires |g| == |OfType(s, t)| && i < |s|
    ensures |WithGroup(s, t, g)| == |s|
    ensures s[i].rtype == t ==> Rank(s, t, i) < |g| && WithGroup(s, t, g)[i] == g[Rank(s, t, i)]
    ensures s[i].rtype != t ==> WithGroup(s, t, g)[i] == s[i]
  {
    var rest, h := s[1..], if s[0].rtype == t then g[1..] else g;
    if i > 0 {
      WithGroupAt(rest, t, h, i - 1);
      assert s[..i][1..] == rest[..i - 1] && s[i] == rest[i - 1];
    } else {
      assert s[..0] == [];
      WithGroupLength(rest, t, h);
    }
  }

  lemma {:induction false} WithGroupLength(s: seq<Answer>, t: U16, g: seq<Answer>)
    requires |g| == |OfType(s, t)|
    ensures |WithGroup(s, t, g)| == |s|
  {
    if s != [] {
      WithGroupLength(s[1..], t, if s[0].rtype == t then g[1..] else g);
    }
  }

  /** `idxs` are the positions of the type, in order. */
  ghost predicate ArePositions(s: seq<Answer>, t: U16, idxs: seq<nat>) {
    && |idxs| == |OfType(s, t)|
    && (forall j :: 0 <= j < |idxs| ==> idxs[j] < |s| && s[idxs[j]].rtype == t && Rank(s, t, idxs[j]) == j)
    && (forall i :: 0 <= i < |s| && s[i].rtype == t ==> Rank(s, t, i) < |idxs| && idxs[Rank(s, t, i)] == i)
  }

  /** Collect the positions and the answers of one type. */
  method Collect(answers: array<Answer>, t: U16) returns (idxs: seq<nat>, group: seq<Answer>)
    ensures group == OfType(answers[..], t) && ArePositions(answers[..], t, idxs)
  {
    idxs, group := [], [];
    ghost var s := answers[..];
    for i := 0 to answers.Length
      invariant group == OfType(s[..i], t) && |idxs| == |group|
      invariant forall j :: 0 <= j < |idxs| ==> idxs[j] < i && s[idxs[j]].rtype == t && Rank(s, t, idxs[j]) == j
      invariant forall k :: 0 <= k < i && s[k].rtype == t ==> Rank(s, t, k) < |idxs| && idxs[Rank(s, t, k)] == k
    {
      assert s[..i + 1] == s[..i] + [s[i]];
      OfTypeSnoc(s[..i], s[i], t);
      if answers[i].rtype == t {
        idxs := idxs + [i];
        group := group + [answers[i]];
      }
    }
    assert s[..|s|] == s;
  }

  /** Write a reordered group back to its positions. */
  method WriteBack(answers: array<Answer>, t: U16, idxs: seq<nat>, g: seq<Answer>)
    requires ArePositions(answers[..], t, idxs) && |g| == |idxs|
    modifies answers
    ensures answers[..] == WithGroup(old(answers[..]), t, g)
  {
    ghost var s := answers[..];
    for j := 0 to |idxs|
      invariant forall i :: 0 <= i < answers.Length ==>
        answers[i] == if s[i].rtype == t && Rank(s, t, i) < j then g[Rank(s, t, i)] else s[i]
    {
      answers[idxs[j]] := g[j];
    }
    forall i | 0 <= i < answers.Length ensures |WithGroup(s, t, g)| == |s| && answers[i] == WithGroup(s, t, g)[i] {
      WithGroupAt(s, t, g, i);
    }
    WithGroupLength(s, t, g);
  }

  /** Any permutation: each position is swapped with an arbitrary earlier one. */
  method Shuffle(group: seq<Answer>) returns (g: seq<Answer>)
    ensures multiset(g) == multiset(group)
  {
    g := group;
    for i := 0 to |g|
      invariant |g| == |group| && multiset(g) == multiset(group)
    {
      var j :| 0 <= j <= i;
      g := g[i := g[j]][j := g[i]];
    }
  }

  /** One family of `apply_load_balance`. */
  method BalanceFamily(answers: array<Answer>, mode: Mode, offset: nat, t: U16)
    modifies answers
    ensures mode.RoundRobin? ==> answers[..] == RotateFamily(old(answers[..]), t, offset)
    ensures Reordered(old(answers[..]), answers[..], t)
    ensures mode.Off? ==> answers[..] == old(answers[..])
  {
    ghost var s := answers[..];
    var idxs, group := Collect(answers, t);
    if |idxs| < 2 || mode.Off? {
      return;
    }
    var g := group;
    if mode.RoundRobin? {
      RotationPermutes(group, offset % |group|);
      g := group[offset % |group|..] + group[..offset % |group|];
    } else {
      g := Shuffle(group);
    }
    PermutedGroup(s, t, g);
    WriteBack(answers, t, idxs, g);
  }

  lemma PermutedGroup(s: seq<Answer>, t: U16, g: seq<Answer>)
    requires multiset(g) == multiset(OfType(s, t))
    ensures |g| == |OfType(s, t)| && Reordered(s, WithGroup(s, t, g), t)
  {
    OfTypeTyped(s, t);
    assert |g| == |multiset(g)| == |multiset(OfType(s, t))|;
    forall i | 0 <= i < |g| ensures g[i].rtype == t {
      assert g[i] in multiset(OfType(s, t));
    }
    WithGroupShape(s, t, g);
    Partition(s, t);
    Partition(WithGroup(s, t, g), t);
  }

  lemma {:induction false} OfTypeIsShort(s: seq<Answer>, t: U16)
    ensures |OfType(s, t)| <= |s|
  {
    if s != [] {
      OfTypeIsShort(s[1..], t);
    }
  }

  /** `apply_load_balance`: the counter is read once and used for both families. */
  method ApplyLoadBalance(answers: array<Answer>, mode: Mode, counter: nat)
    modifies answers
    ensures mode.Off? ==> answers[..] == old(answers[..])
    ensures mode.RoundRobin? ==> answers[..] == Balanced(old(answers[..]), counter)
    ensures multiset(answers[..]) == multiset(old(answers[..]))
    ensures forall i :: 0 <= i < answers.Length ==> answers[i].rtype == old(answers[..])[i].rtype
  {
    if mode.Off? || answers.Length < 2 {
      OfTypeIsShort(answers[..], A);
      OfTypeIsShort(answers[..], AAAA);
      return;
    }
    var offset := if mode.RoundRobin? then counter else 0;
    BalanceFamily(answers, mode, offset, A);
    BalanceFamily(answers, mode, offset, AAAA);
  }
}
