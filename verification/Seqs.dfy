/** `filter_map` over sequences, and how it behaves under concatenation, permutation and composition. */
module Seqs {
  import opened Wrappers

  function Kept<T>(o: Option<T>): seq<T> {
    if o.None? then [] else [o.value]
  }

  function FilterMap<S, T>(s: seq<S>, f: S -> Option<T>): seq<T> {
    if s == [] then [] else Kept(f(s[0])) + FilterMap(s[1..], f)
  }

  function Flatten<T>(s: seq<seq<T>>): seq<T> {
    if s == [] then [] else s[0] + Flatten(s[1..])
  }

  lemma {:induction false} FilterMapConcat<S, T>(a: seq<S>, b: seq<S>, f: S -> Option<T>)
    ensures FilterMap(a + b, f) == FilterMap(a, f) + FilterMap(b, f)
  {
    if a == [] {
      assert a + b == b;
    } else {
      assert (a + b)[1..] == a[1..] + b;
      FilterMapConcat(a[1..], b, f);
    }
  }

  lemma FilterMapAt<S, T>(s: seq<S>, i: nat, f: S -> Option<T>)
    requires i < |s|
    ensures FilterMap(s[i..], f) == Kept(f(s[i])) + FilterMap(s[i + 1..], f)
  {
    assert s[i..][1..] == s[i + 1..];
  }

  lemma {:induction false} FilterMapMembers<S, T>(s: seq<S>, f: S -> Option<T>, y: T)
    ensures y in FilterMap(s, f) <==> exists x :: x in s && f(x) == Some(y)
  {
    if s != [] {
      FilterMapMembers(s[1..], f, y);
      assert forall x :: x in s <==> x == s[0] || x in s[1..];
    }
  }

  lemma {:induction false} FilterMapAgree<S, T>(s: seq<S>, f: S -> Option<T>, g: S -> Option<T>)
    requires forall x :: x in s ==> f(x) == g(x)
    ensures FilterMap(s, f) == FilterMap(s, g)
  {
    if s != [] {
      FilterMapAgree(s[1..], f, g);
    }
  }

  lemma {:induction false} FilterMapCompose<S, T, U>(s: seq<S>, f: S -> Option<T>, g: T -> Option<U>, h: S -> Option<U>)
    requires forall x :: x in s ==> h(x) == if f(x).None? then None else g(f(x).value)
    ensures FilterMap(FilterMap(s, f), g) == FilterMap(s, h)
  {
    if s != [] {
      FilterMapCompose(s[1..], f, g, h);
      FilterMapConcat(Kept(f(s[0])), FilterMap(s[1..], f), g);
      assert FilterMap(Kept(f(s[0])), g) == Kept(h(s[0]));
    }
  }

  lemma FilterMapSplit<S, T>(t: seq<S>, j: nat, f: S -> Option<T>)
    requires j < |t|
    ensures FilterMap(t, f) == FilterMap(t[..j], f) + Kept(f(t[j])) + FilterMap(t[j + 1..], f)
    ensures FilterMap(t[..j] + t[j + 1..], f) == FilterMap(t[..j], f) + FilterMap(t[j + 1..], f)
  {
    var front, back, rest := t[..j], t[j..], t[j + 1..];
    assert FilterMap(back, f) == Kept(f(t[j])) + FilterMap(rest, f) by {
      assert back[0] == t[j] && back[1..] == rest;
    }
    assert FilterMap(t, f) == FilterMap(front, f) + FilterMap(back, f) by {
      assert t == front + back;
      FilterMapConcat(front, back, f);
    }
    AppendAssociates(FilterMap(front, f), Kept(f(t[j])), FilterMap(rest, f));
    FilterMapConcat(front, rest, f);
  }

  lemma RemoveAt<S>(t: seq<S>, j: nat)
    requires j < |t|
    ensures multiset(t[..j] + t[j + 1..]) == multiset(t) - multiset{t[j]}
  {
    assert t == t[..j] + [t[j]] + t[j + 1..];
  }

  lemma FilterMapWithout<S, T>(t: seq<S>, j: nat, f: S -> Option<T>)
    requires j < |t|
    ensures multiset(FilterMap(t, f)) == multiset(FilterMap(t[..j] + t[j + 1..], f)) + multiset(Kept(f(t[j])))
  {
    FilterMapSplit(t, j, f);
    PullOut(FilterMap(t[..j], f), Kept(f(t[j])), FilterMap(t[j + 1..], f));
  }

  /** Permuting the input permutes the output. */
  lemma {:induction false} FilterMapPermutation<S, T>(s: seq<S>, t: seq<S>, f: S -> Option<T>)
    requires multiset(s) == multiset(t)
    ensures multiset(FilterMap(s, f)) == multiset(FilterMap(t, f))
    decreases |s|
  {
    if s == [] {
      assert |t| == |multiset(t)| == 0;
    } else {
      assert s[0] in multiset(t);
      var j :| 0 <= j < |t| && t[j] == s[0];
      var s', t' := s[..0] + s[1..], t[..j] + t[j + 1..];
      assert multiset(s') == multiset(t') by {
        RemoveAt(s, 0);
        RemoveAt(t, j);
      }
      FilterMapPermutation(s', t', f);
      assert multiset(FilterMap(s, f)) == multiset(FilterMap(s', f)) + multiset(Kept(f(s[0]))) by {
        FilterMapWithout(s, 0, f);
      }
      assert multiset(FilterMap(t, f)) == multiset(FilterMap(t', f)) + multiset(Kept(f(s[0]))) by {
        FilterMapWithout(t, j, f);
      }
    }
  }

  lemma PullOut<T>(a: seq<T>, k: seq<T>, b: seq<T>)
    ensures multiset(a + k + b) == multiset(a + b) + multiset(k)
  {
  }

  lemma {:induction false} FilterMapAll<S, T>(s: seq<S>, f: S -> Option<T>)
    requires forall x :: x in s ==> f(x).Some?
    ensures |FilterMap(s, f)| == |s|
    ensures forall i :: 0 <= i < |s| ==> FilterMap(s, f)[i] == f(s[i]).value
  {
    if s != [] {
      FilterMapAll(s[1..], f);
      assert forall i :: 0 < i < |s| ==> s[i] == s[1..][i - 1];
    }
  }

  lemma {:induction false} FilterMapNone<S, T>(s: seq<S>, f: S -> Option<T>)
    requires forall x :: x in s ==> f(x).None?
    ensures FilterMap(s, f) == []
  {
    if s != [] {
      FilterMapNone(s[1..], f);
    }
  }

  lemma AppendAssociates<T>(a: seq<T>, b: seq<T>, c: seq<T>)
    ensures a + (b + c) == a + b + c
  {
  }

  lemma {:induction false} StepByStep(p: nat -> bool, n: nat)
    requires p(0) && forall i: nat :: i < n && p(i) ==> p(i + 1)
    ensures p(n)
  {
    if n > 0 {
      StepByStep(p, n - 1);
    }
  }

  // ----- Concatenating one part per element -----

  /** `f(s[0]) + f(s[1]) + ... + f(s[n - 1])` */
  function FlatMap<S, T>(s: seq<S>, f: S -> seq<T>, n: nat): seq<T>
    requires n <= |s|
  {
    if n == 0 then [] else FlatMap(s, f, n - 1) + f(s[n - 1])
  }

  lemma {:induction false} FlatMapMembers<S, T>(s: seq<S>, f: S -> seq<T>, n: nat, y: T)
    requires n <= |s|
    ensures y in FlatMap(s, f, n) <==> exists i :: 0 <= i < n && y in f(s[i])
  {
    if n > 0 {
      FlatMapMembers(s, f, n - 1, y);
      assert y in FlatMap(s, f, n) <==> y in FlatMap(s, f, n - 1) || y in f(s[n - 1]);
    }
  }

  /** The filtered parts. */
  function FilteredParts<S, T, U>(f: S -> seq<T>, g: T -> Option<U>): S -> seq<U> {
    (x: S) => FilterMap(f(x), g)
  }

  lemma FilterFlatMapStep<S, T, U>(s: seq<S>, f: S -> seq<T>, g: T -> Option<U>, n: nat)
    requires n < |s|
    ensures FilterMap(FlatMap(s, f, n + 1), g) == FilterMap(FlatMap(s, f, n), g) + FilteredParts(f, g)(s[n])
  {
    FilterMapConcat(FlatMap(s, f, n), f(s[n]), g);
  }

  lemma FilterFlatMapNext<S, T, U>(s: seq<S>, f: S -> seq<T>, g: T -> Option<U>, n: nat)
    requires n < |s| && FilterMap(FlatMap(s, f, n), g) == FlatMap(s, FilteredParts(f, g), n)
    ensures FilterMap(FlatMap(s, f, n + 1), g) == FlatMap(s, FilteredParts(f, g), n + 1)
  {
    FilterFlatMapStep(s, f, g, n);
  }

  lemma {:induction false} FilterFlatMap<S, T, U>(s: seq<S>, f: S -> seq<T>, g: T -> Option<U>, n: nat)
    requires n <= |s|
    ensures FilterMap(FlatMap(s, f, n), g) == FlatMap(s, FilteredParts(f, g), n)
  {
    if n > 0 {
      FilterFlatMap(s, f, g, n - 1);
      FilterFlatMapNext(s, f, g, n - 1);
    }
  }

  /** If the parts of all elements but `k` are empty, a duplicate-free sequence yields `k`'s part. */
  lemma {:induction false} FlatMapOfOne<S, T>(s: seq<S>, f: S -> seq<T>, k: S, n: nat)
    requires n <= |s| && forall i, j :: 0 <= i < j < |s| ==> s[i] != s[j]
    requires forall i :: 0 <= i < |s| ==> s[i] == k || f(s[i]) == []
    ensures FlatMap(s, f, n) == if exists i :: 0 <= i < n && s[i] == k then f(k) else []
  {
    if n > 0 {
      FlatMapOfOne(s, f, k, n - 1);
      assert s[n - 1] == k || f(s[n - 1]) == [];
    }
  }

  /** Filtering the concatenation for what only `k`'s part can hold yields what that part holds. */
  lemma FilterFlatMapOfOne<S, T, U>(s: seq<S>, f: S -> seq<T>, g: T -> Option<U>, k: S, kept: seq<U>)
    requires forall i, j :: 0 <= i < j < |s| ==> s[i] != s[j]
    requires forall i :: 0 <= i < |s| && s[i] != k ==> FilterMap(f(s[i]), g) == []
    requires FilterMap(f(k), g) == kept
    ensures FilterMap(FlatMap(s, f, |s|), g) == if k in s then kept else []
  {
    FilterFlatMap(s, f, g, |s|);
    FlatMapOfOne(s, FilteredParts(f, g), k, |s|);
  }

  // ----- Stable sorting by an integer key, smallest first -----

  function InsertBy<T>(x: T, s: seq<T>, key: T -> int): seq<T> {
    if s == [] || key(x) <= key(s[0]) then [x] + s else [s[0]] + InsertBy(x, s[1..], key)
  }

  function SortBy<T>(s: seq<T>, key: T -> int): seq<T> {
    if s == [] then [] else InsertBy(s[0], SortBy(s[1..], key), key)
  }

  ghost predicate SortedBy<T>(s: seq<T>, key: T -> int) {
    forall i, j :: 0 <= i <= j < |s| ==> key(s[i]) <= key(s[j])
  }

  lemma ConsSorted<T>(x: T, s: seq<T>, key: T -> int)
    requires SortedBy(s, key) && (s != [] ==> key(x) <= key(s[0]))
    ensures SortedBy([x] + s, key)
  {
    forall i | 0 <= i < |s| ensures key(x) <= key(s[i]) {
      assert key(s[0]) <= key(s[i]);
    }
  }

  lemma TailSorted<T>(s: seq<T>, key: T -> int)
    requires SortedBy(s, key) && s != []
    ensures SortedBy(s[1..], key)
    ensures |s| > 1 ==> key(s[0]) <= key(s[1])
  {
    forall i, j | 0 <= i <= j < |s[1..]| ensures key(s[1..][i]) <= key(s[1..][j]) {
      assert key(s[i + 1]) <= key(s[j + 1]);
    }
  }

  lemma {:induction false} InsertBySorts<T>(x: T, s: seq<T>, key: T -> int)
    requires SortedBy(s, key)
    ensures SortedBy(InsertBy(x, s, key), key)
    ensures InsertBy(x, s, key) != []
    ensures key(InsertBy(x, s, key)[0]) == if s == [] then key(x) else Min(key(x), key(s[0]))
  {
    if s == [] || key(x) <= key(s[0]) {
      ConsSorted(x, s, key);
    } else {
      TailSorted(s, key);
      InsertBySorts(x, s[1..], key);
      ConsSorted(s[0], InsertBy(x, s[1..], key), key);
    }
  }

  lemma {:induction false} InsertByAdds<T>(x: T, s: seq<T>, key: T -> int)
    ensures multiset(InsertBy(x, s, key)) == multiset(s) + multiset{x}
  {
    if s == [] || key(x) <= key(s[0]) {
    } else {
      InsertByAdds(x, s[1..], key);
      assert s == [s[0]] + s[1..];
    }
  }

  /** The result is sorted and holds the same elements. */
  function WithKey<T>(key: T -> int, k: int): T -> Option<T> {
    (x: T) => if key(x) == k then Some(x) else None
  }

  lemma {:induction false} InsertIsStable<T>(x: T, s: seq<T>, key: T -> int, k: int)
    ensures FilterMap(InsertBy(x, s, key), WithKey(key, k)) == Kept(WithKey(key, k)(x)) + FilterMap(s, WithKey(key, k))
  {
    if s != [] && key(s[0]) < key(x) {
      InsertIsStable(x, s[1..], key, k);
      assert InsertBy(x, s, key)[1..] == InsertBy(x, s[1..], key);
    } else {
      assert ([x] + s)[1..] == s;
    }
  }

  /** Sorting keeps elements of equal key in their order. */
  lemma {:induction false} SortIsStable<T>(s: seq<T>, key: T -> int, k: int)
    ensures FilterMap(SortBy(s, key), WithKey(key, k)) == FilterMap(s, WithKey(key, k))
  {
    if s != [] {
      SortIsStable(s[1..], key, k);
      InsertIsStable(s[0], SortBy(s[1..], key), key, k);
    }
  }

  lemma {:induction false} SortBySorts<T>(s: seq<T>, key: T -> int)
    ensures SortedBy(SortBy(s, key), key)
    ensures multiset(SortBy(s, key)) == multiset(s)
  {
    if s != [] {
      SortBySorts(s[1..], key);
      InsertBySorts(s[0], SortBy(s[1..], key), key);
      InsertByAdds(s[0], SortBy(s[1..], key), key);
      assert s == [s[0]] + s[1..];
    }
  }
}
