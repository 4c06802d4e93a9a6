/** Counting draw vectors: every item is among the first k in the same number of them. */
module FairOdds {
  import opened RedisTables
  import opened Selection

  function Factorial(n: nat): nat {
    if n == 0 then 1 else n * Factorial(n - 1)
  }

  function Appended(ds: set<seq<nat>>, j: nat): set<seq<nat>> {
    set d | d in ds :: d + [j]
  }

  /** The vectors of length n + 1 whose prefix is in `ds` and whose last draw is below m. */
  function Extended(ds: set<seq<nat>>, m: nat): set<seq<nat>> {
    if m == 0 then {} else Extended(ds, m - 1) + Appended(ds, m - 1)
  }

  /** All draw vectors of length n. */
  function AllDraws(n: nat): set<seq<nat>> {
    if n == 0 then {[]} else Extended(AllDraws(n - 1), n)
  }

  /** Where the shuffle takes the item that starts at position q. */
  function Trace(d: seq<nat>, q: nat): nat
    decreases |d|
  {
    if |d| <= 1 then q
    else
      var i := |d| - 1;
      var moved := if q == d[i] then i else if q == i then d[i] else q;
      if moved == i then i else Trace(d[..i], moved)
  }

  lemma {:induction false} ExtendedMembers(ds: set<seq<nat>>, m: nat, d: seq<nat>)
    ensures d in Extended(ds, m) <==> d != [] && d[|d| - 1] < m && d[..|d| - 1] in ds
  {
    if m > 0 {
      ExtendedMembers(ds, m - 1, d);
      if d != [] && d[|d| - 1] == m - 1 && d[..|d| - 1] in ds {
        assert d == d[..|d| - 1] + [m - 1];
      }
    }
  }

  lemma {:induction false} AllDrawsMembers(n: nat, d: seq<nat>)
    ensures d in AllDraws(n) <==> |d| == n && Draws(d)
  {
    if n > 0 {
      ExtendedMembers(AllDraws(n - 1), n, d);
      if d != [] {
        AllDrawsMembers(n - 1, d[..|d| - 1]);
        if |d| == n && Draws(d[..|d| - 1]) && d[|d| - 1] < n {
          forall i | 0 <= i < |d| ensures d[i] <= i {
            assert i < |d| - 1 ==> d[i] == d[..|d| - 1][i];
          }
        }
      }
    }
  }

  lemma {:induction false} AppendedSize(ds: set<seq<nat>>, j: nat)
    ensures |Appended(ds, j)| == |ds|
  {
    if ds != {} {
      var d :| d in ds;
      AppendedSize(ds - {d}, j);
      assert Appended(ds, j) == Appended(ds - {d}, j) + {d + [j]};
      forall e | e in ds - {d} ensures e + [j] != d + [j] {
        assert (e + [j])[..|e|] == e && (d + [j])[..|d|] == d;
      }
    }
  }

  lemma ExtendedSplit(ds: set<seq<nat>>, m: nat)
    ensures Extended(ds, m) !! Appended(ds, m)
  {
    forall d | d in Appended(ds, m) ensures d !in Extended(ds, m) {
      ExtendedMembers(ds, m, d);
    }
  }

  lemma UnionSize<X>(a: set<X>, b: set<X>)
    requires a !! b
    ensures |a + b| == |a| + |b|
  {}

  /** Adding n to itself m times. */
  function Times(m: nat, n: nat): nat {
    if m == 0 then 0 else Times(m - 1, n) + n
  }

  lemma Distribute(a: int, b: int)
    ensures (a + 1) * b == a * b + b
  {}

  lemma {:induction false} TimesIsProduct(m: nat, n: nat)
    ensures Times(m, n) == m * n
  {
    if m > 0 {
      TimesIsProduct(m - 1, n);
      Distribute(m - 1, n);
    }
  }

  lemma ExtendedNext(ds: set<seq<nat>>, m: nat)
    ensures |Extended(ds, m + 1)| == |Extended(ds, m) + Appended(ds, m)|
  {}

  lemma ExtendedGrows(ds: set<seq<nat>>, m: nat)
    ensures |Extended(ds, m + 1)| == |Extended(ds, m)| + |ds|
  {
    ExtendedNext(ds, m);
    ExtendedSplit(ds, m);
    AppendedSize(ds, m);
    UnionSize(Extended(ds, m), Appended(ds, m));
  }

  lemma ExtendedNone(ds: set<seq<nat>>)
    ensures |Extended(ds, 0)| == 0
  {}

  lemma {:induction false} ExtendedSize(ds: set<seq<nat>>, m: nat)
    ensures |Extended(ds, m)| == Times(m, |ds|)
  {
    if m == 0 {
      ExtendedNone(ds);
    } else {
      ExtendedSize(ds, m - 1);
      ExtendedGrows(ds, m - 1);
    }
  }

  lemma {:induction false} AllDrawsSize(n: nat)
    ensures |AllDraws(n)| == Factorial(n)
  {
    if n > 0 {
      AllDrawsSize(n - 1);
      ExtendedSize(AllDraws(n - 1), n);
      TimesIsProduct(n, Factorial(n - 1));
    }
  }

  lemma {:induction false} TraceFollows<T>(s: seq<T>, d: seq<nat>, q: nat)
    requires |d| <= |s| && Draws(d) && q < |d|
    ensures Trace(d, q) < |d| && Shuffle(s, d)[Trace(d, q)] == s[q]
    decreases |d|
  {
    if |d| > 1 {
      var i := |d| - 1;
      var moved := if q == d[i] then i else if q == i then d[i] else q;
      ShuffleKeeps(s, d);
      if moved != i {
        TraceFollows(Swap(s, i, d[i]), d[..i], moved);
      }
    }
  }

  /** The draw vectors of length n that take position q to position p. */
  ghost function Landing(n: nat, q: nat, p: nat): set<seq<nat>> {
    set d | d in AllDraws(n) && Trace(d, q) == p
  }

  /** Those of them whose last draw is below m. */
  ghost function LandingBelow(n: nat, q: nat, p: nat, m: nat): set<seq<nat>> {
    set d | d in Landing(n, q, p) && d != [] && d[|d| - 1] < m
  }

  /** The prefixes that, followed by the draw j, take q to p. */
  ghost function Prefixes(n: nat, q: nat, p: nat, j: nat): set<seq<nat>>
    requires n > 1
  {
    if p == n - 1 then (if j == q then AllDraws(n - 1) else {})
    else if j == q then {}
    else Landing(n - 1, if q == n - 1 then j else q, p)
  }

  lemma PrefixesSplit(n: nat, q: nat, p: nat, j: nat)
    requires n > 1 && q < n && p < n && j < n
    ensures LandingBelow(n, q, p, j + 1) == LandingBelow(n, q, p, j) + Appended(Prefixes(n, q, p, j), j)
    ensures LandingBelow(n, q, p, j) !! Appended(Prefixes(n, q, p, j), j)
  {
    forall d: seq<nat>
      ensures d in LandingBelow(n, q, p, j + 1) <==>
              d in LandingBelow(n, q, p, j) || d in Appended(Prefixes(n, q, p, j), j)
    {
      if d != [] && d[|d| - 1] == j {
        LastDraw(n, q, p, d[..|d| - 1], j);
        assert d == d[..|d| - 1] + [j];
      }
    }
  }

  lemma LastDraw(n: nat, q: nat, p: nat, rest: seq<nat>, j: nat)
    requires n > 1 && q < n && p < n && j < n
    ensures rest + [j] in Landing(n, q, p) <==> rest in Prefixes(n, q, p, j)
  {
    var d := rest + [j];
    AllDrawsMembers(n, d);
    AllDrawsMembers(n - 1, rest);
    assert d[..|rest|] == rest;
    if |rest| == n - 1 && Draws(rest) {
      var moved := if q == j then n - 1 else if q == n - 1 then j else q;
      assert Trace(d, q) == if moved == n - 1 then n - 1 else Trace(rest, moved);
      if moved < n - 1 {
        TraceFollows(seq(n - 1, k => k), rest, moved);
      }
      assert Draws(d);
    } else if rest in AllDraws(n - 1) {
      assert false;
    } else if |rest| == n - 1 {
      var i :| 0 <= i < |rest| && rest[i] > i;
      assert d[i] > i;
    }
  }

  /** Every position is reached from every position by exactly (n - 1)! draw vectors. */
  lemma {:induction false} LandingSize(n: nat, q: nat, p: nat)
    requires q < n && p < n
    ensures |Landing(n, q, p)| == Factorial(n - 1)
    decreases n, n + 1
  {
    if n == 1 {
      AllDrawsMembers(1, [0]);
      forall d | d in AllDraws(1) ensures d == [0] {
        AllDrawsMembers(1, d);
      }
      assert Landing(n, q, p) == {[0]};
    } else {
      LandingBelowSize(n, q, p, n);
      MultipleClosed(n, q, p, n);
      forall d | d in Landing(n, q, p) ensures d in LandingBelow(n, q, p, n) {
        AllDrawsMembers(n, d);
      }
      assert Landing(n, q, p) == LandingBelow(n, q, p, n);
    }
  }

  lemma LandingBelowStep(n: nat, q: nat, p: nat, j: nat)
    requires n > 1 && q < n && p < n && j < n
    ensures |LandingBelow(n, q, p, j + 1)| == |LandingBelow(n, q, p, j)| + |Prefixes(n, q, p, j)|
  {
    PrefixesSplit(n, q, p, j);
    AppendedSize(Prefixes(n, q, p, j), j);
    UnionSize(LandingBelow(n, q, p, j), Appended(Prefixes(n, q, p, j), j));
  }

  lemma LandingBelowNone(n: nat, q: nat, p: nat)
    ensures |LandingBelow(n, q, p, 0)| == 0
  {
    assert LandingBelow(n, q, p, 0) == {};
  }

  lemma {:induction false} LandingBelowSize(n: nat, q: nat, p: nat, m: nat)
    requires 1 < n && q < n && p < n && m <= n
    ensures |LandingBelow(n, q, p, m)| == Multiple(n, q, p, m)
    decreases n, m
  {
    if m == 0 {
      LandingBelowNone(n, q, p);
    } else {
      LandingBelowSize(n, q, p, m - 1);
      LandingBelowStep(n, q, p, m - 1);
      PrefixesSize(n, q, p, m - 1);
    }
  }

  /** The sum of the sizes of `Prefixes(n, q, p, j)` for j below m. */
  ghost function Multiple(n: nat, q: nat, p: nat, m: nat): nat
    requires 1 < n
  {
    if m == 0 then 0
    else Multiple(n, q, p, m - 1) +
         if p == n - 1 then (if m - 1 == q then Factorial(n - 1) else 0)
         else if m - 1 == q then 0 else Factorial(n - 2)
  }

  lemma {:induction false} MultipleClosed(n: nat, q: nat, p: nat, m: nat)
    requires 1 < n
    ensures Multiple(n, q, p, m) ==
            if p == n - 1 then (if q < m then Factorial(n - 1) else 0)
            else (if q < m then m - 1 else m) * Factorial(n - 2)
  {
    if m > 0 {
      MultipleClosed(n, q, p, m - 1);
      Distribute(if q < m - 1 then m - 2 else m - 1, Factorial(n - 2));
    }
  }

  lemma {:induction false} PrefixesSize(n: nat, q: nat, p: nat, j: nat)
    requires 1 < n && q < n && p < n && j < n
    ensures |Prefixes(n, q, p, j)| ==
            if p == n - 1 then (if j == q then Factorial(n - 1) else 0)
            else if j == q then 0 else Factorial(n - 2)
    decreases n, 0
  {
    AllDrawsSize(n - 1);
    if p != n - 1 && j != q {
      LandingSize(n - 1, if q == n - 1 then j else q, p);
    }
  }

  /** The draw vectors for which the item at position q is among the first k. */
  ghost function Wins(n: nat, q: nat, k: nat): set<seq<nat>> {
    set d | d in AllDraws(n) && Trace(d, q) < k
  }

  lemma WinsSplit(n: nat, q: nat, k: nat)
    ensures Wins(n, q, k + 1) == Wins(n, q, k) + Landing(n, q, k)
    ensures Wins(n, q, k) !! Landing(n, q, k)
  {}

  lemma {:induction false} WinsSize(n: nat, q: nat, k: nat)
    requires q < n && k <= n
    ensures |Wins(n, q, k)| == Times(k, Factorial(n - 1))
  {
    if k == 0 {
      assert Wins(n, q, k) == {};
    } else {
      WinsSize(n, q, k - 1);
      LandingSize(n, q, k - 1);
      WinsSplit(n, q, k - 1);
      UnionSize(Wins(n, q, k - 1), Landing(n, q, k - 1));
    }
  }

  /** The item at position q is among the k selected. */
  ghost predicate Chosen<T>(items: seq<T>, d: seq<nat>, k: nat, q: nat)
    requires q < |items|
  {
    |d| == |items| && Draws(d) && items[q] in Slice(Shuffle(items, d), k)
  }

  ghost function ChoosingDraws<T>(items: seq<T>, k: nat, q: nat): set<seq<nat>>
    requires q < |items|
  {
    set d | d in AllDraws(|items|) && Chosen(items, d, k, q)
  }

  /** Fair odds: of the n! draw vectors for n distinct items (AllDrawsSize), each item is chosen by
      k * (n - 1)!. */
  lemma {:induction false} FairOdds<T>(items: seq<T>, k: nat, q: nat)
    requires Distinct(items) && q < |items| && k <= |items|
    ensures |ChoosingDraws(items, k, q)| == k * Factorial(|items| - 1)
  {
    ChoosingIsWins(items, k, q);
    var wins := Wins(|items|, q, k);
    WinsSize(|items|, q, k);
    TimesIsProduct(k, Factorial(|items| - 1));
    assert ChoosingDraws(items, k, q) == wins;
  }

  lemma ChoosingIsWins<T>(items: seq<T>, k: nat, q: nat)
    requires Distinct(items) && q < |items| && k <= |items|
    ensures ChoosingDraws(items, k, q) == Wins(|items|, q, k)
  {
    forall d | d in AllDraws(|items|) ensures Chosen(items, d, k, q) <==> Trace(d, q) < k {
      ChosenIffTraced(items, d, k, q);
    }
  }

  lemma ChosenIffTraced<T>(items: seq<T>, d: seq<nat>, k: nat, q: nat)
    requires Distinct(items) && q < |items| && k <= |items| && d in AllDraws(|items|)
    ensures Chosen(items, d, k, q) <==> Trace(d, q) < k
  {
    AllDrawsMembers(|items|, d);
    TraceFollows(items, d, q);
    ShufflePermutes(items, d);
    ChosenOnce(items, Shuffle(items, d), Trace(d, q), k);
  }

  lemma ChosenOnce<T>(items: seq<T>, shuffled: seq<T>, p: nat, k: nat)
    requires Distinct(items) && multiset(shuffled) == multiset(items) && p < |shuffled| && k <= |items|
    ensures shuffled[p] in Slice(shuffled, k) <==> p < k
  {
    PermutationDistinct(items, shuffled);
  }
}
