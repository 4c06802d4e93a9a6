/** Winner selection: a backward Fisher-Yates shuffle driven by an explicit vector of draws, of which the
    first `count` items are kept. */
module Selection {
  import opened RedisTables

  /** A draw vector: entry i is what the random source returned when position i was shuffled. */
  ghost predicate Draws(d: seq<nat>) {
    forall i :: 0 <= i < |d| ==> d[i] <= i
  }

  function Swap<T>(s: seq<T>, i: nat, j: nat): seq<T>
    requires i < |s| && j < |s|
  {
    s[i := s[j]][j := s[i]]
  }

  lemma SwapPermutes<T>(s: seq<T>, i: nat, j: nat)
    requires i < |s| && j < |s|
    ensures multiset(Swap(s, i, j)) == multiset(s)
  {}

  /** The shuffle of the first |d| positions, from the last of them downwards. */
  function Shuffle<T>(s: seq<T>, d: seq<nat>): (r: seq<T>)
    requires |d| <= |s|
    requires forall i :: 0 <= i < |d| ==> d[i] <= i
    ensures |r| == |s|
    decreases |d|
  {
    if |d| <= 1 then s
    else
      var i := |d| - 1;
      Shuffle(Swap(s, i, d[i]), d[..i])
  }

  /** Array.prototype.slice(0, count) for an integer count: a negative count drops from the end. */
  function Slice<T>(s: seq<T>, count: int): seq<T> {
    if count >= |s| then s
    else if count >= 0 then s[..count]
    else if |s| + count >= 0 then s[..|s| + count]
    else []
  }

  lemma ShuffleStep<T>(s: seq<T>, d: seq<nat>, i: nat)
    requires 0 < i < |d| == |s| && Draws(d)
    ensures Shuffle(s, d[..i + 1]) == Shuffle(Swap(s, i, d[i]), d[..i])
  {
    assert d[..i + 1][..i] == d[..i];
  }

  method SelectRandom<T>(items: seq<T>, count: int, draws: seq<nat>) returns (chosen: seq<T>)
    requires |draws| == |items|
    requires forall i :: 0 <= i < |draws| ==> draws[i] <= i
    ensures chosen == Slice(Shuffle(items, draws), count)
  {
    var shuffled := new T[|items|](i requires 0 <= i < |items| => items[i]);
    assert shuffled[..] == items;
    var i := shuffled.Length - 1;
    assert draws[..|draws|] == draws;
    while i > 0
      invariant shuffled.Length == |items|
      invariant -1 <= i < |items|
      invariant i == -1 ==> items == []
      invariant Shuffle(shuffled[..], draws[..i + 1]) == Shuffle(items, draws)
    {
      var j := draws[i];
      ghost var was := shuffled[..];
      ShuffleStep(was, draws, i);
      shuffled[i], shuffled[j] := shuffled[j], shuffled[i];
      assert shuffled[..] == Swap(was, i, j);
      i := i - 1;
    }
    chosen := Slice(shuffled[..], count);
  }

  // ----- one draw vector for each order -----

  lemma {:induction false} ShufflePermutes<T>(s: seq<T>, d: seq<nat>)
    requires |d| <= |s| && Draws(d)
    ensures multiset(Shuffle(s, d)) == multiset(s)
    decreases |d|
  {
    if |d| > 1 {
      var i := |d| - 1;
      SwapPermutes(s, i, d[i]);
      ShufflePermutes(Swap(s, i, d[i]), d[..i]);
    }
  }

  /** Positions above the prefix being shuffled keep their item; the last position of the prefix gets the
      item its draw names. */
  lemma {:induction false} ShuffleKeeps<T>(s: seq<T>, d: seq<nat>)
    requires |d| <= |s| && Draws(d)
    ensures forall p :: |d| <= p < |s| ==> Shuffle(s, d)[p] == s[p]
    ensures d != [] ==> Shuffle(s, d)[|d| - 1] == s[d[|d| - 1]]
    decreases |d|
  {
    if |d| > 1 {
      var i := |d| - 1;
      ShuffleKeeps(Swap(s, i, d[i]), d[..i]);
    }
  }

  lemma SwapDistinct<T>(s: seq<T>, i: nat, j: nat)
    requires i < |s| && j < |s| && Distinct(s)
    ensures Distinct(Swap(s, i, j))
  {}

  /** Different draw vectors give different orders. */
  lemma {:induction false} ShuffleInjective<T>(s: seq<T>, d: seq<nat>, e: seq<nat>)
    requires |d| == |e| <= |s| && Draws(d) && Draws(e) && Distinct(s)
    requires Shuffle(s, d) == Shuffle(s, e)
    ensures d == e
    decreases |d|
  {
    if |d| > 1 {
      var i := |d| - 1;
      ShuffleKeeps(s, d);
      ShuffleKeeps(s, e);
      assert d[i] == e[i];
      SwapDistinct(s, i, d[i]);
      ShuffleInjective(Swap(s, i, d[i]), d[..i], e[..i]);
      assert d == d[..i] + [d[i]] && e == e[..i] + [e[i]];
    }
  }

  /** The draw vector that produces a given order. */
  lemma {:induction false} DrawsFor<T>(s: seq<T>, p: seq<T>, n: nat) returns (d: seq<nat>)
    requires n <= |s| == |p| && multiset(s) == multiset(p) && s[n..] == p[n..]
    ensures |d| == n && Draws(d) && Shuffle(s, d) == p
    decreases n
  {
    if n == 0 {
      assert s == s[0..] == p[0..] == p;
      d := [];
    } else {
      var i := n - 1;
      PrefixHolds(s, p, n);
      var j: nat :| j < n && s[j] == p[i];
      SwapPermutes(s, i, j);
      SwapTail(s, p, i, j);
      var rest := DrawsFor(Swap(s, i, j), p, i);
      d := rest + [j];
      ShuffleSnoc(s, rest, j);
    }
  }

  lemma ShuffleSnoc<T>(s: seq<T>, rest: seq<nat>, j: nat)
    requires |rest| < |s| && Draws(rest) && j <= |rest|
    ensures Draws(rest + [j]) && Shuffle(s, rest + [j]) == Shuffle(Swap(s, |rest|, j), rest)
  {
    ShuffleLast(s, rest + [j], rest, j);
  }

  lemma ShuffleLast<T>(s: seq<T>, d: seq<nat>, rest: seq<nat>, j: nat)
    requires 0 < |d| <= |s| && Draws(d) && d[..|d| - 1] == rest && d[|d| - 1] == j
    ensures Draws(rest) && Shuffle(s, d) == Shuffle(Swap(s, |rest|, j), rest)
  {
    if rest == [] {
      assert Swap(s, 0, 0) == s;
    }
  }

  lemma SwapTail<T>(s: seq<T>, p: seq<T>, i: nat, j: nat)
    requires j <= i < |s| == |p| && s[i + 1..] == p[i + 1..] && s[j] == p[i]
    ensures Swap(s, i, j)[i..] == p[i..]
  {
    assert Swap(s, i, j)[i..] == [p[i]] + s[i + 1..];
    assert p[i..] == [p[i]] + p[i + 1..];
  }

  lemma PrefixHolds<T>(s: seq<T>, p: seq<T>, n: nat)
    requires 0 < n <= |s| == |p| && multiset(s) == multiset(p) && s[n..] == p[n..]
    ensures p[n - 1] in s[..n]
  {
    assert s == s[..n] + s[n..] && p == p[..n] + p[n..];
    assert multiset(s) == multiset(s[..n]) + multiset(s[n..]);
    assert multiset(p) == multiset(p[..n]) + multiset(p[n..]);
    assert multiset(s[..n]) == multiset(s) - multiset(s[n..]) == multiset(p[..n]);
    assert p[n - 1] in p[..n];
    assert p[n - 1] in multiset(s[..n]);
  }

  /** Every order of the items is the shuffle of exactly one draw vector. */
  lemma {:induction false} ShuffleBijection<T>(s: seq<T>, p: seq<T>)
    requires Distinct(s)
    ensures multiset(p) == multiset(s) <==> exists d :: |d| == |s| && Draws(d) && Shuffle(s, d) == p
    ensures forall d, e | |d| == |e| == |s| && Draws(d) && Draws(e) && Shuffle(s, d) == p &&
        Shuffle(s, e) == p :: d == e
  {
    if multiset(p) == multiset(s) {
      assert |p| == |multiset(p)| == |multiset(s)| == |s|;
      assert s[|s|..] == p[|s|..];
      var d := DrawsFor(s, p, |s|);
      assert |d| == |s| && Draws(d) && Shuffle(s, d) == p;
    }
    forall d | |d| == |s| && Draws(d) && Shuffle(s, d) == p ensures multiset(p) == multiset(s) {
      ShufflePermutes(s, d);
    }
    forall d, e | |d| == |e| == |s| && Draws(d) && Draws(e) && Shuffle(s, d) == p && Shuffle(s, e) == p ensures d == e {
      ShuffleInjective(s, d, e);
    }
  }

  // ----- permutations of distinct items -----

  lemma {:induction false} OnceIn<T>(s: seq<T>, x: T)
    requires Distinct(s)
    ensures multiset(s)[x] <= 1
  {
    if s != [] {
      var rest := s[..|s| - 1];
      OnceIn(rest, x);
      assert s == rest + [s[|s| - 1]];
      assert s[|s| - 1] == x ==> x !in rest;
    }
  }

  lemma PermutationDistinct<T>(s: seq<T>, p: seq<T>)
    requires Distinct(s) && multiset(p) == multiset(s)
    ensures Distinct(p) && |p| == |s| && forall x :: x in p ==> x in s
  {
    assert |p| == |multiset(p)| == |multiset(s)| == |s|;
    forall x | x in p ensures x in s {
      assert x in multiset(p);
    }
    forall i, j | 0 <= i < j < |p| ensures p[i] != p[j] {
      if p[i] == p[j] {
        assert p == p[..j] + [p[j]] + p[j + 1..];
        assert p[i] in p[..j];
        assert multiset(p)[p[i]] >= 2;
        OnceIn(s, p[i]);
      }
    }
  }
}
