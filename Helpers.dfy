/** The sequence helpers at the top of App.tsx: the Fisher–Yates shuffle,
    the reshuffle-until-deranged loop and the count of correctly placed
    symbols. `Math.random` is an oracle: a sequence of natural numbers, the
    k-th of which stands for the k-th call. */
module Helpers {

  // ---------------------------------------------------------------------
  // Positions, swaps and duplicates
  // ---------------------------------------------------------------------

  /** `s` with the elements at positions `i` and `j` exchanged, as the
      destructuring assignment `[a[i], a[j]] = [a[j], a[i]]` does. */
  function Swap<T>(s: seq<T>, i: nat, j: nat): (r: seq<T>)
    requires i < |s| && j < |s|
    ensures |r| == |s|
  {
    s[i := s[j]][j := s[i]]
  }

  /** A swap exchanges exactly the two positions, leaves every other
      position alone and keeps the same symbols. */
  lemma SwapExchanges<T>(s: seq<T>, i: nat, j: nat)
    requires i < |s| && j < |s|
    ensures Swap(s, i, j)[i] == s[j] && Swap(s, i, j)[j] == s[i]
    ensures forall k :: 0 <= k < |s| && k != i && k != j ==> Swap(s, i, j)[k] == s[k]
    ensures multiset(Swap(s, i, j)) == multiset(s)
  {
  }

  /** Swapping the same two positions twice gives the sequence back. */
  lemma SwapTwice<T>(s: seq<T>, i: nat, j: nat)
    requires i < |s| && j < |s|
    ensures Swap(Swap(s, i, j), i, j) == s
  {
    var t := Swap(Swap(s, i, j), i, j);
    assert forall k :: 0 <= k < |s| ==> t[k] == s[k];
  }

  /** No symbol occurs twice. */
  predicate Distinct<T(==)>(s: seq<T>)
  {
    forall a, b :: 0 <= a < b < |s| ==> s[a] != s[b]
  }

  /** In a sequence without duplicates every element occurs exactly once. */
  lemma {:induction false} DistinctOccursOnce<T>(s: seq<T>, x: T)
    requires Distinct(s)
    ensures multiset(s)[x] == if x in s then 1 else 0
  {
    if s != [] {
      assert s == [s[0]] + s[1..];
      assert Distinct(s[1..]);
      DistinctOccursOnce(s[1..], x);
      assert s[0] !in s[1..];
    }
  }

  /** A sequence in which some element occurs twice has a repeated element. */
  lemma {:induction false} RepeatOccursTwice<T>(s: seq<T>, a: nat, b: nat)
    requires a < b < |s| && s[a] == s[b]
    ensures multiset(s)[s[a]] >= 2
  {
    var x := s[a];
    assert s == s[..b] + [s[b]] + s[b+1..];
    assert s[..b][a] == x;
    assert x in multiset(s[..b]);
    assert multiset(s) == multiset(s[..b]) + multiset{x} + multiset(s[b+1..]);
  }

  /** A permutation of a sequence without duplicates has none either. */
  lemma DistinctPermutation<T>(s: seq<T>, t: seq<T>)
    requires Distinct(s) && multiset(s) == multiset(t)
    ensures Distinct(t)
  {
    forall a, b | 0 <= a < b < |t| ensures t[a] != t[b] {
      if t[a] == t[b] {
        RepeatOccursTwice(t, a, b);
        DistinctOccursOnce(s, t[a]);
        assert false;
      }
    }
  }

  /** A prefix of a sequence without duplicates has none either. */
  lemma DistinctPrefix<T>(s: seq<T>, n: nat)
    requires Distinct(s) && n <= |s|
    ensures Distinct(s[..n])
  {
  }

  // ---------------------------------------------------------------------
  // getCorrectPositions
  // ---------------------------------------------------------------------

  /** Number of positions below `n` at which `p` and `c` agree. */
  function MatchesBelow<T(==)>(p: seq<T>, c: seq<T>, n: nat): (r: nat)
    requires n <= |p| && n <= |c|
    ensures r <= n
  {
    if n == 0 then 0
    else MatchesBelow(p, c, n - 1) + (if p[n - 1] == c[n - 1] then 1 else 0)
  }

  /** Number of positions at which the player's order agrees with the
      correct order (both of the same length). */
  function MatchCount<T(==)>(p: seq<T>, c: seq<T>): (r: nat)
    requires |p| == |c|
    ensures r <= |c|
  {
    MatchesBelow(p, c, |c|)
  }

  /** The positions at which `p` and `c` agree: the reference definition
      of the correct-count. */
  ghost function MatchPositions<T>(p: seq<T>, c: seq<T>, n: nat): set<nat>
    requires n <= |p| && n <= |c|
  {
    set k: nat | k < n && p[k] == c[k]
  }

  lemma {:induction false} MatchesBelowIsCardinality<T>(p: seq<T>, c: seq<T>, n: nat)
    requires n <= |p| && n <= |c|
    ensures MatchesBelow(p, c, n) == |MatchPositions(p, c, n)|
  {
    if n > 0 {
      MatchesBelowIsCardinality(p, c, n - 1);
      var below := MatchPositions(p, c, n - 1);
      assert n - 1 !in below;
      if p[n - 1] == c[n - 1] {
        assert MatchPositions(p, c, n) == below + {n - 1};
      } else {
        assert MatchPositions(p, c, n) == below;
      }
    }
  }

  /** The correct-count is the number of agreeing positions. */
  lemma MatchCountIsCardinality<T>(p: seq<T>, c: seq<T>)
    requires |p| == |c|
    ensures MatchCount(p, c) == |set k: nat | k < |c| && p[k] == c[k]|
  {
    MatchesBelowIsCardinality(p, c, |c|);
  }

  lemma {:induction false} MatchesBelowExtremes<T>(p: seq<T>, c: seq<T>, n: nat)
    requires n <= |p| && n <= |c|
    ensures MatchesBelow(p, c, n) == n <==> forall k :: 0 <= k < n ==> p[k] == c[k]
    ensures MatchesBelow(p, c, n) == 0 <==> forall k :: 0 <= k < n ==> p[k] != c[k]
  {
    if n > 0 {
      MatchesBelowExtremes(p, c, n - 1);
    }
  }

  /** All positions are correct exactly when the two orders are equal: the
      level is solved. */
  lemma MatchCountFullIffEqual<T>(p: seq<T>, c: seq<T>)
    requires |p| == |c|
    ensures MatchCount(p, c) == |c| <==> p == c
  {
    MatchesBelowExtremes(p, c, |c|);
  }

  /** No position is correct exactly when `p` is a derangement of `c`. */
  lemma MatchCountZeroIffDerangement<T>(p: seq<T>, c: seq<T>)
    requires |p| == |c|
    ensures MatchCount(p, c) == 0 <==> IsDerangement(p, c)
  {
    MatchesBelowExtremes(p, c, |c|);
  }

  function Indicator(b: bool): nat { if b then 1 else 0 }

  lemma {:induction false} MatchesBelowUpdate<T>(p: seq<T>, c: seq<T>, n: nat, i: nat, v: T)
    requires |p| == |c| && n <= |c| && i < |c|
    ensures MatchesBelow(p[i := v], c, n)
         == if i < n then MatchesBelow(p, c, n) - Indicator(p[i] == c[i]) + Indicator(v == c[i])
            else MatchesBelow(p, c, n)
  {
    if n > 0 {
      MatchesBelowUpdate(p, c, n - 1, i, v);
    }
  }

  /** Changing one position changes the correct-count by what that position
      contributes before and after. */
  lemma MatchCountUpdate<T>(p: seq<T>, c: seq<T>, i: nat, v: T)
    requires |p| == |c| && i < |c|
    ensures MatchCount(p[i := v], c)
         == MatchCount(p, c) - Indicator(p[i] == c[i]) + Indicator(v == c[i])
  {
    MatchesBelowUpdate(p, c, |c|, i, v);
  }

  /** A swap changes the correct-count only through the two swapped
      positions, so by at most two. */
  lemma SwapMatchCount<T>(p: seq<T>, c: seq<T>, i: nat, j: nat)
    requires |p| == |c| && i < |c| && j < |c| && i != j
    ensures MatchCount(Swap(p, i, j), c)
         == MatchCount(p, c) - Indicator(p[i] == c[i]) - Indicator(p[j] == c[j])
            + Indicator(p[j] == c[i]) + Indicator(p[i] == c[j])
    ensures MatchCount(p, c) - 2 <= MatchCount(Swap(p, i, j), c) <= MatchCount(p, c) + 2
  {
    var q := p[i := p[j]];
    MatchCountUpdate(p, c, i, p[j]);
    MatchCountUpdate(q, c, j, p[i]);
    assert q[j] == p[j];
  }

  /** `getCorrectPositions`: 0 when the lengths differ, otherwise the number
      of positions at which the two orders agree. */
  method GetCorrectPositions<T(==)>(playerOrder: seq<T>, correctOrder: seq<T>)
    returns (count: nat)
    ensures |playerOrder| != |correctOrder| ==> count == 0
    ensures |playerOrder| == |correctOrder| ==> count == MatchCount(playerOrder, correctOrder)
    ensures count <= |correctOrder|
  {
    if |playerOrder| != |correctOrder| {
      return 0;
    }
    count := 0;
    var i := 0;
    while i < |correctOrder|
      invariant 0 <= i <= |correctOrder|
      invariant count == MatchesBelow(playerOrder, correctOrder, i)
    {
      if playerOrder[i] == correctOrder[i] {
        count := count + 1;
      }
      i := i + 1;
    }
  }

  // ---------------------------------------------------------------------
  // shuffle
  // ---------------------------------------------------------------------

  /** The `k`-th answer of the random oracle as an index in `[0, bound)`,
      which is what `Math.floor(Math.random() * bound)` yields. Answers past
      the end of the oracle read as 0. */
  function Pick(draws: seq<nat>, k: nat, bound: nat): (j: nat)
    requires bound > 0
    ensures j < bound
  {
    (if k < |draws| then draws[k] else 0) % bound
  }

  /** The Fisher–Yates passes for positions `i` down to 1 of a sequence of
      length `|a|`; the pass for position `i` is the `(|a| - 1 - i)`-th
      call of the oracle and swaps position `i` with an index in `[0, i]`. */
  function Passes<T>(a: seq<T>, i: int, draws: seq<nat>): (r: seq<T>)
    requires i < |a|
    ensures |r| == |a|
    decreases i
  {
    if i <= 0 then a
    else Passes(Swap(a, i, Pick(draws, |a| - 1 - i, i + 1)), i - 1, draws)
  }

  /** The order that `shuffle` returns for the oracle `draws`. */
  function FisherYates<T>(a: seq<T>, draws: seq<nat>): (r: seq<T>)
    ensures |r| == |a|
  {
    Passes(a, |a| - 1, draws)
  }

  lemma {:induction false} PassesPermute<T>(a: seq<T>, i: int, draws: seq<nat>)
    requires i < |a|
    ensures multiset(Passes(a, i, draws)) == multiset(a)
    decreases i
  {
    if i > 0 {
      var b := Swap(a, i, Pick(draws, |a| - 1 - i, i + 1));
      SwapExchanges(a, i, Pick(draws, |a| - 1 - i, i + 1));
      assert Passes(a, i, draws) == Passes(b, i - 1, draws);
      PassesPermute(b, i - 1, draws);
    }
  }

  /** Whatever the oracle answers, a shuffle is a permutation of its input. */
  lemma FisherYatesPermutes<T>(a: seq<T>, draws: seq<nat>)
    ensures multiset(FisherYates(a, draws)) == multiset(a)
  {
    PassesPermute(a, |a| - 1, draws);
  }

  /** `shuffle`: copies the input into a fresh array and swaps in place from
      the last position down; the input is left alone. */
  method Shuffle<T>(items: seq<T>, draws: seq<nat>) returns (shuffled: seq<T>)
    ensures shuffled == FisherYates(items, draws)
    ensures |shuffled| == |items| && multiset(shuffled) == multiset(items)
  {
    var a := new T[|items|](k requires 0 <= k < |items| => items[k]);
    assert a[..] == items;
    ghost var target := FisherYates(items, draws);
    var i: int := a.Length - 1;
    while i > 0
      invariant -1 <= i < a.Length
      invariant Passes(a[..], i, draws) == target
    {
      var j := Pick(draws, a.Length - 1 - i, i + 1);
      ghost var before := a[..];
      a[i], a[j] := a[j], a[i];
      PassStep(before, a[..], i, draws);
      i := i - 1;
    }
    shuffled := a[..];
    FisherYatesPermutes(items, draws);
  }

  /** One in-place pass of the shuffle loop leaves the remaining passes
      with the same outcome. */
  lemma PassStep<T>(before: seq<T>, after: seq<T>, i: int, draws: seq<nat>)
    requires 0 < i < |before|
    requires after == Swap(before, i, Pick(draws, |before| - 1 - i, i + 1))
    ensures Passes(after, i - 1, draws) == Passes(before, i, draws)
  {
  }

  // ---------------------------------------------------------------------
  // generateDerangement
  // ---------------------------------------------------------------------

  /** `r` differs from `s` at every position. */
  predicate IsDerangement<T(==)>(r: seq<T>, s: seq<T>)
    requires |r| == |s|
    ensures IsDerangement(r, s) && |s| > 0 ==> r != s
  {
    var moved := forall k :: 0 <= k < |s| ==> r[k] != s[k];
    assert moved && |s| > 0 ==> r[0] != s[0];
    moved
  }

  /** The shuffle driven by `draws` leaves some symbol of `s` in place. */
  predicate HasFixedPoint<T(==)>(s: seq<T>, draws: seq<nat>)
  {
    !IsDerangement(FisherYates(s, draws), s)
  }

  /** `generateDerangement`: shuffles `items` again and again, the `k`-th
      attempt reading the oracle `attempts[k]`, until no symbol is left in
      place. Inputs of length at most 1 are shuffled once and returned.
      `found` is false when the attempts run out first: that run of the
      source has not yet terminated. `tries` is the number of attempts
      used. */
  method GenerateDerangement<T(==)>(items: seq<T>, attempts: seq<seq<nat>>)
    returns (found: bool, tries: nat, deranged: seq<T>)
    ensures found ==> |deranged| == |items| && multiset(deranged) == multiset(items)
    ensures |items| <= 1 ==> found && tries == 0 && deranged == items
    ensures |items| > 1 && found ==>
              0 < tries <= |attempts| && deranged == FisherYates(items, attempts[tries - 1])
              && IsDerangement(deranged, items)
              && forall k :: 0 <= k < tries - 1 ==> HasFixedPoint(items, attempts[k])
    ensures |items| > 1 && !found ==>
              tries == |attempts| && forall k :: 0 <= k < |attempts| ==> HasFixedPoint(items, attempts[k])
  {
    if |items| <= 1 {
      deranged := Shuffle(items, []);
      return true, 0, deranged;
    }
    found, tries, deranged := false, 0, [];
    while !found && tries < |attempts|
      invariant tries <= |attempts|
      invariant found ==>
        0 < tries && deranged == FisherYates(items, attempts[tries - 1])
        && |deranged| == |items| && multiset(deranged) == multiset(items)
        && IsDerangement(deranged, items)
      invariant forall k :: 0 <= k < (if found then tries - 1 else tries) ==> HasFixedPoint(items, attempts[k])
    {
      var shuffled := Shuffle(items, attempts[tries]);
      tries := tries + 1;
      var isDerangement := true;
      var i := 0;
      while i < |items|
        invariant 0 <= i <= |items|
        invariant isDerangement
        invariant forall k :: 0 <= k < i ==> shuffled[k] != items[k]
      {
        if shuffled[i] == items[i] {
          isDerangement := false;
          break;
        }
        i := i + 1;
      }
      if isDerangement {
        found, deranged := true, shuffled;
      }
    }
  }
}
