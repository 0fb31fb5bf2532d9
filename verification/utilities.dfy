/** The two helpers of `app/utilities.js`: an in-place Fisher-Yates shuffle
    and a bounded random integer. `Math.random()` is not modelled as a
    generator: every call is replaced by the next value of an oracle
    sequence of reals in [0, 1). */
module Utilities {

  /** An oracle draw, standing in for one call of `Math.random()`. */
  predicate IsDraw(x: real)
  {
    0.0 <= x < 1.0
  }

  predicate AllDraws(draws: seq<real>)
  {
    forall k :: 0 <= k < |draws| ==> IsDraw(draws[k])
  }

  /** The draws left after some have been consumed are draws. */
  lemma AllDrawsSuffix(draws: seq<real>, k: nat)
    requires AllDraws(draws) && k <= |draws|
    ensures AllDraws(draws[k..])
  {
    var rest := draws[k..];
    forall i | 0 <= i < |rest| ensures IsDraw(rest[i]) { assert rest[i] == draws[k + i]; }
  }

  /** `Math.floor(x * n)` for the draw `x`. */
  function RandomBelow(x: real, n: int): (r: int)
  {
    (x * n as real).Floor
  }

  /** A draw scales a non-negative `m` into [0, m). */
  lemma {:induction false} ScaleDraw(x: real, m: nat)
    requires IsDraw(x)
    ensures 0.0 <= x * m as real
    ensures 0 < m ==> x * m as real < m as real
  {
    if m > 0 {
      ScaleDraw(x, m - 1);
      assert x * m as real == x * (m - 1) as real + x;
    }
  }

  lemma RandomBelowBounds(x: real, n: int)
    requires IsDraw(x)
    ensures 0 < n ==> 0 <= RandomBelow(x, n) < n
    ensures n == 0 ==> RandomBelow(x, n) == 0
    ensures n < 0 ==> n <= RandomBelow(x, n) <= 0
  {
    if 0 <= n {
      ScaleDraw(x, n);
    } else {
      ScaleDraw(x, -n);
      assert x * n as real == -(x * (-n) as real);
    }
  }

  /** `getRandomInt(min, max)` on integer bounds (`Math.ceil` and `Math.floor`
      leave integers alone) with the draw `x`: an integer in [min, max). */
  function GetRandomInt(min: int, max: int, x: real): (r: int)
    requires IsDraw(x)
    ensures min < max ==> min <= r < max
    ensures min == max ==> r == min
    ensures max < min ==> max <= r <= min
  {
    RandomBelowBounds(x, max - min);
    RandomBelow(x, max - min) + min
  }

  /** `Math.floor(Math.random() * currentIndex)` in the shuffle loop: a
      position in [0, c). */
  function Pick(x: real, c: nat): (j: nat)
    requires IsDraw(x) && 0 < c
    ensures j < c
  {
    RandomBelowBounds(x, c);
    RandomBelow(x, c)
  }

  /** One step of the shuffle: the element at `c` and the element at `j`
      trade places (`temporaryValue` swap). */
  function Swap<T>(s: seq<T>, c: nat, j: nat): (r: seq<T>)
    requires c < |s| && j < |s|
    ensures |r| == |s|
    ensures r[c] == s[j] && r[j] == s[c]
    ensures forall i :: 0 <= i < |s| && i != c && i != j ==> r[i] == s[i]
  {
    s[c := s[j]][j := s[c]]
  }

  lemma SwapPermutes<T>(s: seq<T>, c: nat, j: nat)
    requires c < |s| && j < |s|
    ensures multiset(Swap(s, c, j)) == multiset(s)
  {
  }

  /** The `while (0 !== currentIndex)` loop of `shuffle`, resumed with
      `currentIndex == c` and the draws that the remaining `c` iterations
      consume. Each iteration picks `randomIndex` in [0, c), decrements `c`
      and swaps positions `c` and `randomIndex`. */
  function ShuffleLoop<T>(s: seq<T>, c: nat, draws: seq<real>): (r: seq<T>)
    requires c <= |s| && |draws| == c && AllDraws(draws)
    ensures |r| == |s|
    ensures forall i :: c <= i < |s| ==> r[i] == s[i]
    decreases c
  {
    if c == 0 then s
    else
      var j := Pick(draws[0], c);
      AllDrawsSuffix(draws, 1);
      ShuffleLoop(Swap(s, c - 1, j), c - 1, draws[1..])
  }

  /** `shuffle(array)` as a value: the loop started at `currentIndex == array.length`. */
  function Shuffled<T>(s: seq<T>, draws: seq<real>): (r: seq<T>)
    requires |draws| == |s| && AllDraws(draws)
    ensures |r| == |s|
  {
    ShuffleLoop(s, |s|, draws)
  }

  /** Every iteration is a swap, so the loop only permutes the elements. */
  lemma {:induction false} ShuffleLoopPermutes<T>(s: seq<T>, c: nat, draws: seq<real>)
    requires c <= |s| && |draws| == c && AllDraws(draws)
    ensures multiset(ShuffleLoop(s, c, draws)) == multiset(s)
    decreases c
  {
    if c > 0 {
      var swapped := Swap(s, c - 1, Pick(draws[0], c));
      var rest := draws[1..];
      AllDrawsSuffix(draws, 1);
      assert ShuffleLoop(s, c, draws) == ShuffleLoop(swapped, c - 1, rest);
      ShuffleLoopPermutes(swapped, c - 1, rest);
      SwapPermutes(s, c - 1, Pick(draws[0], c));
    }
  }

  /** `shuffle` returns a permutation of its input. */
  lemma ShuffledPermutes<T>(s: seq<T>, draws: seq<real>)
    requires |draws| == |s| && AllDraws(draws)
    ensures multiset(Shuffled(s, draws)) == multiset(s)
  {
    ShuffleLoopPermutes(s, |s|, draws);
  }

  /** An empty array comes back as it went in. */
  lemma ShuffleEmpty<T>(s: seq<T>)
    requires |s| == 0
    ensures Shuffled(s, []) == s
  {
  }

  /** Applying `f` to every element (JavaScript's `map`). */
  function MapSeq<A, B>(f: A -> B, s: seq<A>): (r: seq<B>)
    ensures |r| == |s|
    ensures forall i :: 0 <= i < |s| ==> r[i] == f(s[i])
  {
    seq(|s|, i requires 0 <= i < |s| => f(s[i]))
  }

  lemma SwapCommutesWithMap<A, B>(f: A -> B, s: seq<A>, c: nat, j: nat)
    requires c < |s| && j < |s|
    ensures MapSeq(f, Swap(s, c, j)) == Swap(MapSeq(f, s), c, j)
  {
    var l := MapSeq(f, Swap(s, c, j));
    var r := Swap(MapSeq(f, s), c, j);
    assert |l| == |r|;
    forall i | 0 <= i < |l|
      ensures l[i] == r[i]
    {
    }
  }

  /** Shuffling and then projecting each element gives what projecting and
      then shuffling with the same draws gives. */
  lemma {:induction false} ShuffleLoopCommutesWithMap<A, B>(f: A -> B, s: seq<A>, c: nat, draws: seq<real>)
    requires c <= |s| && |draws| == c && AllDraws(draws)
    ensures MapSeq(f, ShuffleLoop(s, c, draws)) == ShuffleLoop(MapSeq(f, s), c, draws)
    decreases c
  {
    if c > 0 {
      var j := Pick(draws[0], c);
      var rest := draws[1..];
      AllDrawsSuffix(draws, 1);
      assert ShuffleLoop(s, c, draws) == ShuffleLoop(Swap(s, c - 1, j), c - 1, rest);
      assert ShuffleLoop(MapSeq(f, s), c, draws) == ShuffleLoop(Swap(MapSeq(f, s), c - 1, j), c - 1, rest);
      SwapCommutesWithMap(f, s, c - 1, j);
      ShuffleLoopCommutesWithMap(f, Swap(s, c - 1, j), c - 1, rest);
    }
  }

  /** The projection of a shuffled sequence is a permutation of the projection
      of the original. */
  lemma ShuffledMapPermutes<A, B>(f: A -> B, s: seq<A>, draws: seq<real>)
    requires |draws| == |s| && AllDraws(draws)
    ensures MapSeq(f, Shuffled(s, draws)) == Shuffled(MapSeq(f, s), draws)
    ensures multiset(MapSeq(f, Shuffled(s, draws))) == multiset(MapSeq(f, s))
  {
    ShuffleLoopCommutesWithMap(f, s, |s|, draws);
    ShuffledPermutes(MapSeq(f, s), draws);
  }

  /** One iteration of the loop, stated on the suffix of the draws that is
      still to be consumed. */
  lemma ShuffleStep<T>(s: seq<T>, c: nat, draws: seq<real>, used: nat)
    requires 0 < c <= |s| && used + c == |draws| && AllDraws(draws)
    ensures ShuffleLoop(s, c, draws[used..])
         == ShuffleLoop(Swap(s, c - 1, Pick(draws[used], c)), c - 1, draws[used + 1..])
  {
    AllDrawsSuffix(draws, used);
    AllDrawsSuffix(draws, used + 1);
    assert draws[used..][1..] == draws[used + 1..];
  }

  /** The three assignments through `temporaryValue`. */
  method SwapInPlace<T>(a: array<T>, c: nat, j: nat)
    requires c < a.Length && j < a.Length
    modifies a
    ensures a[..] == Swap(old(a[..]), c, j)
  {
    var temporaryValue := a[c];
    a[c] := a[j];
    a[j] := temporaryValue;
  }

  /** `shuffle(array)`: rearranges `a` in place into `Shuffled` of its old
      contents (a permutation, by `ShuffledPermutes`), consuming one draw per
      element, and returns the same array. */
  method Shuffle<T>(a: array<T>, draws: seq<real>) returns (r: array<T>)
    requires |draws| == a.Length && AllDraws(draws)
    modifies a
    ensures r == a
    ensures a[..] == Shuffled(old(a[..]), draws)
  {
    ghost var target := Shuffled(a[..], draws);
    var n := a.Length;
    var currentIndex := n;
    AllDrawsSuffix(draws, 0);
    while currentIndex != 0
      invariant 0 <= currentIndex <= n
      invariant AllDraws(draws[n - currentIndex..])
      invariant ShuffleLoop(a[..], currentIndex, draws[n - currentIndex..]) == target
    {
      var randomIndex := Pick(draws[n - currentIndex], currentIndex);
      ShuffleStep(a[..], currentIndex, draws, n - currentIndex);
      AllDrawsSuffix(draws, n - currentIndex + 1);
      currentIndex := currentIndex - 1;
      SwapInPlace(a, currentIndex, randomIndex);
    }
    r := a;
  }

}
