/** The selection loop of `getRandomRestaurants`: draw indexes into the
    catalog with `getRandomInt(0, restaurants.length)`, re-drawing while the
    index is already taken, until `numToGet` indexes are collected. The
    catalog is an input (the fetch is not modelled) and the calls of
    `Math.random()` are the successive entries of `draws`. */
module Sampling {
  import opened Optional
  import opened Records
  import opened Utilities

  /** No value occurs twice. */
  predicate Distinct(s: seq<int>)
  {
    forall i, j :: 0 <= i < j < |s| ==> s[i] != s[j]
  }

  /** The indexes `getRandomInt(0, n)` can produce: [0, n), where an empty
      catalog still produces 0. */
  function DrawRange(n: nat): (b: nat)
    ensures 0 < b
    ensures forall x :: IsDraw(x) ==> 0 <= GetRandomInt(0, n, x) < b
  {
    if n == 0 then 1 else n
  }

  /** `restaurants[i]`, which is `undefined` past the end. */
  function Lookup(restaurants: seq<Restaurant>, i: int): (r: Option<Restaurant>)
    ensures r.Some? <==> 0 <= i < |restaurants|
    ensures r.Some? ==> r.value == restaurants[i]
  {
    if 0 <= i < |restaurants| then Some(restaurants[i]) else None
  }

  /** The position in `draws` where the search for the `k`-th index starts. */
  function Start(used: seq<nat>, k: nat): (from: nat)
    requires k <= |used|
  {
    if k == 0 then 0 else used[k - 1] + 1
  }

  /** The index each draw produces, `getRandomInt(0, n)` call by call. */
  function Produced(draws: seq<real>, n: nat): (p: seq<int>)
    requires AllDraws(draws)
    ensures |p| == |draws|
    ensures forall j :: 0 <= j < |draws| ==> p[j] == GetRandomInt(0, n, draws[j])
  {
    seq(|draws|, j requires 0 <= j < |draws| => GetRandomInt(0, n, draws[j]))
  }

  /** Every draw in [from, to) produced an index already in `taken`. */
  ghost predicate AllTaken(produced: seq<int>, from: nat, to: nat, taken: seq<int>)
    requires from <= to <= |produced|
  {
    forall j :: from <= j < to ==> produced[j] in taken
  }

  /** The `k`-th index was accepted at draw `used[k]`: it is what that draw
      produced, it is new, and every draw since the previous acceptance was
      rejected. */
  ghost predicate AcceptedAt(produced: seq<int>, indexes: seq<int>, used: seq<nat>, k: nat)
    requires k < |indexes| == |used|
  {
    Start(used, k) <= used[k] < |produced| &&
    indexes[k] == produced[used[k]] &&
    indexes[k] !in indexes[..k] &&
    AllTaken(produced, Start(used, k), used[k], indexes[..k])
  }

  /** `indexes` and `used` describe a run of the rejection loop over the
      produced indexes. */
  ghost predicate IsRejectionRun(produced: seq<int>, indexes: seq<int>, used: seq<nat>)
  {
    |indexes| == |used| &&
    forall k: nat :: k < |used| ==> AcceptedAt(produced, indexes, used, k)
  }

  /** No run of the loop over `produced` reaches `count` indexes. */
  ghost predicate NoRunReaches(produced: seq<int>, count: nat)
  {
    forall ix: seq<int>, u: seq<nat> :: IsRejectionRun(produced, ix, u) ==> |ix| < count
  }

  /** The run is stuck: every draw after its last acceptance produced an
      index it already holds. */
  ghost predicate Stuck(produced: seq<int>, indexes: seq<int>, used: seq<nat>)
  {
    IsRejectionRun(produced, indexes, used) &&
    Start(used, |used|) <= |produced| && AllTaken(produced, Start(used, |used|), |produced|, indexes)
  }

  /** No other run over `produced` has as many indexes as `indexes`. */
  ghost predicate OnlyRunOfItsLength(produced: seq<int>, indexes: seq<int>)
  {
    forall ix: seq<int>, u: seq<nat> :: IsRejectionRun(produced, ix, u) && |ix| == |indexes| ==> ix == indexes
  }

  /** The outcome of the loop: the chosen indexes, the chosen catalog entries
      and the positions of the accepted draws; or `OutOfDraws` when the
      oracle ends while the loop is still drawing, with the indexes accepted
      so far and their draws. */
  datatype Sample =
    | Sampled(indexes: seq<int>, picked: seq<Option<Restaurant>>, used: seq<nat>)
    | OutOfDraws(indexes: seq<int>, used: seq<nat>)

  /** `s` with every occurrence of `v` removed. */
  function Without(s: seq<int>, v: int): (r: seq<int>)
    ensures forall x :: x in r <==> x in s && x != v
  {
    if |s| == 0 then []
    else (if s[0] == v then [] else [s[0]]) + Without(s[1..], v)
  }

  lemma {:induction false} WithoutDistinct(s: seq<int>, v: int)
    requires Distinct(s)
    ensures Distinct(Without(s, v))
    ensures |Without(s, v)| == |s| - (if v in s then 1 else 0)
  {
    if |s| > 0 {
      assert Distinct(s[1..]);
      WithoutDistinct(s[1..], v);
      assert s[0] !in s[1..];
      assert v in s <==> v == s[0] || v in s[1..];
    }
  }

  /** Pigeonhole: distinct values drawn from [0, b) number at most b. */
  lemma {:induction false} DistinctBelow(s: seq<int>, b: nat)
    requires Distinct(s)
    requires forall x :: x in s ==> 0 <= x < b
    ensures |s| <= b
    decreases b
  {
    if |s| > 0 {
      assert s[0] in s;
      var t := Without(s, b - 1);
      WithoutDistinct(s, b - 1);
      DistinctBelow(t, b - 1);
    }
  }

  /** Distinct values from [0, b) that number b use up every value of [0, b). */
  lemma DistinctCover(s: seq<int>, b: nat)
    requires Distinct(s) && |s| == b
    requires forall x :: x in s ==> 0 <= x < b
    ensures forall x :: 0 <= x < b ==> x in s
  {
    forall x | 0 <= x < b
      ensures x in s
    {
      if x !in s {
        DistinctBelow(s + [x], b);
      }
    }
  }

  /** Once every index the draws can produce is taken, no draw gets the
      re-draw loop out: it can only keep drawing. */
  lemma RejectionLoopStuck(n: nat, taken: seq<int>, x: real)
    requires Distinct(taken) && |taken| == DrawRange(n)
    requires forall y :: y in taken ==> 0 <= y < DrawRange(n)
    requires IsDraw(x)
    ensures GetRandomInt(0, n, x) in taken
  {
    DistinctCover(taken, DrawRange(n));
  }

  /** Accepting draw `u`, which produced the new index `x`, extends a run. */
  lemma RejectionRunExtend(produced: seq<int>, indexes: seq<int>, used: seq<nat>, u: nat)
    requires IsRejectionRun(produced, indexes, used)
    requires Start(used, |used|) <= u < |produced| && produced[u] !in indexes
    requires forall j :: Start(used, |used|) <= j < u ==> produced[j] in indexes
    ensures IsRejectionRun(produced, indexes + [produced[u]], used + [u])
  {
    var indexes', used' := indexes + [produced[u]], used + [u];
    assert indexes'[..|indexes|] == indexes;
    forall k: nat | k < |used|
      ensures AcceptedAt(produced, indexes', used', k)
    {
      assert AcceptedAt(produced, indexes, used, k);
      assert indexes'[..k] == indexes[..k];
      assert Start(used', k) == Start(used, k);
    }
    assert AllTaken(produced, Start(used', |used|), u, indexes);
  }

  /** Two runs over the same produced indexes agree on their common
      prefix: each acceptance is the first new index after the previous one,
      so the loop leaves no choice. */
  lemma {:induction false} RunsAgree(produced: seq<int>, ix: seq<int>, u: seq<nat>, ix2: seq<int>, u2: seq<nat>, k: nat)
    requires IsRejectionRun(produced, ix, u) && IsRejectionRun(produced, ix2, u2)
    requires k <= |u| && k <= |u2|
    ensures ix[..k] == ix2[..k] && u[..k] == u2[..k]
  {
    if k > 0 {
      var i := k - 1;
      RunsAgree(produced, ix, u, ix2, u2, i);
      assert Start(u, i) == Start(u2, i) by {
        if i > 0 {
          assert u[i - 1] == u[..i][i - 1] && u2[i - 1] == u2[..i][i - 1];
        }
      }
      assert AcceptedAt(produced, ix, u, i);
      assert AcceptedAt(produced, ix2, u2, i);
      assert ix[..k] == ix[..i] + [ix[i]] && ix2[..k] == ix2[..i] + [ix2[i]];
      assert u[..k] == u[..i] + [u[i]] && u2[..k] == u2[..i] + [u2[i]];
    }
  }

  /** The `k`-th acceptance of a run used a draw at or after `Start(used, k)`
      that produced an index new to the run. */
  lemma NewIndexAccepted(produced: seq<int>, indexes: seq<int>, used: seq<nat>, k: nat)
    requires IsRejectionRun(produced, indexes, used) && k < |used|
    ensures Start(used, k) <= used[k] < |produced|
    ensures produced[used[k]] !in indexes[..k]
  {
    assert AcceptedAt(produced, indexes, used, k);
  }

  /** A run whose every later draw produced a taken index cannot be
      outgrown: no run over the same draws is longer. */
  lemma StuckRunIsLongest(produced: seq<int>, ix: seq<int>, u: seq<nat>, ix2: seq<int>, u2: seq<nat>)
    requires Stuck(produced, ix, u)
    requires IsRejectionRun(produced, ix2, u2)
    ensures |ix2| <= |ix|
  {
    if |ix2| > |ix| {
      var m := |ix|;
      RunsAgree(produced, ix, u, ix2, u2, m);
      assert Start(u2, m) == Start(u, m) by {
        if m > 0 {
          assert u[m - 1] == u[..m][m - 1] && u2[m - 1] == u2[..m][m - 1];
        }
      }
      assert ix2[..m] == ix;
      NewIndexAccepted(produced, ix2, u2, m);
      assert false;
    }
  }

  /** The inner `while (randomRestaurantIndexes.includes(randomIndex))`
      loop, together with the draw before it: starting at draw `d`, returns
      the first index not in `taken` and the position after its draw, or
      `ok == false` when the draws run out first. */
  method DrawNewIndex(n: nat, draws: seq<real>, d: nat, taken: seq<int>) returns (ok: bool, randomIndex: int, next: nat)
    requires AllDraws(draws) && d <= |draws|
    ensures ok ==> d < next <= |draws|
    ensures ok ==> randomIndex == GetRandomInt(0, n, draws[next - 1]) && randomIndex !in taken
    ensures ok ==> forall j :: d <= j < next - 1 ==> GetRandomInt(0, n, draws[j]) in taken
    ensures !ok ==> forall j :: d <= j < |draws| ==> GetRandomInt(0, n, draws[j]) in taken
  {
    if d == |draws| {
      return false, 0, d;
    }
    randomIndex := GetRandomInt(0, n, draws[d]);
    next := d + 1;
    while randomIndex in taken
      invariant d < next <= |draws|
      invariant randomIndex == GetRandomInt(0, n, draws[next - 1])
      invariant forall j :: d <= j < next - 1 ==> GetRandomInt(0, n, draws[j]) in taken
      decreases |draws| - next
    {
      if next == |draws| {
        return false, 0, next;
      }
      randomIndex := GetRandomInt(0, n, draws[next]);
      next := next + 1;
    }
    ok := true;
  }

  /** The body of `getRandomRestaurants` after the catalog has arrived. */
  method GetRandomRestaurants(restaurants: seq<Restaurant>, numToGet: nat, draws: seq<real>) returns (res: Sample)
    requires AllDraws(draws)
    ensures res.Sampled? ==> |res.indexes| == numToGet && |res.picked| == numToGet
    ensures res.Sampled? ==> Distinct(res.indexes)
    ensures res.Sampled? ==> forall k :: 0 <= k < numToGet ==>
      0 <= res.indexes[k] < DrawRange(|restaurants|) &&
      res.picked[k] == Lookup(restaurants, res.indexes[k])
    ensures res.Sampled? ==> IsRejectionRun(Produced(draws, |restaurants|), res.indexes, res.used)
    ensures res.Sampled? ==> OnlyRunOfItsLength(Produced(draws, |restaurants|), res.indexes)
    ensures res.OutOfDraws? ==>
      |res.indexes| < numToGet && Stuck(Produced(draws, |restaurants|), res.indexes, res.used)
    ensures res.OutOfDraws? ==> NoRunReaches(Produced(draws, |restaurants|), numToGet)
    ensures numToGet > DrawRange(|restaurants|) ==> res.OutOfDraws?
    ensures numToGet == 0 ==> res == Sampled([], [], [])
  {
    var n := |restaurants|;
    var randomRestaurantIndexes: seq<int> := [];
    var randomRestaurants: seq<Option<Restaurant>> := [];
    var used: seq<nat> := [];
    var d := 0;
    ghost var produced := Produced(draws, n);
    for i := 0 to numToGet
      invariant |randomRestaurantIndexes| == i && |randomRestaurants| == i
      invariant Distinct(randomRestaurantIndexes)
      invariant forall x :: x in randomRestaurantIndexes ==> 0 <= x < DrawRange(n)
      invariant forall k :: 0 <= k < i ==> randomRestaurants[k] == Lookup(restaurants, randomRestaurantIndexes[k])
      invariant IsRejectionRun(produced, randomRestaurantIndexes, used)
      invariant d == Start(used, i) && d <= |draws|
    {
      var ok, randomIndex, next := DrawNewIndex(n, draws, d, randomRestaurantIndexes);
      if !ok {
        assert AllTaken(produced, Start(used, |used|), |draws|, randomRestaurantIndexes);
        forall ix: seq<int>, u: seq<nat> | IsRejectionRun(produced, ix, u)
          ensures |ix| < numToGet
        {
          StuckRunIsLongest(produced, randomRestaurantIndexes, used, ix, u);
        }
        return OutOfDraws(randomRestaurantIndexes, used);
      }
      RejectionRunExtend(produced, randomRestaurantIndexes, used, next - 1);
      randomRestaurantIndexes := randomRestaurantIndexes + [randomIndex];
      randomRestaurants := randomRestaurants + [Lookup(restaurants, randomIndex)];
      used := used + [next - 1];
      d := next;
    }
    DistinctBelow(randomRestaurantIndexes, DrawRange(n));
    assert forall k :: 0 <= k < numToGet ==> randomRestaurantIndexes[k] in randomRestaurantIndexes;
    forall ix: seq<int>, u: seq<nat> | IsRejectionRun(produced, ix, u) && |ix| == numToGet
      ensures ix == randomRestaurantIndexes
    {
      RunsAgree(produced, randomRestaurantIndexes, used, ix, u, numToGet);
      assert ix[..numToGet] == ix && randomRestaurantIndexes[..numToGet] == randomRestaurantIndexes;
    }
    res := Sampled(randomRestaurantIndexes, randomRestaurants, used);
  }

}
