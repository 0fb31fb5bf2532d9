/** The "first maximum" scan that the service performs three times: the top
    review of a restaurant, the top suggestion among analyses, and the winner
    of a closed ballot. Each starts from element 0 and replaces its candidate
    only on a STRICTLY larger key, so ties keep the earliest position. */
module FirstMax {

  /** `best` is the earliest position holding the largest key. */
  ghost predicate IsFirstMax(keys: seq<int>, best: int)
  {
    0 <= best < |keys| &&
    (forall k :: 0 <= k < |keys| ==> keys[k] <= keys[best]) &&
    (forall k :: 0 <= k < best ==> keys[k] < keys[best])
  }

  /** The scan `if keys[i] > keys[best] then best := i`, resumed at position `i`
      with candidate `best`. */
  function ScanFrom(keys: seq<int>, i: nat, best: nat): (r: nat)
    requires i <= |keys| && best < |keys|
    requires i == 0 ==> best == 0
    requires 0 < i ==> IsFirstMax(keys[..i], best)
    ensures IsFirstMax(keys, r)
    decreases |keys| - i
  {
    if i == |keys| then
      assert keys[..i] == keys;
      best
    else
      ScanFrom(keys, i + 1, if keys[i] > keys[best] then i else best)
  }

  /** The full scan, starting (as every caller does) with candidate 0. */
  function FirstMaxIndex(keys: seq<int>): (r: nat)
    requires |keys| > 0
    ensures IsFirstMax(keys, r)
  {
    ScanFrom(keys, 0, 0)
  }

  /** The first maximum is unique, so the scan is pinned down by `IsFirstMax`. */
  lemma FirstMaxUnique(keys: seq<int>, a: int, b: int)
    requires IsFirstMax(keys, a) && IsFirstMax(keys, b)
    ensures a == b
  {
    assert keys[a] == keys[b];
  }

}
