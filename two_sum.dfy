/**
 * The two-sum example: find indices i < j whose numbers add up to a target,
 * once by a nested scan and once with a hash of the values seen so far.
 */
module TwoSum {
  import opened Core

  /** i < j index two numbers that add up to target. */
  ghost predicate IsPair(numbers: seq<int>, target: int, i: int, j: int) {
    0 <= i < j < |numbers| && numbers[i] + numbers[j] == target
  }

  ghost predicate HasPair(numbers: seq<int>, target: int) {
    exists i, j :: IsPair(numbers, target, i, j)
  }

  /**
   * `brute_force`: scans i, then j > i, and returns the first pair met,
   * which is the lexicographically least one; nil when there is none.
   */
  method BruteForce(numbers: seq<int>, target: int) returns (r: Option<(int, int)>)
    ensures r.Some? ==> IsPair(numbers, target, r.value.0, r.value.1)
    ensures r.Some? ==> forall i, j :: IsPair(numbers, target, i, j) ==>
      r.value.0 < i || (r.value.0 == i && r.value.1 <= j)
    ensures r.None? <==> !HasPair(numbers, target)
  {
    var len := |numbers|;
    var i := 0;
    while i < len
      invariant 0 <= i <= len
      invariant forall a, b :: IsPair(numbers, target, a, b) ==> a >= i
    {
      var j := i + 1;
      while j < len
        invariant i + 1 <= j <= len
        invariant forall b :: i < b < j ==> numbers[i] + numbers[b] != target
      {
        if numbers[i] + numbers[j] == target {
          assert IsPair(numbers, target, i, j);
          return Some((i, j));
        }
        j := j + 1;
      }
      i := i + 1;
    }
    return None;
  }

  /**
   * What `seen` holds before step idx of `hashmap`: every value among
   * numbers[..idx], mapped to the last index where it occurs.
   */
  ghost predicate LastIndexMap(seen: map<int, int>, numbers: seq<int>, idx: int)
    requires 0 <= idx <= |numbers|
  {
    && (forall k :: 0 <= k < idx ==> numbers[k] in seen)
    && (forall v :: v in seen ==>
          && 0 <= seen[v] < idx
          && numbers[seen[v]] == v
          && forall k :: seen[v] < k < idx ==> numbers[k] != v)
  }

  /**
   * `hashmap`: for each idx, looks the complement up among the earlier
   * values and returns [its last earlier index, idx]; nil when none matches.
   */
  method Hashmap(numbers: seq<int>, target: int) returns (r: Option<(int, int)>)
    ensures r.Some? ==> IsPair(numbers, target, r.value.0, r.value.1)
    ensures r.Some? ==> forall i, j :: IsPair(numbers, target, i, j) ==> r.value.1 <= j
    ensures r.Some? ==> forall i :: r.value.0 < i < r.value.1 ==> !IsPair(numbers, target, i, r.value.1)
    ensures r.None? <==> !HasPair(numbers, target)
  {
    var seen: map<int, int> := map[];
    var idx := 0;
    while idx < |numbers|
      invariant 0 <= idx <= |numbers|
      invariant LastIndexMap(seen, numbers, idx)
      invariant forall i, j :: IsPair(numbers, target, i, j) ==> j >= idx
    {
      var number := numbers[idx];
      var complement := target - number;
      if complement in seen {
        assert IsPair(numbers, target, seen[complement], idx);
        return Some((seen[complement], idx));
      }
      forall i | 0 <= i < idx
        ensures numbers[i] + number != target
      {
        assert numbers[i] in seen;
      }
      seen := seen[number := idx];
      idx := idx + 1;
    }
    return None;
  }
}
