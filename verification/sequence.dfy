/**
 * `getSequence(arr)` (getSequence.ts): the longest strictly increasing
 * subsequence the keyed diff keeps in place, as indices into `arr`.
 *
 * Patience sorting: `result` holds, for each length, the index of the
 * smallest tail value seen so far of an increasing run of that length; a
 * value above the last tail is appended, any other replaces the least tail
 * that is not below it (found by binary search). `copyArr` starts as a copy
 * of `arr` and records, for each index placed into `result`, the index that
 * preceded it there; walking those links back from the last tail rebuilds
 * the run. Zero entries (new nodes) are skipped.
 */
module Sequence {

  /** A slot of `copyArr`: a number, or `undefined` (what `result[-1]`
      reads). */
  datatype Cell = Num(n: int) | Undefined

  /** A strictly increasing run of non-zero entries of `arr`, as indices. */
  predicate IncreasingRun(arr: seq<int>, s: seq<int>) {
    && (forall k | 0 <= k < |s| :: 0 <= s[k] < |arr| && arr[s[k]] != 0)
    && (forall k | 0 <= k < |s| - 1 :: s[k] < s[k + 1] && arr[s[k]] < arr[s[k + 1]])
  }

  /** Indices into `arr`, strictly increasing both as indices and in value. */
  predicate Chained(arr: seq<int>, r: seq<int>) {
    && (forall k | 0 <= k < |r| :: 0 <= r[k] < |arr|)
    && (forall k | 0 <= k < |r| - 1 :: r[k] < r[k + 1] && arr[r[k]] < arr[r[k + 1]])
  }

  predicate InRange(arr: seq<int>, r: seq<int>) {
    forall k | 0 <= k < |r| :: 0 <= r[k] < |arr|
  }

  /** The tails in `result` increase with the position. */
  predicate SortedTails(arr: seq<int>, r: seq<int>)
    requires InRange(arr, r)
  {
    forall a, b | 0 <= a < b < |r| :: arr[r[a]] < arr[r[b]]
  }

  /** Every increasing run ending before `i` is no longer than `result`,
      and the tail kept for its length is no larger than its last value. */
  ghost predicate Tails(arr: seq<int>, r: seq<int>, i: int)
    requires InRange(arr, r)
  {
    forall s | IncreasingRun(arr, s) && 0 < |s| && s[|s| - 1] < i ::
      |s| <= |r| && arr[r[|s| - 1]] <= arr[s[|s| - 1]]
  }

  /** A prefix of a run is a run. */
  lemma RunPrefix(arr: seq<int>, s: seq<int>, m: nat)
    requires IncreasingRun(arr, s) && m <= |s|
    ensures IncreasingRun(arr, s[..m])
  {
  }

  /** An increasing run is no longer than the array: its `k`-th index is at
      least `k`. */
  lemma {:induction false} RunFits(arr: seq<int>, s: seq<int>)
    requires IncreasingRun(arr, s)
    ensures |s| <= |arr|
  {
    if 0 < |s| {
      var t := s[..|s| - 1];
      RunPrefix(arr, s, |s| - 1);
      RunFits(arr, t);
      RunIndexAtLeast(arr, s, |s| - 1);
    }
  }

  lemma {:induction false} RunIndexAtLeast(arr: seq<int>, s: seq<int>, k: nat)
    requires IncreasingRun(arr, s) && k < |s|
    ensures k <= s[k]
  {
    if 0 < k {
      RunIndexAtLeast(arr, s, k - 1);
    }
  }

  /** One step of the loop keeps `Tails`: no tail grows, and when `arr[i]`
      counts, it extends every run whose tail is below it and starts a run
      of its own. */
  lemma TailsStep(arr: seq<int>, r0: seq<int>, r1: seq<int>, i: int)
    requires 0 <= i < |arr| && InRange(arr, r0) && InRange(arr, r1)
    requires Tails(arr, r0, i)
    requires |r0| <= |r1| && forall p | 0 <= p < |r0| :: arr[r1[p]] <= arr[r0[p]]
    requires arr[i] != 0 ==>
      && 1 <= |r1| && arr[r1[0]] <= arr[i]
      && forall p | 0 <= p < |r0| && arr[r0[p]] < arr[i] :: p + 1 < |r1| && arr[r1[p + 1]] <= arr[i]
    ensures Tails(arr, r1, i + 1)
  {
    forall s | IncreasingRun(arr, s) && 0 < |s| && s[|s| - 1] < i + 1
      ensures |s| <= |r1| && arr[r1[|s| - 1]] <= arr[s[|s| - 1]]
    {
      if s[|s| - 1] == i && |s| > 1 {
        var t := s[..|s| - 1];
        RunPrefix(arr, s, |s| - 1);
        assert t[|t| - 1] == s[|s| - 2];
      }
    }
  }

  /** The binary search of the loop: the least position whose tail is not
      below `current`, when the last tail is not. */
  method Search(arr: seq<int>, result: seq<int>, current: int) returns (right: int)
    requires 1 <= |result| && InRange(arr, result) && SortedTails(arr, result)
    requires current <= arr[result[|result| - 1]]
    ensures 0 <= right < |result|
    ensures forall p | 0 <= p < right :: arr[result[p]] < current
    ensures forall p | right <= p < |result| :: current <= arr[result[p]]
  {
    var left := 0;
    right := |result| - 1;
    while left < right
      invariant 0 <= left <= right <= |result| - 1
      invariant forall p | 0 <= p < left :: arr[result[p]] < current
      invariant forall p | right <= p < |result| :: current <= arr[result[p]]
    {
      var middle := (left + right) / 2;
      if arr[result[middle]] < current {
        left := middle + 1;
      } else {
        right := middle;
      }
    }
  }

  /** The predecessor links: an index that entered `result` at position
      `level[m] >= 1` records in `copyArr` an earlier, smaller index that
      entered at the position before. */
  ghost predicate Links(arr: seq<int>, copyArr: seq<Cell>, level: seq<int>)
    requires |copyArr| == |arr| == |level|
  {
    forall m | 0 <= m < |arr| && level[m] >= 1 ::
      && copyArr[m].Num? && 0 <= copyArr[m].n < m
      && level[copyArr[m].n] == level[m] - 1 && arr[copyArr[m].n] < arr[m]
  }

  /** The back-tracking loop: from the last tail, follow the links down,
      writing one index per position. */
  method Backtrack(arr: seq<int>, tails: seq<int>, copyArr: seq<Cell>, ghost level: seq<int>)
    returns (result: seq<int>)
    requires |copyArr| == |arr| == |level| && 1 <= |tails| && InRange(arr, tails)
    requires Links(arr, copyArr, level) && level[tails[|tails| - 1]] == |tails| - 1
    ensures |result| == |tails| && Chained(arr, result)
    ensures forall q | 0 <= q < |result| :: level[result[q]] == q
  {
    result := tails;
    var len := |result|;
    var end := Num(result[len - 1]);
    var k := len;
    while k > 0
      invariant 0 <= k <= len == |result|
      invariant k > 0 ==> end.Num? && 0 <= end.n < |arr| && level[end.n] == k - 1
      invariant forall q | k <= q < len :: 0 <= result[q] < |arr| && level[result[q]] == q
      invariant 0 < k < len ==> end.n < result[k] && arr[end.n] < arr[result[k]]
      invariant forall q | k <= q < len - 1 :: result[q] < result[q + 1] && arr[result[q]] < arr[result[q + 1]]
    {
      k := k - 1;
      result := result[k := end.n];
      end := copyArr[end.n];
    }
  }

  /** What holds before the loop visits index `i`. */
  ghost predicate Inv(arr: seq<int>, result: seq<int>, copyArr: seq<Cell>, level: seq<int>, i: int) {
    && 0 <= i <= |arr| && |copyArr| == |arr| && |level| == |arr|
    && 1 <= |result| && InRange(arr, result)
    && Positions(result, level, i)
    && SortedTails(arr, result)
    && Levels(arr, level, i)
    && Links(arr, copyArr, level)
    && Tails(arr, result, i)
  }

  /** Every tail is an index already visited (or the seed 0), at the
      position it entered at. */
  ghost predicate Positions(result: seq<int>, level: seq<int>, i: int) {
    forall p | 0 <= p < |result| :: (result[p] < i || result[p] == 0) && 0 <= result[p] < |level| && level[result[p]] == p
  }

  /** Only visited non-zero entries (and the seed) have entered `result`. */
  ghost predicate Levels(arr: seq<int>, level: seq<int>, i: int)
    requires |level| == |arr|
  {
    forall m | 0 <= m < |arr| && level[m] >= 0 :: (m < i || m == 0) && (m == 0 || arr[m] != 0)
  }

  /** A zero entry leaves everything as it is. */
  lemma SkipKeeps(arr: seq<int>, result: seq<int>, copyArr: seq<Cell>, level: seq<int>, i: int)
    requires Inv(arr, result, copyArr, level, i) && i < |arr|
    requires arr[i] == 0 || (0 <= i < |arr| && exists p | 0 <= p < |result| :: arr[result[p]] == arr[i])
    ensures Inv(arr, result, copyArr, level, i + 1)
  {
    if arr[i] != 0 {
      var p :| 0 <= p < |result| && arr[result[p]] == arr[i];
      forall q | 0 <= q < |result| && arr[result[q]] < arr[i]
        ensures q + 1 < |result| && arr[result[q + 1]] <= arr[i]
      {
        assert q < p;
      }
    }
    TailsStep(arr, result, result, i);
  }

  /** A value above the last tail is appended, linked to that tail. */
  lemma PushKeeps(arr: seq<int>, result: seq<int>, copyArr: seq<Cell>, level: seq<int>, i: int)
    requires Inv(arr, result, copyArr, level, i) && 0 < i < |arr|
    requires arr[i] != 0 && arr[result[|result| - 1]] < arr[i]
    ensures Inv(arr, result + [i], copyArr[i := Num(result[|result| - 1])], level[i := |result|], i + 1)
  {
    assert level[i] < 0;
    PushSorted(arr, result, i);
    Enter(arr, result, level, i, |result|);
    PushLinks(arr, result, copyArr, level, i);
    PushTails(arr, result, i);
  }

  lemma PushTails(arr: seq<int>, result: seq<int>, i: int)
    requires 0 <= i < |arr| && arr[i] != 0 && 1 <= |result| && InRange(arr, result)
    requires SortedTails(arr, result) && Tails(arr, result, i)
    requires arr[result[|result| - 1]] < arr[i]
    ensures InRange(arr, result + [i]) && Tails(arr, result + [i], i + 1)
  {
    var r1 := result + [i];
    forall p | 0 <= p < |result|
      ensures arr[r1[p]] <= arr[result[p]]
    {
      assert r1[p] == result[p];
    }
    forall p | 0 <= p < |result| && arr[result[p]] < arr[i]
      ensures p + 1 < |r1| && arr[r1[p + 1]] <= arr[i]
    {
      if p + 1 < |result| {
        assert r1[p + 1] == result[p + 1];
        assert arr[result[p + 1]] <= arr[result[|result| - 1]];
      }
    }
    assert arr[r1[0]] <= arr[i] by {
      assert r1[0] == result[0];
      assert arr[result[0]] <= arr[result[|result| - 1]];
    }
    TailsStep(arr, result, r1, i);
  }

  lemma PushLinks(arr: seq<int>, result: seq<int>, copyArr: seq<Cell>, level: seq<int>, i: int)
    requires Inv(arr, result, copyArr, level, i) && 0 < i < |arr|
    requires arr[result[|result| - 1]] < arr[i]
    ensures Links(arr, copyArr[i := Num(result[|result| - 1])], level[i := |result|])
  {
    var last := result[|result| - 1];
    var c1, l1 := copyArr[i := Num(last)], level[i := |result|];
    assert level[last] == |result| - 1 && last < i;
    forall m | 0 <= m < |arr| && l1[m] >= 1
      ensures c1[m].Num? && 0 <= c1[m].n < m && l1[c1[m].n] == l1[m] - 1 && arr[c1[m].n] < arr[m]
    {
      if m != i {
        assert c1[m] == copyArr[m] && l1[m] == level[m];
      }
    }
  }

  lemma PushSorted(arr: seq<int>, result: seq<int>, i: int)
    requires 1 <= |result| && InRange(arr, result) && SortedTails(arr, result) && 0 <= i < |arr|
    requires arr[result[|result| - 1]] < arr[i]
    ensures InRange(arr, result + [i]) && SortedTails(arr, result + [i])
  {
  }

  /** Index `i` entering at position `q` (appended or replacing) keeps the
      positions and levels. */
  lemma Enter(arr: seq<int>, result: seq<int>, level: seq<int>, i: int, q: int)
    requires |level| == |arr| && 0 < i < |arr| && arr[i] != 0 && 0 <= q <= |result|
    requires Positions(result, level, i) && Levels(arr, level, i)
    ensures var r1 := if q == |result| then result + [i] else result[q := i];
      Positions(r1, level[i := q], i + 1) && Levels(arr, level[i := q], i + 1)
  {
    var r1 := if q == |result| then result + [i] else result[q := i];
    assert level[i] < 0;
    forall p | 0 <= p < |r1|
      ensures (r1[p] < i + 1 || r1[p] == 0) && 0 <= r1[p] < |arr| && level[i := q][r1[p]] == p
    {
      if p != q {
        assert r1[p] == result[p];
      }
    }
  }

  /** Replacing the least tail above `arr[i]` keeps the tails increasing. */
  lemma ReplaceSorted(arr: seq<int>, result: seq<int>, i: int, right: int)
    requires InRange(arr, result) && SortedTails(arr, result) && 0 <= i < |arr|
    requires 0 <= right < |result| && arr[i] < arr[result[right]]
    requires forall p | 0 <= p < right :: arr[result[p]] < arr[i]
    ensures InRange(arr, result[right := i]) && SortedTails(arr, result[right := i])
  {
  }

  /** The new link of index `i` points at the tail before its position. */
  lemma ReplaceLinks(arr: seq<int>, result: seq<int>, copyArr: seq<Cell>, level: seq<int>, i: int, right: int)
    requires Inv(arr, result, copyArr, level, i) && 0 < i < |arr|
    requires 0 <= right < |result| && forall p | 0 <= p < right :: arr[result[p]] < arr[i]
    ensures Links(arr, copyArr[i := if right > 0 then Num(result[right - 1]) else Undefined], level[i := right])
  {
  }

  /** Any other value replaces the least tail above it, linked to the tail
      before that (`undefined` at position 0). */
  lemma ReplaceKeeps(arr: seq<int>, result: seq<int>, copyArr: seq<Cell>, level: seq<int>, i: int, right: int)
    requires Inv(arr, result, copyArr, level, i) && 0 < i < |arr| && arr[i] != 0
    requires 0 <= right < |result| && arr[i] < arr[result[right]]
    requires forall p | 0 <= p < right :: arr[result[p]] < arr[i]
    ensures Inv(arr, result[right := i], copyArr[i := if right > 0 then Num(result[right - 1]) else Undefined],
                level[i := right], i + 1)
  {
    ReplaceSorted(arr, result, i, right);
    ReplaceLinks(arr, result, copyArr, level, i, right);
    Enter(arr, result, level, i, right);
    TailsStep(arr, result, result[right := i], i);
  }

  /** One turn of the loop at index `i`: a zero entry is skipped, a value
      above the last tail is appended, any other replaces the least tail
      above it (and is dropped when a tail equals it). */
  method Step(arr: seq<int>, result: seq<int>, copyArr: seq<Cell>, ghost level: seq<int>, i: int)
    returns (result': seq<int>, copyArr': seq<Cell>, ghost level': seq<int>)
    requires Inv(arr, result, copyArr, level, i) && i < |arr|
    ensures Inv(arr, result', copyArr', level', i + 1)
    ensures |result| <= |result'| <= |result| + 1
  {
    var current := arr[i];
    var resultEndIndex := result[|result| - 1];
    result', copyArr', level' := result, copyArr, level;
    if current == 0 {
      SkipKeeps(arr, result, copyArr, level, i);
    } else if arr[resultEndIndex] < current {
      result' := result + [i];
      copyArr' := copyArr[i := Num(resultEndIndex)];
      level' := level[i := |result|];
      assert 0 < i;
      PushKeeps(arr, result, copyArr, level, i);
    } else {
      var right := Search(arr, result, current);
      if arr[result[right]] > current {
        result' := result[right := i];
        copyArr' := copyArr[i := if right > 0 then Num(result'[right - 1]) else Undefined];
        level' := level[i := right];
        assert 0 < i;
        ReplaceKeeps(arr, result, copyArr, level, i, right);
      } else {
        SkipKeeps(arr, result, copyArr, level, i);
      }
    }
  }

  /** `getSequence(arr)`: the indices of a longest strictly increasing run of
      the non-zero entries (index 0 is the seed and stays even when its
      entry is zero). */
  method GetSequence(arr: seq<int>) returns (result: seq<int>)
    ensures |arr| == 0 ==> result == [0]
    ensures |arr| > 0 ==> 1 <= |result| && Chained(arr, result)
    // new nodes are never kept in place
    ensures forall k | 0 <= k < |result| && result[k] > 0 :: arr[result[k]] != 0
    // no increasing run is longer
    ensures forall s | IncreasingRun(arr, s) :: |s| <= |result|
    // with no new nodes, the result is itself a longest run
    ensures 0 < |arr| && (forall k | 0 <= k < |arr| :: arr[k] != 0) ==> IncreasingRun(arr, result)
  {
    var n := |arr|;
    if n == 0 {
      // the loops below do nothing but write `result[0] = 0`
      forall s | IncreasingRun(arr, s)
        ensures |s| <= 1
      {
        RunFits(arr, s);
      }
      return [0];
    }
    result := [0];
    var copyArr: seq<Cell> := seq(n, k requires 0 <= k < n => Num(arr[k]));
    // the position at which each index entered `result`, -1 if never
    ghost var level: seq<int> := seq(n, k => if k == 0 then 0 else -1);
    var i := 0;
    while i < n
      invariant Inv(arr, result, copyArr, level, i)
    {
      result, copyArr, level := Step(arr, result, copyArr, level, i);
      i := i + 1;
    }
    result := Backtrack(arr, result, copyArr, level);
    forall s | IncreasingRun(arr, s)
      ensures |s| <= |result|
    {
      if 0 < |s| {
        assert s[|s| - 1] < n;
      }
    }
  }
}
