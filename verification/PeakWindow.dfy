/** The busiest window (src/recon/anomaly/rules.py): a two-pointer sweep over sorted timestamps. */
module PeakWindow {

  ghost predicate Sorted(s: seq<int>) {
    forall i, j :: 0 <= i <= j < |s| ==> s[i] <= s[j]
  }

  function Insert(s: seq<int>, x: int): (r: seq<int>)
    ensures |r| == |s| + 1
  {
    if s == [] || x >= s[|s| - 1] then s + [x] else Insert(s[..|s| - 1], x) + [s[|s| - 1]]
  }

  function Sort(s: seq<int>): (r: seq<int>)
    ensures |r| == |s|
  {
    if s == [] then [] else Insert(Sort(s[..|s| - 1]), s[|s| - 1])
  }

  /** How many entries lie in the half-open interval [from, to). */
  function Count(s: seq<int>, from: int, to: int): nat {
    if s == [] then 0 else Count(s[..|s| - 1], from, to) + (if from <= s[|s| - 1] < to then 1 else 0)
  }

  /** How many lie in the window of the given length that starts at `from`. */
  function CountFrom(s: seq<int>, from: int, window: int): nat {
    Count(s, from, from + window)
  }

  lemma CountMore(s: seq<int>, x: int, from: int, to: int)
    ensures Count(s + [x], from, to) == Count(s, from, to) + (if from <= x < to then 1 else 0)
  {
    assert (s + [x])[..|s|] == s;
  }

  lemma {:induction false} InsertSorted(s: seq<int>, x: int)
    requires Sorted(s)
    ensures Sorted(Insert(s, x)) && forall y :: y in Insert(s, x) ==> y == x || y in s
  {
    if s != [] && x < s[|s| - 1] {
      InsertSorted(s[..|s| - 1], x);
      var front := Insert(s[..|s| - 1], x);
      forall k | 0 <= k < |front| ensures front[k] <= s[|s| - 1] {
        assert front[k] in front;
      }
    }
  }

  lemma {:induction false} InsertCounts(s: seq<int>, x: int, from: int, to: int)
    ensures Count(Insert(s, x), from, to) == Count(s, from, to) + (if from <= x < to then 1 else 0)
  {
    CountMore(s, x, from, to);
    if s != [] && x < s[|s| - 1] {
      InsertCounts(s[..|s| - 1], x, from, to);
      CountMore(Insert(s[..|s| - 1], x), s[|s| - 1], from, to);
    }
  }

  lemma {:induction false} SortSorts(s: seq<int>)
    ensures Sorted(Sort(s)) && (s != [] ==> Sort(s) != [])
  {
    if s != [] {
      SortSorts(s[..|s| - 1]);
      InsertSorted(Sort(s[..|s| - 1]), s[|s| - 1]);
    }
  }

  /** Sorting keeps every interval's count. */
  lemma {:induction false} SortCounts(s: seq<int>, from: int, to: int)
    ensures Count(Sort(s), from, to) == Count(s, from, to)
  {
    if s != [] {
      SortCounts(s[..|s| - 1], from, to);
      InsertCounts(Sort(s[..|s| - 1]), s[|s| - 1], from, to);
    }
  }

  // ------------------------------------------------------------------- counting in sorted order

  /** Positions i..j-1 are exactly the entries of a sorted list that lie in [from, to). */
  lemma {:induction false} CountIsRange(s: seq<int>, i: nat, j: nat, from: int, to: int)
    requires i <= j <= |s|
    requires forall k :: 0 <= k < |s| ==> (from <= s[k] < to <==> i <= k < j)
    ensures Count(s, from, to) == j - i
  {
    if s != [] {
      var n := |s| - 1;
      if j == n + 1 && i <= n {
        CountIsRange(s[..n], i, n, from, to);
      } else if i == n + 1 {
        CountIsRange(s[..n], n, n, from, to);
      } else {
        CountIsRange(s[..n], i, j, from, to);
      }
    }
  }

  lemma {:induction false} RangeExists(s: seq<int>, from: int, to: int) returns (i: nat, j: nat)
    requires Sorted(s)
    ensures i <= j <= |s| && forall k :: 0 <= k < |s| ==> (from <= s[k] < to <==> i <= k < j)
  {
    if s == [] {
      i, j := 0, 0;
    } else {
      var n := |s| - 1;
      i, j := RangeExists(s[..n], from, to);
      assert forall k :: 0 <= k < n ==> s[..n][k] == s[k] && s[k] <= s[n];
      if from <= s[n] < to {
        if i == j {
          i := n;
        }
        assert i < n ==> from <= s[i] <= s[n - 1];
        j := n + 1;
      }
    }
  }

  /** Entries i..j fit into one window. */
  predicate Together(s: seq<int>, window: int, i: nat, j: nat) {
    i <= j < |s| && s[j] - s[i] < window
  }

  datatype Peak = NoTimestamps | IndexError | Peak(count: nat, start: int)

  /** Among the first n entries, `count` is the most that fit together, `start` begins such a run, and
      no smaller entry does. */
  ghost predicate BestSoFar(s: seq<int>, window: int, n: nat, count: nat, start: int)
    requires n <= |s|
  {
    && (forall i, j :: 0 <= i <= j < n && Together(s, window, i, j) ==> j - i + 1 <= count)
    && (forall i, j :: 0 <= i <= j < n && Together(s, window, i, j) && s[i] < start ==> j - i + 1 < count)
    && (exists i, j :: 0 <= i <= j < n && Together(s, window, i, j) && j - i + 1 == count && s[i] == start)
  }

  /** peak_window: for a positive window the true maximum over every half-open interval of that length,
      attained at the returned start, which is the earliest timestamp attaining it. A window that is
      not positive runs off the list. */
  method FindPeak(timestamps: seq<int>, window: int) returns (r: Peak)
    ensures r == NoTimestamps <==> timestamps == []
    ensures r == IndexError <==> timestamps != [] && window <= 0
    ensures r.Peak? ==>
              && r.start in timestamps
              && CountFrom(timestamps, r.start, window) == r.count
              && (forall from: int :: CountFrom(timestamps, from, window) <= r.count)
              && (forall t :: t in timestamps && t < r.start ==> CountFrom(timestamps, t, window) < r.count)
  {
    hide CountFrom, Sort, BestSoFar;
    if timestamps == [] {
      return NoTimestamps;
    }
    var ordered := Sort(timestamps);
    SortSorts(timestamps);
    var n := |ordered|;
    var count: nat, start: int, left: nat := 0, ordered[0], 0;
    for right := 0 to n
      invariant 0 <= left <= n
      invariant window > 0 ==> left <= right
      invariant window > 0 && right > 0 ==> BestSoFar(ordered, window, right, count, start)
      invariant window > 0 && right < n ==> forall k :: 0 <= k < left ==> ordered[right] - ordered[k] >= window
      invariant right == 0 ==> count == 0
      invariant window <= 0 && right > 0 ==> left < n && ordered[left] > ordered[right - 1]
    {
      var stamp := ordered[right];
      while left < n && stamp - ordered[left] >= window
        invariant 0 <= left <= n
        invariant window > 0 ==> left <= right
        invariant window > 0 ==> forall k :: 0 <= k < left ==> ordered[right] - ordered[k] >= window
      {
        left := left + 1;
      }
      if left == n {
        return IndexError;
      }
      if window > 0 {
        BestExtends(ordered, window, right, count, start, left);
      }
      if right - left + 1 > count {
        count, start := right - left + 1, ordered[left];
      }
    }
    PeakIsRight(timestamps, window, count, start);
    return Peak(count, start);
  }

  lemma BestExtends(s: seq<int>, window: int, right: nat, count: nat, start: int, left: nat)
    requires Sorted(s) && left <= right < |s|
    requires if right == 0 then count == 0 else BestSoFar(s, window, right, count, start)
    requires Together(s, window, left, right) && forall k :: 0 <= k < left ==> !Together(s, window, k, right)
    ensures if right - left + 1 > count then BestSoFar(s, window, right + 1, right - left + 1, s[left])
            else BestSoFar(s, window, right + 1, count, start)
  {
    if right > 0 && right - left + 1 <= count {
      var i, j :| 0 <= i <= j < right && Together(s, window, i, j) && j - i + 1 == count && s[i] == start;
      forall a, b | 0 <= a <= b < right + 1 && Together(s, window, a, b) && s[a] < start ensures b - a + 1 < count {
      }
    } else {
      forall a, b | 0 <= a <= b < right + 1 && Together(s, window, a, b) && s[a] < s[left]
        ensures b - a + 1 < right - left + 1
      {
      }
    }
  }

  lemma PeakIsRight(timestamps: seq<int>, window: int, count: nat, start: int)
    requires timestamps != [] && window > 0
    requires BestSoFar(Sort(timestamps), window, |timestamps|, count, start)
    ensures start in timestamps
    ensures CountFrom(timestamps, start, window) == count
    ensures forall from: int :: CountFrom(timestamps, from, window) <= count
    ensures forall t :: t in timestamps && t < start ==> CountFrom(timestamps, t, window) < count
  {
    hide Count, Sort;
    var s := Sort(timestamps);
    SortSorts(timestamps);
    forall from: int ensures CountFrom(timestamps, from, window) <= count {
      SortCounts(timestamps, from, from + window);
      AtMostBest(s, window, count, start, from);
    }
    var i, j :| 0 <= i <= j < |s| && Together(s, window, i, j) && j - i + 1 == count && s[i] == start;
    SortCounts(timestamps, start, start + window);
    AtMostBest(s, window, count, start, start);
    AtLeastRun(s, window, i, j);
    SortMembers(timestamps, start);
    assert s[i] in s;
    forall t | t in timestamps && t < start ensures CountFrom(timestamps, t, window) < count {
      SortMembers(timestamps, t);
      SortCounts(timestamps, t, t + window);
      EarlierIsSmaller(s, window, count, start, t);
    }
  }

  lemma SortMembers(timestamps: seq<int>, t: int)
    ensures t in timestamps <==> t in Sort(timestamps)
  {
    SortCounts(timestamps, t, t + 1);
    CountMembers(timestamps, t);
    CountMembers(Sort(timestamps), t);
  }

  lemma {:induction false} CountMembers(s: seq<int>, t: int)
    ensures t in s <==> Count(s, t, t + 1) > 0
  {
    if s != [] {
      CountMembers(s[..|s| - 1], t);
      assert s == s[..|s| - 1] + [s[|s| - 1]];
    }
  }

  lemma AtMostBest(s: seq<int>, window: int, count: nat, start: int, from: int)
    requires Sorted(s) && s != [] && window > 0 && BestSoFar(s, window, |s|, count, start)
    ensures Count(s, from, from + window) <= count
  {
    var i, j := RangeExists(s, from, from + window);
    CountIsRange(s, i, j, from, from + window);
    if i < j {
      assert Together(s, window, i, j - 1);
    }
  }

  lemma AtLeastRun(s: seq<int>, window: int, i: nat, j: nat)
    requires Sorted(s) && Together(s, window, i, j)
    ensures Count(s, s[i], s[i] + window) >= j - i + 1
  {
    var a, b := RangeExists(s, s[i], s[i] + window);
    CountIsRange(s, a, b, s[i], s[i] + window);
    assert a <= i < b && a <= j < b;
  }

  lemma EarlierIsSmaller(s: seq<int>, window: int, count: nat, start: int, t: int)
    requires Sorted(s) && s != [] && window > 0 && BestSoFar(s, window, |s|, count, start)
    requires t in s && t < start
    ensures Count(s, t, t + window) < count
  {
    var i, j := RangeExists(s, t, t + window);
    CountIsRange(s, i, j, t, t + window);
    var k :| 0 <= k < |s| && s[k] == t;
    assert i <= k < j;
    assert s[i] == t;
    assert Together(s, window, i, j - 1);
  }
}
