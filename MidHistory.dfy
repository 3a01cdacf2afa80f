/**
 The bounded history of mid prices kept by the two stateful traders, and the
 arithmetic they do over it: recording a new mid with first-in-first-out
 eviction, the sum of a window and the floor average.
 */
module MidHistory {

  /** History after recording `mid`: append it, then drop the oldest entry if
      the length now exceeds `capacity` (one `append` followed by at most one
      `pop(0)`). */
  function Record(history: seq<int>, mid: int, capacity: nat): (r: seq<int>)
    requires capacity > 0
    ensures |r| > 0 && r[|r| - 1] == mid
    ensures |r| <= |history| + 1
    // the newest |r| entries of history + [mid], in their original order
    ensures r == (history + [mid])[|history| + 1 - |r|..]
    ensures |history| <= capacity ==>
              |r| == if |history| < capacity then |history| + 1 else capacity
  {
    var appended := history + [mid];
    if |appended| > capacity then appended[1..] else appended
  }

  /** The history after recording each mid of `mids` in turn, oldest first. */
  function Replay(history: seq<int>, mids: seq<int>, capacity: nat): seq<int>
    requires capacity > 0
  {
    if |mids| == 0 then history
    else Record(Replay(history, mids[..|mids| - 1], capacity), mids[|mids| - 1], capacity)
  }

  /** Starting empty, the history holds one entry per call until it reaches
      its capacity, and exactly `capacity` entries from then on. */
  lemma {:induction false} ReplayLength(mids: seq<int>, capacity: nat)
    requires capacity > 0
    ensures |Replay([], mids, capacity)| == if |mids| < capacity then |mids| else capacity
  {
    if |mids| > 0 {
      ReplayLength(mids[..|mids| - 1], capacity);
    }
  }

  /** A slice that stops one short of the end, followed by the last element. */
  lemma SliceThenLast(s: seq<int>, i: nat)
    requires i < |s|
    ensures s[i..|s| - 1] + [s[|s| - 1]] == s[i..]
  {
  }

  /** Starting empty, the history is always the newest `capacity` mids seen
      (all of them before that many have been seen), oldest first. */
  lemma {:induction false} ReplayKeepsNewest(mids: seq<int>, capacity: nat)
    requires capacity > 0
    ensures var kept := if |mids| < capacity then |mids| else capacity;
            Replay([], mids, capacity) == mids[|mids| - kept..]
  {
    if |mids| > 0 {
      var init, last := mids[..|mids| - 1], mids[|mids| - 1];
      ReplayKeepsNewest(init, capacity);
      var before := if |init| < capacity then |init| else capacity;
      var start := |init| - before;
      var prev := Replay([], init, capacity);
      assert prev == mids[start..|mids| - 1];
      SliceThenLast(mids, start);
      var appended := prev + [last];
      assert appended == mids[start..];
      if |init| < capacity {
        assert start == 0 && |appended| <= capacity;
        assert Replay([], mids, capacity) == appended;
      } else {
        assert |appended| == capacity + 1;
        assert Replay([], mids, capacity) == appended[1..];
        assert appended[1..] == mids[start + 1..];
      }
    }
  }

  /** A full history stays full, whatever is recorded into it. */
  lemma {:induction false} ReplayStaysFull(history: seq<int>, mids: seq<int>, capacity: nat)
    requires capacity > 0 && |history| == capacity
    ensures |Replay(history, mids, capacity)| == capacity
  {
    if |mids| > 0 {
      ReplayStaysFull(history, mids[..|mids| - 1], capacity);
    }
  }

  /** Python's `sum` over a list of prices. */
  function Sum(s: seq<int>): int
  {
    if |s| == 0 then 0 else s[0] + Sum(s[1..])
  }

  /** Summing distributes over concatenation. */
  lemma {:induction false} SumAppend(a: seq<int>, b: seq<int>)
    ensures Sum(a + b) == Sum(a) + Sum(b)
  {
    if |a| == 0 {
      assert a + b == b;
    } else {
      assert (a + b)[1..] == a[1..] + b;
      SumAppend(a[1..], b);
    }
  }

  /** A sum of n prices that are all at most hi is at most n * hi. */
  lemma {:induction false} SumAtMost(s: seq<int>, hi: int)
    requires forall i :: 0 <= i < |s| ==> s[i] <= hi
    ensures Sum(s) <= hi * |s|
  {
    if |s| > 0 {
      SumAtMost(s[1..], hi);
      assert hi * |s| == hi * (|s| - 1) + hi;
    }
  }

  /** A sum of n prices that are all at least lo is at least n * lo. */
  lemma {:induction false} SumAtLeast(s: seq<int>, lo: int)
    requires forall i :: 0 <= i < |s| ==> lo <= s[i]
    ensures lo * |s| <= Sum(s)
  {
    if |s| > 0 {
      SumAtLeast(s[1..], lo);
      assert lo * |s| == lo * (|s| - 1) + lo;
    }
  }

  /** `sum(history) // len(history)`: the floor of the arithmetic mean. The
      history is never empty here, so there is no division by zero. */
  function FloorAverage(history: seq<int>): (r: int)
    requires |history| > 0
    ensures r * |history| <= Sum(history) < r * |history| + |history|
  {
    Sum(history) / |history|
  }

  /** Multiplying by a positive `n` keeps a gap of at least one as a gap of at least `n`. */
  lemma ScaleUp(a: int, b: int, n: int)
    requires n > 0 && a > b
    ensures a * n >= b * n + n
  {
    var d := a - b;
    assert a * n == b * n + d * n;
    assert d * n == (d - 1) * n + n;
  }

  /** Dividing both sides of `a * n < (b + 1) * n` by a positive `n`. */
  lemma ScaleDown(a: int, b: int, n: int)
    requires n > 0 && a * n < b * n + n
    ensures a <= b
  {
    if a > b {
      ScaleUp(a, b, n);
    }
  }

  /** The floor average of prices that all lie in [lo, hi] also lies in [lo, hi]. */
  lemma AverageWithin(history: seq<int>, lo: int, hi: int)
    requires |history| > 0
    requires forall i :: 0 <= i < |history| ==> lo <= history[i] <= hi
    ensures lo <= FloorAverage(history) <= hi
  {
    var n, avg := |history|, FloorAverage(history);
    SumAtMost(history, hi);
    SumAtLeast(history, lo);
    assert avg * n < hi * n + n;
    ScaleDown(avg, hi, n);
    assert lo * n < avg * n + n;
    ScaleDown(lo, avg, n);
  }
}
