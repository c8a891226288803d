/**
 * XMarkBenchmark.java: the option parsing of `go`, the choice of tree models
 * and queries in `query`, the timing loops of `query` and `transform`, and
 * `median`. Building documents, compiling and running queries and
 * stylesheets and printing the results are left out; the clock is a
 * sequence holding the time each timed run takes.
 */
module XMark {
  import opened Wrappers
  import opened Strings
  import opened JavaInt

  /** `MAX_RUNS` and `MAX_TIME` (nanoseconds of thread CPU time) of the query loop. */
  const MaxRuns := 1000
  const MaxTime := 30_000_000_000
  /** The XSLT loop's limits: ten runs, one second. */
  const XsltRuns := 10
  const XsltTime := 1000
  /** `Integer.MAX_VALUE`, the first value of `min`. */
  const IntMax := 0x7fff_ffff

  // ---------------------------------------------------------------------------
  // Sorting and the median
  // ---------------------------------------------------------------------------

  predicate Sorted(s: seq<int>) {
    forall i, j :: 0 <= i < j < |s| ==> s[i] <= s[j]
  }

  /** `x` put in front of the first larger element. */
  function Insert(x: int, s: seq<int>): (r: seq<int>)
    ensures |r| == |s| + 1
  {
    if |s| == 0 then [x]
    else if x <= s[0] then [x] + s
    else [s[0]] + Insert(x, s[1..])
  }

  /** Inserting adds one copy of `x` and keeps everything else. */
  lemma {:induction false} InsertPermutes(x: int, s: seq<int>)
    ensures multiset(Insert(x, s)) == multiset(s) + multiset{x}
    decreases |s|
  {
    if |s| > 0 && x > s[0] {
      InsertPermutes(x, s[1..]);
      assert s == [s[0]] + s[1..];
    }
  }

  lemma {:induction false} InsertSorted(x: int, s: seq<int>)
    requires Sorted(s)
    ensures Sorted(Insert(x, s))
    decreases |s|
  {
    if |s| > 0 && x > s[0] {
      InsertSorted(x, s[1..]);
      InsertPermutes(x, s[1..]);
      var t := Insert(x, s[1..]);
      forall k | 0 <= k < |t|
        ensures s[0] <= t[k]
      {
        assert t[k] in multiset(t);
        assert t[k] in multiset(s[1..]) || t[k] == x;
        if t[k] != x {
          var j :| 0 <= j < |s[1..]| && s[1..][j] == t[k];
          assert s[j + 1] == t[k];
        }
      }
    }
  }

  /** The ascending order `Arrays.sort` puts the measures in, by insertion. */
  function Sort(s: seq<int>): (r: seq<int>)
    ensures |r| == |s|
  {
    if |s| == 0 then [] else Insert(s[0], Sort(s[1..]))
  }

  /** Sorting keeps every measure, as often as it occurs. */
  lemma {:induction false} SortPermutes(s: seq<int>)
    ensures multiset(Sort(s)) == multiset(s)
    decreases |s|
  {
    if |s| > 0 {
      var t := Sort(s[1..]);
      assert Sort(s) == Insert(s[0], t);
      SortPermutes(s[1..]);
      InsertPermutes(s[0], t);
      assert s == [s[0]] + s[1..];
      assert multiset(s) == multiset{s[0]} + multiset(s[1..]);
    }
  }

  /** The sorted measures are in ascending order. */
  lemma {:induction false} SortSorted(s: seq<int>)
    ensures Sorted(Sort(s))
    decreases |s|
  {
    if |s| > 0 {
      var t := Sort(s[1..]);
      assert Sort(s) == Insert(s[0], t);
      SortSorted(s[1..]);
      InsertSorted(s[0], t);
    }
  }

  /** The sorted measures are a sorted permutation of them. */
  lemma SortSpec(s: seq<int>)
    ensures multiset(Sort(s)) == multiset(s)
    ensures Sorted(Sort(s))
  {
    SortPermutes(s);
    SortSorted(s);
  }

  /** How many measures are at most `v`, and at least `v`. */
  function CountLe(s: seq<int>, v: int): nat {
    if |s| == 0 then 0 else (if s[0] <= v then 1 else 0) + CountLe(s[1..], v)
  }

  function CountGe(s: seq<int>, v: int): nat {
    if |s| == 0 then 0 else (if s[0] >= v then 1 else 0) + CountGe(s[1..], v)
  }

  lemma {:induction false} InsertCounts(x: int, s: seq<int>, v: int)
    ensures CountLe(Insert(x, s), v) == CountLe(s, v) + (if x <= v then 1 else 0)
    ensures CountGe(Insert(x, s), v) == CountGe(s, v) + (if x >= v then 1 else 0)
    decreases |s|
  {
    if |s| > 0 && x > s[0] {
      InsertCounts(x, s[1..], v);
      assert Insert(x, s)[1..] == Insert(x, s[1..]);
    } else if |s| > 0 {
      assert Insert(x, s)[1..] == s;
    }
  }

  /** Sorting keeps the counts: a statement about the measures themselves, not their order. */
  lemma {:induction false} SortCounts(s: seq<int>, v: int)
    ensures CountLe(Sort(s), v) == CountLe(s, v) && CountGe(Sort(s), v) == CountGe(s, v)
    decreases |s|
  {
    if |s| > 0 {
      SortCounts(s[1..], v);
      InsertCounts(s[0], Sort(s[1..]), v);
    }
  }

  lemma {:induction false} CountLeAtLeast(t: seq<int>, v: int, m: nat)
    requires m <= |t| && forall i :: 0 <= i < m ==> t[i] <= v
    ensures CountLe(t, v) >= m
    decreases |t|
  {
    if m > 0 {
      CountLeAtLeast(t[1..], v, m - 1);
    }
  }

  lemma {:induction false} CountGeAtLeast(t: seq<int>, v: int, m: nat)
    requires m <= |t| && forall i :: |t| - m <= i < |t| ==> t[i] >= v
    ensures CountGe(t, v) >= m
    decreases |t|
  {
    if m == |t| && m > 0 {
      CountGeAtLeast(t[1..], v, m - 1);
    } else if m > 0 {
      CountGeAtLeast(t[1..], v, m);
    }
  }

  /** In a sorted sequence position `k` has at least `k + 1` values at most it and `|t| - k` at least it. */
  lemma SortedRank(t: seq<int>, k: nat)
    requires Sorted(t) && k < |t|
    ensures CountLe(t, t[k]) >= k + 1 && CountGe(t, t[k]) >= |t| - k
  {
    CountLeAtLeast(t, t[k], k + 1);
    CountGeAtLeast(t, t[k], |t| - k);
  }

  /**
   * `median` as written: element `n/2 - 1` of the sorted measures; with
   * fewer than two measures the index is negative and Java throws.
   */
  function MedianAsWritten(measures: seq<int>): (r: Option<int>)
    ensures r.Some? <==> |measures| >= 2
  {
    if |measures| < 2 then None
    else
      var m := Sort(measures);
      Some(m[|m| / 2 - 1])
  }

  /**
   * What it returns: a value with at least `n/2` measures at most it and
   * more than half of them at least it, which is the lower median when `n`
   * is even and the value below the middle when `n` is odd.
   */
  lemma MedianAsWrittenRank(measures: seq<int>)
    requires |measures| >= 2
    ensures var r := MedianAsWritten(measures).value;
      CountLe(measures, r) >= |measures| / 2 && CountGe(measures, r) >= |measures| - |measures| / 2 + 1
  {
    var m := Sort(measures);
    MedianAsWrittenAt(measures);
    SortSpec(measures);
    var r := m[|measures| / 2 - 1];
    SortedRank(m, |measures| / 2 - 1);
    SortCounts(measures, r);
    assert CountLe(measures, r) >= |measures| / 2;
    assert CountGe(measures, r) >= |measures| - |measures| / 2 + 1;
  }

  /** Of three measures it returns the smallest, with only one measure at most it. */
  lemma MedianAsWrittenOfThree()
    ensures MedianAsWritten([20, 10, 30]) == Some(10)
    ensures CountLe([20, 10, 30], 10) == 1
    ensures Median([20, 10, 30]) == Some(20)
  {
    var s: seq<int> := [20, 10, 30];
    SortOfThree();
    MedianAt(s);
    MedianAsWrittenAt(s);
    assert CountLe([30], 10) == 0;
  }

  /** Insertion sort on the three measures of the example: 10 comes first, then 20. */
  lemma SortOfThree()
    ensures |Sort([20, 10, 30])| == 3 && Sort([20, 10, 30])[0] == 10 && Sort([20, 10, 30])[1] == 20
  {
    var s: seq<int> := [20, 10, 30];
    var u: seq<int> := [10, 30];
    var v: seq<int> := [30];
    assert s[1..] == u && u[1..] == v && v[1..] == [];
    assert Sort(v) == Insert(30, []) == v;
    assert Sort(u) == Insert(10, v) == u;
    assert Insert(20, v) == [20] + v;
    assert Insert(20, u) == [10] + Insert(20, v);
    assert Sort(s) == Insert(20, u);
  }

  /** `median` as written picks element `n/2 - 1` of the sorted measures. */
  lemma MedianAsWrittenAt(measures: seq<int>)
    requires |measures| >= 2
    ensures MedianAsWritten(measures).value == Sort(measures)[|measures| / 2 - 1]
  {
  }

  /** The median is element `(n - 1)/2` of the sorted measures. */
  lemma MedianAt(measures: seq<int>)
    requires |measures| >= 1
    ensures Median(measures).value == Sort(measures)[(|measures| - 1) / 2]
  {
  }

  /** The median: the middle element of the sorted measures, the lower of the two middle ones for even `n`. */
  function Median(measures: seq<int>): (r: Option<int>)
    ensures r.Some? <==> |measures| >= 1
  {
    if |measures| == 0 then None
    else
      var m := Sort(measures);
      Some(m[(|m| - 1) / 2])
  }

  /** Both pick one of the measures. */
  lemma MedianIsMeasure(measures: seq<int>)
    ensures MedianAsWritten(measures).Some? ==> MedianAsWritten(measures).value in measures
    ensures Median(measures).Some? ==> Median(measures).value in measures
  {
    if |measures| >= 1 {
      var m := Sort(measures);
      SortSpec(measures);
      assert m[(|m| - 1) / 2] in multiset(m);
      if |measures| >= 2 {
        assert m[|m| / 2 - 1] in multiset(m);
      }
    }
  }

  /** At least half of the measures are at most the median and at least half are at least it. */
  lemma MedianHalves(measures: seq<int>)
    requires |measures| >= 1
    ensures var r := Median(measures).value;
      2 * CountLe(measures, r) >= |measures| && 2 * CountGe(measures, r) >= |measures|
  {
    var m := Sort(measures);
    var n := |measures|;
    var k := (n - 1) / 2;
    MiddleIndex(n);
    MedianAt(measures);
    SortSpec(measures);
    var r := m[k];
    assert Median(measures).value == r;
    SortedRank(m, k);
    SortCounts(measures, r);
    assert CountLe(measures, r) >= k + 1 && CountGe(measures, r) >= n - k;
  }

  /** The middle index `(n - 1) / 2` is in range and splits `n` into two halves of at least half each. */
  lemma MiddleIndex(n: int)
    requires n >= 1
    ensures 0 <= (n - 1) / 2 < n && 2 * ((n - 1) / 2 + 1) >= n && 2 * (n - (n - 1) / 2) >= n
  {
  }

  /** For an even number of measures the written index is the lower median already. */
  lemma MedianEvenAgrees(measures: seq<int>)
    requires |measures| >= 2 && |measures| % 2 == 0
    ensures MedianAsWritten(measures) == Median(measures)
  {
  }

  // ---------------------------------------------------------------------------
  // The timing loops
  // ---------------------------------------------------------------------------

  /** The loop variables `runs`, `totalTime`, `min`, `max` and the list `measures`. */
  datatype Timing = Timing(runs: nat, totalTime: int, min: int, max: int, measures: seq<int>)

  const Start := Timing(0, 0, IntMax, 0, [])

  /** One timed run that took `time`. */
  function Record(s: Timing, time: int): Timing {
    Timing(s.runs + 1, s.totalTime + time,
      if time < s.min then time else s.min,
      if time > s.max then time else s.max,
      s.measures + [time])
  }

  /**
   * The loop from iteration `t` on, in state `s`, when run `t` takes
   * `times[t]`: at most `limitRuns` runs, and a stop after a run that
   * brings the total above `limitTime` once three runs are done.
   */
  function TimedFrom(s: Timing, times: seq<int>, t: nat, limitRuns: nat, limitTime: int): Timing
    requires limitRuns <= |times|
    decreases limitRuns - t
  {
    if t >= limitRuns then s
    else
      var s' := Record(s, times[t]);
      if s'.totalTime > limitTime && t >= 2 then s' else TimedFrom(s', times, t + 1, limitRuns, limitTime)
  }

  /** One iteration of the loop, unfolded. */
  lemma TimedStep(s: Timing, times: seq<int>, t: nat, limitRuns: nat, limitTime: int)
    requires t < limitRuns <= |times|
    ensures var s' := Record(s, times[t]);
      TimedFrom(s, times, t, limitRuns, limitTime)
        == if s'.totalTime > limitTime && t >= 2 then s' else TimedFrom(s', times, t + 1, limitRuns, limitTime)
  {
  }

  function Timed(times: seq<int>, limitRuns: nat, limitTime: int): Timing
    requires limitRuns <= |times|
  {
    TimedFrom(Start, times, 0, limitRuns, limitTime)
  }

  function Sum(xs: seq<int>): int {
    if |xs| == 0 then 0 else Sum(xs[..|xs| - 1]) + xs[|xs| - 1]
  }

  /** `a` lowered by every element of `xs` in turn, and raised. */
  function Least(a: int, xs: seq<int>): int {
    if |xs| == 0 then a
    else
      var m := Least(a, xs[..|xs| - 1]);
      if xs[|xs| - 1] < m then xs[|xs| - 1] else m
  }

  function Greatest(a: int, xs: seq<int>): int {
    if |xs| == 0 then a
    else
      var m := Greatest(a, xs[..|xs| - 1]);
      if xs[|xs| - 1] > m then xs[|xs| - 1] else m
  }

  /** `Least(a, xs)` is the minimum of `a` and the elements of `xs`. */
  lemma {:induction false} LeastIsMinimum(a: int, xs: seq<int>)
    ensures Least(a, xs) <= a && forall k :: 0 <= k < |xs| ==> Least(a, xs) <= xs[k]
    ensures Least(a, xs) == a || exists k :: 0 <= k < |xs| && Least(a, xs) == xs[k]
    decreases |xs|
  {
    if |xs| > 0 {
      var p := xs[..|xs| - 1];
      LeastIsMinimum(a, p);
      assert forall k :: 0 <= k < |p| ==> p[k] == xs[k];
    }
  }

  /** `Greatest(a, xs)` is the maximum of `a` and the elements of `xs`. */
  lemma {:induction false} GreatestIsMaximum(a: int, xs: seq<int>)
    ensures Greatest(a, xs) >= a && forall k :: 0 <= k < |xs| ==> Greatest(a, xs) >= xs[k]
    ensures Greatest(a, xs) == a || exists k :: 0 <= k < |xs| && Greatest(a, xs) == xs[k]
    decreases |xs|
  {
    if |xs| > 0 {
      var p := xs[..|xs| - 1];
      GreatestIsMaximum(a, p);
      assert forall k :: 0 <= k < |p| ==> p[k] == xs[k];
    }
  }

  /** The state after the first `t` runs of `times`. */
  predicate Summarises(s: Timing, times: seq<int>, t: nat)
    requires t <= |times|
  {
    var ms := times[..t];
    s.runs == t && s.measures == ms && s.totalTime == Sum(ms)
    && s.min == Least(IntMax, ms) && s.max == Greatest(0, ms)
  }

  lemma RecordSummarises(s: Timing, times: seq<int>, t: nat)
    requires t < |times| && Summarises(s, times, t)
    ensures Summarises(Record(s, times[t]), times, t + 1)
  {
    assert times[..t + 1][..t] == times[..t];
    assert times[..t + 1] == times[..t] + [times[t]];
  }

  /**
   * The state `r` the loop ends in when it started at iteration `t`: it
   * summarises the runs done, which are at most `limitRuns`; the loop
   * stopped before `limitRuns` only after three runs and a total above
   * `limitTime`, and it did not stop at any earlier count of three or more
   * runs.
   */
  predicate EndsAfter(r: Timing, times: seq<int>, t: nat, limitRuns: nat, limitTime: int)
    requires limitRuns <= |times|
  {
    && t <= r.runs <= limitRuns && Summarises(r, times, r.runs)
    && (r.runs < limitRuns ==> r.runs >= 3 && Sum(times[..r.runs]) > limitTime)
    && (forall j :: t < j < r.runs && j >= 3 ==> Sum(times[..j]) <= limitTime)
  }

  /** The loop from iteration `t` on ends as `EndsAfter` describes. */
  lemma {:induction false} TimedFromShape(s: Timing, times: seq<int>, t: nat, limitRuns: nat, limitTime: int)
    requires t <= limitRuns <= |times| && Summarises(s, times, t)
    ensures EndsAfter(TimedFrom(s, times, t, limitRuns, limitTime), times, t, limitRuns, limitTime)
    decreases limitRuns - t
  {
    if t == limitRuns {
      assert TimedFrom(s, times, t, limitRuns, limitTime) == s;
    } else {
      RecordSummarises(s, times, t);
      var s' := Record(s, times[t]);
      assert s'.runs == t + 1 && s'.totalTime == Sum(times[..t + 1]);
      if s'.totalTime > limitTime && t >= 2 {
        assert TimedFrom(s, times, t, limitRuns, limitTime) == s';
      } else {
        TimedFromShape(s', times, t + 1, limitRuns, limitTime);
        var r := TimedFrom(s', times, t + 1, limitRuns, limitTime);
        assert TimedFrom(s, times, t, limitRuns, limitTime) == r;
        assert t + 1 >= 3 ==> Sum(times[..t + 1]) <= limitTime;
      }
    }
  }

  /**
   * After the loop: `runs` is the number of measures, which are the first
   * run times; `totalTime` is their sum, `min` and `max` the smallest and
   * largest of them bounded by `Integer.MAX_VALUE` and `0`; the loop ran at
   * least once and at most `limitRuns` times, and stopped early only when
   * the total went above `limitTime` after three runs or more.
   */
  lemma TimedShape(times: seq<int>, limitRuns: nat, limitTime: int)
    requires limitRuns <= |times|
    ensures var r := Timed(times, limitRuns, limitTime);
      && r.runs == |r.measures| <= limitRuns && r.measures == times[..r.runs]
      && r.totalTime == Sum(r.measures)
      && r.min == Least(IntMax, r.measures) && r.max == Greatest(0, r.measures)
      && (limitRuns >= 1 ==> r.runs >= 1)
      && (r.runs < limitRuns ==> r.runs >= 3 && r.totalTime > limitTime)
      && (forall j :: 3 <= j < r.runs ==> Sum(times[..j]) <= limitTime)
  {
    TimedFromShape(Start, times, 0, limitRuns, limitTime);
  }

  /** The query loop leaves at least three measures, so `median` as written has a valid index. */
  lemma QueryMedianDefined(times: seq<int>)
    requires MaxRuns <= |times|
    ensures Timed(times, MaxRuns, MaxTime).runs >= 3
    ensures MedianAsWritten(Timed(times, MaxRuns, MaxTime).measures).Some?
  {
    TimedShape(times, MaxRuns, MaxTime);
  }

  /** The query loop of `query` for one query, with the clock giving `times`. */
  method TimeQuery(times: seq<int>) returns (runs: nat, totalTime: int, min: int, max: int, measures: seq<int>)
    requires MaxRuns <= |times|
    ensures Timing(runs, totalTime, min, max, measures) == Timed(times, MaxRuns, MaxTime)
  {
    runs := 0;
    totalTime := 0;
    min := IntMax;
    max := 0;
    measures := [];
    var t := 0;
    ghost var goal := Timed(times, MaxRuns, MaxTime);
    while t < MaxRuns
      invariant 0 <= t <= MaxRuns
      invariant TimedFrom(Timing(runs, totalTime, min, max, measures), times, t, MaxRuns, MaxTime) == goal
    {
      ghost var s := Timing(runs, totalTime, min, max, measures);
      var time := times[t];
      TimedStep(s, times, t, MaxRuns, MaxTime);
      runs := runs + 1;
      if time < min { min := time; }
      if time > max { max := time; }
      measures := measures + [time];
      totalTime := totalTime + time;
      assert Timing(runs, totalTime, min, max, measures) == Record(s, time);
      if totalTime > MaxTime && t >= 2 {
        break;
      }
      t := t + 1;
    }
  }

  /** Java's `long` division, which truncates toward zero. */
  function JavaDiv(a: int, b: int): int
    requires b > 0
  {
    if a >= 0 then a / b else -((-a) / b)
  }

  lemma MulLe(x: int, y: int, n: int)
    requires x <= y && n >= 0
    ensures x * n <= y * n
  {
    assert y * n - x * n == (y - x) * n;
  }

  /** Floor division of `a >= 0` by `n` stays within bounds `a` is `n` times within. */
  lemma FloorBetween(a: int, n: int, lo: int, hi: int)
    requires a >= 0 && n > 0 && n * lo <= a <= n * hi
    ensures lo <= a / n <= hi
  {
    var q := a / n;
    var r := a % n;
    assert a == q * n + r && 0 <= r < n;
    assert (q + 1) * n == q * n + n;
    assert (hi + 1) * n == hi * n + n;
    if q < lo {
      MulLe(q + 1, lo, n);
    }
    if q > hi {
      MulLe(hi + 1, q, n);
    }
  }

  lemma DivBetween(a: int, n: int, lo: int, hi: int)
    requires n > 0 && n * lo <= a <= n * hi
    ensures lo <= JavaDiv(a, n) <= hi
  {
    if a >= 0 {
      FloorBetween(a, n, lo, hi);
    } else {
      assert n * -hi == -(n * hi) && n * -lo == -(n * lo);
      FloorBetween(-a, n, -hi, -lo);
    }
  }

  lemma {:induction false} SumBetween(xs: seq<int>, lo: int, hi: int)
    requires forall k :: 0 <= k < |xs| ==> lo <= xs[k] <= hi
    ensures |xs| * lo <= Sum(xs) <= |xs| * hi
    decreases |xs|
  {
    if |xs| > 0 {
      var p := xs[..|xs| - 1];
      assert forall k :: 0 <= k < |p| ==> p[k] == xs[k];
      SumBetween(p, lo, hi);
      assert |xs| * lo == |p| * lo + lo && |xs| * hi == |p| * hi + hi;
    }
  }

  /** The XSLT loop of `transform` for one stylesheet, with the clock giving `times`. */
  method TimeTransform(times: seq<int>) returns (runs: nat, totalTime: int, min: int, max: int, avg: int)
    requires XsltRuns <= |times|
    ensures var r := Timed(times, XsltRuns, XsltTime);
      runs == r.runs && totalTime == r.totalTime && min == r.min && max == r.max
    ensures runs >= 1 && avg == JavaDiv(totalTime, runs)
  {
    runs := 0;
    totalTime := 0;
    min := IntMax;
    max := 0;
    ghost var measures: seq<int> := [];
    var t := 0;
    ghost var goal := Timed(times, XsltRuns, XsltTime);
    while t < 10
      invariant 0 <= t <= 10
      invariant TimedFrom(Timing(runs, totalTime, min, max, measures), times, t, XsltRuns, XsltTime) == goal
      invariant t > 0 ==> runs >= 1
    {
      ghost var s := Timing(runs, totalTime, min, max, measures);
      var time := times[t];
      TimedStep(s, times, t, XsltRuns, XsltTime);
      runs := runs + 1;
      if time < min { min := time; }
      if time > max { max := time; }
      measures := measures + [time];
      totalTime := totalTime + time;
      assert Timing(runs, totalTime, min, max, measures) == Record(s, time);
      if totalTime > 1000 && t >= 2 {
        break;
      }
      t := t + 1;
    }
    assert Timing(runs, totalTime, min, max, measures) == goal;
    avg := JavaDiv(totalTime, runs);
  }

  /** The printed `avg` lies between the printed `min` and `max`. */
  lemma TransformAverage(times: seq<int>)
    requires XsltRuns <= |times|
    ensures var r := Timed(times, XsltRuns, XsltTime);
      r.runs >= 1 && r.min <= JavaDiv(r.totalTime, r.runs) <= r.max
  {
    var r := Timed(times, XsltRuns, XsltTime);
    TimedShape(times, XsltRuns, XsltTime);
    LeastIsMinimum(IntMax, r.measures);
    GreatestIsMaximum(0, r.measures);
    SumBetween(r.measures, r.min, r.max);
    DivBetween(r.totalTime, r.runs, r.min, r.max);
  }

  // ---------------------------------------------------------------------------
  // Which models and queries `query` runs
  // ---------------------------------------------------------------------------

  datatype TreeModel = TinyTree | TinyTreeCondensed | LinkedTree | DomModel | Jdom2Model
    | Dom4jModel | XomModel | AxiomModel | DominoModel

  /** The static `models` array, in order. */
  const Models: seq<TreeModel> := [TinyTree, TinyTreeCondensed, LinkedTree, DomModel, Jdom2Model,
    Dom4jModel, XomModel, AxiomModel, DominoModel]

  /**
   * The models of `ms` the outer loop does not skip: all of them when no
   * `-tree` was given, otherwise those with the chosen model's name (each
   * model has its own name).
   */
  function SelectedModels(ms: seq<TreeModel>, treeModel: Option<TreeModel>): (r: seq<TreeModel>)
    decreases |ms|
  {
    if |ms| == 0 then []
    else (if treeModel.Some? && treeModel.value != ms[0] then [] else [ms[0]]) + SelectedModels(ms[1..], treeModel)
  }

  /** Without `-tree` every model is used in order; with one, that model alone. */
  lemma {:induction false} SelectedModelsCases(ms: seq<TreeModel>, treeModel: Option<TreeModel>)
    requires forall i, j :: 0 <= i < j < |ms| ==> ms[i] != ms[j]
    ensures treeModel.None? ==> SelectedModels(ms, treeModel) == ms
    ensures treeModel.Some? && treeModel.value in ms ==> SelectedModels(ms, treeModel) == [treeModel.value]
    ensures treeModel.Some? && treeModel.value !in ms ==> SelectedModels(ms, treeModel) == []
    decreases |ms|
  {
    if |ms| > 0 {
      SelectedModelsCases(ms[1..], treeModel);
      assert ms == [ms[0]] + ms[1..];
    }
  }

  /** The index of each model in `models`. */
  function Position(m: TreeModel): nat {
    match m
    case TinyTree => 0
    case TinyTreeCondensed => 1
    case LinkedTree => 2
    case DomModel => 3
    case Jdom2Model => 4
    case Dom4jModel => 5
    case XomModel => 6
    case AxiomModel => 7
    case DominoModel => 8
  }

  /** `models` lists every model once. */
  lemma ModelsListed(m: TreeModel)
    ensures m in Models && forall i, j :: 0 <= i < j < |Models| ==> Models[i] != Models[j]
  {
    assert forall i :: 0 <= i < |Models| ==> Position(Models[i]) == i;
    assert Models[Position(m)] == m;
  }

  /** Every `-tree` choice runs exactly its own model. */
  lemma ModelsDistinct(m: TreeModel)
    ensures SelectedModels(Models, None) == Models && SelectedModels(Models, Some(m)) == [m]
  {
    ModelsListed(m);
    SelectedModelsCases(Models, None);
    SelectedModelsCases(Models, Some(m));
  }

  /** The queries among `q..20` that the inner loop does not skip for the `-q` value `test`. */
  function QueriesFrom(test: int, q: int): (r: seq<int>)
    decreases 21 - q
  {
    if q > 20 then [] else (if test != -1 && test != q then [] else [q]) + QueriesFrom(test, q + 1)
  }

  /** From `q` on, all remaining queries without `-q`, query `test` alone when it is still to come, else none. */
  lemma {:induction false} QueriesFromCases(test: int, q: int)
    requires 1 <= q
    ensures test == -1 ==>
      (|QueriesFrom(test, q)| == (if q > 20 then 0 else 21 - q) &&
       forall k :: 0 <= k < |QueriesFrom(test, q)| ==> QueriesFrom(test, q)[k] == q + k)
    ensures test != -1 ==> QueriesFrom(test, q) == (if q <= test <= 20 then [test] else [])
    decreases 21 - q
  {
    if q <= 20 {
      QueriesFromCases(test, q + 1);
    }
  }

  /** `query` runs queries 1 to 20 in order, or query `N` alone for `-qN` with `N` in range, or none. */
  lemma QueriesRun(test: int)
    ensures test == -1 ==>
      (|QueriesFrom(test, 1)| == 20 &&
       forall k :: 0 <= k < 20 ==> QueriesFrom(test, 1)[k] == k + 1)
    ensures test != -1 ==> QueriesFrom(test, 1) == (if 1 <= test <= 20 then [test] else [])
  {
    QueriesFromCases(test, 1);
  }

  // ---------------------------------------------------------------------------
  // Option parsing in `go`
  // ---------------------------------------------------------------------------

  /** The `-tree` names, compared ignoring case, in the order `go` tries them. */
  function ModelNamed(name: string): (r: Option<TreeModel>)
    ensures r.Some? ==> r.value != TinyTree || EqualsIgnoreCase(name, "tinytree")
  {
    if EqualsIgnoreCase(name, "dom") then Some(DomModel)
    else if EqualsIgnoreCase(name, "jdom2") then Some(Jdom2Model)
    else if EqualsIgnoreCase(name, "dom4j") then Some(Dom4jModel)
    else if EqualsIgnoreCase(name, "xom") then Some(XomModel)
    else if EqualsIgnoreCase(name, "axiom") then Some(AxiomModel)
    else if EqualsIgnoreCase(name, "domino") then Some(DominoModel)
    else if EqualsIgnoreCase(name, "tinytree") then Some(TinyTree)
    else if EqualsIgnoreCase(name, "condensed") then Some(TinyTreeCondensed)
    else if EqualsIgnoreCase(name, "linked") then Some(LinkedTree)
    else None
  }

  /** The static fields `go` sets (the instance field `treeModel` among them). */
  datatype Options = Options(pull: bool, lazy: bool, saproduct: bool, satests: bool, xslt: bool,
    generateByteCode: Option<string>, checkResults: bool, val: bool, test: int,
    tests: seq<string>, treeModel: Option<TreeModel>)

  /** The local `dir` and the fields, as the argument loop goes. */
  datatype Parse = Parse(dir: Option<string>, options: Options)

  /** The switches `-pull`, `-lazy`, `-sa`, `-satests` and `-xslt`, tested in that order. */
  function FirstSwitches(o: Options, arg: string): (r: Options)
    ensures r == o.(pull := r.pull, lazy := r.lazy, saproduct := r.saproduct, satests := r.satests, xslt := r.xslt)
    ensures o.xslt ==> r.xslt
    ensures (|arg| == 0 || arg[0] != '-') ==> r == o
  {
    var o1 := if arg == "-pull" then o.(pull := true) else o;
    var o2 := if arg == "-lazy" then o1.(lazy := true) else o1;
    var o3 := if arg == "-sa" then o2.(saproduct := true) else o2;
    var o4 := if arg == "-satests" then o3.(satests := true) else o3;
    if arg == "-xslt" then o4.(xslt := true) else o4
  }

  /**
   * `-runcomp` and `-runcomp:X`; `None` when the second part of
   * `split(":")` is missing and Java throws.
   */
  function ByteCode(o: Options, arg: string): (r: Option<Options>)
    ensures r.Some? ==> r.value == o.(generateByteCode := r.value.generateByteCode)
    ensures (|arg| == 0 || arg[0] != '-') ==> r == Some(o)
  {
    if !IsPrefix("-runcomp", arg) then Some(o)
    else if arg == "-runcomp" then Some(o.(generateByteCode := Some("on")))
    else
      var parts := JavaSplit(arg, ':');
      if |parts| < 2 then None else Some(o.(generateByteCode := Some(parts[1])))
  }

  /** The switches `-check` and `-val`. */
  function LaterSwitches(o: Options, arg: string): (r: Options)
    ensures r == o.(checkResults := r.checkResults, val := r.val)
    ensures (|arg| == 0 || arg[0] != '-') ==> r == o
  {
    var o1 := if arg == "-check" then o.(checkResults := true) else o;
    if arg == "-val" then o1.(val := true) else o1
  }

  /** `-qN`; `None` when `N` is not an `int` and `parseInt` throws. */
  function QueryNumber(o: Options, arg: string): (r: Option<Options>)
    ensures r.Some? ==> r.value == o.(test := r.value.test)
    ensures (|arg| == 0 || arg[0] != '-') ==> r == Some(o)
  {
    if !IsPrefix("-q", arg) then Some(o)
    else
      var n := ParseInt(arg[2..]);
      if n.None? then None else Some(o.(test := n.value))
  }

  /** `-size:N`. */
  function SizeFiles(o: Options, arg: string): (r: Options)
    ensures r == o.(tests := r.tests)
    ensures (|arg| == 0 || arg[0] != '-') ==> r == o
  {
    if IsPrefix("-size:", arg) then o.(tests := ["xmark" + arg[6..] + ".xml"]) else o
  }

  /** `-tree…`; `None` when `substring(6)` is out of range or names no model. */
  function Tree(o: Options, arg: string): (r: Option<Options>)
    ensures r.Some? ==> r.value == o.(treeModel := r.value.treeModel)
    ensures (|arg| == 0 || arg[0] != '-') ==> r == Some(o)
  {
    if !IsPrefix("-tree", arg) then Some(o)
    else if |arg| < 6 then None
    else
      var m := ModelNamed(arg[6..]);
      if m.None? then None else Some(o.(treeModel := m))
  }

  /**
   * One argument: the tests of the loop body in order. When one throws,
   * the state reached so far is returned with `false`.
   */
  function ApplyArg(p: Parse, arg: string): (Parse, bool) {
    var dir := if IsPrefix("-dir:", arg) then Some(arg[5..]) else p.dir;
    var o5 := FirstSwitches(p.options, arg);
    match ByteCode(o5, arg)
    case None => (Parse(dir, o5), false)
    case Some(o6) =>
      var o8 := LaterSwitches(o6, arg);
      match QueryNumber(o8, arg)
      case None => (Parse(dir, o8), false)
      case Some(o9) =>
        var o10 := SizeFiles(o9, arg);
        match Tree(o10, arg)
        case None => (Parse(dir, o10), false)
        case Some(o11) => (Parse(dir, o11), true)
  }

  /** An argument whose second character is not that of `name` is neither `name` nor starts with it. */
  lemma OtherName(arg: string, name: string, i: nat)
    requires i < |name| && i < |arg| && arg[i] != name[i]
    ensures arg != name && !IsPrefix(name, arg)
  {
    assert |name| <= |arg| ==> arg[..|name|][i] == arg[i];
  }

  /** Only the names sharing the second character of `arg`, `c`, need a closer look. */
  lemma OtherOptions(arg: string)
    requires 2 <= |arg|
    ensures arg[1] != 'p' ==> arg != "-pull"
    ensures arg[1] != 'l' ==> arg != "-lazy"
    ensures arg[1] != 's' ==> arg != "-sa" && arg != "-satests" && !IsPrefix("-size:", arg)
    ensures arg[1] != 'x' ==> arg != "-xslt"
    ensures arg[1] != 'r' ==> !IsPrefix("-runcomp", arg)
    ensures arg[1] != 'c' ==> arg != "-check"
    ensures arg[1] != 'v' ==> arg != "-val"
    ensures arg[1] != 'q' ==> !IsPrefix("-q", arg)
    ensures arg[1] != 't' ==> !IsPrefix("-tree", arg)
    ensures arg[1] != 'd' ==> !IsPrefix("-dir:", arg)
  {
    if arg[1] != 'p' { OtherName(arg, "-pull", 1); }
    if arg[1] != 'l' { OtherName(arg, "-lazy", 1); }
    if arg[1] != 's' { OtherName(arg, "-sa", 1); OtherName(arg, "-satests", 1); OtherName(arg, "-size:", 1); }
    if arg[1] != 'x' { OtherName(arg, "-xslt", 1); }
    if arg[1] != 'r' { OtherName(arg, "-runcomp", 1); }
    if arg[1] != 'c' { OtherName(arg, "-check", 1); }
    if arg[1] != 'v' { OtherName(arg, "-val", 1); }
    if arg[1] != 'q' { OtherName(arg, "-q", 1); }
    if arg[1] != 't' { OtherName(arg, "-tree", 1); }
    if arg[1] != 'd' { OtherName(arg, "-dir:", 1); }
  }

  /** The argument loop: the state after the arguments processed, and whether none threw. */
  function ApplyArgs(p: Parse, argv: seq<string>): (Parse, bool)
    decreases |argv|
  {
    if |argv| == 0 then (p, true)
    else
      var (p', ok) := ApplyArg(p, argv[0]);
      if !ok then (p', false) else ApplyArgs(p', argv[1..])
  }

  /** The loop at argument `i`. */
  lemma ApplyArgsStep(p: Parse, argv: seq<string>, i: nat)
    requires i < |argv|
    ensures ApplyArgs(p, argv[i..])
      == if ApplyArg(p, argv[i]).1 then ApplyArgs(ApplyArg(p, argv[i]).0, argv[i + 1..]) else ApplyArg(p, argv[i])
  {
    assert argv[i..][0] == argv[i] && argv[i..][1..] == argv[i + 1..];
  }

  /** Processing `a + b` is processing `a`, then `b` when `a` did not throw. */
  lemma {:induction false} ApplyArgsAppend(p: Parse, a: seq<string>, b: seq<string>)
    ensures ApplyArgs(p, a + b) == if ApplyArgs(p, a).1 then ApplyArgs(ApplyArgs(p, a).0, b) else ApplyArgs(p, a)
    decreases |a|
  {
    if |a| == 0 {
      assert a + b == b;
    } else {
      assert (a + b)[0] == a[0] && (a + b)[1..] == a[1..] + b;
      var (p', ok) := ApplyArg(p, a[0]);
      if ok {
        ApplyArgsAppend(p', a[1..], b);
      }
    }
  }

  /** An argument not starting with `-` changes nothing. */
  lemma IgnoredArgument(p: Parse, arg: string)
    requires |arg| == 0 || arg[0] != '-'
    ensures ApplyArg(p, arg) == (p, true)
  {
  }

  /** An argument starting with `-r` reaches only the `-runcomp` test. */
  lemma ByteCodeOnly(p: Parse, arg: string)
    requires 2 <= |arg| && arg[0] == '-' && arg[1] == 'r'
    ensures ApplyArg(p, arg).1 == ByteCode(p.options, arg).Some?
    ensures ApplyArg(p, arg).0
      == Parse(p.dir, if ByteCode(p.options, arg).Some? then ByteCode(p.options, arg).value else p.options)
  {
    OtherOptions(arg);
    assert FirstSwitches(p.options, arg) == p.options;
    match ByteCode(p.options, arg)
    case None =>
    case Some(o6) =>
      assert LaterSwitches(o6, arg) == o6;
      assert QueryNumber(o6, arg) == Some(o6);
      assert SizeFiles(o6, arg) == o6;
      assert Tree(o6, arg) == Some(o6);
  }

  /** `split(":")` of `-runcomp:X`, for `X` non-empty and without `:`. */
  lemma SplitRunComp(x: string)
    requires ':' !in x && x != ""
    ensures JavaSplit("-runcomp:" + x, ':') == ["-runcomp", x]
  {
    var a := "-runcomp:" + x;
    assert a[..8] == "-runcomp" && a[8] == ':' && a[9..] == x;
    IndexOfCharAt(a, ':', 8);
    assert Fields(x, ':') == [x];
    assert Fields(a, ':') == [a[..8]] + Fields(a[9..], ':');
  }

  /** `-runcomp` alone. */
  lemma RunCompOn(p: Parse)
    ensures ApplyArg(p, "-runcomp") == (Parse(p.dir, p.options.(generateByteCode := Some("on"))), true)
  {
    ByteCodeOnly(p, "-runcomp");
    assert IsPrefix("-runcomp", "-runcomp");
  }

  /** `-runcomp:X`. */
  lemma RunCompValue(p: Parse, x: string)
    requires ':' !in x && x != ""
    ensures ApplyArg(p, "-runcomp:" + x) == (Parse(p.dir, p.options.(generateByteCode := Some(x))), true)
  {
    var a := "-runcomp:" + x;
    assert a[..8] == "-runcomp" && a[1] == 'r';
    ByteCodeOnly(p, a);
    SplitRunComp(x);
    assert ByteCode(p.options, a) == Some(p.options.(generateByteCode := Some(x)));
  }

  /** `-runcomp` and a value without the `:`. */
  lemma RunCompJoined(p: Parse, x: string)
    requires ':' !in x && x != ""
    ensures !ApplyArg(p, "-runcomp" + x).1
  {
    var b := "-runcomp" + x;
    assert b[..8] == "-runcomp" && b[1] == 'r';
    forall k | 0 <= k < |b|
      ensures b[k] != ':'
    {
      if k >= 8 { assert b[k] == x[k - 8]; }
    }
    assert JavaSplit(b, ':') == [b];
    ByteCodeOnly(p, b);
  }

  /**
   * `-runcomp` turns byte code generation `on`; `-runcomp:X` sets it to
   * `X`; `-runcomp` followed by anything without a `:` throws.
   */
  lemma RunCompOption(p: Parse, x: string)
    ensures ApplyArg(p, "-runcomp") == (Parse(p.dir, p.options.(generateByteCode := Some("on"))), true)
    ensures ':' !in x && x != "" ==>
      ApplyArg(p, "-runcomp:" + x) == (Parse(p.dir, p.options.(generateByteCode := Some(x))), true)
    ensures ':' !in x && x != "" ==> !ApplyArg(p, "-runcomp" + x).1
  {
    RunCompOn(p);
    if ':' !in x && x != "" {
      RunCompValue(p, x);
      RunCompJoined(p, x);
    }
  }

  /** `-dir:D` sets the directory to `D`. */
  lemma DirOption(p: Parse, d: string)
    ensures ApplyArg(p, "-dir:" + d) == (Parse(Some(d), p.options), true)
  {
    var a := "-dir:" + d;
    assert a[..5] == "-dir:" && a[5..] == d;
    assert a[1] == 'd';
    OtherOptions(a);
  }

  /** `-size:N` replaces the files with `xmarkN.xml` alone. */
  lemma SizeOption(p: Parse, n: string)
    ensures ApplyArg(p, "-size:" + n) == (Parse(p.dir, p.options.(tests := ["xmark" + n + ".xml"])), true)
  {
    var a := "-size:" + n;
    assert a[..6] == "-size:" && a[6..] == n;
    assert a[1] == 's' && a[2] == 'i';
    OtherOptions(a);
    OtherName(a, "-sa", 2);
    OtherName(a, "-satests", 2);
  }

  /** `-qN` selects query `N`; when `N` is not an `int` it throws. */
  lemma QueryOption(p: Parse, d: string)
    ensures ApplyArg(p, "-q" + d) == match ParseInt(d)
      case None => (p, false)
      case Some(v) => (Parse(p.dir, p.options.(test := v)), true)
  {
    var a := "-q" + d;
    assert a[..2] == "-q" && a[2..] == d;
    assert a[1] == 'q';
    OtherOptions(a);
  }

  /**
   * `-tree` followed by any character and a name selects the model of that
   * name; `-tree` alone, or a name of no model, throws.
   */
  lemma TreeOption(p: Parse, rest: string)
    ensures |rest| == 0 ==> ApplyArg(p, "-tree" + rest) == (p, false)
    ensures |rest| > 0 ==> ApplyArg(p, "-tree" + rest) == match ModelNamed(rest[1..])
      case None => (p, false)
      case Some(m) => (Parse(p.dir, p.options.(treeModel := Some(m))), true)
  {
    var a := "-tree" + rest;
    assert a[..5] == "-tree";
    assert a[1] == 't';
    OtherOptions(a);
    if |rest| > 0 {
      assert a[6..] == rest[1..];
    }
  }

  /** The lower-case spelling of each model's `-tree` name. */
  function ModelName(m: TreeModel): string {
    match m
    case DomModel => "dom"
    case Jdom2Model => "jdom2"
    case Dom4jModel => "dom4j"
    case XomModel => "xom"
    case AxiomModel => "axiom"
    case DominoModel => "domino"
    case TinyTree => "tinytree"
    case TinyTreeCondensed => "condensed"
    case LinkedTree => "linked"
  }

  lemma LowerOfLower(s: string)
    requires forall k :: 0 <= k < |s| ==> !('A' <= s[k] <= 'Z')
    ensures Lower(s) == s
  {
  }

  /** The nine names are already in lower case. */
  lemma ModelNamesLower()
    ensures Lower("dom") == "dom" && Lower("jdom2") == "jdom2" && Lower("dom4j") == "dom4j"
    ensures Lower("xom") == "xom" && Lower("axiom") == "axiom" && Lower("domino") == "domino"
    ensures Lower("tinytree") == "tinytree" && Lower("condensed") == "condensed" && Lower("linked") == "linked"
  {
    LowerOfLower("dom");
    LowerOfLower("jdom2");
    LowerOfLower("dom4j");
    LowerOfLower("xom");
    LowerOfLower("axiom");
    LowerOfLower("domino");
    LowerOfLower("tinytree");
    LowerOfLower("condensed");
    LowerOfLower("linked");
  }

  /** Lower-casing twice is lower-casing once. */
  lemma LowerTwice(s: string)
    ensures Lower(Lower(s)) == Lower(s)
  {
    assert forall k :: 0 <= k < |s| ==> LowerChar(LowerChar(s[k])) == LowerChar(s[k]);
  }

  /** The choice depends only on the lower-case form of the name. */
  lemma ModelNamedOfLower(name: string)
    ensures ModelNamed(name) == ModelNamed(Lower(name))
  {
    LowerTwice(name);
  }

  /** A name that selects `m` is `m`'s name, ignoring case. */
  lemma ModelNamedIsName(name: string, m: TreeModel)
    requires ModelNamed(name) == Some(m)
    ensures Lower(name) == ModelName(m)
  {
    ModelNamesLower();
  }

  /** Each model's name selects it. */
  lemma ModelNameSelects(m: TreeModel)
    ensures ModelNamed(ModelName(m)) == Some(m)
  {
    ModelNamesLower();
  }

  /** Each model's name selects it, and a name selects a model exactly when its lower-case form is that model's name. */
  lemma ModelNamedExactly(name: string, m: TreeModel)
    ensures ModelNamed(ModelName(m)) == Some(m)
    ensures ModelNamed(name) == Some(m) <==> Lower(name) == ModelName(m)
  {
    ModelNameSelects(m);
    ModelNamedOfLower(name);
    if ModelNamed(name) == Some(m) {
      ModelNamedIsName(name, m);
    }
  }

  // ---------------------------------------------------------------------------
  // `go`
  // ---------------------------------------------------------------------------

  /** The initial values of the fields. */
  const DefaultOptions := Options(false, false, false, false, false, None, false, false, -1,
    ["xmark1.xml", "xmark4.xml", "xmark10.xml"], None)
  const DefaultProgramPath := "//home//ond1//work//development//xmark//"

  /** What `go` runs once the arguments are read. */
  datatype Launch = Transform(lazy: bool, sa: bool, dir: string) | Query(dir: string)

  /** The directory defaults to the program path, with `sa` below it for `-satests`; `-xslt` picks `transform`. */
  function LaunchFor(p: Parse, programPath: string): (r: Launch)
    ensures r.Transform? <==> p.options.xslt
    ensures p.dir.Some? ==> r.dir == p.dir.value
    ensures p.dir.None? ==> IsPrefix(programPath, r.dir)
  {
    var dir := if p.dir.Some? then p.dir.value
      else if p.options.satests then programPath + "//sa//" else programPath + "//";
    if p.options.xslt then Transform(p.options.lazy, p.options.saproduct, dir) else Query(dir)
  }

  /** `-xslt` chooses `transform`. */
  lemma XsltOption(p: Parse)
    ensures ApplyArg(p, "-xslt") == (Parse(p.dir, p.options.(xslt := true)), true)
  {
    OtherOptions("-xslt");
  }

  /** No argument switches `-xslt` off. */
  lemma XsltKept(p: Parse, arg: string)
    requires p.options.xslt
    ensures ApplyArg(p, arg).0.options.xslt
  {
    var o5 := FirstSwitches(p.options, arg);
    assert o5.xslt;
    match ByteCode(o5, arg)
    case None =>
    case Some(o6) =>
      assert o6.xslt;
      var o8 := LaterSwitches(o6, arg);
      match QueryNumber(o8, arg)
      case None =>
      case Some(o9) =>
        assert o9.xslt;
        var o10 := SizeFiles(o9, arg);
        match Tree(o10, arg)
        case None =>
        case Some(o11) =>
          assert o11.xslt;
  }

  /** Flags are only ever switched on: once `-xslt` has been read, `transform` is what runs. */
  lemma {:induction false} XsltSticks(p: Parse, argv: seq<string>)
    requires p.options.xslt
    ensures ApplyArgs(p, argv).0.options.xslt
    decreases |argv|
  {
    if |argv| > 0 {
      var (p', ok) := ApplyArg(p, argv[0]);
      XsltKept(p, argv[0]);
      if ok {
        XsltSticks(p', argv[1..]);
      }
    }
  }

  /** A run whose arguments include `-xslt` and do not throw launches `transform`. */
  lemma {:induction false} XsltChosen(p: Parse, argv: seq<string>, programPath: string)
    requires "-xslt" in argv && ApplyArgs(p, argv).1
    ensures LaunchFor(ApplyArgs(p, argv).0, programPath).Transform?
    decreases |argv|
  {
    var (p', ok) := ApplyArg(p, argv[0]);
    if argv[0] == "-xslt" {
      XsltOption(p);
      XsltSticks(p', argv[1..]);
    } else {
      assert argv == [argv[0]] + argv[1..];
      XsltChosen(p', argv[1..], programPath);
    }
  }

  /** The benchmark's settings: the static fields of XMarkBenchmark and its `treeModel`. */
  class Benchmark {
    var pull: bool
    var lazy: bool
    var saproduct: bool
    var satests: bool
    var xslt: bool
    var generateByteCode: Option<string>
    var checkResults: bool
    var val: bool
    var test: int
    var tests: seq<string>
    var treeModel: Option<TreeModel>
    var programPath: string

    function State(): Options
      reads this
    {
      Options(pull, lazy, saproduct, satests, xslt, generateByteCode, checkResults, val, test, tests, treeModel)
    }

    constructor()
      ensures State() == DefaultOptions && programPath == DefaultProgramPath
    {
      pull, lazy, saproduct, satests, xslt := false, false, false, false, false;
      generateByteCode, checkResults, val, test := None, false, false, -1;
      tests := ["xmark1.xml", "xmark4.xml", "xmark10.xml"];
      treeModel := None;
      programPath := DefaultProgramPath;
    }

    /** `setProgramPath`. */
    method SetProgramPath(path: string)
      modifies this
      ensures programPath == path && State() == old(State())
    {
      programPath := path;
    }

    /** `-pull`, `-lazy`, `-sa`, `-satests`, `-xslt`. */
    method SetFirstSwitches(arg: string)
      modifies this
      ensures State() == FirstSwitches(old(State()), arg) && programPath == old(programPath)
    {
      if arg == "-pull" {
        pull := true;
      }
      if arg == "-lazy" {
        lazy := true;
      }
      if arg == "-sa" {
        saproduct := true;
      }
      if arg == "-satests" {
        satests := true;
      }
      if arg == "-xslt" {
        xslt := true;
      }
    }

    /** `-runcomp…`; `false` when Java throws. */
    method SetByteCode(arg: string) returns (ok: bool)
      modifies this
      ensures ok == ByteCode(old(State()), arg).Some?
      ensures State() == (if ok then ByteCode(old(State()), arg).value else old(State()))
      ensures programPath == old(programPath)
    {
      if IsPrefix("-runcomp", arg) {
        if arg == "-runcomp" {
          generateByteCode := Some("on");
        } else {
          var parts := JavaSplit(arg, ':');
          if |parts| < 2 {
            return false;
          }
          generateByteCode := Some(parts[1]);
        }
      }
      ok := true;
    }

    /** `-check`, `-val`. */
    method SetLaterSwitches(arg: string)
      modifies this
      ensures State() == LaterSwitches(old(State()), arg) && programPath == old(programPath)
    {
      if arg == "-check" {
        checkResults := true;
      }
      if arg == "-val" {
        val := true;
      }
    }

    /** `-qN`; `false` when Java throws. */
    method SetQuery(arg: string) returns (ok: bool)
      modifies this
      ensures ok == QueryNumber(old(State()), arg).Some?
      ensures State() == (if ok then QueryNumber(old(State()), arg).value else old(State()))
      ensures programPath == old(programPath)
    {
      if IsPrefix("-q", arg) {
        var n := ParseInt(arg[2..]);
        if n.None? {
          return false;
        }
        test := n.value;
      }
      ok := true;
    }

    /** `-size:N`. */
    method SetSize(arg: string)
      modifies this
      ensures State() == SizeFiles(old(State()), arg) && programPath == old(programPath)
    {
      if IsPrefix("-size:", arg) {
        tests := ["xmark" + arg[6..] + ".xml"];
      }
    }

    /** `-tree…`; `false` when Java throws. */
    method SetTree(arg: string) returns (ok: bool)
      modifies this
      ensures ok == Tree(old(State()), arg).Some?
      ensures State() == (if ok then Tree(old(State()), arg).value else old(State()))
      ensures programPath == old(programPath)
    {
      if IsPrefix("-tree", arg) {
        if |arg| < 6 {
          return false;
        }
        var model := ModelNamed(arg[6..]);
        if model.None? {
          return false;
        }
        treeModel := model;
      }
      ok := true;
    }

    /** The body of the argument loop for `arg`, with the local `dir`; `false` when it throws. */
    method Argument(arg: string, dir: Option<string>) returns (dir': Option<string>, ok: bool)
      modifies this
      ensures (Parse(dir', State()), ok) == ApplyArg(Parse(dir, old(State())), arg)
      ensures programPath == old(programPath)
    {
      dir' := dir;
      if IsPrefix("-dir:", arg) {
        dir' := Some(arg[5..]);
      }
      SetFirstSwitches(arg);
      ok := SetByteCode(arg);
      if !ok {
        return;
      }
      SetLaterSwitches(arg);
      ok := SetQuery(arg);
      if !ok {
        return;
      }
      SetSize(arg);
      ok := SetTree(arg);
    }

    /**
     * `go`: reads the arguments in order, then launches `transform` or
     * `query`; `None` when an argument throws, the fields keeping what was
     * set before.
     */
    method Go(argv: seq<string>) returns (launch: Option<Launch>)
      modifies this
      ensures var (p, ok) := ApplyArgs(Parse(None, old(State())), argv);
        && State() == p.options && programPath == old(programPath)
        && launch == (if ok then Some(LaunchFor(p, programPath)) else None)
    {
      ghost var goal := ApplyArgs(Parse(None, State()), argv);
      var dir: Option<string> := None;
      var i := 0;
      while i < |argv|
        invariant 0 <= i <= |argv|
        invariant ApplyArgs(Parse(dir, State()), argv[i..]) == goal
        invariant programPath == old(programPath)
      {
        ApplyArgsStep(Parse(dir, State()), argv, i);
        var ok;
        dir, ok := Argument(argv[i], dir);
        if !ok {
          return None;
        }
        i := i + 1;
      }
      assert argv[i..] == [];
      if dir.None? {
        dir := Some(if satests then programPath + "//sa//" else programPath + "//");
      }
      if xslt {
        launch := Some(Transform(lazy, saproduct, dir.value));
      } else {
        launch := Some(Query(dir.value));
      }
    }
  }
}
