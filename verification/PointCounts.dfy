/** How many points Range's downsampling gives: at worst, in ordinary operation, and against its documentation. */
module PointCounts {
  import opened Downsampling
  import opened DownsamplingFacts
  import opened Grouping
  import opened HostMetrics
  import opened MetricsHistory
  import opened Sequences

  /** The most points a source spanning `span` milliseconds can give: one per slice the span touches. */
  function WorstCase(span: int, maxPoints: nat): int
    requires maxPoints >= 1
  {
    span / SliceDur(span, maxPoints) + 1
  }

  lemma {:induction false} RunsAtMost(src: seq<Sample>, d: int)
    requires d > 0 && Sorted(src) && src != []
    ensures |Runs(src, Slices(src[0].timestamp, d))| <= (src[|src| - 1].timestamp - src[0].timestamp) / d + 1
  {
    GroupThenAverage(src, d);
  }

  /** Thinned out, a source comes back as one point per run. */
  lemma {:induction false} DownsampleSize(src: seq<Sample>, maxPoints: nat, d: int)
    requires 1 <= maxPoints < |src| && src[|src| - 1].timestamp > src[0].timestamp
    requires d == SliceDur(src[|src| - 1].timestamp - src[0].timestamp, maxPoints)
    ensures |Downsample(src, maxPoints)| == |Runs(src, Slices(src[0].timestamp, d))|
  {
  }

  lemma PointsAtMost(src: seq<Sample>, maxPoints: nat)
    requires maxPoints >= 1 && Sorted(src) && |src| > maxPoints
    ensures var span := src[|src| - 1].timestamp - src[0].timestamp;
      span >= 0 && |Downsample(src, maxPoints)| <= WorstCase(span, maxPoints)
  {
    var span := src[|src| - 1].timestamp - src[0].timestamp;
    assert span >= 0;
    if span > 0 {
      DownsampleSize(src, maxPoints, SliceDur(span, maxPoints));
      RunsAtMost(src, SliceDur(span, maxPoints));
    }
  }

  lemma SliceDurIs(span: int, maxPoints: nat)
    requires maxPoints >= 1 && span >= 0
    ensures span < maxPoints ==> SliceDur(span, maxPoints) == 1
    ensures var d := SliceDur(span, maxPoints);
      span >= maxPoints ==> maxPoints * d <= span < maxPoints * d + maxPoints
  {
    var q := span / maxPoints;
    assert q * maxPoints == maxPoints * q;
    if span < maxPoints {
      DivAtMost(0, span, maxPoints);
    } else {
      DivAtLeast(1, span, maxPoints);
    }
  }

  lemma WorstCaseBounds(span: int, maxPoints: nat)
    requires maxPoints >= 1 && span >= 0
    ensures WorstCase(span, maxPoints) <= 2 * maxPoints
    ensures SliceDur(span, maxPoints) >= maxPoints ==> WorstCase(span, maxPoints) <= maxPoints + 1
    ensures span < maxPoints <==> WorstCase(span, maxPoints) <= maxPoints
  {
    SliceDurIs(span, maxPoints);
    if span >= maxPoints {
      SlicesNeeded(span, maxPoints, SliceDur(span, maxPoints));
    }
  }

  lemma SlicesNeeded(span: int, m: nat, d: int)
    requires m >= 1 && d >= 1 && m * d <= span < m * d + m
    ensures m <= span / d <= 2 * m - 1
    ensures d >= m ==> span / d <= m
  {
    DivAtLeast(m, span, d);
    MulMonotone(1, d, m - 1);
    assert (2 * m - 1) * d == m * d + d * (m - 1);
    DivAtMost(2 * m - 1, span, d);
    if d >= m {
      DivAtMost(m, span, d);
    }
  }

  /** What Range does promise: at most twice the requested points, and one too many once slices are long enough. */
  lemma PointBounds(src: seq<Sample>, maxPoints: nat)
    requires maxPoints >= 1 && Sorted(src)
    ensures |Downsample(src, maxPoints)| <= 2 * maxPoints
    ensures src != [] && src[|src| - 1].timestamp - src[0].timestamp >= maxPoints * maxPoints ==>
              |Downsample(src, maxPoints)| <= maxPoints + 1
  {
    if |src| > maxPoints {
      var span := src[|src| - 1].timestamp - src[0].timestamp;
      assert span >= 0;
      PointsAtMost(src, maxPoints);
      WorstCaseBounds(span, maxPoints);
      if span >= maxPoints * maxPoints {
        DivAtLeast(maxPoints, span, maxPoints);
      }
    }
  }

  // ---------- Regular recordings ----------

  /** Consecutive samples are at most `g` milliseconds apart. */
  ghost predicate GapsAtMost(src: seq<Sample>, g: int) {
    forall i :: 0 < i < |src| ==> src[i].timestamp <= src[i - 1].timestamp + g
  }

  /** Consecutive samples are at least `g` milliseconds apart. */
  ghost predicate GapsAtLeast(src: seq<Sample>, g: int) {
    forall i :: 0 < i < |src| ==> src[i - 1].timestamp + g <= src[i].timestamp
  }

  lemma NextQuotient(x: int, y: int, d: int, j: int, k: int)
    requires d > 0 && x < j * d + d && k * d <= y && y <= x + d
    ensures k <= j + 1
  {
    assert (j + 2) * d == j * d + d + d;
    if j + 2 <= k {
      MulMonotone(j + 2, k, d);
    }
  }

  /** A gap no longer than a slice skips no slice. */
  lemma NextSlice(a: Sample, b: Sample, start: int, d: int)
    requires d > 0 && start <= a.timestamp <= b.timestamp <= a.timestamp + d
    ensures Slices(start, d)(b) <= Slices(start, d)(a) + 1
  {
    SliceBounds(a, start, d);
    SliceBounds(b, start, d);
    NextQuotient(a.timestamp - start, b.timestamp - start, d, Slices(start, d)(a), Slices(start, d)(b));
  }

  lemma SmallSteps(src: seq<Sample>, d: int)
    requires d > 0 && Sorted(src) && src != [] && GapsAtMost(src, d)
    ensures var key := Slices(src[0].timestamp, d);
      forall i :: 0 < i < |src| ==> key(src[i]) <= key(src[i - 1]) + 1
  {
    var start := src[0].timestamp;
    forall i | 0 < i < |src|
      ensures Slices(start, d)(src[i]) <= Slices(start, d)(src[i - 1]) + 1
    {
      assert start <= src[i - 1].timestamp <= src[i].timestamp;
      NextSlice(src[i - 1], src[i], start, d);
    }
  }

  /** A sorted source gives a point for every slice up to its last exactly when none of them is empty. */
  lemma {:induction false} EverySliceIff(src: seq<Sample>, d: int, last: nat)
    requires d > 0 && Sorted(src) && src != []
    requires last == (src[|src| - 1].timestamp - src[0].timestamp) / d
    ensures var key := Slices(src[0].timestamp, d);
      && |Runs(src, key)| <= last + 1
      && (|Runs(src, key)| == last + 1 <==> forall k :: 0 <= k <= last ==> HasKey(src, key, k))
  {
    GroupThenAverage(src, d);
    AllGroupsPresentIff(src, Slices(src[0].timestamp, d), last + 1);
  }

  /** Without a gap longer than a slice no slice of the span is empty. */
  lemma {:induction false} GapFreeRuns(src: seq<Sample>, d: int)
    requires d > 0 && Sorted(src) && src != [] && GapsAtMost(src, d)
    ensures |Runs(src, Slices(src[0].timestamp, d))| == (src[|src| - 1].timestamp - src[0].timestamp) / d + 1
  {
    var start := src[0].timestamp;
    var key := Slices(start, d);
    SliceQuotient(src[0], start, d);
    SliceQuotient(src[|src| - 1], start, d);
    var last := key(src[|src| - 1]);
    SmallSteps(src, d);
    EverySliceIff(src, d, last);
    forall k | 0 <= k <= last
      ensures HasKey(src, key, k)
    {
      SmallStepsMeetEveryKey(src, key, k);
    }
  }

  /** The worst case is what an uninterrupted recording gives. */
  lemma GapFreeAttainsWorstCase(src: seq<Sample>, maxPoints: nat)
    requires maxPoints >= 1 && Sorted(src) && |src| > maxPoints
    requires var span := src[|src| - 1].timestamp - src[0].timestamp;
      span > 0 && GapsAtMost(src, SliceDur(span, maxPoints))
    ensures |Downsample(src, maxPoints)| == WorstCase(src[|src| - 1].timestamp - src[0].timestamp, maxPoints)
  {
    var d := SliceDur(src[|src| - 1].timestamp - src[0].timestamp, maxPoints);
    GapFreeRuns(src, d);
    DownsampleSize(src, maxPoints, d);
  }

  lemma {:induction false} GapsBoundSpan(src: seq<Sample>, g: nat)
    requires src != [] && GapsAtMost(src, g)
    ensures src[|src| - 1].timestamp - src[0].timestamp <= (|src| - 1) * g
  {
    if |src| > 1 {
      GapsBoundSpan(src[..|src| - 1], g);
      assert (|src| - 1) * g == (|src| - 2) * g + g;
    }
  }

  lemma {:induction false} GapsFillSpan(src: seq<Sample>, g: nat)
    requires src != [] && GapsAtLeast(src, g)
    ensures (|src| - 1) * g <= src[|src| - 1].timestamp - src[0].timestamp
  {
    if |src| > 1 {
      GapsFillSpan(src[..|src| - 1], g);
      assert (|src| - 1) * g == (|src| - 2) * g + g;
    }
  }

  /**
   Ordinary operation gives one point too many: samples at most `g` apart, over a span of at least `maxPoints` such gaps
   and `maxPoints` squared milliseconds.
   */
  lemma GapFreeChart(src: seq<Sample>, maxPoints: nat, g: nat)
    requires maxPoints >= 1 && Sorted(src) && src != [] && GapsAtMost(src, g)
    requires var span := src[|src| - 1].timestamp - src[0].timestamp;
      span >= maxPoints * g && span >= maxPoints * maxPoints
    ensures |Downsample(src, maxPoints)| == maxPoints + 1
  {
    var span := src[|src| - 1].timestamp - src[0].timestamp;
    GapsBoundSpan(src, g);
    LongSlices(span, maxPoints, g);
    LongSpanManySamples(|src|, maxPoints, g, span);
    GapFreeAttainsWorstCase(src, maxPoints);
  }

  /** It takes many samples to cover a long span in small gaps. */
  lemma LongSpanManySamples(n: nat, m: nat, g: nat, span: int)
    requires m >= 1 && n >= 1 && span <= (n - 1) * g && span >= m * g && span >= m * m
    ensures n > m
  {
    MulMonotone(1, m, m);
    assert (n - 1) * g == n * g - g;
    if n <= m {
      MulMonotone(n, m, g);
    }
  }

  lemma LongSlices(span: int, m: nat, g: nat)
    requires m >= 1 && span >= m * g && span >= m * m
    ensures span > 0 && SliceDur(span, m) >= g && WorstCase(span, m) == m + 1
  {
    MulMonotone(1, m, m);
    DivAtLeast(m, span, m);
    assert g * m == m * g;
    DivAtLeast(g, span, m);
    SliceDurIs(span, m);
    SlicesNeeded(span, m, SliceDur(span, m));
  }

  /** Samples no closer than `maxPoints` milliseconds come back as at most one point too many. */
  lemma SpacedPoints(src: seq<Sample>, maxPoints: nat, g: nat)
    requires maxPoints >= 1 && Sorted(src) && GapsAtLeast(src, g) && maxPoints <= g
    ensures |Downsample(src, maxPoints)| <= maxPoints + 1
  {
    if |src| > maxPoints {
      GapsFillSpan(src, g);
      MulMonotone(maxPoints, |src| - 1, g);
      MulMonotone(maxPoints, g, maxPoints);
      PointBounds(src, maxPoints);
    }
  }

  /** For such samples the documented bound fails exactly when they are too many and no slice of the span is empty. */
  lemma SpacedBoundIff(src: seq<Sample>, maxPoints: nat, g: nat)
    requires maxPoints >= 1 && Sorted(src) && src != [] && GapsAtLeast(src, g) && maxPoints <= g
    ensures |Downsample(src, maxPoints)| > maxPoints <==>
      && |src| > maxPoints
      && var d := SliceDur(src[|src| - 1].timestamp - src[0].timestamp, maxPoints);
         forall k :: 0 <= k <= maxPoints ==> HasKey(src, Slices(src[0].timestamp, d), k)
  {
    if |src| > maxPoints {
      var span := src[|src| - 1].timestamp - src[0].timestamp;
      GapsFillSpan(src, g);
      MulMonotone(maxPoints, |src| - 1, g);
      MulMonotone(maxPoints, g, maxPoints);
      LongSlices(span, maxPoints, maxPoints);
      DownsampleSize(src, maxPoints, SliceDur(span, maxPoints));
      EverySliceIff(src, SliceDur(span, maxPoints), maxPoints);
    }
  }

  /** The ranges the API offers divide evenly into as many slices as it asks for points, at most 240. */
  lemma LabelSlices(name: string)
    ensures var (dur, n) := ParseHistoryRange(name);
      1 <= n <= 240 && SliceDur(dur / NS_PER_MS, n) * n == dur / NS_PER_MS
  {
  }

  /**
   One point too many is all that can come back of samples that span the square of a label's points in milliseconds,
   less than a minute, however they are spaced within it, and of samples at least that many milliseconds apart.
   */
  lemma LabelPoints(name: string, src: seq<Sample>, n: nat)
    requires Sorted(src) && n == ParseHistoryRange(name).1
    ensures 1 <= n <= 240 && |Downsample(src, n)| <= 2 * n
    ensures src != [] && src[|src| - 1].timestamp - src[0].timestamp >= n * n ==> |Downsample(src, n)| <= n + 1
    ensures GapsAtLeast(src, n) ==> |Downsample(src, n)| <= n + 1
  {
    LabelSlices(name);
    PointBounds(src, n);
    if GapsAtLeast(src, n) {
      SpacedPoints(src, n, n);
    }
  }

  /**
   At the default interval of two seconds, every range of an hour or more does come back with one point too many once
   the source spans as many of its longest gaps as points were asked for.
   */
  lemma DefaultIntervalPoints(name: string, src: seq<Sample>, g: nat)
    requires Sorted(src) && src != [] && ParseHistoryRange(name).0 >= HOUR && g >= 2000 && GapsAtMost(src, g)
    requires src[|src| - 1].timestamp - src[0].timestamp >= ParseHistoryRange(name).1 * g
    ensures |Downsample(src, ParseHistoryRange(name).1)| == ParseHistoryRange(name).1 + 1
  {
    var n := ParseHistoryRange(name).1;
    MulMonotone(n, g, n);
    GapFreeChart(src, n, g);
  }

  // ---------- The documented bound ----------

  /** One sample per millisecond from the epoch to `span`. */
  function Dense(span: nat): (src: seq<Sample>)
    ensures |src| == span + 1 && src[0].timestamp == 0 && src[span].timestamp == span
    ensures Sorted(src) && GapsAtMost(src, 1)
  {
    seq(span + 1, i requires 0 <= i <= span => Sample(i, 0.0, 0.0, 0.0, 0.0, 0.0))
  }

  /** Twice the requested number of points is reached for every request: 2n samples, one per millisecond. */
  lemma TwiceMaxPointsIsTight(maxPoints: nat)
    requires maxPoints >= 1
    ensures |Downsample(Dense(2 * maxPoints - 1), maxPoints)| == 2 * maxPoints
  {
    var span := 2 * maxPoints - 1;
    if span >= 2 || span == 1 {
      DivAtMost(1, span, maxPoints);
      GapFreeAttainsWorstCase(Dense(span), maxPoints);
    }
  }

  /** A sorted source of `n` samples over `span` milliseconds. */
  ghost predicate SpansWith(src: seq<Sample>, n: nat, span: nat) {
    |src| == n && Sorted(src) && src != [] && src[n - 1].timestamp - src[0].timestamp == span
  }

  /**
   `n` samples over `span` milliseconds: the spare ones at the epoch, one at the start of each of the first `m` slices
   of `d`, and one at the end.
   */
  function Staggered(n: nat, span: nat, m: nat, d: nat): (src: seq<Sample>)
    requires 1 <= m < n
    ensures |src| == n && src[0].timestamp == 0 && src[n - 1].timestamp == span
    ensures forall k :: 0 <= k < m ==> src[n - 1 - m + k].timestamp == k * d
    ensures m * d <= span ==> Sorted(src)
  {
    StaggeredSorted(n, span, m, d);
    seq(n, i requires 0 <= i < n => Sample(StaggeredTime(n, span, m, d, i), 0.0, 0.0, 0.0, 0.0, 0.0))
  }

  function StaggeredTime(n: nat, span: nat, m: nat, d: nat, i: nat): nat
    requires 1 <= m < n && i < n
  {
    if i == n - 1 then span else if i < n - 1 - m then 0 else (i - (n - 1 - m)) * d
  }

  lemma StaggeredSorted(n: nat, span: nat, m: nat, d: nat)
    requires 1 <= m < n
    ensures m * d <= span ==>
      forall i, j :: 0 <= i <= j < n ==> StaggeredTime(n, span, m, d, i) <= StaggeredTime(n, span, m, d, j)
  {
    if m * d <= span {
      var base := n - 1 - m;
      forall i, j | 0 <= i <= j < n
        ensures StaggeredTime(n, span, m, d, i) <= StaggeredTime(n, span, m, d, j)
      {
        if base <= i < n - 1 {
          MulMonotone(i - base, if j < n - 1 then j - base else m, d);
        }
      }
    }
  }

  lemma StaggeredKey(n: nat, span: nat, m: nat, d: nat, k: nat)
    requires 1 <= m < n && d >= 1 && k < m
    ensures HasKey(Staggered(n, span, m, d), Slices(0, d), k)
  {
    MulMonotone(0, k, d);
    DivAtLeast(k, k * d, d);
    DivAtMost(k, k * d, d);
    var src := Staggered(n, span, m, d);
    assert src[n - 1 - m + k] in src;
  }

  lemma StaggeredRuns(n: nat, span: nat, m: nat, d: nat) returns (src: seq<Sample>)
    requires 1 <= m < n && d >= 1 && m * d <= span
    ensures SpansWith(src, n, span) && |Runs(src, Slices(src[0].timestamp, d))| > m
  {
    src := Staggered(n, span, m, d);
    forall k | 0 <= k < m
      ensures HasKey(src, Slices(0, d), k)
    {
      StaggeredKey(n, span, m, d, k);
    }
    DivAtLeast(m, span, d);
    SliceQuotient(src[n - 1], 0, d);
    SlicesSorted(src, 0, d);
    KeysAndOneMore(src, Slices(0, d), m);
  }

  lemma StaggeredPoints(n: nat, span: nat, maxPoints: nat) returns (src: seq<Sample>)
    requires 1 <= maxPoints < n && span >= maxPoints
    ensures SpansWith(src, n, span) && |Downsample(src, maxPoints)| > maxPoints
  {
    SliceDurIs(span, maxPoints);
    src := StaggeredRuns(n, span, maxPoints, SliceDur(span, maxPoints));
    DownsampleSize(src, maxPoints, SliceDur(span, maxPoints));
  }

  /**
   The documented bound, at most `maxPoints` buckets, holds of all sorted sources of a given length and span exactly
   when the source is no longer than that, or the span so short that the slice is clamped to one millisecond.
   */
  lemma DocumentedBoundIff(n: nat, span: nat, maxPoints: nat)
    requires maxPoints >= 1
    ensures n <= maxPoints || span < maxPoints <==>
      forall src: seq<Sample> :: SpansWith(src, n, span) ==> |Downsample(src, maxPoints)| <= maxPoints
  {
    WorstCaseBounds(span, maxPoints);
    if n <= maxPoints || span < maxPoints {
      forall src: seq<Sample> | SpansWith(src, n, span)
        ensures |Downsample(src, maxPoints)| <= maxPoints
      {
        if |src| > maxPoints {
          PointsAtMost(src, maxPoints);
        }
      }
    } else {
      var src := StaggeredPoints(n, span, maxPoints);
    }
  }
}
