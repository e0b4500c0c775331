/** What Range's downsampling gives on sorted samples: which points, and how faithful they are. */
module DownsamplingFacts {
  import opened Downsampling
  import opened Grouping
  import opened HostMetrics
  import opened MetricsHistory
  import opened Sequences

  lemma SliceBounds(s: Sample, start: int, d: int)
    requires d > 0 && start <= s.timestamp
    ensures var k := Slices(start, d)(s); 0 <= k && start + k * d <= s.timestamp < start + k * d + d
  {
  }

  lemma SliceQuotient(s: Sample, start: int, d: int)
    requires d > 0 && start <= s.timestamp
    ensures Slices(start, d)(s) == (s.timestamp - start) / d >= 0
  {
  }

  lemma SliceMonotone(a: Sample, b: Sample, start: int, d: int)
    requires d > 0 && start <= a.timestamp <= b.timestamp
    ensures 0 <= Slices(start, d)(a) <= Slices(start, d)(b)
  {
    SliceBounds(a, start, d);
    SliceBounds(b, start, d);
    var j, k := Slices(start, d)(a), Slices(start, d)(b);
    if k < j {
      MulMonotone(k + 1, j, d);
    }
  }

  /** Sorted timestamps have sorted slices. */
  lemma SlicesSorted(src: seq<Sample>, start: int, d: int)
    requires d > 0 && Sorted(src) && (src != [] ==> start <= src[0].timestamp)
    ensures KeySorted(src, Slices(start, d))
  {
    forall i, j | 0 <= i <= j < |src|
      ensures 0 <= Slices(start, d)(src[i]) <= Slices(start, d)(src[j])
    {
      assert src[0].timestamp <= src[i].timestamp;
      SliceMonotone(src[i], src[j], start, d);
    }
  }

  /** One pass over sorted samples gives one point per non-empty slice, in slice order: group, then average. */
  lemma {:induction false} GroupThenAverage(src: seq<Sample>, d: int)
    requires d > 0 && Sorted(src) && src != []
    ensures var n := (src[|src| - 1].timestamp - src[0].timestamp) / d + 1;
      var key := Slices(src[0].timestamp, d);
      n > 0 && Runs(src, key) == Groups(src, key, n)
  {
    var key := Slices(src[0].timestamp, d);
    SlicesSorted(src, src[0].timestamp, d);
    RunsAreGroups(src, key);
    SliceQuotient(src[|src| - 1], src[0].timestamp, d);
  }

  // ---------- How faithful the points are ----------

  /** Bounds on every sample of a run bound its average: the timestamp, and each metric. */
  lemma AverageBetween(run: seq<Sample>, lo: int, hi: int)
    requires run != []
    requires forall s :: s in run ==> lo <= s.timestamp <= hi
    ensures lo <= Average(run).timestamp <= hi
  {
    TotalTimeBetween(run, lo, hi);
    TruncDivBetween(Totals(run).timestamp, |run|, lo, hi);
  }

  lemma {:induction false} TotalTimeBetween(run: seq<Sample>, lo: int, hi: int)
    requires forall s :: s in run ==> lo <= s.timestamp <= hi
    ensures lo * |run| <= Totals(run).timestamp <= hi * |run|
  {
    if run != [] {
      var front, x := run[..|run| - 1], run[|run| - 1];
      TotalTimeBetween(front, lo, hi);
      assert x in run;
      assert lo * |run| == lo * |front| + lo && hi * |run| == hi * |front| + hi;
    }
  }

  /** `n` copies of `x` added up. */
  function Times(x: real, n: nat): real {
    if n == 0 then 0.0 else Times(x, n - 1) + x
  }

  lemma {:induction false} TimesIsProduct(x: real, n: nat)
    ensures Times(x, n) == x * (n as real)
  {
    if n > 0 {
      TimesIsProduct(x, n - 1);
    }
  }

  lemma {:induction false} TotalMetricBetween(run: seq<Sample>, m: Metric, lo: real, hi: real)
    requires forall s :: s in run ==> lo <= Value(s, m) <= hi
    ensures Times(lo, |run|) <= Value(Totals(run), m) <= Times(hi, |run|)
  {
    if run != [] {
      var front, x := run[..|run| - 1], run[|run| - 1];
      assert run == front + [x] && x in run;
      TotalMetricBetween(front, m, lo, hi);
      ValueSnoc(front, x, m);
    }
  }

  lemma ValueOfSum(a: Sample, b: Sample, m: Metric)
    ensures Value(Add(a, b), m) == Value(a, m) + Value(b, m)
  {
  }

  lemma {:induction false} AverageIsQuotient(run: seq<Sample>, m: Metric)
    requires run != []
    ensures Value(Average(run), m) == Value(Totals(run), m) / (|run| as real)
  {
    match m {
      case Cpu =>
      case Memory =>
      case Disk =>
      case NetUp =>
      case NetDown =>
    }
  }

  lemma {:induction false} TimesQuotient(v: real, t: real, n: nat)
    requires n > 0 && v == t / (n as real)
    ensures Times(v, n) == v * (n as real) == t
  {
    TimesIsProduct(v, n);
  }

  lemma {:induction false} AverageTimesCount(run: seq<Sample>, m: Metric)
    requires run != []
    ensures Times(Value(Average(run), m), |run|) == Value(Totals(run), m)
  {
    AverageIsQuotient(run, m);
    TimesQuotient(Value(Average(run), m), Value(Totals(run), m), |run|);
  }

  lemma {:induction false} TimesBetween(v: real, n: nat, lo: real, hi: real)
    requires n > 0 && Times(lo, n) <= Times(v, n) <= Times(hi, n)
    ensures lo <= v <= hi
  {
    TimesIsProduct(v, n);
    TimesIsProduct(lo, n);
    TimesIsProduct(hi, n);
  }

  /** Each averaged metric lies between any bounds of its samples, the least and the greatest among them. */
  lemma MetricBetween(run: seq<Sample>, m: Metric, lo: real, hi: real)
    requires run != [] && forall s :: s in run ==> lo <= Value(s, m) <= hi
    ensures lo <= Value(Average(run), m) <= hi
  {
    AverageTimesCount(run, m);
    TotalMetricBetween(run, m, lo, hi);
    TimesBetween(Value(Average(run), m), |run|, lo, hi);
  }

  function SumOver(rs: seq<seq<Sample>>, f: seq<Sample> -> real): real {
    if rs == [] then 0.0 else SumOver(rs[..|rs| - 1], f) + f(rs[|rs| - 1])
  }

  /** A run's point, weighted by how many samples it stands for. */
  function Weight(m: Metric): seq<Sample> -> real {
    run => Times(Value(Average(run), m), |run|)
  }

  function Total(m: Metric): seq<Sample> -> real {
    run => Value(Totals(run), m)
  }

  lemma {:induction false} SumOverEqual(rs: seq<seq<Sample>>, f: seq<Sample> -> real, g: seq<Sample> -> real)
    requires forall run :: run in rs ==> f(run) == g(run)
    ensures SumOver(rs, f) == SumOver(rs, g)
  {
    if rs != [] {
      var front, run := rs[..|rs| - 1], rs[|rs| - 1];
      assert rs == front + [run] && run in rs;
      SumOverEqual(front, f, g);
    }
  }

  lemma WeightIsTotal(run: seq<Sample>, m: Metric)
    ensures run != [] ==> Weight(m)(run) == Total(m)(run)
  {
    if run != [] {
      AverageTimesCount(run, m);
    }
  }

  lemma {:induction false} WeightedIsSum(rs: seq<seq<Sample>>, m: Metric)
    requires [] !in rs
    ensures SumOver(rs, Weight(m)) == SumOver(rs, Total(m))
  {
    var f, g := Weight(m), Total(m);
    forall run | run in rs
      ensures f(run) == g(run)
    {
      WeightIsTotal(run, m);
    }
    SumOverEqual(rs, f, g);
  }

  lemma {:induction false} SumOverSnoc(rs: seq<seq<Sample>>, run: seq<Sample>, f: seq<Sample> -> real)
    ensures SumOver(rs + [run], f) == SumOver(rs, f) + f(run)
  {
    assert (rs + [run])[..|rs|] == rs;
  }

  lemma {:induction false} ValueSnoc(run: seq<Sample>, x: Sample, m: Metric)
    ensures Value(Totals(run + [x]), m) == Value(Totals(run), m) + Value(x, m)
  {
    TotalsSnoc(run, x);
    ValueOfSum(Totals(run), x, m);
  }

  lemma {:induction false} RunsKeepTotals(src: seq<Sample>, key: Sample -> int, m: Metric)
    ensures SumOver(Runs(src, key), Total(m)) == Value(Totals(src), m)
    decreases |src|
  {
    if src != [] {
      var front, x := src[..|src| - 1], src[|src| - 1];
      RunsKeepTotals(front, key, m);
      assert src == front + [x];
      if front == [] {
        assert src == [x];
        RunsOne(x, key);
        OneRunTotal(x, m);
      } else {
        var rs := Runs(front, key);
        assert rs == rs[..|rs| - 1] + [rs[|rs| - 1]];
        RunsKeepTotalsSnoc(front, x, key, m, rs[..|rs| - 1], rs[|rs| - 1]);
      }
    }
  }

  lemma OneRunTotal(x: Sample, m: Metric)
    ensures SumOver([[x]], Total(m)) == Value(Totals([x]), m) == Value(x, m)
  {
    SumOverSnoc([], [x], Total(m));
    ValueSnoc([], x, m);
    assert [] + [x] == [x] && [] + [[x]] == [[x]];
  }

  lemma {:induction false} RunsKeepTotalsSnoc(src: seq<Sample>, x: Sample, key: Sample -> int, m: Metric,
                           done: seq<seq<Sample>>, open: seq<Sample>)
    requires src != [] && Runs(src, key) == done + [open]
    requires SumOver(done + [open], Total(m)) == Value(Totals(src), m)
    ensures SumOver(Runs(src + [x], key), Total(m)) == Value(Totals(src + [x]), m)
  {
    RunsSnoc(src, x, key, done, open);
    ValueSnoc(src, x, m);
    ValueSnoc(open, x, m);
    OneRunTotal(x, m);
    SumOverSnoc(done, open, Total(m));
    SumOverSnoc(done, open + [x], Total(m));
    SumOverSnoc(done + [open], [x], Total(m));
  }

  /** On any input, the count-weighted sum of the points is the sum over the source, metric by metric. */
  lemma {:induction false} AveragesConserve(src: seq<Sample>, start: int, d: int, m: Metric)
    requires d > 0
    ensures SumOver(Runs(src, Slices(start, d)), Weight(m)) == Value(Totals(src), m)
  {
    var rs := Runs(src, Slices(start, d));
    RunsPartition(src, Slices(start, d));
    assert forall i :: 0 <= i < |rs| ==> rs[i] != [];
    WeightedIsSum(rs, m);
    RunsKeepTotals(src, Slices(start, d), m);
  }

  /** The time axis of the chart, for any points that each lie within their own run of samples. */
  ghost predicate Within(rs: seq<seq<Sample>>, out: seq<Sample>) {
    && |out| == |rs|
    && forall i :: 0 <= i < |rs| ==>
         rs[i] != [] && rs[i][0].timestamp <= out[i].timestamp <= rs[i][|rs[i]| - 1].timestamp
  }

  lemma AverageWithin(run: seq<Sample>)
    requires run != [] && Sorted(run)
    ensures run[0].timestamp <= Average(run).timestamp <= run[|run| - 1].timestamp
  {
    AverageBetween(run, run[0].timestamp, run[|run| - 1].timestamp);
  }

  lemma AveragesWithin(rs: seq<seq<Sample>>)
    requires forall i :: 0 <= i < |rs| ==> rs[i] != [] && Sorted(rs[i])
    ensures Within(rs, Averages(rs))
  {
    forall i | 0 <= i < |rs|
      ensures rs[i][0].timestamp <= Averages(rs)[i].timestamp <= rs[i][|rs[i]| - 1].timestamp
    {
      AverageWithin(rs[i]);
    }
  }

  /** Every group is a sorted, non-empty part of one slice, and the slices `ks` go up. */
  ghost predicate Sliced(gs: seq<seq<Sample>>, ks: seq<int>, start: int, key: Sample -> int) {
    && |ks| == |gs|
    && (forall i, j :: 0 <= i < j < |ks| ==> ks[i] < ks[j])
    && (forall i :: 0 <= i < |gs| ==> gs[i] != [] && Sorted(gs[i]))
    && (forall i, s :: 0 <= i < |gs| && s in gs[i] ==> start <= s.timestamp && key(s) == ks[i])
  }

  lemma {:induction false} MembersSorted(src: seq<Sample>, key: Sample -> int, k: int)
    requires Sorted(src)
    ensures Sorted(Members(src, key, k))
  {
    if src != [] {
      var front, x := src[..|src| - 1], src[|src| - 1];
      MembersSorted(front, key, k);
      MembersAre(front, key, k);
      assert forall s :: s in front ==> s.timestamp <= x.timestamp;
    }
  }

  ghost predicate SlicedBelow(gs: seq<seq<Sample>>, ks: seq<int>, start: int, key: Sample -> int, n: int) {
    Sliced(gs, ks, start, key) && forall i :: 0 <= i < |ks| ==> ks[i] < n
  }

  lemma SlicedSnoc(gs: seq<seq<Sample>>, ks: seq<int>, g: seq<Sample>, start: int, key: Sample -> int, k: int)
    requires SlicedBelow(gs, ks, start, key, k)
    requires g != [] && Sorted(g) && forall s :: s in g ==> start <= s.timestamp && key(s) == k
    ensures SlicedBelow(gs + [g], ks + [k], start, key, k + 1)
  {
  }

  lemma {:induction false} GroupsSliced(src: seq<Sample>, start: int, key: Sample -> int, n: nat) returns (ks: seq<int>)
    requires Sorted(src) && forall s :: s in src ==> start <= s.timestamp
    ensures SlicedBelow(Groups(src, key, n), ks, start, key, n)
  {
    ks := [];
    if n > 0 {
      var gs, g := Groups(src, key, n - 1), Members(src, key, n - 1);
      ks := GroupsSliced(src, start, key, n - 1);
      MembersAre(src, key, n - 1);
      if g != [] {
        MembersSorted(src, key, n - 1);
        SlicedSnoc(gs, ks, g, start, key, n - 1);
        ks := ks + [n - 1];
      } else {
        assert Groups(src, key, n) == gs;
      }
    }
  }

  /** Points within sliced runs are in strict time order, each in the slice of its own run and no two in the same. */
  ghost predicate Charted(rs: seq<seq<Sample>>, out: seq<Sample>, key: Sample -> int) {
    && |out| == |rs|
    && (forall i, j :: 0 <= i < j < |out| ==> out[i].timestamp < out[j].timestamp && key(out[i]) < key(out[j]))
    && (forall i, s :: 0 <= i < |rs| && s in rs[i] ==> key(s) == key(out[i]))
  }

  /** Later samples never have lower slices. */
  ghost predicate KeyMonotone(key: Sample -> int, start: int) {
    forall a: Sample, b: Sample :: start <= a.timestamp <= b.timestamp ==> key(a) <= key(b)
  }

  lemma WithinSlicedCharted(rs: seq<seq<Sample>>, ks: seq<int>, out: seq<Sample>, start: int, key: Sample -> int)
    requires Sliced(rs, ks, start, key) && Within(rs, out) && KeyMonotone(key, start)
    ensures Charted(rs, out, key)
  {
    forall i | 0 <= i < |rs|
      ensures start <= out[i].timestamp && key(out[i]) == ks[i]
    {
      assert rs[i][0] in rs[i] && rs[i][|rs[i]| - 1] in rs[i];
    }
    forall i, j | 0 <= i < j < |out|
      ensures out[i].timestamp < out[j].timestamp && key(out[i]) < key(out[j])
    {
      assert ks[i] < ks[j] && key(out[i]) == ks[i] && key(out[j]) == ks[j];
    }
  }

  lemma RunsSliced(src: seq<Sample>, d: int) returns (ks: seq<int>)
    requires d > 0 && Sorted(src) && src != []
    ensures Sliced(Runs(src, Slices(src[0].timestamp, d)), ks, src[0].timestamp, Slices(src[0].timestamp, d))
  {
    var start, n := src[0].timestamp, (src[|src| - 1].timestamp - src[0].timestamp) / d + 1;
    GroupThenAverage(src, d);
    assert forall s :: s in src ==> start <= s.timestamp;
    ks := GroupsSliced(src, start, Slices(start, d), n);
  }

  /**
   On sorted samples the points are in strict time order, and each falls in the slice of the samples it stands for and
   between the first and the last of them.
   */
  lemma {:induction false} PointsCharted(src: seq<Sample>, d: int)
    requires d > 0 && Sorted(src) && src != []
    ensures var key := Slices(src[0].timestamp, d);
      var rs := Runs(src, key);
      Charted(rs, Averages(rs), key) && Within(rs, Averages(rs))
  {
    var start := src[0].timestamp;
    var key := Slices(start, d);
    var rs := Runs(src, key);
    var ks := RunsSliced(src, d);
    AveragesWithin(rs);
    SlicesMonotone(start, d);
    WithinSlicedCharted(rs, ks, Averages(rs), start, key);
  }

  lemma SlicesMonotone(start: int, d: int)
    requires d > 0
    ensures KeyMonotone(Slices(start, d), start)
  {
    forall a: Sample, b: Sample | start <= a.timestamp <= b.timestamp
      ensures Slices(start, d)(a) <= Slices(start, d)(b)
    {
      SliceMonotone(a, b, start, d);
    }
  }

  // ---------- Range as a whole ----------

  lemma {:induction false} RunsFromSource(src: seq<Sample>, key: Sample -> int)
    ensures forall run :: run in Runs(src, key) ==> run != [] && forall s :: s in run ==> s in src
  {
    RunsPartition(src, key);
    forall run, s | run in Runs(src, key) && s in run
      ensures s in src
    {
      InFlatten(Runs(src, key), run, s);
    }
  }

  ghost predicate AllBetween(s: seq<Sample>, m: Metric, lo: real, hi: real) {
    forall x :: x in s ==> lo <= Value(x, m) <= hi
  }

  /** Whichever way Range answers, every point keeps within any bounds of the source's metric. */
  lemma RangeKeepsMetricBounds(src: seq<Sample>, maxPoints: nat, m: Metric, lo: real, hi: real)
    requires maxPoints >= 1 && AllBetween(src, m, lo, hi)
    ensures AllBetween(Downsample(src, maxPoints), m, lo, hi)
  {
    if |src| > maxPoints && src[|src| - 1].timestamp > src[0].timestamp {
      var key := Slices(src[0].timestamp, SliceDur(src[|src| - 1].timestamp - src[0].timestamp, maxPoints));
      RunsFromSource(src, key);
      AveragesBetween(Runs(src, key), m, lo, hi);
    }
  }

  lemma AveragesBetween(rs: seq<seq<Sample>>, m: Metric, lo: real, hi: real)
    requires forall run :: run in rs ==> run != [] && AllBetween(run, m, lo, hi)
    ensures AllBetween(Averages(rs), m, lo, hi)
  {
    forall i | 0 <= i < |rs|
      ensures lo <= Value(Average(rs[i]), m) <= hi
    {
      assert rs[i] in rs;
      MetricBetween(rs[i], m, lo, hi);
    }
  }

  ghost predicate TimesIn(s: seq<Sample>, lo: int, hi: int) {
    forall i :: 0 <= i < |s| ==> lo <= s[i].timestamp <= hi
  }

  ghost predicate StrictTimes(s: seq<Sample>) {
    forall i, j :: 0 <= i < j < |s| ==> s[i].timestamp < s[j].timestamp
  }

  lemma {:induction false} RunsTimesIn(src: seq<Sample>, d: int)
    requires d > 0 && Sorted(src) && src != []
    ensures var out := Averages(Runs(src, Slices(src[0].timestamp, d)));
      out != [] && StrictTimes(out) && TimesIn(out, src[0].timestamp, src[|src| - 1].timestamp)
  {
    var key := Slices(src[0].timestamp, d);
    var rs: seq<seq<Sample>> := Runs(src, key);
    RunsFromSource(src, key);
    PointsCharted(src, d);
    forall i | 0 <= i < |rs|
      ensures src[0].timestamp <= rs[i][0].timestamp && rs[i][|rs[i]| - 1].timestamp <= src[|src| - 1].timestamp
    {
      assert rs[i] in rs && rs[i][0] in rs[i] && rs[i][|rs[i]| - 1] in rs[i];
    }
  }

  /**
   Buckets come back in chronological order and inside the time the source spans; no two share a timestamp once Range
   has had to thin the samples out.
   */
  lemma RangeIsChronological(src: seq<Sample>, maxPoints: nat)
    requires maxPoints >= 1 && Sorted(src) && src != []
    ensures var out := Downsample(src, maxPoints);
      out != [] && Sorted(out) && TimesIn(out, src[0].timestamp, src[|src| - 1].timestamp)
    ensures |src| > maxPoints ==> StrictTimes(Downsample(src, maxPoints))
  {
    var span := src[|src| - 1].timestamp - src[0].timestamp;
    if |src| > maxPoints && span > 0 {
      RunsTimesIn(src, SliceDur(span, maxPoints));
    }
  }

  // ---------- Arithmetic width ----------

  /** The 64-bit timestamp accumulator cannot overflow within the hard cap, for any date before the year 6429. */
  lemma {:induction false} AccumulatorFits(run: seq<Sample>)
    requires |run| <= DEFAULT_MAX_LEN
    requires forall s :: s in run ==> 0 <= s.timestamp < 0x8000_0000_0000
    ensures 0 <= Totals(run).timestamp < 0x8000_0000_0000_0000
  {
    TotalTimeBetween(run, 0, 0x7FFF_FFFF_FFFF);
  }
}
