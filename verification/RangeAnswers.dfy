/** What a query answers: the recording itself, or one weighted point for every slice that has samples. */
module RangeAnswers {
  import opened Downsampling
  import opened DownsamplingFacts
  import opened Grouping
  import opened HistoryCharts
  import opened HostMetrics
  import opened MetricsHistory
  import opened PointCounts
  import opened Sequences

  /** What the metrics are called in a sample. */
  lemma MetricsAreFields(t: int, cpu: real, memory: real, disk: real, netUp: real, netDown: real)
    ensures var s := Sample(t, cpu, memory, disk, netUp, netDown);
      && Value(s, Cpu) == cpu && Value(s, Memory) == memory && Value(s, Disk) == disk
      && Value(s, NetUp) == netUp && Value(s, NetDown) == netDown
  {
  }

  // ---------- Few samples, simultaneous samples ----------

  /** Few samples come back as they are, and samples of one instant as the last of them. */
  lemma FewOrSimultaneous(src: seq<Sample>, maxPoints: nat)
    requires maxPoints >= 1
    ensures |src| <= maxPoints ==> Downsample(src, maxPoints) == src
    ensures |src| > maxPoints && src[|src| - 1].timestamp == src[0].timestamp ==>
              Downsample(src, maxPoints) == [src[|src| - 1]]
  {
  }

  // ---------- Many samples ----------

  /** The points, each added up as often as its count says. */
  function WeightedPoints(points: seq<Sample>, counts: seq<nat>, m: Metric): real
    requires |points| == |counts|
  {
    if points == [] then 0.0
    else
      var n := |points| - 1;
      WeightedPoints(points[..n], counts[..n], m) + Times(Value(points[n], m), counts[n])
  }

  /** The samples of a source added up. */
  function Added(src: seq<Sample>, m: Metric): real {
    if src == [] then 0.0 else Added(src[..|src| - 1], m) + Value(src[|src| - 1], m)
  }

  function Lengths(rs: seq<seq<Sample>>): (ns: seq<nat>)
    ensures |ns| == |rs|
  {
    if rs == [] then [] else Lengths(rs[..|rs| - 1]) + [|rs[|rs| - 1]|]
  }

  lemma {:induction false} LengthsAt(rs: seq<seq<Sample>>, i: nat)
    requires i < |rs|
    ensures Lengths(rs)[i] == |rs[i]|
  {
    if i < |rs| - 1 {
      LengthsAt(rs[..|rs| - 1], i);
    }
  }

  lemma {:induction false} WeightedSnoc(points: seq<Sample>, counts: seq<nat>, p: Sample, n: nat, m: Metric)
    requires |points| == |counts|
    ensures WeightedPoints(points + [p], counts + [n], m) == WeightedPoints(points, counts, m) + Times(Value(p, m), n)
  {
    assert (points + [p])[..|points|] == points && (counts + [n])[..|counts|] == counts;
  }

  lemma AveragesOne(run: seq<Sample>)
    ensures Averages([run]) == [Average(run)]
  {
  }

  lemma {:induction false} WeightsOfRuns(rs: seq<seq<Sample>>, m: Metric)
    ensures WeightedPoints(Averages(rs), Lengths(rs), m) == SumOver(rs, Weight(m))
  {
    if rs != [] {
      var front, run := rs[..|rs| - 1], rs[|rs| - 1];
      assert rs == front + [run];
      WeightsOfRuns(front, m);
      AveragesNext(front, run);
      AveragesOne(run);
      WeightedSnoc(Averages(front), Lengths(front), Average(run), |run|, m);
      SumOverSnoc(front, run, Weight(m));
    }
  }

  lemma {:induction false} AddedIsTotal(src: seq<Sample>, m: Metric)
    ensures Added(src, m) == Value(Totals(src), m)
  {
    if src != [] {
      var front, x := src[..|src| - 1], src[|src| - 1];
      assert src == front + [x];
      AddedIsTotal(front, m);
      ValueSnoc(front, x, m);
    } else {
      ZeroValues(m);
    }
  }

  lemma ZeroValues(m: Metric)
    ensures Value(Totals([]), m) == 0.0
  {
  }

  /**
   One point for every slice that has samples, slices in order, each point counting for as many samples as its slice
   has; weighted so, the points add up to the source in every metric.
   */
  ghost predicate OnePointPerSlice(src: seq<Sample>, points: seq<Sample>, counts: seq<nat>, key: Sample -> int) {
    && |counts| == |points|
    && (forall i, j :: 0 <= i < j < |points| ==> key(points[i]) < key(points[j]))
    && (forall s :: s in src ==> exists i :: 0 <= i < |points| && key(points[i]) == key(s))
    && (forall i :: 0 <= i < |points| ==> counts[i] == |Members(src, key, key(points[i]))| > 0)
    && (forall m :: WeightedPoints(points, counts, m) == Added(src, m))
  }

  lemma {:induction false} SliceCounts(src: seq<Sample>, key: Sample -> int, rs: seq<seq<Sample>>, out: seq<Sample>,
                                       n: nat)
    requires rs == Groups(src, key, n) && Charted(rs, out, key)
    ensures forall i :: 0 <= i < |rs| ==> Lengths(rs)[i] == |Members(src, key, key(out[i]))| > 0
  {
    forall i | 0 <= i < |rs|
      ensures Lengths(rs)[i] == |Members(src, key, key(out[i]))| > 0
    {
      var k := GroupIsMembers(src, key, n, i);
      MembersAre(src, key, k);
      assert rs[i][0] in rs[i];
      LengthsAt(rs, i);
    }
  }

  lemma {:induction false} EverySampleCharted(src: seq<Sample>, key: Sample -> int, rs: seq<seq<Sample>>, out: seq<Sample>)
    requires Flatten(rs) == src && Charted(rs, out, key)
    ensures forall s :: s in src ==> exists i :: 0 <= i < |out| && key(out[i]) == key(s)
  {
    forall s | s in src
      ensures exists i :: 0 <= i < |out| && key(out[i]) == key(s)
    {
      var i := FromFlatten(rs, s);
      assert key(s) == key(out[i]);
    }
  }

  /** The points of sorted samples, for slices of any length. */
  lemma {:induction false} RunsAnswer(src: seq<Sample>, d: int)
    requires d > 0 && Sorted(src) && src != []
    ensures var key := Slices(src[0].timestamp, d);
      OnePointPerSlice(src, Averages(Runs(src, key)), Lengths(Runs(src, key)), key)
  {
    var key := Slices(src[0].timestamp, d);
    var rs: seq<seq<Sample>> := Runs(src, key);
    var n := (src[|src| - 1].timestamp - src[0].timestamp) / d + 1;
    GroupThenAverage(src, d);
    PointsCharted(src, d);
    SliceCounts(src, key, rs, Averages(rs), n);
    RunsPartition(src, key);
    EverySampleCharted(src, key, rs, Averages(rs));
    forall m: Metric
      ensures WeightedPoints(Averages(rs), Lengths(rs), m) == Added(src, m)
    {
      WeightsOfRuns(rs, m);
      AveragesConserve(src, src[0].timestamp, d, m);
      AddedIsTotal(src, m);
    }
  }

  /** Longer sources come back as one point for every slice that has samples. */
  lemma {:induction false} ManyAnswer(src: seq<Sample>, maxPoints: nat) returns (counts: seq<nat>)
    requires Sorted(src) && |src| > maxPoints >= 1 && src[|src| - 1].timestamp > src[0].timestamp
    ensures var d := SliceDur(src[|src| - 1].timestamp - src[0].timestamp, maxPoints);
      OnePointPerSlice(src, Downsample(src, maxPoints), counts, Slices(src[0].timestamp, d))
  {
    var d := SliceDur(src[|src| - 1].timestamp - src[0].timestamp, maxPoints);
    RunsAnswer(src, d);
    counts := Lengths(Runs(src, Slices(src[0].timestamp, d)));
  }

  lemma {:induction false} ManyOfRun(es: seq<Event>, retain: int, maxLen: nat, cutoff: int, src: seq<Sample>,
                                     maxPoints: nat)
    returns (counts: seq<nat>)
    requires Monotone(es) && es != [] && src == Since(RunRecords(es, retain, maxLen), cutoff)
    requires |src| > maxPoints >= 1 && src[|src| - 1].timestamp > src[0].timestamp
    ensures var d := SliceDur(src[|src| - 1].timestamp - src[0].timestamp, maxPoints);
      OnePointPerSlice(src, Downsample(src, maxPoints), counts, Slices(src[0].timestamp, d))
  {
    SelectionTimes(es, retain, maxLen, cutoff);
    counts := ManyAnswer(src, maxPoints);
  }

  // ---------- What the labels mean ----------

  /** What the history request answers for a label. */
  function LabelAnswer(samples: seq<Sample>, name: string, now: int): seq<Sample> {
    var (rangeDur, maxPoints) := ParseHistoryRange(name);
    Chart(samples, UnixMilli(now - rangeDur), maxPoints)
  }

  /** The milliseconds and the points a label stands for; anything else stands for an hour. */
  ghost predicate Means(name: string, ms: nat, points: nat) {
    || (name == "1m" && ms == 60_000 && points == 60)
    || (name == "1h" && ms == 3_600_000 && points == 120)
    || (name == "12h" && ms == 43_200_000 && points == 180)
    || (name == "24h" && ms == 86_400_000 && points == 240)
    || (name != "1m" && name != "12h" && name != "24h" && ms == 3_600_000 && points == 120)
  }

  lemma LabelCutoff(name: string, ms: nat, points: nat, now: int)
    requires Means(name, ms, points)
    ensures var (rangeDur, maxPoints) := ParseHistoryRange(name);
      UnixMilli(now - rangeDur) == UnixMilli(now) - ms && maxPoints == points >= 1
  {
  }

  lemma {:induction false} LabelAnswerIs(samples: seq<Sample>, name: string, ms: nat, points: nat, now: int)
    requires Means(name, ms, points)
    ensures points >= 1
    ensures LabelAnswer(samples, name, now) == Downsample(Since(samples, UnixMilli(now) - ms), points)
  {
    LabelCutoff(name, ms, points, now);
  }

  lemma {:induction false} LabelSelects(es: seq<Event>, name: string, ms: nat, points: nat, now: int)
    requires Means(name, ms, points)
    requires Monotone(es) && es != [] && Spaced(es, 1729) && es[|es| - 1].now <= now
    ensures Since(RunRecords(es, DEFAULT_RETAIN, DEFAULT_MAX_LEN), UnixMilli(now) - ms)
         == Since(Log(es), UnixMilli(now) - ms)
  {
    LabelCutoff(name, ms, points, now);
    LabelsExact(es, 1729, name, now);
  }

  lemma DownsampleAnswers(src: seq<Sample>, points: nat)
    requires points >= 1 && Sorted(src)
    ensures |Downsample(src, points)| <= 2 * points && (|src| <= points ==> Downsample(src, points) == src)
  {
    PointBounds(src, points);
    FewOrSimultaneous(src, points);
  }

  /**
   On the collector's history, for a monotone run of samples at least 1729 ms apart: a label's answer is drawn from
   exactly the recorded samples of the last minute, hour, twelve hours or day, with at most twice 60, 120, 180 or 240
   points, and is those samples themselves when there are no more of them than that.
   */
  lemma {:induction false} LabelMeans(es: seq<Event>, name: string, ms: nat, points: nat, now: int)
    requires Means(name, ms, points)
    requires Monotone(es) && es != [] && Spaced(es, 1729) && es[|es| - 1].now <= now
    ensures var inRange := Since(Log(es), UnixMilli(now) - ms);
      var answer := LabelAnswer(RunRecords(es, DEFAULT_RETAIN, DEFAULT_MAX_LEN), name, now);
      && points >= 1 && answer == Downsample(inRange, points) && |answer| <= 2 * points
      && (|inRange| <= points ==> answer == inRange)
  {
    LabelAnswerIs(RunRecords(es, DEFAULT_RETAIN, DEFAULT_MAX_LEN), name, ms, points, now);
    LabelSelects(es, name, ms, points, now);
    SelectionTimes(es, DEFAULT_RETAIN, DEFAULT_MAX_LEN, UnixMilli(now) - ms);
    DownsampleAnswers(Since(Log(es), UnixMilli(now) - ms), points);
  }

  /** Which samples those are. */
  lemma {:induction false} InRange(log: seq<Sample>, cutoff: int)
    ensures forall x :: x in Since(log, cutoff) <==> x in log && x.timestamp >= cutoff
  {
    if log != [] {
      InRange(log[..|log| - 1], cutoff);
      assert log == log[..|log| - 1] + [log[|log| - 1]];
    }
  }
}
