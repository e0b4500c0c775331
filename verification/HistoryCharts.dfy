/** What a query answers after a run of Record: retention, filter and downsampling together. */
module HistoryCharts {
  import opened Downsampling
  import opened DownsamplingFacts
  import opened HostMetrics
  import opened MetricsHistory
  import opened PointCounts
  import opened Sequences

  lemma SelectionOfSuffix(log: seq<Sample>, buffer: seq<Sample>, cutoff: int) returns (a: nat)
    requires Sorted(log) && |buffer| <= |log| && buffer == log[|log| - |buffer|..]
    ensures a <= |log| && Since(buffer, cutoff) == log[a..]
  {
    SinceIsSuffix(buffer, cutoff);
    a := |log| - |buffer| + Cut(buffer, cutoff);
    SuffixOfSuffix(log, |log| - |buffer|, Cut(buffer, cutoff));
  }

  /** A query selects the end of the log. */
  lemma SelectionOfRun(es: seq<Event>, retain: int, maxLen: nat, cutoff: int) returns (a: nat)
    requires Monotone(es)
    ensures a <= |es| && Since(RunRecords(es, retain, maxLen), cutoff) == Log(es)[a..]
  {
    LogSorted(es);
    BufferIsRecentSuffix(es, retain, maxLen);
    a := SelectionOfSuffix(Log(es), RunRecords(es, retain, maxLen), cutoff);
  }

  lemma {:induction false} SinceAfter(s: seq<Sample>, cutoff: int)
    ensures forall x :: x in Since(s, cutoff) ==> x.timestamp >= cutoff
  {
    if s != [] {
      SinceAfter(s[..|s| - 1], cutoff);
    }
  }

  lemma {:induction false} LogSpaced(es: seq<Event>, d: nat, a: nat)
    requires Spaced(es, d) && a <= |es|
    ensures GapsAtLeast(Log(es)[a..], d)
  {
    LogAt(es);
  }

  /** Chronological, in the queried range, and no newer than the newest sample. */
  ghost predicate Answers(out: seq<Sample>, cutoff: int, newest: int) {
    Sorted(out) && TimesIn(out, cutoff, newest)
  }

  lemma ChartOfSelection(src: seq<Sample>, cutoff: int, newest: int, maxPoints: nat)
    requires Sorted(src) && TimesIn(src, cutoff, newest) && maxPoints >= 1
    ensures Answers(Downsample(src, maxPoints), cutoff, newest) && |Downsample(src, maxPoints)| <= 2 * maxPoints
  {
    PointBounds(src, maxPoints);
    if src != [] {
      RangeIsChronological(src, maxPoints);
    }
  }

  lemma {:induction false} SelectionTimes(es: seq<Event>, retain: int, maxLen: nat, cutoff: int)
    requires Monotone(es) && es != []
    ensures var src := Since(RunRecords(es, retain, maxLen), cutoff);
      Sorted(src) && TimesIn(src, cutoff, es[|es| - 1].sample.timestamp)
  {
    var a := SelectionOfRun(es, retain, maxLen, cutoff);
    LogSorted(es);
    LogAt(es);
    SinceAfter(RunRecords(es, retain, maxLen), cutoff);
    TimesOfSuffix(Log(es), a, Since(RunRecords(es, retain, maxLen), cutoff), cutoff);
  }

  lemma TimesOfSuffix(log: seq<Sample>, a: nat, src: seq<Sample>, cutoff: int)
    requires Sorted(log) && log != [] && a <= |log| && src == log[a..]
    requires forall x :: x in src ==> x.timestamp >= cutoff
    ensures Sorted(src) && TimesIn(src, cutoff, log[|log| - 1].timestamp)
  {
    forall i | 0 <= i < |src|
      ensures cutoff <= src[i].timestamp <= log[|log| - 1].timestamp
    {
      assert src[i] in src && src[i] == log[a + i];
    }
  }

  /** A monotone run is charted in order, within the range, as at most twice the points asked for. */
  lemma {:induction false} ChartOfRun(es: seq<Event>, retain: int, maxLen: nat, cutoff: int, maxPoints: nat)
    requires Monotone(es) && es != [] && maxPoints >= 1
    ensures var out := Downsample(Since(RunRecords(es, retain, maxLen), cutoff), maxPoints);
      Answers(out, cutoff, es[|es| - 1].sample.timestamp) && |out| <= 2 * maxPoints
  {
    SelectionTimes(es, retain, maxLen, cutoff);
    ChartOfSelection(Since(RunRecords(es, retain, maxLen), cutoff), cutoff, es[|es| - 1].sample.timestamp, maxPoints);
  }

  /** With samples at least `maxPoints` milliseconds apart, as at most one point too many. */
  lemma {:induction false} ChartOfSpacedRun(es: seq<Event>, retain: int, maxLen: nat, cutoff: int,
                                            maxPoints: nat, d: nat)
    requires Monotone(es) && Spaced(es, d) && 1 <= maxPoints <= d
    ensures |Downsample(Since(RunRecords(es, retain, maxLen), cutoff), maxPoints)| <= maxPoints + 1
  {
    var a := SelectionOfRun(es, retain, maxLen, cutoff);
    LogSorted(es);
    LogSpaced(es, d, a);
    SpacedPoints(Log(es)[a..], maxPoints, d);
  }

  /** The log of a steady run, and its gaps. */
  lemma SteadyLog(n: nat, d: nat)
    requires n > 0
    ensures var log := Log(Steady(n, d));
      Sorted(log) && GapsAtMost(log, d) && log[0].timestamp == 0 && log[n - 1].timestamp == (n - 1) * d
  {
    var es := Steady(n, d);
    SteadyRuns(n, d);
    LogSorted(es);
    LogAt(es);
    forall i | 0 < i < n
      ensures Log(es)[i].timestamp <= Log(es)[i - 1].timestamp + d
    {
      assert es[i].sample.timestamp == i * d && es[i - 1].sample.timestamp == (i - 1) * d;
      assert (i - 1) * d + d == i * d;
    }
  }

  lemma HourOfTicks()
    ensures |Downsample(Log(Steady(1801, 2000)), 120)| == 121
  {
    SteadyLog(1801, 2000);
    GapFreeChart(Log(Steady(1801, 2000)), 120, 2000);
  }

  /** The run from the epoch to the hour, and what the query for the last hour then selects. */
  lemma HourSelected() returns (es: seq<Event>)
    ensures es == Steady(1801, 2000) && Monotone(es) && Spaced(es, 2000) && es != [] && es[|es| - 1].now == HOUR
    ensures Since(RunRecords(es, DEFAULT_RETAIN, DEFAULT_MAX_LEN), UnixMilli(HOUR - HOUR)) == Log(es)
  {
    es := Steady(1801, 2000);
    SteadyRuns(1801, 2000);
    assert es[1800] == Event(Sample(3_600_000, 0.0, 0.0, 0.0, 0.0, 0.0), HOUR);
    QueryExact(es, DEFAULT_RETAIN, DEFAULT_MAX_LEN, 2000, HOUR, HOUR);
    WholeLog(es);
  }

  /** At the default interval: an hour of ticks two seconds apart, charted as 121 points for the 120 asked. */
  lemma HourAtDefaultInterval() returns (es: seq<Event>, now: int)
    ensures Monotone(es) && Spaced(es, 2000) && es != [] && es[|es| - 1].now <= now
    ensures ParseHistoryRange("1h") == (HOUR, 120)
    ensures |Downsample(Since(RunRecords(es, DEFAULT_RETAIN, DEFAULT_MAX_LEN), UnixMilli(now - HOUR)), 120)| == 121
  {
    now := HOUR;
    es := HourSelected();
    HourOfTicks();
  }

  lemma {:induction false} WholeLog(es: seq<Event>)
    requires Monotone(es) && es != [] && es[0].sample.timestamp >= 0
    ensures Since(Log(es), 0) == Log(es)
  {
    LogSorted(es);
    LogAt(es);
    SinceIsSuffix(Log(es), 0);
    CutIs(Log(es), 0, 0);
  }
}
