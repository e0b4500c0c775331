/** The history object: Record and Range with the loops of the program, against their specifications. */
module History {
  import opened Downsampling
  import opened Grouping
  import opened HistoryCharts
  import opened HostMetrics
  import opened MetricsHistory
  import opened RangeAnswers
  import opened Sequences

  class History {
    var samples: seq<Sample>
    const retain: int
    const maxLen: nat
    ghost var events: seq<Event>

    /** The buffer is what the calls of Record so far make it. */
    ghost predicate Valid()
      reads this
    {
      samples == RunRecords(events, retain, maxLen)
    }

    /** Nonpositive parameters select the defaults. */
    constructor (retain: int, maxLen: int)
      ensures Valid() && events == []
      ensures this.retain == if retain <= 0 then DEFAULT_RETAIN else retain
      ensures this.maxLen == if maxLen <= 0 then DEFAULT_MAX_LEN else maxLen
    {
      this.retain := if retain <= 0 then DEFAULT_RETAIN else retain;
      this.maxLen := if maxLen <= 0 then DEFAULT_MAX_LEN else maxLen;
      samples := [];
      events := [];
    }

    method Record(m: Metrics, now: int)
      requires Valid()
      modifies this
      ensures Valid() && events == old(events) + [Event(SampleOf(m), now)]
    {
      samples := samples + [SampleOf(m)];
      Trim(UnixMilli(now - retain));
      RunRecordsSnoc(events, Event(SampleOf(m), now), retain, maxLen);
      events := events + [Event(SampleOf(m), now)];
    }

    /** The trims of Record: by age, from the front up to the first sample that is young enough, then by count. */
    method Trim(cutoff: int)
      modifies this`samples
      ensures samples == LastN(old(samples)[Cut(old(samples), cutoff)..], maxLen)
    {
      var idx := 0;
      while idx < |samples| && samples[idx].timestamp < cutoff
        invariant 0 <= idx <= |samples|
        invariant forall i :: 0 <= i < idx ==> samples[i].timestamp < cutoff
      {
        idx := idx + 1;
      }
      CutIs(samples, cutoff, idx);
      if idx > 0 {
        samples := samples[idx..];
      }
      if |samples| > maxLen {
        samples := samples[|samples| - maxLen..];
      }
    }

    /** The samples of the last `rangeDur`, averaged over time slices when there are more than `maxPoints`. */
    method Range(rangeDur: int, maxPoints: int, now: int) returns (points: seq<Sample>)
      ensures points == Chart(samples, UnixMilli(now - rangeDur), maxPoints)
      ensures var src := Since(samples, UnixMilli(now - rangeDur));
        && (|src| <= 1 || |src| <= maxPoints ==> points == src)
        && (|src| > 1 && |src| > maxPoints && src[|src| - 1].timestamp == src[0].timestamp ==>
              points == [src[|src| - 1]])
    {
      var limit := if maxPoints < 1 then 1 else maxPoints;
      var src := Select(UnixMilli(now - rangeDur));
      points := Thin(src, limit);
    }

    /**
     On a monotone history the answer is in time order, within the range, and at most twice as long as asked; at most
     one too long when samples are at least that many milliseconds apart.
     */
    lemma RangeOfRun(cutoff: int, maxPoints: int, d: nat)
      requires Valid() && Monotone(events) && events != []
      ensures Answers(Chart(samples, cutoff, maxPoints), cutoff, events[|events| - 1].sample.timestamp)
      ensures |Chart(samples, cutoff, maxPoints)| <= if maxPoints < 1 then 2 else 2 * maxPoints
      ensures Spaced(events, d) && maxPoints <= d && 1 <= d ==>
                |Chart(samples, cutoff, maxPoints)| <= if maxPoints < 1 then 2 else maxPoints + 1
    {
      ChartOfRun(events, retain, maxLen, cutoff, AtLeastOne(maxPoints));
      if Spaced(events, d) && AtLeastOne(maxPoints) <= d {
        ChartOfSpacedRun(events, retain, maxLen, cutoff, AtLeastOne(maxPoints), d);
      }
    }

    /** The recording itself comes back while no more of it is in range than points were asked for. */
    lemma RangeOfFew(rangeDur: nat, maxPoints: nat, now: int, d: nat)
      requires Valid() && Monotone(events) && events != [] && Spaced(events, d)
      requires rangeDur <= retain && events[|events| - 1].now <= now
      requires UnixMilli(now) - UnixMilli(now - rangeDur) < maxLen * d
      requires |Since(Log(events), UnixMilli(now - rangeDur))| <= maxPoints
      ensures Chart(samples, UnixMilli(now - rangeDur), maxPoints) == Since(Log(events), UnixMilli(now - rangeDur))
    {
      QueryExact(events, retain, maxLen, d, rangeDur, now);
    }

    /** More of it comes back as one point for every slice that has samples, weighted by how many it has. */
    lemma RangeOfMany(cutoff: int, src: seq<Sample>, maxPoints: nat) returns (counts: seq<nat>)
      requires Valid() && Monotone(events) && events != [] && src == Since(samples, cutoff)
      requires |src| > maxPoints >= 1 && src[|src| - 1].timestamp > src[0].timestamp
      ensures Chart(samples, cutoff, maxPoints) == Downsample(src, maxPoints)
      ensures var d := SliceDur(src[|src| - 1].timestamp - src[0].timestamp, maxPoints);
        OnePointPerSlice(src, Downsample(src, maxPoints), counts, Slices(src[0].timestamp, d))
    {
      counts := ManyOfRun(events, retain, maxLen, cutoff, src, maxPoints);
    }

    /** The answer is that of the full log when the samples in range cannot exceed the cap. */
    lemma RangeOfLog(rangeDur: nat, maxPoints: int, now: int, d: nat)
      requires Valid() && Monotone(events) && events != [] && Spaced(events, d)
      requires rangeDur <= retain && events[|events| - 1].now <= now
      requires UnixMilli(now) - UnixMilli(now - rangeDur) < maxLen * d
      ensures Chart(samples, UnixMilli(now - rangeDur), maxPoints)
           == Chart(Log(events), UnixMilli(now - rangeDur), maxPoints)
    {
      QueryExact(events, retain, maxLen, d, rangeDur, now);
    }

    /** The filter loop of Range. */
    method Select(cutoff: int) returns (src: seq<Sample>)
      ensures src == Since(samples, cutoff)
    {
      src := [];
      for i := 0 to |samples|
        invariant src == Since(samples[..i], cutoff)
      {
        assert samples[..i + 1][..i] == samples[..i];
        if samples[i].timestamp >= cutoff {
          src := src + [samples[i]];
        }
      }
      assert samples[..|samples|] == samples;
    }
  }

  /** The history request: the label selects what Range is asked. */
  method HandleMetricsHistory(history: History, name: string, now: int) returns (points: seq<Sample>)
    ensures points == LabelAnswer(history.samples, name, now)
  {
    var rangeDur, maxPoints := ParseHistoryRange(name).0, ParseHistoryRange(name).1;
    points := history.Range(rangeDur, maxPoints, now);
  }

  /** Range after the filter: few samples are returned as they are, others are averaged over time slices. */
  method Thin(src: seq<Sample>, maxPoints: nat) returns (points: seq<Sample>)
    requires maxPoints >= 1
    ensures points == Downsample(src, maxPoints)
  {
    if |src| <= maxPoints {
      return src;
    }
    var start, end := src[0].timestamp, src[|src| - 1].timestamp;
    var span := end - start;
    if span <= 0 {
      return [src[|src| - 1]];
    }
    var bucketDur := BucketDuration(span, maxPoints);
    points := Bucket(src, start, bucketDur);
  }

  method BucketDuration(span: int, maxPoints: nat) returns (bucketDur: int)
    requires maxPoints >= 1
    ensures bucketDur == SliceDur(span, maxPoints) >= 1
  {
    bucketDur := TruncDiv(span, maxPoints);
    if bucketDur < 1 {
      bucketDur := 1;
    }
  }

  /** The `flush` closure: the point for the samples accumulated so far, if there are any. */
  method Flush(out: seq<Sample>, acc: Sample, count: int, ghost open: seq<Sample>) returns (next: seq<Sample>)
    requires acc == Totals(open) && count == |open|
    ensures next == if open == [] then out else out + Averages([open])
  {
    if count == 0 {
      return out;
    }
    next := out + [Mean(acc, count)];
    assert Averages([open]) == [Average(open)];
  }

  /** The accumulate-and-flush loop of Range. */
  method Bucket(src: seq<Sample>, start: int, bucketDur: int) returns (out: seq<Sample>)
    requires src != [] && src[0].timestamp == start && bucketDur > 0
    ensures out == Averages(Runs(src, Slices(start, bucketDur)))
  {
    out := [];
    var acc := ZERO;
    var count := 0;
    var curIndex := -1;
    ghost var key := Slices(start, bucketDur);
    ghost var done: seq<seq<Sample>>, open: seq<Sample> := [], [];
    for i := 0 to |src|
      invariant |open| == count && acc == Totals(open)
      invariant out == Averages(done) && Scanned(src[..i], key, done, open)
      invariant curIndex == if i == 0 then -1 else key(src[i - 1])
    {
      var s := src[i];
      var idx := TruncDiv(s.timestamp - start, bucketDur);
      assert idx == key(s);
      ScanOn(src[..i], s, key, done, open);
      if idx != curIndex {
        out := Flush(out, acc, count, open);
        if i > 0 {
          AveragesNext(done, open);
          done := done + [open];
        }
        acc, count, curIndex := ZERO, 0, idx;
        open := [];
      }
      assert i == 0 ==> open == [] by {
        FirstSlice(src[0], start, bucketDur);
      }
      assert src[..i + 1] == src[..i] + [s];
      TotalsSnoc(open, s);
      open := open + [s];
      acc, count := Add(acc, s), count + 1;
    }
    assert src[..|src|] == src;
    AveragesNext(done, open);
    out := Flush(out, acc, count, open);
  }

  /** The first sample opens slice 0, which the loop's initial index of -1 cannot be. */
  lemma FirstSlice(s: Sample, start: int, d: int)
    requires d > 0 && s.timestamp == start
    ensures Slices(start, d)(s) == 0
  {
  }
}
