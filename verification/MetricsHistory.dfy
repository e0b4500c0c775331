/**
 The bounded history of host metrics: what Record retains is a window on the log of everything ever recorded,
 and a query sees exactly what it would see in that log as long as the hard cap has not cut into its range.
 */
module MetricsHistory {
  import opened HostMetrics
  import opened Sequences

  datatype Sample = Sample(timestamp: int, cpu: real, memory: real, disk: real, netUp: real, netDown: real)

  const DEFAULT_RETAIN := DAY
  const DEFAULT_MAX_LEN := 50000

  function SampleOf(m: Metrics): Sample {
    Sample(m.timestamp, m.cpuPercent, m.memoryPercent, m.disk.usedPercent,
           m.network.sentPerSec as real, m.network.recvPerSec as real)
  }

  ghost predicate Sorted(s: seq<Sample>) {
    forall i, j :: 0 <= i <= j < |s| ==> s[i].timestamp <= s[j].timestamp
  }

  /** The first position not older than the cutoff. */
  function Cut(s: seq<Sample>, cutoff: int): (k: nat)
    ensures k <= |s|
  {
    if s == [] || s[0].timestamp >= cutoff then 0 else 1 + Cut(s[1..], cutoff)
  }

  lemma {:induction false} CutSplits(s: seq<Sample>, cutoff: int)
    ensures forall i :: 0 <= i < Cut(s, cutoff) ==> s[i].timestamp < cutoff
    ensures Cut(s, cutoff) < |s| ==> s[Cut(s, cutoff)].timestamp >= cutoff
  {
    if s != [] && s[0].timestamp < cutoff {
      CutSplits(s[1..], cutoff);
    }
  }

  /** The samples not older than the cutoff. */
  function Since(s: seq<Sample>, cutoff: int): seq<Sample> {
    if s == [] then []
    else Since(s[..|s| - 1], cutoff) + if s[|s| - 1].timestamp >= cutoff then [s[|s| - 1]] else []
  }

  /** What one call of Record makes of the buffer. */
  function RecordStep(samples: seq<Sample>, s: Sample, cutoff: int, maxLen: nat): seq<Sample> {
    var all := samples + [s];
    LastN(all[Cut(all, cutoff)..], maxLen)
  }

  // ---------- Runs of Record ----------

  /** One call of Record: the sample and the clock at the call, in nanoseconds. */
  datatype Event = Event(sample: Sample, now: int)

  /** Everything ever recorded. */
  function Log(es: seq<Event>): (log: seq<Sample>)
    ensures |log| == |es|
  {
    if es == [] then [] else Log(es[..|es| - 1]) + [es[|es| - 1].sample]
  }

  /** The cutoff each call trimmed by. */
  function Cutoffs(es: seq<Event>, retain: int): (cutoffs: seq<int>)
    ensures |cutoffs| == |es|
  {
    if es == [] then [] else Cutoffs(es[..|es| - 1], retain) + [UnixMilli(es[|es| - 1].now - retain)]
  }

  /** What a run of RecordStep leaves of a log. */
  function Retained(log: seq<Sample>, cutoffs: seq<int>, maxLen: nat): seq<Sample>
    requires |log| == |cutoffs|
  {
    if log == [] then []
    else
      var n := |log| - 1;
      RecordStep(Retained(log[..n], cutoffs[..n], maxLen), log[n], cutoffs[n], maxLen)
  }

  /** The buffer after a run of calls on a new history. */
  function RunRecords(es: seq<Event>, retain: int, maxLen: nat): seq<Sample> {
    Retained(Log(es), Cutoffs(es, retain), maxLen)
  }

  lemma {:induction false} LogAt(es: seq<Event>)
    ensures forall i :: 0 <= i < |es| ==> Log(es)[i] == es[i].sample
  {
    if es != [] {
      LogAt(es[..|es| - 1]);
    }
  }

  lemma {:induction false} CutoffsAt(es: seq<Event>, retain: int)
    ensures forall i :: 0 <= i < |es| ==> Cutoffs(es, retain)[i] == UnixMilli(es[i].now - retain)
  {
    if es != [] {
      CutoffsAt(es[..|es| - 1], retain);
    }
  }

  lemma {:induction false} CutoffsNeverFall(es: seq<Event>, retain: int)
    requires Monotone(es)
    ensures NeverFalling(Cutoffs(es, retain))
  {
    CutoffsAt(es, retain);
    forall i, j | 0 <= i <= j < |es|
      ensures Cutoffs(es, retain)[i] <= Cutoffs(es, retain)[j]
    {
      UnixMilliMonotone(es[i].now - retain, es[j].now - retain);
    }
  }

  lemma {:induction false} LogSorted(es: seq<Event>)
    requires Monotone(es)
    ensures Sorted(Log(es))
  {
    LogAt(es);
  }

  /** Timestamps and clock never go backwards. */
  ghost predicate Monotone(es: seq<Event>) {
    forall i, j :: 0 <= i <= j < |es| ==> es[i].sample.timestamp <= es[j].sample.timestamp && es[i].now <= es[j].now
  }

  ghost predicate NeverFalling(cutoffs: seq<int>) {
    forall i, j :: 0 <= i <= j < |cutoffs| ==> cutoffs[i] <= cutoffs[j]
  }

  /** Where the retained window starts in a log: after what is too old, and no further back than the cap allows. */
  function WindowStart(log: seq<Sample>, cutoff: int, maxLen: nat): nat {
    LastStart(|log|, Cut(log, cutoff), maxLen)
  }

  lemma {:induction false} CutIs(s: seq<Sample>, cutoff: int, k: nat)
    requires k <= |s|
    requires forall i :: 0 <= i < k ==> s[i].timestamp < cutoff
    requires k < |s| ==> s[k].timestamp >= cutoff
    ensures Cut(s, cutoff) == k
  {
    CutSplits(s, cutoff);
  }

  lemma {:induction false} SinceIsSuffix(s: seq<Sample>, cutoff: int)
    requires Sorted(s)
    ensures Since(s, cutoff) == s[Cut(s, cutoff)..]
  {
    if s != [] {
      var front, x := s[..|s| - 1], s[|s| - 1];
      assert s == front + [x];
      SinceIsSuffix(front, cutoff);
      SinceSnoc(front, x, cutoff);
      CutSnoc(front, x, cutoff);
    }
  }

  lemma {:induction false} SinceSnoc(s: seq<Sample>, x: Sample, cutoff: int)
    ensures Since(s + [x], cutoff) == Since(s, cutoff) + if x.timestamp >= cutoff then [x] else []
  {
    assert (s + [x])[..|s|] == s;
  }

  lemma {:induction false} CutSnoc(s: seq<Sample>, x: Sample, cutoff: int)
    requires Sorted(s + [x])
    ensures (s + [x])[Cut(s + [x], cutoff)..] == s[Cut(s, cutoff)..] + if x.timestamp >= cutoff then [x] else []
  {
    var all := s + [x];
    var k := Cut(s, cutoff);
    CutSplits(s, cutoff);
    if x.timestamp >= cutoff {
      CutIs(all, cutoff, k);
      assert all[k..] == s[k..] + [x];
    } else {
      assert forall i :: 0 <= i < |s| ==> s[i] == all[i] && all[i].timestamp <= all[|s|].timestamp;
      CutIs(s, cutoff, |s|);
      CutIs(all, cutoff, |all|);
    }
  }

  lemma {:induction false} CutOfSuffix(s: seq<Sample>, cutoff: int, a: nat)
    requires Sorted(s) && a <= |s|
    ensures a + Cut(s[a..], cutoff) == if a <= Cut(s, cutoff) then Cut(s, cutoff) else a
  {
    var k := Cut(s, cutoff);
    CutSplits(s, cutoff);
    if a <= k {
      CutIs(s[a..], cutoff, k - a);
    } else {
      assert k < |s| && (a < |s| ==> s[k].timestamp <= s[a].timestamp);
      CutIs(s[a..], cutoff, 0);
    }
  }

  lemma {:induction false} CutGrows(s: seq<Sample>, x: Sample, c1: int, c2: int)
    requires c1 <= c2
    ensures Cut(s, c1) <= Cut(s + [x], c2)
  {
    var k' := Cut(s + [x], c2);
    CutSplits(s, c1);
    CutSplits(s + [x], c2);
    assert k' < |s| ==> (s + [x])[k'] == s[k'];
  }

  lemma {:induction false} RetainedSnoc(log: seq<Sample>, x: Sample, cutoffs: seq<int>, cutoff: int, maxLen: nat)
    requires |log| == |cutoffs|
    ensures Retained(log + [x], cutoffs + [cutoff], maxLen)
         == RecordStep(Retained(log, cutoffs, maxLen), x, cutoff, maxLen)
  {
    assert (log + [x])[..|log|] == log && (cutoffs + [cutoff])[..|cutoffs|] == cutoffs;
  }

  lemma RunRecordsSnoc(es: seq<Event>, e: Event, retain: int, maxLen: nat)
    ensures RunRecords(es + [e], retain, maxLen)
         == RecordStep(RunRecords(es, retain, maxLen), e.sample, UnixMilli(e.now - retain), maxLen)
  {
    assert (es + [e])[..|es|] == es;
    RetainedSnoc(Log(es), e.sample, Cutoffs(es, retain), UnixMilli(e.now - retain), maxLen);
  }

  /** The buffer is always a suffix of the log no longer than the cap, in whatever order timestamps arrive. */
  lemma {:induction false} BufferIsRecentSuffix(es: seq<Event>, retain: int, maxLen: nat)
    ensures var b := RunRecords(es, retain, maxLen);
      |b| <= maxLen && |b| <= |es| && b == Log(es)[|es| - |b|..]
  {
    RetainedIsSuffix(Log(es), Cutoffs(es, retain), maxLen);
  }

  lemma {:induction false} RetainedIsSuffix(log: seq<Sample>, cutoffs: seq<int>, maxLen: nat)
    requires |log| == |cutoffs|
    ensures var b := Retained(log, cutoffs, maxLen);
      |b| <= maxLen && |b| <= |log| && b == log[|log| - |b|..]
    decreases |log|
  {
    if log != [] {
      var n := |log| - 1;
      RetainedIsSuffix(log[..n], cutoffs[..n], maxLen);
      assert log == log[..n] + [log[n]];
      SuffixStep(log[..n], Retained(log[..n], cutoffs[..n], maxLen), log[n], cutoffs[n], maxLen);
    }
  }

  lemma SuffixStep(log: seq<Sample>, prev: seq<Sample>, x: Sample, cutoff: int, maxLen: nat)
    requires |prev| <= |log| && prev == log[|log| - |prev|..]
    ensures var b := RecordStep(prev, x, cutoff, maxLen);
      |b| <= maxLen && |b| <= |log| + 1 && b == (log + [x])[|log| + 1 - |b|..]
  {
    var all, log' := prev + [x], log + [x];
    assert all == log'[|log'| - |all|..];
    var kept := all[Cut(all, cutoff)..];
    assert kept == log'[|log'| - |kept|..];
  }

  /** One call, on a buffer that is the log from position `a` on. */
  lemma WindowStep(prior: seq<Sample>, x: Sample, a: nat, cutoff: int, maxLen: nat)
    requires Sorted(prior + [x]) && a <= |prior|
    requires a <= WindowStart(prior + [x], cutoff, maxLen)
    ensures RecordStep(prior[a..], x, cutoff, maxLen) == (prior + [x])[WindowStart(prior + [x], cutoff, maxLen)..]
  {
    var log := prior + [x];
    assert prior[a..] + [x] == log[a..];
    SuffixTrimmed(log, a, cutoff, maxLen);
  }

  /** Trimming a suffix that reaches back far enough leaves the window of the whole. */
  lemma {:induction false} SuffixTrimmed(log: seq<Sample>, a: nat, cutoff: int, maxLen: nat)
    requires Sorted(log) && a <= |log| && a <= WindowStart(log, cutoff, maxLen)
    ensures Cut(log[a..], cutoff) <= |log[a..]|
    ensures LastN(log[a..][Cut(log[a..], cutoff)..], maxLen) == log[WindowStart(log, cutoff, maxLen)..]
  {
    var k := Cut(log[a..], cutoff);
    CutOfSuffix(log, cutoff, a);
    SuffixOfSuffix(log, a, k);
    LastNOfSuffix(log, a + k, maxLen);
  }

  /** From one call to the next: the window on the longer log, for a cutoff that has not moved back. */
  lemma WindowNext(prior: seq<Sample>, x: Sample, c1: int, c2: int, maxLen: nat)
    requires Sorted(prior + [x]) && c1 <= c2
    ensures RecordStep(prior[WindowStart(prior, c1, maxLen)..], x, c2, maxLen)
         == (prior + [x])[WindowStart(prior + [x], c2, maxLen)..]
  {
    CutGrows(prior, x, c1, c2);
    WindowStep(prior, x, WindowStart(prior, c1, maxLen), c2, maxLen);
  }

  /** Whether the buffer is the window the log's own cutoff and cap leave of it. */
  ghost predicate WindowOf(buffer: seq<Sample>, log: seq<Sample>, cutoff: int, maxLen: nat) {
    buffer == log[WindowStart(log, cutoff, maxLen)..]
  }

  lemma {:induction false} RetainedIsWindowSnoc(log: seq<Sample>, x: Sample, falls: seq<int>, cutoff: int, maxLen: nat)
    requires |log| == |falls| > 0 && Sorted(log + [x]) && falls[|falls| - 1] <= cutoff
    requires WindowOf(Retained(log, falls, maxLen), log, falls[|falls| - 1], maxLen)
    ensures WindowOf(Retained(log + [x], falls + [cutoff], maxLen), log + [x], cutoff, maxLen)
  {
    RetainedSnoc(log, x, falls, cutoff, maxLen);
    WindowNext(log, x, falls[|falls| - 1], cutoff, maxLen);
  }

  lemma {:induction false} RetainedFirst(log: seq<Sample>, x: Sample, falls: seq<int>, cutoff: int, maxLen: nat)
    requires log == [] && falls == []
    ensures WindowOf(Retained(log + [x], falls + [cutoff], maxLen), log + [x], cutoff, maxLen)
  {
    RetainedSnoc(log, x, falls, cutoff, maxLen);
    WindowNext(log, x, cutoff, cutoff, maxLen);
  }

  lemma {:induction false} PrefixIsWindow(log: seq<Sample>, cutoffs: seq<int>, maxLen: nat, n: nat)
    requires |log| == |cutoffs| > n && Sorted(log) && NeverFalling(cutoffs)
    ensures WindowOf(Retained(log[..n] + [log[n]], cutoffs[..n] + [cutoffs[n]], maxLen),
                     log[..n] + [log[n]], cutoffs[n], maxLen)
  {
    var front, x, falls, cutoff := log[..n], log[n], cutoffs[..n], cutoffs[n];
    assert log[..n + 1] == front + [x];
    if n == 0 {
      RetainedFirst(front, x, falls, cutoff, maxLen);
    } else {
      PrefixIsWindow(log, cutoffs, maxLen, n - 1);
      assert front == log[..n - 1] + [log[n - 1]] && falls == cutoffs[..n - 1] + [cutoffs[n - 1]];
      RetainedIsWindowSnoc(front, x, falls, cutoff, maxLen);
    }
  }

  lemma {:induction false} RetainedIsWindow(log: seq<Sample>, cutoffs: seq<int>, maxLen: nat)
    requires |log| == |cutoffs| > 0 && Sorted(log) && NeverFalling(cutoffs)
    ensures WindowOf(Retained(log, cutoffs, maxLen), log, cutoffs[|log| - 1], maxLen)
  {
    var n := |log| - 1;
    PrefixIsWindow(log, cutoffs, maxLen, n);
    assert log == log[..n] + [log[n]] && cutoffs == cutoffs[..n] + [cutoffs[n]];
  }

  lemma {:induction false} BufferIsWindow(es: seq<Event>, retain: int, maxLen: nat)
    requires Monotone(es) && es != []
    ensures WindowOf(RunRecords(es, retain, maxLen), Log(es), UnixMilli(es[|es| - 1].now - retain), maxLen)
  {
    LogSorted(es);
    CutoffsAt(es, retain);
    CutoffsNeverFall(es, retain);
    RetainedIsWindow(Log(es), Cutoffs(es, retain), maxLen);
  }

  /**
   After any monotone run of Record the buffer is the last `maxLen` samples of the full log that are not older than
   the retention cutoff.
   */
  lemma {:induction false} RetentionRefinesLog(es: seq<Event>, retain: int, maxLen: nat)
    requires Monotone(es) && es != []
    ensures RunRecords(es, retain, maxLen)
         == LastN(Since(Log(es), UnixMilli(es[|es| - 1].now - retain)), maxLen)
  {
    var cutoff := UnixMilli(es[|es| - 1].now - retain);
    LogSorted(es);
    BufferIsWindow(es, retain, maxLen);
    SinceIsSuffix(Log(es), cutoff);
    LastNOfSuffix(Log(es), Cut(Log(es), cutoff), maxLen);
  }

  // ---------- When a query is exact ----------

  /**
   A query that reaches no further back than the retention window sees in the buffer what it would see in the full
   log exactly when the log holds no more than `maxLen` samples in its range.
   */
  lemma {:induction false} QueryExactIff(es: seq<Event>, retain: int, maxLen: nat, cutoff: int)
    requires Monotone(es) && es != []
    requires UnixMilli(es[|es| - 1].now - retain) <= cutoff
    ensures Since(RunRecords(es, retain, maxLen), cutoff) == Since(Log(es), cutoff)
       <==> |Since(Log(es), cutoff)| <= maxLen
  {
    LogSorted(es);
    BufferIsWindow(es, retain, maxLen);
    WindowExactIff(Log(es), UnixMilli(es[|es| - 1].now - retain), maxLen, cutoff);
  }

  lemma {:induction false} CutOlder(s: seq<Sample>, c1: int, c2: int)
    requires c1 <= c2
    ensures Cut(s, c1) <= Cut(s, c2)
  {
    CutSplits(s, c1);
    CutSplits(s, c2);
  }

  lemma {:induction false} WindowExactIff(log: seq<Sample>, c: int, maxLen: nat, cutoff: int)
    requires Sorted(log) && c <= cutoff
    ensures var window := log[WindowStart(log, c, maxLen)..];
      Since(window, cutoff) == Since(log, cutoff) <==> |Since(log, cutoff)| <= maxLen
  {
    var a := WindowStart(log, c, maxLen);
    var window := log[a..];
    assert Sorted(window);
    SinceIsSuffix(log, cutoff);
    SinceIsSuffix(window, cutoff);
    CutOfSuffix(log, cutoff, a);
    SuffixOfSuffix(log, a, Cut(window, cutoff));
    CutOlder(log, c, cutoff);
  }

  /** Consecutive samples are at least `d` milliseconds apart, and none is stamped after the clock that records it. */
  ghost predicate Spaced(es: seq<Event>, d: nat) {
    && (forall i :: 0 <= i < |es| ==> es[i].sample.timestamp <= UnixMilli(es[i].now))
    && (forall i :: 0 < i < |es| ==> es[i - 1].sample.timestamp + d <= es[i].sample.timestamp)
  }

  lemma {:induction false} SpacedApart(es: seq<Event>, d: nat, i: nat, j: nat)
    requires Spaced(es, d) && i <= j < |es|
    ensures es[i].sample.timestamp + (j - i) * d <= es[j].sample.timestamp
    decreases j - i
  {
    if i < j {
      SpacedApart(es, d, i, j - 1);
      assert (j - i) * d == (j - 1 - i) * d + d;
    }
  }

  /** With samples at least `d` apart, a window narrower than `n * d` milliseconds holds at most `n` of them. */
  lemma {:induction false} SpacedCount(es: seq<Event>, d: nat, cutoff: int, width: nat, n: nat)
    requires Monotone(es) && es != [] && Spaced(es, d)
    requires UnixMilli(es[|es| - 1].now) <= cutoff + width && width < n * d
    ensures |Since(Log(es), cutoff)| <= n
  {
    var k := Cut(Log(es), cutoff);
    LogSorted(es);
    SinceIsSuffix(Log(es), cutoff);
    if k < |es| {
      LogAt(es);
      CutSplits(Log(es), cutoff);
      SpacedFit(es, d, k, cutoff, width, n);
    }
  }

  lemma SpacedFit(es: seq<Event>, d: nat, k: nat, cutoff: int, width: nat, n: nat)
    requires Spaced(es, d) && k < |es| && cutoff <= es[k].sample.timestamp
    requires UnixMilli(es[|es| - 1].now) <= cutoff + width && width < n * d
    ensures |es| - k <= n
  {
    SpacedApart(es, d, k, |es| - 1);
    if n <= |es| - k - 1 {
      MulMonotone(n, |es| - k - 1, d);
    }
  }

  /**
   A query no longer than the retention window, made no earlier than the last Record, is exact when samples are so far
   apart that the cap cannot be exceeded within the queried range.
   */
  lemma {:induction false} QueryExact(es: seq<Event>, retain: int, maxLen: nat, d: nat, rangeDur: nat, now: int)
    requires Monotone(es) && es != [] && Spaced(es, d)
    requires rangeDur <= retain && es[|es| - 1].now <= now
    requires UnixMilli(now) - UnixMilli(now - rangeDur) < maxLen * d
    ensures Since(RunRecords(es, retain, maxLen), UnixMilli(now - rangeDur))
         == Since(Log(es), UnixMilli(now - rangeDur))
  {
    var e := es[|es| - 1];
    var cutoff := UnixMilli(now - rangeDur);
    UnixMilliMonotone(e.now - retain, now - rangeDur);
    UnixMilliMonotone(e.now, now);
    UnixMilliMonotone(now - rangeDur, now);
    SpacedCount(es, d, cutoff, UnixMilli(now) - cutoff, maxLen);
    QueryExactIff(es, retain, maxLen, cutoff);
  }

  // ---------- The program's own parameters ----------

  /** The duration and point count a range label selects. */
  function ParseHistoryRange(name: string): (int, int) {
    if name == "1m" then (60 * NS_PER_SEC, 60)
    else if name == "12h" then (12 * HOUR, 180)
    else if name == "24h" then (DAY, 240)
    else (HOUR, 120)
  }

  /** Every label's query is exact on the collector's history when samples are at least 1729 ms apart. */
  lemma {:induction false} LabelsExact(es: seq<Event>, d: nat, name: string, now: int)
    requires Monotone(es) && es != [] && Spaced(es, d) && d >= 1729
    requires es[|es| - 1].now <= now
    ensures var cutoff := UnixMilli(now - ParseHistoryRange(name).0);
      Since(RunRecords(es, DEFAULT_RETAIN, DEFAULT_MAX_LEN), cutoff) == Since(Log(es), cutoff)
  {
    var rangeDur := ParseHistoryRange(name).0;
    var width := UnixMilli(now) - UnixMilli(now - rangeDur);
    assert width == rangeDur / NS_PER_MS;
    MulMonotone(1729, d, DEFAULT_MAX_LEN);
    QueryExact(es, DEFAULT_RETAIN, DEFAULT_MAX_LEN, d, rangeDur, now);
  }

  /** A run of calls exactly `d` milliseconds apart, starting at the epoch. */
  function Steady(n: nat, d: nat): seq<Event> {
    seq(n, i requires 0 <= i < n => Event(Sample(i * d, 0.0, 0.0, 0.0, 0.0, 0.0), i * d * NS_PER_MS))
  }

  lemma SteadyRuns(n: nat, d: nat)
    ensures Monotone(Steady(n, d)) && Spaced(Steady(n, d), d)
  {
    var es := Steady(n, d);
    forall i, j | 0 <= i <= j < n
      ensures es[i].sample.timestamp <= es[j].sample.timestamp && es[i].now <= es[j].now
    {
      assert i * d <= j * d;
    }
    forall i | 0 < i < n
      ensures es[i - 1].sample.timestamp + d <= es[i].sample.timestamp
    {
      assert (i - 1) * d + d == i * d;
    }
  }

  /** The bound is sharp: at any closer spacing there is a run after which the 24-hour query has lost a sample. */
  lemma CloserSpacingLoses(d: nat) returns (es: seq<Event>, now: int)
    requires 0 < d <= 1728
    ensures Monotone(es) && Spaced(es, d) && es != [] && es[|es| - 1].now <= now
    ensures var cutoff := UnixMilli(now - ParseHistoryRange("24h").0);
      Since(RunRecords(es, DEFAULT_RETAIN, DEFAULT_MAX_LEN), cutoff) != Since(Log(es), cutoff)
  {
    es := Steady(50001, d);
    now := 50000 * d * NS_PER_MS;
    SteadyRuns(50001, d);
    MulMonotone(d, 1728, 50000);
    assert es[50000] == Event(Sample(50000 * d, 0.0, 0.0, 0.0, 0.0, 0.0), now);
    AllInRange(es, UnixMilli(now - DAY));
    QueryExactIff(es, DEFAULT_RETAIN, DEFAULT_MAX_LEN, UnixMilli(now - DAY));
  }

  lemma {:induction false} AllInRange(es: seq<Event>, cutoff: int)
    requires Monotone(es) && es != [] && cutoff <= es[0].sample.timestamp
    ensures |Since(Log(es), cutoff)| == |es|
  {
    LogSorted(es);
    LogAt(es);
    SinceIsSuffix(Log(es), cutoff);
    CutIs(Log(es), cutoff, 0);
  }
}
