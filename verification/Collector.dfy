/** The host collector: readings in, metrics out, with the previous counters kept between calls. */
module Collector {
  import History
  import opened HostMetrics
  import opened MetricsHistory
  import opened RateAccounting
  import opened Sequences
  import opened TickAccounting

  /** What the operating system reports at one call; any of the four queries may fail. */
  datatype Sources = Unavailable | Sources(
    cpuPercents: seq<real>, memoryUsed: nat, memoryTotal: nat, memoryPercent: real, disk: DiskStats,
    sent: seq<nat>, recv: seq<nat>)

  const WORD := 0x1_0000_0000_0000_0000

  /** The sum of per-interface counters in 64-bit unsigned arithmetic. */
  function Total(counters: seq<nat>): (t: nat)
    ensures t < WORD
  {
    if counters == [] then 0 else (Total(counters[..|counters| - 1]) + counters[|counters| - 1]) % WORD
  }

  function Sum(counters: seq<nat>): nat {
    if counters == [] then 0 else Sum(counters[..|counters| - 1]) + counters[|counters| - 1]
  }

  /** The total wraps around: it is the true sum modulo 2^64. */
  lemma {:induction false} TotalWraps(counters: seq<nat>)
    ensures Total(counters) == Sum(counters) % 0x1_0000_0000_0000_0000
  {
    if counters != [] {
      TotalWraps(counters[..|counters| - 1]);
    }
  }

  method TotalOf(counters: seq<nat>) returns (t: nat)
    ensures t == Total(counters)
  {
    t := 0;
    for i := 0 to |counters|
      invariant t == Total(counters[..i])
    {
      assert counters[..i + 1][..i] == counters[..i];
      t := (t + counters[i]) % WORD;
    }
    assert counters[..|counters|] == counters;
  }

  /** The upload rates in the samples of a run of Record, and the download rates. */
  function NetUps(es: seq<Event>): seq<real> {
    if es == [] then [] else NetUps(es[..|es| - 1]) + [es[|es| - 1].sample.netUp]
  }

  function NetDowns(es: seq<Event>): seq<real> {
    if es == [] then [] else NetDowns(es[..|es| - 1]) + [es[|es| - 1].sample.netDown]
  }

  function AsReals(ns: seq<nat>): seq<real> {
    if ns == [] then [] else AsReals(ns[..|ns| - 1]) + [ns[|ns| - 1] as real]
  }

  lemma {:induction false} AsRealsSnoc(ns: seq<nat>, n: nat)
    ensures AsReals(ns + [n]) == AsReals(ns) + [n as real]
  {
    assert (ns + [n])[..|ns|] == ns;
  }

  lemma {:induction false} NetRatesSnoc(es: seq<Event>, e: Event)
    ensures NetUps(es + [e]) == NetUps(es) + [e.sample.netUp]
    ensures NetDowns(es + [e]) == NetDowns(es) + [e.sample.netDown]
  {
    assert (es + [e])[..|es|] == es;
  }

  /** The history holds the rates reported to the ticks. */
  ghost predicate Records(es: seq<Event>, sent: seq<Reading>, recv: seq<Reading>, ticks: seq<bool>)
    requires |sent| == |recv| == |ticks|
  {
    && NetUps(es) == AsReals(Keep(Rates(sent), ticks, true))
    && NetDowns(es) == AsReals(Keep(Rates(recv), ticks, true))
  }

  lemma RecordsBare(es: seq<Event>, sent: seq<Reading>, recv: seq<Reading>, ticks: seq<bool>, s: Reading, r: Reading)
    requires |sent| == |recv| == |ticks| && Records(es, sent, recv, ticks)
    ensures Records(es, sent + [s], recv + [r], ticks + [false])
  {
    KeepRates(sent, ticks, s, false);
    KeepRates(recv, ticks, r, false);
    assert Keep(Rates(sent), ticks, true) + [] == Keep(Rates(sent), ticks, true);
    assert Keep(Rates(recv), ticks, true) + [] == Keep(Rates(recv), ticks, true);
  }

  /** The last readings are those of a tick after all. */
  lemma RecordsMark(es: seq<Event>, sent: seq<Reading>, recv: seq<Reading>, ticks: seq<bool>, e: Event)
    requires |sent| == |recv| == |ticks| > 0 && !ticks[|ticks| - 1] && Records(es, sent, recv, ticks)
    requires e.sample.netUp == LastRate(sent) as real && e.sample.netDown == LastRate(recv) as real
    ensures Records(es + [e], sent, recv, ticks[..|ticks| - 1] + [true])
  {
    KeepMark(sent, ticks);
    KeepMark(recv, ticks);
    AsRealsSnoc(Keep(Rates(sent), ticks, true), LastRate(sent));
    AsRealsSnoc(Keep(Rates(recv), ticks, true), LastRate(recv));
    NetRatesSnoc(es, e);
  }

  lemma {:induction false} KeepMark(rs: seq<Reading>, ticks: seq<bool>)
    requires |rs| == |ticks| > 0 && !ticks[|ticks| - 1]
    ensures Keep(Rates(rs), ticks[..|ticks| - 1] + [true], true) == Keep(Rates(rs), ticks, true) + [LastRate(rs)]
  {
    var n := |rs| - 1;
    var front, r, marks := rs[..n], rs[n], ticks[..n];
    assert rs == front + [r] && ticks == marks + [false];
    KeepRates(front, marks, r, true);
    KeepRates(front, marks, r, false);
    assert Keep(Rates(front), marks, true) + [] == Keep(Rates(front), marks, true);
  }

  lemma {:induction false} KeepRates(rs: seq<Reading>, ticks: seq<bool>, r: Reading, tick: bool)
    requires |rs| == |ticks|
    ensures Keep(Rates(rs + [r]), ticks + [tick], true)
         == Keep(Rates(rs), ticks, true) + if tick then [LastRate(rs + [r])] else []
  {
    RatesSnoc(rs, r);
    KeepSnoc(Rates(rs), ticks, true, LastRate(rs + [r]), tick);
  }

  /** The sample for what the system reported and the rates since the previous call. */
  function Recording(src: Sources, stamp: int, up: nat, down: nat): Sample
    requires src.Sources?
  {
    var cpu := if src.cpuPercents == [] then 0.0 else src.cpuPercents[0];
    Sample(UnixMilli(stamp), cpu, src.memoryPercent, src.disk.usedPercent, up as real, down as real)
  }

  /** The rate of one counter; zero when the clock did not advance or the counter went back. */
  method RatePerSec(prev: nat, total: nat, elapsed: int) returns (rate: nat)
    ensures rate == Rate(prev, total, elapsed)
    ensures elapsed > 0 && total >= prev ==>
              Bytes(rate, elapsed) <= (total - prev) as real < Bytes(rate, elapsed) + Seconds(elapsed)
    ensures elapsed <= 0 || total < prev ==> rate == 0
  {
    StepBounds(Reading(0, prev), Reading(elapsed, total));
    rate := 0;
    if elapsed > 0 && total >= prev {
      rate := ((total - prev) as real / Seconds(elapsed)).Floor;
    }
  }

  class Collector {
    var latest: Option<Metrics>
    var prevNetSent: nat
    var prevNetRecv: nat
    var prevTime: int
    var hasPrevNet: bool
    const history: History.History
    ghost var sentReadings: seq<Reading>
    ghost var recvReadings: seq<Reading>
    ghost var ticks: seq<bool>

    /** The kept counters are the last readings; `ticks` tells which of them went into the history. */
    ghost predicate Valid()
      reads this
    {
      && |sentReadings| == |recvReadings| == |ticks|
      && (hasPrevNet <==> sentReadings != [])
      && (hasPrevNet ==>
            && sentReadings[|sentReadings| - 1] == Reading(prevTime, prevNetSent)
            && recvReadings[|recvReadings| - 1] == Reading(prevTime, prevNetRecv))
    }

    /** The history holds exactly the rates of the ticks. */
    ghost predicate Accounted()
      requires Valid()
      reads this, history
    {
      Records(history.events, sentReadings, recvReadings, ticks)
    }

    constructor ()
      ensures Valid() && Accounted() && !hasPrevNet && sentReadings == []
      ensures fresh(history) && history.Valid() && history.events == []
      ensures history.retain == DEFAULT_RETAIN && history.maxLen == DEFAULT_MAX_LEN
    {
      latest, prevNetSent, prevNetRecv, prevTime, hasPrevNet := None, 0, 0, 0, false;
      sentReadings, recvReadings, ticks := [], [], [];
      history := new History.History(24 * HOUR, 50000);
    }

    /** The readings of a call join the run of all readings. */
    ghost method Note(sent: Reading, recv: Reading)
      requires |sentReadings| == |recvReadings| == |ticks|
      modifies this`sentReadings, this`recvReadings, this`ticks
      ensures sentReadings == old(sentReadings) + [sent] && recvReadings == old(recvReadings) + [recv]
      ensures ticks == old(ticks) + [false]
      ensures old(Records(history.events, sentReadings, recvReadings, ticks)) ==>
                Records(history.events, sentReadings, recvReadings, ticks)
    {
      if Records(history.events, sentReadings, recvReadings, ticks) {
        RecordsBare(history.events, sentReadings, recvReadings, ticks, sent, recv);
      }
      sentReadings, recvReadings, ticks := sentReadings + [sent], recvReadings + [recv], ticks + [false];
    }

    /** The rates since the previous call, whose counters the new ones replace. */
    method NetworkRates(totalSent: nat, totalRecv: nat, now: int) returns (netStats: NetworkStats)
      requires Valid()
      modifies this`prevNetSent, this`prevNetRecv, this`prevTime, this`hasPrevNet
      modifies this`sentReadings, this`recvReadings, this`ticks
      ensures Valid() && (old(Accounted()) ==> Accounted())
      ensures sentReadings == old(sentReadings) + [Reading(now, totalSent)]
      ensures recvReadings == old(recvReadings) + [Reading(now, totalRecv)]
      ensures ticks == old(ticks) + [false]
      ensures netStats == NetworkStats(LastRate(sentReadings), LastRate(recvReadings), totalSent, totalRecv)
    {
      var sentPerSec, recvPerSec := 0, 0;
      if hasPrevNet {
        var elapsed := now - prevTime;
        sentPerSec := RatePerSec(prevNetSent, totalSent, elapsed);
        recvPerSec := RatePerSec(prevNetRecv, totalRecv, elapsed);
      }
      Note(Reading(now, totalSent), Reading(now, totalRecv));
      prevNetSent, prevNetRecv, prevTime, hasPrevNet := totalSent, totalRecv, now, true;
      netStats := NetworkStats(sentPerSec, recvPerSec, totalSent, totalRecv);
    }

    /** One call, at time `now`, stamped `stamp` (both in nanoseconds); None is the error return. */
    method Collect(src: Sources, now: int, stamp: int) returns (m: Option<Metrics>)
      requires Valid()
      modifies this
      ensures Valid() && (old(Accounted()) ==> Accounted())
      ensures src.Unavailable? ==>
                && m == None && latest == old(latest)
                && sentReadings == old(sentReadings) && recvReadings == old(recvReadings) && ticks == old(ticks)
      ensures src.Sources? ==>
                && m.Some? && latest == m && m.value.timestamp == UnixMilli(stamp)
                && sentReadings == old(sentReadings) + [Reading(now, Total(src.sent))]
                && recvReadings == old(recvReadings) + [Reading(now, Total(src.recv))]
                && ticks == old(ticks) + [false]
                && m.value.network == NetworkStats(
                     LastRate(sentReadings), LastRate(recvReadings), Total(src.sent), Total(src.recv))
                && m.value.memoryUsed == src.memoryUsed && m.value.memoryTotal == src.memoryTotal
                && m.value.cpuPercent == (if src.cpuPercents == [] then 0.0 else src.cpuPercents[0])
                && m.value.memoryPercent == src.memoryPercent && m.value.disk == src.disk
                && SampleOf(m.value) == Recording(src, stamp, LastRate(sentReadings), LastRate(recvReadings))
    {
      if src.Unavailable? {
        return None;
      }
      var totalSent := TotalOf(src.sent);
      var totalRecv := TotalOf(src.recv);
      var cpuPercent := if |src.cpuPercents| > 0 then src.cpuPercents[0] else 0.0;
      var netStats := NetworkRates(totalSent, totalRecv, now);
      m := Some(Metrics(UnixMilli(stamp), cpuPercent, src.memoryUsed, src.memoryTotal, src.memoryPercent, src.disk,
                        netStats));
      latest := m;
    }

    /** The result of the last call goes into the history. */
    method Store(m: Metrics, clock: int)
      requires Valid() && history.Valid() && Accounted()
      requires hasPrevNet && !ticks[|ticks| - 1]
      requires SampleOf(m).netUp == LastRate(sentReadings) as real
      requires SampleOf(m).netDown == LastRate(recvReadings) as real
      modifies this`ticks, history
      ensures Valid() && history.Valid() && Accounted()
      ensures ticks == old(ticks)[..|old(ticks)| - 1] + [true]
      ensures history.events == old(history.events) + [Event(SampleOf(m), clock)]
    {
      history.Record(m, clock);
      RecordsMark(old(history.events), sentReadings, recvReadings, ticks, Event(SampleOf(m), clock));
      ticks := ticks[..|ticks| - 1] + [true];
    }

    /** One tick of Run: a successful collection is recorded, a failed one leaves the history alone. */
    method Tick(src: Sources, now: int, stamp: int, clock: int)
      requires Valid() && history.Valid() && Accounted()
      modifies this, history
      ensures Valid() && history.Valid() && Accounted()
      ensures src.Unavailable? ==> history.events == old(history.events) && history.samples == old(history.samples)
      ensures src.Sources? ==>
                && sentReadings == old(sentReadings) + [Reading(now, Total(src.sent))]
                && recvReadings == old(recvReadings) + [Reading(now, Total(src.recv))]
                && ticks == old(ticks) + [true]
      ensures src.Sources? ==>
                history.events == old(history.events) + [
                  Event(Recording(src, stamp, LastRate(sentReadings), LastRate(recvReadings)), clock)]
      ensures src.Sources? ==>
                var sample := history.events[|history.events| - 1].sample;
                && sample.timestamp == UnixMilli(stamp) && sample.memory == src.memoryPercent
                && sample.cpu == (if src.cpuPercents == [] then 0.0 else src.cpuPercents[0])
                && sample.disk == src.disk.usedPercent
                && sample.netUp == LastRate(sentReadings) as real && sample.netDown == LastRate(recvReadings) as real
    {
      var m := Collect(src, now, stamp);
      if m.Some? {
        Store(m.value, clock);
      }
    }
  }
}
