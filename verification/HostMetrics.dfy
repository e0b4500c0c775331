/** The readings the host collector publishes, and the clock arithmetic of the host package. */
module HostMetrics {

  /** Bytes per second and running totals; the program holds them as unsigned 64-bit values. */
  datatype NetworkStats = NetworkStats(sentPerSec: nat, recvPerSec: nat, totalSent: nat, totalRecv: nat)

  datatype DiskStats = DiskStats(total: nat, used: nat, free: nat, usedPercent: real)

  datatype Metrics = Metrics(
    timestamp: int, cpuPercent: real, memoryUsed: nat, memoryTotal: nat, memoryPercent: real,
    disk: DiskStats, network: NetworkStats)

  const NS_PER_MS := 1_000_000
  const NS_PER_SEC := 1_000_000_000
  const HOUR := 3600 * NS_PER_SEC
  const DAY := 24 * HOUR

  /** Milliseconds since the epoch of a clock in nanoseconds, rounded down (`Time.UnixMilli`). */
  function UnixMilli(ns: int): int {
    ns / NS_PER_MS
  }

  /** A millisecond is a million nanoseconds, and what is left of one does not count. */
  lemma UnixMilliOf(ms: int, rest: int)
    requires 0 <= rest < 1_000_000
    ensures UnixMilli(ms * 1_000_000 + rest) == ms
  {
  }

  lemma UnixMilliMonotone(a: int, b: int)
    requires a <= b
    ensures UnixMilli(a) <= UnixMilli(b)
  {
  }

  /** Go's integer division: it truncates toward zero. */
  function TruncDiv(a: int, b: int): int
    requires b > 0
  {
    if a >= 0 then a / b else -((-a) / b)
  }

  /** The quotient times the divisor falls short of the dividend, toward zero, by less than one divisor. */
  lemma TruncDivTowardZero(a: int, b: int)
    requires b > 0
    ensures a >= 0 ==> TruncDiv(a, b) * b <= a < TruncDiv(a, b) * b + b
    ensures a < 0 ==> TruncDiv(a, b) * b - b < a <= TruncDiv(a, b) * b
  {
    if a < 0 {
      var q := (-a) / b;
      assert q * b <= -a < q * b + b;
      assert (-q) * b == -(q * b);
    }
  }

  lemma MulMonotone(x: int, y: int, b: int)
    requires x <= y && 0 <= b
    ensures x * b <= y * b
  {
    assert y * b - x * b == (y - x) * b;
  }

  lemma DivAtLeast(n: int, a: int, b: int)
    requires b > 0 && n * b <= a
    ensures n <= a / b
  {
    var q := a / b;
    assert a < q * b + b;
    if q < n {
      MulMonotone(q + 1, n, b);
    }
  }

  lemma DivAtMost(n: int, a: int, b: int)
    requires b > 0 && a < n * b + b
    ensures a / b <= n
  {
    var q := a / b;
    assert q * b <= a;
    if n < q {
      MulMonotone(n + 1, q, b);
    }
  }

  /** A rounded-down quotient stays between any integer bounds of the exact one. */
  lemma DivBetween(a: int, b: int, lo: int, hi: int)
    requires b > 0 && lo * b <= a <= hi * b
    ensures lo <= a / b <= hi
  {
    DivAtLeast(lo, a, b);
    DivAtMost(hi, a, b);
  }

  /** So does a truncated one. */
  lemma TruncDivBetween(a: int, b: int, lo: int, hi: int)
    requires b > 0 && lo * b <= a <= hi * b
    ensures lo <= TruncDiv(a, b) <= hi
  {
    if a >= 0 {
      DivBetween(a, b, lo, hi);
    } else {
      assert (-hi) * b == -(hi * b) && (-lo) * b == -(lo * b);
      DivBetween(-a, b, -hi, -lo);
    }
  }
}
