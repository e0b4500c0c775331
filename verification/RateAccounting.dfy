/** The collector's network rates: what a run of readings credits, against how far the counter really moved. */
module RateAccounting {
  import opened HostMetrics
  import opened Sequences

  function Seconds(ns: int): real {
    ns as real / NS_PER_SEC as real
  }

  /** The rate of one step: zero when the clock did not advance or the counter went back. */
  function Rate(prev: nat, total: nat, elapsedNs: int): nat {
    if elapsedNs > 0 && total >= prev then ((total - prev) as real / Seconds(elapsedNs)).Floor else 0
  }

  /** One reading of a counter at a time in nanoseconds. */
  datatype Reading = Reading(time: int, total: nat)

  /** The step from `a` to `b` can be credited: the clock advanced and the counter did not go back. */
  predicate Creditable(a: Reading, b: Reading) {
    b.time > a.time && b.total >= a.total
  }

  /** The bytes a rate accounts for: as many each second as it says. */
  function Bytes(rate: nat, ns: int): real {
    if rate == 0 then 0.0 else Bytes(rate - 1, ns) + Seconds(ns)
  }

  lemma {:induction false} BytesAre(rate: nat, ns: int)
    ensures Bytes(rate, ns) == rate as real * Seconds(ns)
  {
    if rate > 0 {
      BytesAre(rate - 1, ns);
    }
  }

  /** The bytes the rate of a step accounts for. */
  function StepCredit(a: Reading, b: Reading): real {
    Bytes(Rate(a.total, b.total, b.time - a.time), b.time - a.time)
  }

  function StepGrowth(a: Reading, b: Reading): nat {
    if Creditable(a, b) then b.total - a.total else 0
  }

  function StepTime(a: Reading, b: Reading): nat {
    if Creditable(a, b) then b.time - a.time else 0
  }

  /** The bytes that the rates of a run of readings account for. */
  function Credited(rs: seq<Reading>): real {
    if |rs| < 2 then 0.0 else Credited(rs[..|rs| - 1]) + StepCredit(rs[|rs| - 2], rs[|rs| - 1])
  }

  /** The growth of the counter over the creditable steps. */
  function Growth(rs: seq<Reading>): nat {
    if |rs| < 2 then 0 else Growth(rs[..|rs| - 1]) + StepGrowth(rs[|rs| - 2], rs[|rs| - 1])
  }

  /** The time those steps take, in nanoseconds. */
  function Covered(rs: seq<Reading>): nat {
    if |rs| < 2 then 0 else Covered(rs[..|rs| - 1]) + StepTime(rs[|rs| - 2], rs[|rs| - 1])
  }

  lemma QuotientTimes(d: real, t: real)
    requires t > 0.0
    ensures d / t * t == d
  {
  }

  lemma Scale(a: real, b: real, t: real)
    requires t > 0.0
    ensures a <= b ==> a * t <= b * t
    ensures a < b ==> a * t < b * t
  {
    var g := (b - a) * t;
    assert g == b * t - a * t;
    if a < b {
      Positive(b - a, t);
    }
  }

  lemma Positive(x: real, t: real)
    requires x > 0.0 && t > 0.0
    ensures x * t > 0.0
  {
  }

  lemma Bracketed(f: real, q: real, t: real, d: real)
    requires t > 0.0 && q * t == d && f <= q < f + 1.0
    ensures f * t <= d < f * t + t
  {
    var h := f + 1.0;
    Scale(f, q, t);
    assert f * t <= q * t;
    Scale(q, h, t);
    assert h * t == f * t + t;
    assert q * t < h * t;
    assert d < h * t;
  }

  /** Rounding a rate down loses less than one byte per second. */
  lemma FlooredQuotient(d: real, t: real)
    requires t > 0.0
    ensures (d / t).Floor as real * t <= d < (d / t).Floor as real * t + t
  {
    QuotientTimes(d, t);
    Bracketed((d / t).Floor as real, d / t, t, d);
  }

  lemma StepBounds(a: Reading, b: Reading)
    ensures StepCredit(a, b) <= StepGrowth(a, b) as real <= StepCredit(a, b) + Seconds(StepTime(a, b))
    ensures StepTime(a, b) > 0 ==> StepGrowth(a, b) as real < StepCredit(a, b) + Seconds(StepTime(a, b))
  {
    if Creditable(a, b) {
      FlooredQuotient((b.total - a.total) as real, Seconds(b.time - a.time));
      BytesAre(Rate(a.total, b.total, b.time - a.time), b.time - a.time);
    }
  }

  /** Rates are per second: over whole seconds the rate is the growth shared among them, rounded down. */
  lemma RatePerWholeSecond(prev: nat, total: nat, seconds: nat)
    requires prev <= total && seconds > 0
    ensures Rate(prev, total, seconds * 1_000_000_000) == (total - prev) / seconds
  {
    assert Seconds(seconds * 1_000_000_000) == seconds as real;
    WholeQuotient(total - prev, seconds);
  }

  lemma WholeQuotient(d: nat, n: nat)
    requires n > 0
    ensures (d as real / n as real).Floor == d / n
  {
    var f := (d as real / n as real).Floor;
    FlooredQuotient(d as real, n as real);
    assert (f * n) as real == f as real * n as real;
    DivAtLeast(f, d, n);
    DivAtMost(f, d, n);
  }

  /** Bounds of this shape add up. */
  lemma BoundsAdd(c1: real, g1: nat, t1: nat, c2: real, g2: nat, t2: nat)
    requires c1 <= g1 as real <= c1 + Seconds(t1) && (t1 > 0 ==> g1 as real < c1 + Seconds(t1))
    requires c2 <= g2 as real <= c2 + Seconds(t2) && (t2 > 0 ==> g2 as real < c2 + Seconds(t2))
    ensures c1 + c2 <= (g1 + g2) as real <= c1 + c2 + Seconds(t1 + t2)
    ensures t1 + t2 > 0 ==> (g1 + g2) as real < c1 + c2 + Seconds(t1 + t2)
  {
  }

  /**
   Over any run of readings, with clock jumps and counter resets, the credited bytes are at most the creditable growth
   and short of it by no more than the seconds covered.
   */
  lemma {:induction false} CreditedAgainstGrowth(rs: seq<Reading>)
    ensures Credited(rs) <= Growth(rs) as real <= Credited(rs) + Seconds(Covered(rs))
    ensures Covered(rs) > 0 ==> Growth(rs) as real < Credited(rs) + Seconds(Covered(rs))
  {
    if |rs| >= 2 {
      var front, a, b := rs[..|rs| - 1], rs[|rs| - 2], rs[|rs| - 1];
      CreditedAgainstGrowth(front);
      StepBounds(a, b);
      BoundsAdd(Credited(front), Growth(front), Covered(front), StepCredit(a, b), StepGrowth(a, b), StepTime(a, b));
    }
  }

  /** Time strictly increases and the counter never goes back. */
  ghost predicate Steady(rs: seq<Reading>) {
    forall i :: 0 < i < |rs| ==> rs[i - 1].time < rs[i].time && rs[i - 1].total <= rs[i].total
  }

  lemma {:induction false} SteadyTelescopes(rs: seq<Reading>)
    requires Steady(rs) && rs != []
    ensures rs[0].total <= rs[|rs| - 1].total && rs[0].time <= rs[|rs| - 1].time
    ensures Growth(rs) == rs[|rs| - 1].total - rs[0].total
    ensures Covered(rs) == rs[|rs| - 1].time - rs[0].time
  {
    if |rs| >= 2 {
      SteadyTelescopes(rs[..|rs| - 1]);
    }
  }

  /**
   On a steady run the rates account for the whole movement of the counter, up to less than one byte for each second
   that passed.
   */
  lemma {:induction false} RatesTelescope(rs: seq<Reading>)
    requires Steady(rs) && |rs| >= 2
    ensures var growth, elapsed := rs[|rs| - 1].total - rs[0].total, Seconds(rs[|rs| - 1].time - rs[0].time);
      Credited(rs) <= growth as real < Credited(rs) + elapsed
  {
    SteadyTelescopes(rs);
    SteadyTelescopes(rs[..|rs| - 1]);
    CreditedAgainstGrowth(rs);
  }

  lemma {:induction false} CreditedSnoc(rs: seq<Reading>, r: Reading)
    ensures Credited(rs + [r]) == if rs == [] then 0.0 else Credited(rs) + StepCredit(rs[|rs| - 1], r)
  {
    assert (rs + [r])[..|rs|] == rs;
  }

  // ---------- Resets ----------

  lemma {:induction false} GrowthSnoc(rs: seq<Reading>, r: Reading)
    ensures Growth(rs + [r]) == if rs == [] then 0 else Growth(rs) + StepGrowth(rs[|rs| - 1], r)
  {
    assert (rs + [r])[..|rs|] == rs;
  }

  lemma {:induction false} CoveredSnoc(rs: seq<Reading>, r: Reading)
    ensures Covered(rs + [r]) == if rs == [] then 0 else Covered(rs) + StepTime(rs[|rs| - 1], r)
  {
    assert (rs + [r])[..|rs|] == rs;
  }

  /** Two runs one after the other are credited apart, plus the step between them. */
  lemma {:induction false} RunsConcat(a: seq<Reading>, b: seq<Reading>)
    requires a != [] && b != []
    ensures Credited(a + b) == Credited(a) + StepCredit(a[|a| - 1], b[0]) + Credited(b)
    ensures Growth(a + b) == Growth(a) + StepGrowth(a[|a| - 1], b[0]) + Growth(b)
    decreases |b|
  {
    var front, r := b[..|b| - 1], b[|b| - 1];
    assert a + b == (a + front) + [r] && b == front + [r];
    CreditedSnoc(a + front, r);
    GrowthSnoc(a + front, r);
    if front == [] {
      assert a + front == a && b == [r];
    } else {
      RunsConcat(a, front);
      CreditedSnoc(front, r);
      GrowthSnoc(front, r);
      assert (a + front)[|a + front| - 1] == front[|front| - 1];
    }
  }

  /** Steady stretches of readings, each beginning with a counter that was reset. */
  ghost predicate ResetBetween(stretches: seq<seq<Reading>>) {
    && (forall i :: 0 <= i < |stretches| ==> stretches[i] != [] && Steady(stretches[i]))
    && (forall i :: 0 < i < |stretches| ==>
          stretches[i][0].total < stretches[i - 1][|stretches[i - 1]| - 1].total)
  }

  /** What the rates account for within the stretches. */
  function CreditWithin(stretches: seq<seq<Reading>>): real {
    if stretches == [] then 0.0
    else CreditWithin(stretches[..|stretches| - 1]) + Credited(stretches[|stretches| - 1])
  }

  /** How far the counter moves within the stretches. */
  ghost function MovementWithin(stretches: seq<seq<Reading>>): int
    requires forall i :: 0 <= i < |stretches| ==> stretches[i] != []
  {
    if stretches == [] then 0
    else
      var last := stretches[|stretches| - 1];
      MovementWithin(stretches[..|stretches| - 1]) + (last[|last| - 1].total - last[0].total)
  }

  lemma {:induction false} LastOfFlatten(stretches: seq<seq<Reading>>, last: seq<Reading>)
    requires last != []
    ensures var all := Flatten(stretches + [last]); all != [] && all[|all| - 1] == last[|last| - 1]
  {
    FlattenSnoc(stretches, last);
  }

  /** One more stretch after a reset. */
  lemma {:induction false} StretchAdds(before: seq<Reading>, last: seq<Reading>)
    requires last != [] && Steady(last)
    requires before != [] ==> last[0].total < before[|before| - 1].total
    ensures Credited(before + last) == Credited(before) + Credited(last)
    ensures Growth(before + last) == Growth(before) + last[|last| - 1].total - last[0].total
  {
    SteadyTelescopes(last);
    if before == [] {
      assert before + last == last;
    } else {
      RunsConcat(before, last);
      ResetCreditsNothing(before[|before| - 1], last[0]);
    }
  }

  lemma ResetCreditsNothing(a: Reading, b: Reading)
    requires b.total < a.total
    ensures StepCredit(a, b) == 0.0 && StepGrowth(a, b) == 0
  {
    assert Rate(a.total, b.total, b.time - a.time) == 0;
  }

  lemma {:induction false} WithinSnoc(stretches: seq<seq<Reading>>, last: seq<Reading>)
    requires last != [] && forall i :: 0 <= i < |stretches| ==> stretches[i] != []
    ensures forall i :: 0 <= i < |stretches + [last]| ==> (stretches + [last])[i] != []
    ensures CreditWithin(stretches + [last]) == CreditWithin(stretches) + Credited(last)
    ensures MovementWithin(stretches + [last])
         == MovementWithin(stretches) + (last[|last| - 1].total - last[0].total)
  {
    assert (stretches + [last])[..|stretches|] == stretches;
  }

  /** The rates account for the stretches alone, and the growth credited is the movement within them. */
  ghost predicate Rebased(run: seq<Reading>, stretches: seq<seq<Reading>>)
    requires forall i :: 0 <= i < |stretches| ==> stretches[i] != []
  {
    Credited(run) == CreditWithin(stretches) && Growth(run) == MovementWithin(stretches)
  }

  lemma RebasedSnoc(run: seq<Reading>, stretches: seq<seq<Reading>>, last: seq<Reading>)
    requires (forall i :: 0 <= i < |stretches| ==> stretches[i] != []) && Rebased(run, stretches)
    requires last != [] && Steady(last)
    requires run != [] ==> last[0].total < run[|run| - 1].total
    ensures forall i :: 0 <= i < |stretches + [last]| ==> (stretches + [last])[i] != []
    ensures Rebased(run + last, stretches + [last])
  {
    StretchAdds(run, last);
    WithinSnoc(stretches, last);
  }

  lemma {:induction false} EndOfStretches(stretches: seq<seq<Reading>>)
    requires stretches != [] && stretches[|stretches| - 1] != []
    ensures var all, last := Flatten(stretches), stretches[|stretches| - 1];
      all != [] && all[|all| - 1] == last[|last| - 1]
  {
    var front, last := stretches[..|stretches| - 1], stretches[|stretches| - 1];
    assert stretches == front + [last];
    LastOfFlatten(front, last);
  }

  lemma {:induction false} StretchesBefore(front: seq<seq<Reading>>, last: seq<Reading>)
    requires ResetBetween(front + [last])
    ensures ResetBetween(front) && last != [] && Steady(last)
    ensures var all := Flatten(front); all != [] ==> last[0].total < all[|all| - 1].total
  {
    var stretches := front + [last];
    assert forall i :: 0 <= i < |front| ==> stretches[i] == front[i];
    assert stretches[|front|] == last;
    if front != [] {
      EndOfStretches(front);
    }
  }

  /**
   However often the counter is reset, each reset itself counts for nothing, the reading after it is measured from the
   reset value, and the growth credited is what the counter moved between resets.
   */
  lemma {:induction false} ResetsRebase(stretches: seq<seq<Reading>>)
    requires ResetBetween(stretches)
    ensures Rebased(Flatten(stretches), stretches)
  {
    if stretches != [] {
      var front, last := stretches[..|stretches| - 1], stretches[|stretches| - 1];
      assert stretches == front + [last];
      StretchesBefore(front, last);
      ResetsRebase(front);
      FlattenSnoc(front, last);
      RebasedSnoc(Flatten(front), front, last);
    }
  }
}
