/**
 The collector is called by its own ticker, which puts the result into the history, and by others, which do not. Every
 call rebases the previous counters: what the recorded rates account for, and what the other calls take from them.
 */
module TickAccounting {
  import opened HostMetrics
  import opened RateAccounting

  /** The elements whose flag is `which`, in order. */
  function Keep<T>(s: seq<T>, flags: seq<bool>, which: bool): seq<T>
    requires |s| == |flags|
  {
    if s == [] then []
    else
      var n := |s| - 1;
      Keep(s[..n], flags[..n], which) + if flags[n] == which then [s[n]] else []
  }

  lemma {:induction false} KeepAre<T>(s: seq<T>, flags: seq<bool>, which: bool)
    requires |s| == |flags|
    ensures forall x :: x in Keep(s, flags, which) <==> exists i :: 0 <= i < |s| && flags[i] == which && s[i] == x
  {
    if s != [] {
      var n := |s| - 1;
      KeepAre(s[..n], flags[..n], which);
      assert forall i :: 0 <= i < n ==> s[i] == s[..n][i] && flags[i] == flags[..n][i];
    }
  }

  lemma {:induction false} KeepSnoc<T>(s: seq<T>, flags: seq<bool>, which: bool, x: T, flag: bool)
    requires |s| == |flags|
    ensures Keep(s + [x], flags + [flag], which) == Keep(s, flags, which) + if flag == which then [x] else []
  {
    assert (s + [x])[..|s|] == s && (flags + [flag])[..|flags|] == flags;
  }

  /** What one or more steps add up to: bytes the rates account for, growth of the counter, time in nanoseconds. */
  datatype Account = Account(credit: real, growth: nat, time: nat)

  function Nothing(): Account {
    Account(0.0, 0, 0)
  }

  function Plus(x: Account, y: Account): Account {
    Account(x.credit + y.credit, x.growth + y.growth, x.time + y.time)
  }

  function SumOf(accounts: seq<Account>): Account {
    if accounts == [] then Nothing() else Plus(SumOf(accounts[..|accounts| - 1]), accounts[|accounts| - 1])
  }

  lemma {:induction false} SumOfSnoc(accounts: seq<Account>, x: Account)
    ensures SumOf(accounts + [x]) == Plus(SumOf(accounts), x)
  {
    assert (accounts + [x])[..|accounts|] == accounts;
  }

  lemma PlusShuffles(x: Account, y: Account, z: Account)
    ensures Plus(Plus(x, z), y) == Plus(Plus(x, y), z) == Plus(x, Plus(y, z))
  {
  }

  /** The steps with one flag and those with the other are all the steps. */
  ghost predicate AddUp(accounts: seq<Account>, flags: seq<bool>)
    requires |accounts| == |flags|
  {
    Plus(SumOf(Keep(accounts, flags, true)), SumOf(Keep(accounts, flags, false))) == SumOf(accounts)
  }

  lemma AddUpSnoc(accounts: seq<Account>, flags: seq<bool>, x: Account, flag: bool)
    requires |accounts| == |flags| && AddUp(accounts, flags)
    ensures AddUp(accounts + [x], flags + [flag])
  {
    var kept, other := Keep(accounts, flags, flag), Keep(accounts, flags, !flag);
    KeepSnoc(accounts, flags, flag, x, flag);
    KeepSnoc(accounts, flags, !flag, x, flag);
    assert other + [] == other;
    SumOfSnoc(accounts, x);
    SumOfSnoc(kept, x);
    PlusShuffles(SumOf(kept), SumOf(other), x);
    PlusShuffles(SumOf(other), SumOf(kept), x);
  }

  /** Sorting steps by their flag loses nothing. */
  lemma {:induction false} AccountsAddUp(accounts: seq<Account>, flags: seq<bool>)
    requires |accounts| == |flags|
    ensures AddUp(accounts, flags)
  {
    if accounts != [] {
      var n := |accounts| - 1;
      var front, marks, x, flag := accounts[..n], flags[..n], accounts[n], flags[n];
      assert accounts == front + [x] && flags == marks + [flag];
      AccountsAddUp(front, marks);
      AddUpSnoc(front, marks, x, flag);
    }
  }

  ghost predicate Bracketing(x: Account) {
    && x.credit <= x.growth as real <= x.credit + Seconds(x.time)
    && (x.time > 0 ==> x.growth as real < x.credit + Seconds(x.time))
  }

  lemma {:induction false} SumBracketed(accounts: seq<Account>)
    requires forall x :: x in accounts ==> Bracketing(x)
    ensures Bracketing(SumOf(accounts))
  {
    if accounts != [] {
      var front, x := accounts[..|accounts| - 1], accounts[|accounts| - 1];
      assert accounts == front + [x] && x in accounts;
      SumBracketed(front);
      BoundsAdd(SumOf(front).credit, SumOf(front).growth, SumOf(front).time, x.credit, x.growth, x.time);
    }
  }

  lemma {:induction false} SumIsNothingIff(accounts: seq<Account>)
    ensures SumOf(accounts).time == 0 <==> forall x :: x in accounts ==> x.time == 0
    ensures SumOf(accounts).growth == 0 <==> forall x :: x in accounts ==> x.growth == 0
  {
    if accounts != [] {
      var front, x := accounts[..|accounts| - 1], accounts[|accounts| - 1];
      assert accounts == front + [x];
      SumIsNothingIff(front);
    }
  }

  // ---------- The steps of a run of readings ----------

  /** The account of the step that ends in the last reading; the first reading of all ends none. */
  function LastAccount(rs: seq<Reading>): Account {
    if |rs| < 2 then Nothing()
    else
      var a, b := rs[|rs| - 2], rs[|rs| - 1];
      Account(StepCredit(a, b), StepGrowth(a, b), StepTime(a, b))
  }

  function Accounts(rs: seq<Reading>): (accounts: seq<Account>)
    ensures |accounts| == |rs|
  {
    if rs == [] then [] else Accounts(rs[..|rs| - 1]) + [LastAccount(rs)]
  }

  /** The rate reported for the last of a run of readings; none can be told from the first. */
  function LastRate(rs: seq<Reading>): nat {
    if |rs| < 2 then 0
    else Rate(rs[|rs| - 2].total, rs[|rs| - 1].total, rs[|rs| - 1].time - rs[|rs| - 2].time)
  }

  /** All the rates reported. */
  function Rates(rs: seq<Reading>): (rates: seq<nat>)
    ensures |rates| == |rs|
  {
    if rs == [] then [] else Rates(rs[..|rs| - 1]) + [LastRate(rs)]
  }

  lemma {:induction false} RatesSnoc(rs: seq<Reading>, r: Reading)
    ensures Rates(rs + [r]) == Rates(rs) + [LastRate(rs + [r])]
  {
    assert (rs + [r])[..|rs|] == rs;
  }

  /** Each account, and each rate, is that of the readings up to it. */
  lemma {:induction false} AccountAt(rs: seq<Reading>, i: nat)
    requires i < |rs|
    ensures Accounts(rs)[i] == LastAccount(rs[..i + 1]) && Rates(rs)[i] == LastRate(rs[..i + 1])
  {
    var n := |rs| - 1;
    if i < n {
      AccountAt(rs[..n], i);
      assert rs[..n][..i + 1] == rs[..i + 1];
    } else {
      assert rs[..i + 1] == rs;
    }
  }

  /** What a step is credited is read off the rate reported and the time since the reading before. */
  lemma {:induction false} CreditIsReported(rs: seq<Reading>, i: nat)
    requires 0 < i < |rs|
    ensures Accounts(rs)[i].credit == Bytes(Rates(rs)[i], rs[i].time - rs[i - 1].time)
  {
    AccountAt(rs, i);
  }

  lemma {:induction false} StepsAre(rs: seq<Reading>, i: nat)
    requires i < |rs|
    ensures Accounts(rs)[i].time == 0 <==> i == 0 || !Creditable(rs[i - 1], rs[i])
    ensures Accounts(rs)[i].growth == 0 <==>
              i == 0 || !Creditable(rs[i - 1], rs[i]) || rs[i].total == rs[i - 1].total
  {
    AccountAt(rs, i);
  }

  lemma {:induction false} AccountsTotal(rs: seq<Reading>)
    ensures SumOf(Accounts(rs)) == Account(Credited(rs), Growth(rs), Covered(rs))
  {
    if rs != [] {
      var front, r := rs[..|rs| - 1], rs[|rs| - 1];
      assert rs == front + [r];
      AccountsTotal(front);
      AccountsTotalSnoc(front, r);
    }
  }

  lemma {:induction false} AccountsSnoc(rs: seq<Reading>, r: Reading)
    ensures Accounts(rs + [r]) == Accounts(rs) + [LastAccount(rs + [r])]
  {
    assert (rs + [r])[..|rs|] == rs;
  }

  lemma LastAccountIs(rs: seq<Reading>, r: Reading)
    ensures rs == [] ==> LastAccount(rs + [r]) == Nothing()
    ensures rs != [] ==>
              var a := rs[|rs| - 1];
              LastAccount(rs + [r]) == Account(StepCredit(a, r), StepGrowth(a, r), StepTime(a, r))
  {
    var all := rs + [r];
    assert rs != [] ==> all[|all| - 2] == rs[|rs| - 1];
  }

  lemma FirstTotals(r: Reading)
    ensures Credited([r]) == 0.0 && Growth([r]) == 0 && Covered([r]) == 0
    ensures Credited([]) == 0.0 && Growth([]) == 0 && Covered([]) == 0
  {
  }

  lemma {:induction false} LastAccountAdds(rs: seq<Reading>, r: Reading)
    ensures Plus(Account(Credited(rs), Growth(rs), Covered(rs)), LastAccount(rs + [r]))
         == Account(Credited(rs + [r]), Growth(rs + [r]), Covered(rs + [r]))
  {
    LastAccountIs(rs, r);
    if rs == [] {
      assert rs + [r] == [r];
      FirstTotals(r);
    } else {
      CreditedSnoc(rs, r);
      GrowthSnoc(rs, r);
      CoveredSnoc(rs, r);
    }
  }

  lemma {:induction false} AccountsTotalSnoc(rs: seq<Reading>, r: Reading)
    requires SumOf(Accounts(rs)) == Account(Credited(rs), Growth(rs), Covered(rs))
    ensures SumOf(Accounts(rs + [r])) == Account(Credited(rs + [r]), Growth(rs + [r]), Covered(rs + [r]))
  {
    AccountsSnoc(rs, r);
    SumOfSnoc(Accounts(rs), LastAccount(rs + [r]));
    LastAccountAdds(rs, r);
  }

  lemma {:induction false} AccountsBracketed(rs: seq<Reading>)
    ensures forall x :: x in Accounts(rs) ==> Bracketing(x)
  {
    if rs != [] {
      AccountsBracketed(rs[..|rs| - 1]);
      if |rs| >= 2 {
        StepBounds(rs[|rs| - 2], rs[|rs| - 1]);
      }
    }
  }

  // ---------- Ticks and other calls ----------

  /** What the rates put into the history account for. */
  function Recorded(rs: seq<Reading>, ticks: seq<bool>): Account
    requires |rs| == |ticks|
  {
    SumOf(Keep(Accounts(rs), ticks, true))
  }

  /** What the calls in between took. */
  function Taken(rs: seq<Reading>, ticks: seq<bool>): Account
    requires |rs| == |ticks|
  {
    SumOf(Keep(Accounts(rs), ticks, false))
  }

  /**
   The recorded rates account for the total less what the calls in between took, and bracket the counter's growth over
   their own steps.
   */
  lemma {:induction false} RecordedIsTotalLessTaken(rs: seq<Reading>, ticks: seq<bool>)
    requires |rs| == |ticks|
    ensures Plus(Recorded(rs, ticks), Taken(rs, ticks)) == Account(Credited(rs), Growth(rs), Covered(rs))
    ensures Bracketing(Recorded(rs, ticks)) && Bracketing(Taken(rs, ticks))
  {
    AccountsAddUp(Accounts(rs), ticks);
    AccountsTotal(rs);
    KeptBracketed(rs, ticks, true);
    KeptBracketed(rs, ticks, false);
  }

  lemma {:induction false} KeptBracketed(rs: seq<Reading>, ticks: seq<bool>, which: bool)
    requires |rs| == |ticks|
    ensures Bracketing(SumOf(Keep(Accounts(rs), ticks, which)))
  {
    var accounts := Accounts(rs);
    AccountsBracketed(rs);
    KeepAre(accounts, ticks, which);
    SumBracketed(Keep(accounts, ticks, which));
  }

  /** No step that can be credited ends in a call that was not recorded. */
  ghost predicate NoStepTaken(rs: seq<Reading>, ticks: seq<bool>)
    requires |rs| == |ticks|
  {
    forall i :: 0 < i < |rs| && !ticks[i] ==> !Creditable(rs[i - 1], rs[i])
  }

  /** No such step saw the counter move. */
  ghost predicate NoGrowthTaken(rs: seq<Reading>, ticks: seq<bool>)
    requires |rs| == |ticks|
  {
    forall i :: 0 < i < |rs| && !ticks[i] && Creditable(rs[i - 1], rs[i]) ==> rs[i].total == rs[i - 1].total
  }

  lemma TakenIff(rs: seq<Reading>, ticks: seq<bool>)
    requires |rs| == |ticks|
    ensures Taken(rs, ticks).time == 0 <==> NoStepTaken(rs, ticks)
    ensures Taken(rs, ticks).growth == 0 <==> NoGrowthTaken(rs, ticks)
  {
    KeptNothingIff(Accounts(rs), ticks);
    forall i | 0 <= i < |rs| && !ticks[i]
      ensures Taken(rs, ticks).time == 0 ==> i == 0 || !Creditable(rs[i - 1], rs[i])
      ensures Taken(rs, ticks).growth == 0 && i > 0 && Creditable(rs[i - 1], rs[i]) ==> rs[i].total == rs[i - 1].total
      ensures NoStepTaken(rs, ticks) ==> Accounts(rs)[i].time == 0
      ensures NoGrowthTaken(rs, ticks) ==> Accounts(rs)[i].growth == 0
    {
      StepsAre(rs, i);
    }
  }

  lemma {:induction false} KeptNothingIff(accounts: seq<Account>, flags: seq<bool>)
    requires |accounts| == |flags|
    ensures SumOf(Keep(accounts, flags, false)).time == 0
       <==> forall i :: 0 <= i < |accounts| && !flags[i] ==> accounts[i].time == 0
    ensures SumOf(Keep(accounts, flags, false)).growth == 0
       <==> forall i :: 0 <= i < |accounts| && !flags[i] ==> accounts[i].growth == 0
  {
    var kept := Keep(accounts, flags, false);
    SumIsNothingIff(kept);
    KeepAre(accounts, flags, false);
    assert forall i :: 0 <= i < |accounts| && !flags[i] ==> accounts[i] in kept;
  }

  /**
   On a steady run the recorded rates cover all the time exactly when no creditable step is another call's, and all the
   movement of the counter exactly when none of those steps saw it move.
   */
  lemma RecordedTelescopesIff(rs: seq<Reading>, ticks: seq<bool>)
    requires |rs| == |ticks| && Steady(rs) && rs != []
    ensures Recorded(rs, ticks).time == rs[|rs| - 1].time - rs[0].time <==> NoStepTaken(rs, ticks)
    ensures Recorded(rs, ticks).growth == rs[|rs| - 1].total - rs[0].total <==> NoGrowthTaken(rs, ticks)
  {
    RecordedIsTotalLessTaken(rs, ticks);
    SteadyTelescopes(rs);
    TakenIff(rs, ticks);
  }

  // ---------- Ordinary operation ----------

  /** Time passes and the counter grows between any two readings. */
  ghost predicate Growing(rs: seq<Reading>) {
    forall i :: 0 < i < |rs| ==> rs[i - 1].time < rs[i].time && rs[i - 1].total < rs[i].total
  }

  /**
   Ticks and other calls in turn, as when collector and broadcaster run at the same interval: the recorded rates miss
   time and movement as soon as there are three readings.
   */
  lemma TurnsLose(rs: seq<Reading>, ticks: seq<bool>)
    requires |rs| == |ticks| >= 3 && Growing(rs)
    requires forall i :: 0 < i < |ticks| ==> ticks[i] != ticks[i - 1]
    ensures Recorded(rs, ticks).time < rs[|rs| - 1].time - rs[0].time
    ensures Recorded(rs, ticks).growth < rs[|rs| - 1].total - rs[0].total
  {
    assert !ticks[1] || !ticks[2];
    assert Creditable(rs[0], rs[1]) && Creditable(rs[1], rs[2]);
    assert !NoStepTaken(rs, ticks) && !NoGrowthTaken(rs, ticks);
    RecordedTelescopesIff(rs, ticks);
    RecordedIsTotalLessTaken(rs, ticks);
    SteadyTelescopes(rs);
  }

  /** A second between calls, the one in the middle not a tick: of 300 bytes sent the recorded rates cover 200. */
  lemma BareCallTakes()
    ensures var rs := [Reading(0, 0), Reading(NS_PER_SEC, 100), Reading(2 * NS_PER_SEC, 300)];
      Steady(rs) && Recorded(rs, [true, false, true]).growth == 200
  {
    var a, b, c := Reading(0, 0), Reading(NS_PER_SEC, 100), Reading(2 * NS_PER_SEC, 300);
    var rs := [a, b, c];
    OnlyLast(rs);
    AccountAt(rs, 2);
    assert rs[..3] == rs;
    assert StepGrowth(b, c) == 200;
  }

  lemma KeepOuter<T>(x: T, y: T, z: T)
    ensures Keep([x, y, z], [true, false, true], true) == [x, z]
  {
    var none: seq<T>, off: seq<bool> := [], [];
    KeepSnoc(none, off, true, x, true);
    KeepSnoc([x], [true], true, y, false);
    KeepSnoc([x, y], [true, false], true, z, true);
    assert none + [x] == [x] && off + [true] == [true] && [x] + [] == [x];
    assert [x] + [y] == [x, y] && [true] + [false] == [true, false];
    assert [x, y] + [z] == [x, y, z] && [true, false] + [true] == [true, false, true];
  }

  lemma SumOfTwo(x: Account, z: Account)
    ensures SumOf([x, z]) == Plus(Plus(Nothing(), x), z)
  {
    SumOfSnoc([], x);
    SumOfSnoc([x], z);
    assert [] + [x] == [x] && [x] + [z] == [x, z];
  }

  lemma {:induction false} OnlyLast(rs: seq<Reading>)
    requires |rs| == 3
    ensures Recorded(rs, [true, false, true]).growth == Accounts(rs)[2].growth
  {
    var accounts := Accounts(rs);
    assert accounts == [accounts[0], accounts[1], accounts[2]];
    KeepOuter(accounts[0], accounts[1], accounts[2]);
    SumOfTwo(accounts[0], accounts[2]);
    StepsAre(rs, 0);
  }
}
