/** The spending rule of the battery: what the cap does and does not promise. */
module Budget {
  import opened Prelude

  function Sum(costs: seq<real>): real {
    if costs == [] then 0.0 else Sum(costs[..|costs| - 1]) + costs[|costs| - 1]
  }

  /** Would the next run be expected to pass the cap? Until three costs are known
      the estimate is the most a run may cost, from then on their mean. */
  predicate OverCap(spent: real, costs: seq<real>, cap: Option<real>, maxRun: real) {
    cap.Some? &&
    spent + (if |costs| >= 3 then Sum(costs) / (|costs| as real) else maxRun) > cap.value
  }

  ghost predicate MayFollow(costs: seq<real>, cap: Option<real>, maxRun: real) {
    !OverCap(Sum(costs), costs, cap, maxRun)
  }

  /** Every run was allowed to start. */
  ghost predicate Allowed(costs: seq<real>, cap: Option<real>, maxRun: real) {
    forall i {:trigger MayFollow(costs[..i], cap, maxRun)} ::
      0 <= i < |costs| ==> MayFollow(costs[..i], cap, maxRun)
  }

  ghost predicate InRange(costs: seq<real>, maxRun: real) {
    forall i :: 0 <= i < |costs| ==> 0.0 <= costs[i] <= maxRun
  }

  // ---- n copies of an amount -------------------------------------------------------------

  /** n * x, as repeated addition. */
  function Times(n: nat, x: real): real {
    if n == 0 then 0.0 else Times(n - 1, x) + x
  }

  lemma {:induction false} TimesIsProduct(n: nat, x: real)
    ensures Times(n, x) == (n as real) * x
  {
    if n > 0 {
      TimesIsProduct(n - 1, x);
      assert (n as real) * x == ((n - 1) as real) * x + x;
    }
  }

  lemma {:induction false} TimesMonotone(n: nat, x: real, y: real)
    requires x <= y
    ensures Times(n, x) <= Times(n, y)
  {
    if n > 0 {
      TimesMonotone(n - 1, x, y);
    }
  }

  lemma {:induction false} TimesGrows(m: nat, n: nat, x: real)
    requires m <= n && 0.0 <= x
    ensures Times(m, x) <= Times(n, x)
    decreases n - m
  {
    if m < n {
      TimesGrows(m + 1, n, x);
    }
  }

  lemma FirstMultiples(x: real)
    ensures Times(2, x) == 2.0 * x && Times(3, x) == 3.0 * x && Times(4, x) == 4.0 * x && Times(5, x) == 5.0 * x
  {
    TimesIsProduct(2, x);
    TimesIsProduct(3, x);
    TimesIsProduct(4, x);
    TimesIsProduct(5, x);
  }

  lemma MeanGuard(s: real, d: real, cap: real)
    requires d > 0.0
    ensures s + s / d > cap <==> d * s + s > d * cap
  {
    var q := s / d;
    assert q * d == s;
    assert (s + q) * d == d * s + s;
    if s + q > cap {
      assert (s + q) * d > cap * d;
    } else {
      assert (s + q) * d <= cap * d;
    }
  }

  /** The guard without its division: once n >= 3 costs are known, the next run may
      start exactly when n + 1 times the spend is within n times the cap. */
  lemma GuardWithoutMean(costs: seq<real>, cap: real, maxRun: real)
    requires |costs| >= 3
    ensures MayFollow(costs, Some(cap), maxRun) <==> Times(|costs| + 1, Sum(costs)) <= Times(|costs|, cap)
  {
    TimesIsProduct(|costs|, Sum(costs));
    TimesIsProduct(|costs|, cap);
    MeanGuard(Sum(costs), |costs| as real, cap);
  }

  // ---- what the cap promises ---------------------------------------------------------------

  lemma {:induction false} SumBounds(costs: seq<real>, maxRun: real)
    requires InRange(costs, maxRun)
    ensures 0.0 <= Sum(costs) <= Times(|costs|, maxRun)
  {
    if costs != [] {
      SumBounds(costs[..|costs| - 1], maxRun);
    }
  }

  /** The cap holds through the third run. From the fourth on, n earlier runs later,
      the total less one full-price run is at most n/(n+1) of the cap. */
  lemma SpendBound(costs: seq<real>, cap: real, maxRun: real)
    requires InRange(costs, maxRun) && Allowed(costs, Some(cap), maxRun)
    ensures 1 <= |costs| <= 3 ==> Sum(costs) <= cap
    ensures |costs| > 3 ==> Times(|costs|, Sum(costs) - maxRun) <= Times(|costs| - 1, cap)
  {
    if costs != [] {
      var before := costs[..|costs| - 1];
      assert MayFollow(before, Some(cap), maxRun);
      if |before| >= 3 {
        GuardWithoutMean(before, cap, maxRun);
        TimesMonotone(|costs|, Sum(costs) - maxRun, Sum(before));
      }
    }
  }

  /** Is spending within the cap whatever the runs turn out to cost? */
  ghost predicate CapIsKept(runs: nat, cap: real, maxRun: real) {
    forall costs :: |costs| <= runs && InRange(costs, maxRun) && Allowed(costs, Some(cap), maxRun) ==> Sum(costs) <= cap
  }

  predicate SafeSettings(runs: nat, cap: real, maxRun: real) {
    0.0 <= cap && (runs <= 3 || cap < maxRun || Times(runs, maxRun) <= cap)
  }

  lemma SafeKeepsCap(runs: nat, cap: real, maxRun: real, costs: seq<real>)
    requires 0.0 <= maxRun && SafeSettings(runs, cap, maxRun)
    requires |costs| <= runs && InRange(costs, maxRun) && Allowed(costs, Some(cap), maxRun)
    ensures Sum(costs) <= cap
  {
    if costs != [] {
      assert costs[..0] == [] && MayFollow(costs[..0], Some(cap), maxRun);
      if |costs| <= 3 {
        SpendBound(costs, cap, maxRun);
      } else {
        SumBounds(costs, maxRun);
        TimesGrows(|costs|, runs, maxRun);
      }
    }
  }

  // ---- settings under which some outcome passes the cap --------------------------------------

  lemma AllowedSnoc(costs: seq<real>, next: real, cap: Option<real>, maxRun: real)
    requires Allowed(costs, cap, maxRun) && MayFollow(costs, cap, maxRun)
    ensures Allowed(costs + [next], cap, maxRun) && Sum(costs + [next]) == Sum(costs) + next
  {
    var more := costs + [next];
    assert more[..|costs|] == costs;
    forall i | 0 <= i < |more| ensures MayFollow(more[..i], cap, maxRun) {
      assert more[..i] == costs[..i];
    }
  }

  lemma ThreeCheapRuns(each: real, third: real, cap: real, maxRun: real)
    requires maxRun <= cap && 0.0 <= each && 2.0 * each + maxRun <= cap
    ensures Allowed([each, each, third], Some(cap), maxRun) && Sum([each, each, third]) == 2.0 * each + third
  {
    AllowedSnoc([], each, Some(cap), maxRun);
    assert [] + [each] == [each];
    AllowedSnoc([each], each, Some(cap), maxRun);
    assert [each] + [each] == [each, each];
    AllowedSnoc([each, each], third, Some(cap), maxRun);
    assert [each, each] + [third] == [each, each, third];
  }

  /** A cap under four full-price runs is passed by three cheap runs and a dear one. */
  lemma OvershootSmallCap(cap: real, maxRun: real) returns (costs: seq<real>)
    requires 0.0 < maxRun <= cap < 4.0 * maxRun
    ensures |costs| == 4 && InRange(costs, maxRun) && Allowed(costs, Some(cap), maxRun) && Sum(costs) > cap
  {
    var s := 0.75 * cap;
    var third := if s <= maxRun then s else maxRun;
    var each := 0.5 * (s - third);
    var cheap := [each, each, third];
    ThreeCheapRuns(each, third, cap, maxRun);
    GuardWithoutMean(cheap, cap, maxRun);
    FirstMultiples(cap);
    FirstMultiples(s);
    AllowedSnoc(cheap, maxRun, Some(cap), maxRun);
    costs := cheap + [maxRun];
  }

  function Repeat(a: real, n: nat): seq<real> {
    seq(n, i => a)
  }

  lemma {:induction false} SumRepeat(a: real, n: nat)
    ensures Sum(Repeat(a, n)) == Times(n, a)
  {
    if n > 0 {
      SumRepeat(a, n - 1);
      assert Repeat(a, n)[..n - 1] == Repeat(a, n - 1);
    }
  }

  lemma {:induction false} TimesSwap(m: nat, n: nat, x: real)
    ensures Times(m, Times(n, x)) == Times(n, Times(m, x))
  {
    TimesIsProduct(m, Times(n, x));
    TimesIsProduct(n, Times(m, x));
    TimesIsProduct(n, x);
    TimesIsProduct(m, x);
    var a, b := m as real, n as real;
    assert a * (b * x) == b * (a * x);
  }

  /** Equal shares of a cap of at least four full-price runs never trip the guard. */
  lemma {:induction false} SharesAllowed(a: real, n: nat, runs: nat, cap: real, maxRun: real)
    requires 0.0 <= a && Times(runs, a) == cap && n <= runs - 1 && runs > 4
    requires 0.0 < maxRun && 4.0 * maxRun <= cap
    ensures Allowed(Repeat(a, n), Some(cap), maxRun) && MayFollow(Repeat(a, n), Some(cap), maxRun)
  {
    var r := Repeat(a, n);
    SumRepeat(a, n);
    if n > 0 {
      SharesAllowed(a, n - 1, runs, cap, maxRun);
      AllowedSnoc(Repeat(a, n - 1), a, Some(cap), maxRun);
      assert Repeat(a, n - 1) + [a] == r;
    }
    if n >= 3 {
      TimesGrows(n + 1, runs, a);
      TimesSwap(n + 1, n, a);
      TimesMonotone(n, Times(n + 1, a), cap);
      GuardWithoutMean(r, cap, maxRun);
    } else {
      TimesGrows(5, runs, a);
      TimesGrows(n, 2, a);
      FirstMultiples(a);
    }
  }

  /** A larger cap is passed by equal shares of it and a full-price last run. */
  lemma OvershootLargeCap(runs: nat, cap: real, maxRun: real) returns (costs: seq<real>)
    requires 0.0 < maxRun && 4.0 * maxRun <= cap < Times(runs, maxRun)
    ensures |costs| == runs && InRange(costs, maxRun) && Allowed(costs, Some(cap), maxRun) && Sum(costs) > cap
  {
    FirstMultiples(maxRun);
    if runs <= 4 {
      TimesGrows(runs, 4, maxRun);
      assert false;
    }
    var a := EqualShare(runs, cap, maxRun);
    var even := Repeat(a, runs - 1);
    SharesAllowed(a, runs - 1, runs, cap, maxRun);
    SumRepeat(a, runs - 1);
    AllowedSnoc(even, maxRun, Some(cap), maxRun);
    costs := even + [maxRun];
  }

  lemma EqualShare(runs: nat, cap: real, maxRun: real) returns (a: real)
    requires runs > 0 && 0.0 <= cap < Times(runs, maxRun)
    ensures Times(runs, a) == cap && 0.0 <= a < maxRun
  {
    var d := runs as real;
    a := cap / d;
    TimesIsProduct(runs, a);
    assert d * a == cap;
    if a >= maxRun {
      TimesMonotone(runs, maxRun, a);
    }
  }

  /** The cap is kept for every possible outcome exactly when there are never more
      than three runs, or no run can start, or it covers every run at full price. */
  lemma CapIsKeptExactly(runs: nat, cap: real, maxRun: real)
    requires 0.0 <= maxRun
    ensures CapIsKept(runs, cap, maxRun) <==> SafeSettings(runs, cap, maxRun)
  {
    if SafeSettings(runs, cap, maxRun) {
      forall costs | |costs| <= runs && InRange(costs, maxRun) && Allowed(costs, Some(cap), maxRun)
        ensures Sum(costs) <= cap
      {
        SafeKeepsCap(runs, cap, maxRun, costs);
      }
    } else if cap < 0.0 {
      var none: seq<real> := [];
      assert |none| <= runs && InRange(none, maxRun) && Allowed(none, Some(cap), maxRun) && Sum(none) > cap;
    } else {
      var costs;
      if maxRun == 0.0 {
        TimesIsProduct(runs, maxRun);
        assert false;
      } else if cap < 4.0 * maxRun {
        costs := OvershootSmallCap(cap, maxRun);
      } else {
        costs := OvershootLargeCap(runs, cap, maxRun);
      }
      assert |costs| <= runs && Sum(costs) > cap;
    }
  }
}
