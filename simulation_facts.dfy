/** Properties of the segment loop of run_simulation and of what it hands to
    the timeseries and the Earth distance: one solution per zipped segment,
    segments chained by their last state with the delta-V on the velocity only,
    the clock after k segments, the sample count against the daily timeseries,
    and the distance over the whole mission. */
module SimulationFacts {
  import opened RealMath
  import opened Ephemeris
  import opened Integrator
  import opened Simulation

  /** sum over a split list is the sum of the two parts. */
  lemma {:induction false} SumSplit(s: seq<int>, k: nat)
    requires k <= |s|
    ensures Sum(s) == Sum(s[..k]) + Sum(s[k..])
    decreases |s|
  {
    if k < |s| {
      var front := s[..|s| - 1];
      SumSplit(front, k);
      assert front[..k] == s[..k];
      assert s[k..] == front[k..] + [s[|s| - 1]];
      assert s[k..][..|s[k..]| - 1] == front[k..];
    } else {
      assert s[..k] == s;
      assert s[k..] == [];
    }
  }

  /** A sum of positive durations is at least their number. */
  lemma {:induction false} SumOfPositives(s: seq<int>)
    requires forall i :: 0 <= i < |s| ==> 0 < s[i]
    ensures |s| <= Sum(s)
  {
    if 0 < |s| {
      SumOfPositives(s[..|s| - 1]);
    }
  }

  /** sum(s[:n + 1]) is sum(s[:n]) plus s[n]. */
  lemma PrefixStep(s: seq<int>, n: nat)
    requires n < |s|
    ensures Sum(s[..n + 1]) == Sum(s[..n]) + s[n]
  {
    assert s[..n + 1][..n] == s[..n];
  }

  /** Pass n of the loop, when it succeeds: the passes before it succeeded,
      its segment lasted a positive number of days, and t_current moved on by
      one day less than the segment's length. */
  lemma Advance(m: Mission, x0: seq<real>, odeint: Odeint, n: nat)
    requires Runnable(m, x0, odeint) && 0 < n <= Zipped(m)
    requires Propagate(m, x0, odeint, n).error.None?
    ensures Propagate(m, x0, odeint, n - 1).error.None?
    ensures 0 < m.travelDays[n - 1]
    ensures Propagate(m, x0, odeint, n).tCurrent == Propagate(m, x0, odeint, n - 1).tCurrent + (m.travelDays[n - 1] - 1) * DAY
  {
    var prev := Propagate(m, x0, odeint, n - 1);
    assert prev.error.None?;
    TimeGridShape(prev.tCurrent, m.travelDays[n - 1]);
    GridEnd(prev.tCurrent, m.travelDays[n - 1]);
  }

  /** The solution pass n appends, when it succeeds: one row per day of the
      segment, starting from the segment's start state. */
  lemma Appended(m: Mission, x0: seq<real>, odeint: Odeint, n: nat)
    requires Runnable(m, x0, odeint) && 0 < n <= Zipped(m)
    requires Propagate(m, x0, odeint, n).error.None?
    ensures var prev, next := Propagate(m, x0, odeint, n - 1), Propagate(m, x0, odeint, n);
            && prev.error.None?
            && next.solutions[..n - 1] == prev.solutions
            && |next.solutions[n - 1]| == m.travelDays[n - 1]
            && next.solutions[n - 1][0] == SegmentStart(m, x0, prev.solutions, n - 1)
  {
    var prev := Propagate(m, x0, odeint, n - 1);
    assert prev.error.None?;
    TimeGridShape(prev.tCurrent, m.travelDays[n - 1]);
  }

  /** The state segment `after` starts from is the last state of segment
      `before` with dv added to the velocity: the position is unchanged. */
  predicate KickedFrom(before: seq<seq<real>>, after: seq<seq<real>>, dv: seq<real>)
  {
    && 0 < |before| && 0 < |after| && |Last(before)| == 4 && |after[0]| == 4 && 2 <= |dv|
    && after[0][0] == Last(before)[0] && after[0][1] == Last(before)[1]
    && after[0][2] == Last(before)[2] + dv[0] && after[0][3] == Last(before)[3] + dv[1]
  }

  /** After n > 0 passes without error, the first solution starts at the
      initial state (deltaV[0] is never applied) and every later one starts at
      the last state of the one before with its delta-V added to the velocity
      only. */
  lemma {:induction false} KickedStarts(m: Mission, x0: seq<real>, odeint: Odeint, n: nat)
    requires Runnable(m, x0, odeint) && 0 < n <= Zipped(m)
    requires Propagate(m, x0, odeint, n).error.None?
    ensures var s := Propagate(m, x0, odeint, n).solutions;
            && s[0][0] == x0
            && forall i :: 0 < i < n ==> KickedFrom(s[i - 1], s[i], m.deltaV[i])
  {
    Appended(m, x0, odeint, n);
    var s := Propagate(m, x0, odeint, n).solutions;
    if 1 < n {
      KickedStarts(m, x0, odeint, n - 1);
      var prev := Propagate(m, x0, odeint, n - 1).solutions;
      assert forall i :: 0 <= i < n - 1 ==> s[i] == prev[i];
      assert Last(prev) == s[n - 2];
      assert KickedFrom(s[n - 2], s[n - 1], m.deltaV[n - 1]);
    }
  }

  /** After n > 0 passes without error every segment lasted a positive number
      of days. */
  lemma {:induction false} DurationsPositive(m: Mission, x0: seq<real>, odeint: Odeint, n: nat)
    requires Runnable(m, x0, odeint) && 0 < n <= Zipped(m)
    requires Propagate(m, x0, odeint, n).error.None?
    ensures forall i :: 0 <= i < n ==> 0 < m.travelDays[i]
  {
    Advance(m, x0, odeint, n);
    if 1 < n {
      DurationsPositive(m, x0, odeint, n - 1);
      forall i | 0 <= i < n
        ensures 0 < m.travelDays[i]
      {
        if i < n - 1 {
          assert 0 < m.travelDays[i];
        }
      }
    }
  }

  /** After n > 0 passes without error the solutions hold
      sum(travel_days[:n]) rows. */
  lemma {:induction false} RowCount(m: Mission, x0: seq<real>, odeint: Odeint, n: nat)
    requires Runnable(m, x0, odeint) && 0 < n <= Zipped(m)
    requires Propagate(m, x0, odeint, n).error.None?
    ensures TotalRows(Propagate(m, x0, odeint, n).solutions) == Sum(m.travelDays[..n])
  {
    Appended(m, x0, odeint, n);
    PrefixStep(m.travelDays, n - 1);
    var s := Propagate(m, x0, odeint, n).solutions;
    assert s[..|s| - 1] == Propagate(m, x0, odeint, n - 1).solutions;
    if 1 < n {
      RowCount(m, x0, odeint, n - 1);
    } else {
      assert m.travelDays[..0] == [];
    }
  }

  /** After n > 0 passes without error t_current is
      86400 * (sum(travel_days[:n]) - n): each segment starts at the previous
      segment's last instant, which is therefore sampled twice. */
  lemma {:induction false} Clock(m: Mission, x0: seq<real>, odeint: Odeint, n: nat)
    requires Runnable(m, x0, odeint) && 0 < n <= Zipped(m)
    requires Propagate(m, x0, odeint, n).error.None?
    ensures Propagate(m, x0, odeint, n).tCurrent == DAY * (Sum(m.travelDays[..n]) - n)
  {
    Advance(m, x0, odeint, n);
    PrefixStep(m.travelDays, n - 1);
    var before := Sum(m.travelDays[..n - 1]);
    if 1 < n {
      Clock(m, x0, odeint, n - 1);
    } else {
      assert m.travelDays[..0] == [];
    }
    assert Propagate(m, x0, odeint, n - 1).tCurrent == DAY * (before - (n - 1));
    DaysAdd(before - (n - 1), m.travelDays[n - 1] - 1, Sum(m.travelDays[..n]) - n);
  }

  /** Whole days add up. */
  lemma DaysAdd(a: int, b: int, c: int)
    requires a + b == c
    ensures DAY * a + b * DAY == DAY * c
  {
  }

  /** The first segment feels the Sun only, so it cannot end in a collision:
      it succeeds exactly when it lasts a positive number of days. */
  lemma FirstSegment(m: Mission, x0: seq<real>, odeint: Odeint)
    requires Runnable(m, x0, odeint) && 0 < Zipped(m)
    ensures Propagate(m, x0, odeint, 1).error.None? <==> 0 < m.travelDays[0]
    ensures Propagate(m, x0, odeint, 1).error.Some? ==> Propagate(m, x0, odeint, 1).error == Some(EmptySegment(0))
  {
    var prev := Propagate(m, x0, odeint, 0);
    var grid := TimeGrid(0, m.travelDays[0]);
    assert Propagate(m, x0, odeint, 1) == Segment(m, x0, odeint, prev, 0);
    NoBodyNoCollision(odeint, NBodyModel(m.dtStart, []), x0, Reals(grid));
    TimeGridShape(0, m.travelDays[0]);
  }

  /** Two missions that differ at most in deltaV[0]. */
  predicate SameButFirstDeltaV(m: Mission, m': Mission)
  {
    && m'.dtStart == m.dtStart && m'.travelDays == m.travelDays && m'.planets == m.planets
    && |m'.deltaV| == |m.deltaV|
    && forall i :: 0 < i < |m.deltaV| ==> m'.deltaV[i] == m.deltaV[i]
  }

  /** deltaV[0] is never applied, so two missions that differ at most in it
      propagate the same way. */
  lemma {:induction false} FirstDeltaVIgnored(m: Mission, m': Mission, x0: seq<real>, odeint: Odeint, n: nat)
    requires Runnable(m, x0, odeint) && SameButFirstDeltaV(m, m') && 0 < n <= Zipped(m)
    ensures Runnable(m', x0, odeint) && Zipped(m') == Zipped(m)
    ensures Propagate(m, x0, odeint, n) == Propagate(m', x0, odeint, n)
  {
    SameSegments(m, m', x0, odeint);
    if 1 < n {
      FirstDeltaVIgnored(m, m', x0, odeint, n - 1);
    }
    var prev := Propagate(m, x0, odeint, n - 1);
    assert prev == Propagate(m', x0, odeint, n - 1);
    if prev.error.None? {
      assert Segment(m, x0, odeint, prev, n - 1) == Segment(m', x0, odeint, prev, n - 1);
    }
  }

  /** Every segment of two missions that differ at most in deltaV[0] is the
      same from the same progress. */
  lemma SameSegments(m: Mission, m': Mission, x0: seq<real>, odeint: Odeint)
    requires Runnable(m, x0, odeint) && SameButFirstDeltaV(m, m')
    ensures Runnable(m', x0, odeint) && Zipped(m') == Zipped(m)
    ensures forall prev: Progress, i: nat ::
              i < Zipped(m) && prev.error.None? && |prev.solutions| == i &&
              RowsOfFour(prev.solutions) && NoneEmpty(prev.solutions) ==>
                Segment(m, x0, odeint, prev, i) == Segment(m', x0, odeint, prev, i)
  {
    assert Zipped(m') == Zipped(m);
    forall i | 0 < i < Zipped(m') ensures 2 <= |m'.deltaV[i]| {
      assert m'.deltaV[i] == m.deltaV[i];
    }
  }

  /** The first segment is the same whatever bodies are listed. */
  lemma FirstSegmentIgnoresPlanets(m: Mission, x0: seq<real>, odeint: Odeint, planets: seq<string>)
    requires Runnable(m, x0, odeint) && 0 < Zipped(m)
    ensures DeltaVsUsable(m.(planets := planets))
    ensures Propagate(m, x0, odeint, 1) == Propagate(m.(planets := planets), x0, odeint, 1)
  {
    var m' := m.(planets := planets);
    assert Zipped(m') == Zipped(m);
    var prev := Propagate(m, x0, odeint, 0);
    assert Propagate(m, x0, odeint, 1) == Segment(m, x0, odeint, prev, 0);
    assert Propagate(m', x0, odeint, 1) == Segment(m', x0, odeint, prev, 0);
  }

  /** How pass n fails when the passes before it succeeded: either the
      right-hand side found the spacecraft inside one of the bodies the segment
      feels, or the segment lasted no days and has no last instant. */
  lemma PassError(m: Mission, x0: seq<real>, odeint: Odeint, n: nat)
    requires Runnable(m, x0, odeint) && 0 < n <= Zipped(m)
    requires Propagate(m, x0, odeint, n - 1).error.None?
    requires Propagate(m, x0, odeint, n).error.Some?
    ensures var e := Propagate(m, x0, odeint, n).error.value;
            && (e.SegmentCollision? ==> e.segment == n - 1 && e.body in PlanetsFor(m, n - 1))
            && (!e.SegmentCollision? ==> e == EmptySegment(n - 1) && m.travelDays[n - 1] <= 0)
  {
    var prev := Propagate(m, x0, odeint, n - 1);
    assert Propagate(m, x0, odeint, n) == Segment(m, x0, odeint, prev, n - 1);
    TimeGridShape(prev.tCurrent, m.travelDays[n - 1]);
  }

  /** The run of the test: segments of 30 and 60 days with two delta-Vs give
      two solutions of 30 and 60 rows, unless the second segment meets one of
      the listed bodies. */
  lemma RunOfTwoSegments(m: Mission, x0: seq<real>, odeint: Odeint)
    requires IsOdeint(odeint) && |x0| == 4
    requires m.travelDays == [30, 60] && |m.deltaV| == 2 && 2 <= |m.deltaV[1]|
    ensures Runnable(m, x0, odeint) && Zipped(m) == 2
    ensures var p := Propagate(m, x0, odeint, 2);
            && (p.error.None? ==> |p.solutions| == 2 && |p.solutions[0]| == 30 && |p.solutions[1]| == 60)
            && (p.error.Some? ==>
                  p.error.value.SegmentCollision? && p.error.value.segment == 1 && p.error.value.body in m.planets)
  {
    assert Zipped(m) == 2;
    FirstSegment(m, x0, odeint);
    var p := Propagate(m, x0, odeint, 2);
    if p.error.Some? {
      PassError(m, x0, odeint, 2);
    } else {
      Appended(m, x0, odeint, 1);
      Appended(m, x0, odeint, 2);
    }
  }

  /** The clock of the test's run: 90 samples in all and t_current at day 88,
      the instants of days 29 and 88 being sampled twice. */
  lemma ClockOfTwoSegments(m: Mission, x0: seq<real>, odeint: Odeint)
    requires Runnable(m, x0, odeint) && m.travelDays == [30, 60] && |m.deltaV| == 2
    requires Propagate(m, x0, odeint, 2).error.None?
    ensures TotalRows(Propagate(m, x0, odeint, 2).solutions) == 90
    ensures Propagate(m, x0, odeint, 2).tCurrent == 88 * DAY
  {
    RowCount(m, x0, odeint, 2);
    Clock(m, x0, odeint, 2);
    assert m.travelDays[..2] == [30, 60];
    assert Sum([30, 60]) == 90 by {
      assert [30, 60][..1] == [30];
    }
  }

  /** With every duration positive and no error, the daily timeseries of
      sum(travel_days) days has as many instants as the spacecraft has samples
      exactly when no duration is dropped by the zip with delta_V. */
  lemma SeriesMatchesSamples(m: Mission, x0: seq<real>, odeint: Odeint)
    requires Runnable(m, x0, odeint)
    requires Propagate(m, x0, odeint, Zipped(m)).error.None?
    requires forall i :: 0 <= i < |m.travelDays| ==> 0 < m.travelDays[i]
    ensures |DailyInstants(m.dtStart, Sum(m.travelDays))| == TotalRows(Propagate(m, x0, odeint, Zipped(m)).solutions)
            <==> |m.travelDays| <= |m.deltaV|
  {
    var n := Zipped(m);
    SumSplit(m.travelDays, n);
    SumOfPositives(m.travelDays[..n]);
    SumOfPositives(m.travelDays[n..]);
    if 0 < n {
      RowCount(m, x0, odeint, n);
    } else {
      assert m.travelDays[..0] == [];
      assert Propagate(m, x0, odeint, 0).solutions == [];
    }
  }

  /** After a run without error in which every duration has its delta-V, the
      daily timeseries has one instant per spacecraft sample. */
  lemma MissionSamples(m: Mission, x0: seq<real>, odeint: Odeint)
    requires Runnable(m, x0, odeint)
    requires Propagate(m, x0, odeint, Zipped(m)).error.None?
    requires 0 < |m.travelDays| <= |m.deltaV|
    ensures 0 < |Propagate(m, x0, odeint, Zipped(m)).solutions|
    ensures |DailyInstants(m.dtStart, Sum(m.travelDays))| == Sum(m.travelDays)
            == TotalRows(Propagate(m, x0, odeint, Zipped(m)).solutions)
  {
    var n := Zipped(m);
    RowCount(m, x0, odeint, n);
    DurationsPositive(m, x0, odeint, n);
    assert m.travelDays[..n] == m.travelDays;
    SumOfPositives(m.travelDays);
  }

  /** The Earth's series when the Earth is listed once: one position per
      instant, in the order of the instants. */
  lemma EarthSeries(eph: Lookup, ts: seq<real>, planets: seq<string>)
    requires Count("earth", planets) == 1
    ensures "earth" in CoordTimeseries(eph, ts, planets)
    ensures |CoordTimeseries(eph, ts, planets)["earth"].x| == |ts|
    ensures forall k :: 0 <= k < |ts| ==>
              && CoordTimeseries(eph, ts, planets)["earth"].x[k] == eph("earth", ts[k]).x
              && CoordTimeseries(eph, ts, planets)["earth"].y[k] == eph("earth", ts[k]).y
  {
    var tr := CoordTimeseries(eph, ts, planets)["earth"];
    SamplesLength(eph, ts, "earth", 1);
    forall k | 0 <= k < |ts|
      ensures tr.x[k] == eph("earth", ts[k]).x && tr.y[k] == eph("earth", ts[k]).y
    {
      SeriesEntryIsLookup(eph, ts, planets, "earth", k);
    }
  }

  /** The distance to the Earth, listed once, when the timeseries has one
      instant per spacecraft sample: no error, one value per instant, each the
      distance between the Earth's position at that instant and the
      spacecraft's sample of the same index. */
  lemma DistanceToEarth(eph: Lookup, ts: seq<real>, planets: seq<string>, solutions: seq<seq<seq<real>>>,
                        sqrt: real -> real, previous: Option<seq<real>>)
    requires RowsOfFour(solutions) && 0 < |solutions| && |ts| == TotalRows(solutions)
    requires Count("earth", planets) == 1
    ensures var d := DistanceUpdate(CoordTimeseries(eph, ts, planets), solutions, sqrt, previous);
            && d.0 == None && d.1.Some? && |d.1.value| == |ts|
            && forall k :: 0 <= k < |ts| ==>
                 d.1.value[k] == Gap(eph("earth", ts[k]).x, eph("earth", ts[k]).y,
                                     Column(solutions, 0)[k], Column(solutions, 1)[k], sqrt)
  {
    EarthSeries(eph, ts, planets);
    var earth := CoordTimeseries(eph, ts, planets)["earth"];
    var r := EarthDistance(earth, solutions, sqrt);
    assert r.Ok? && |r.value| == |ts|;
    forall k | 0 <= k < |ts|
      ensures r.value[k] == Gap(eph("earth", ts[k]).x, eph("earth", ts[k]).y,
                                Column(solutions, 0)[k], Column(solutions, 1)[k], sqrt)
    {
      assert earth.x[k] == eph("earth", ts[k]).x && earth.y[k] == eph("earth", ts[k]).y;
    }
  }

  /** The distance to the Earth after a run without error in which every
      duration has its delta-V and the Earth is listed once: one value per day
      of the mission. */
  lemma DistanceOverTheMission(m: Mission, x0: seq<real>, odeint: Odeint, eph: Lookup, sqrt: real -> real,
                               previous: Option<seq<real>>)
    requires Runnable(m, x0, odeint)
    requires Propagate(m, x0, odeint, Zipped(m)).error.None?
    requires 0 < |m.travelDays| <= |m.deltaV|
    requires Count("earth", m.planets) == 1
    ensures var ts := DailyInstants(m.dtStart, Sum(m.travelDays));
            var sols := Propagate(m, x0, odeint, Zipped(m)).solutions;
            var d := DistanceUpdate(CoordTimeseries(eph, ts, m.planets), sols, sqrt, previous);
            && |ts| == Sum(m.travelDays) == TotalRows(sols)
            && d.0 == None && d.1.Some? && |d.1.value| == Sum(m.travelDays)
  {
    MissionSamples(m, x0, odeint);
    var ts := DailyInstants(m.dtStart, Sum(m.travelDays));
    DistanceToEarth(eph, ts, m.planets, Propagate(m, x0, odeint, Zipped(m)).solutions, sqrt, previous);
  }

  /** When delta_V is shorter than travel_days the zip drops durations: after a
      run without error, with every duration positive and the Earth listed once,
      the Earth's series is longer than the spacecraft's samples. The distance
      then fails with a shape mismatch, keeping the earlier distance, unless the
      samples are a single row, which numpy broadcasts over the whole series. */
  lemma DroppedDurationsMismatch(m: Mission, x0: seq<real>, odeint: Odeint, eph: Lookup, sqrt: real -> real,
                                 previous: Option<seq<real>>)
    requires Runnable(m, x0, odeint)
    requires Propagate(m, x0, odeint, Zipped(m)).error.None?
    requires 0 < |m.deltaV| < |m.travelDays|
    requires forall i :: 0 <= i < |m.travelDays| ==> 0 < m.travelDays[i]
    requires Count("earth", m.planets) == 1
    ensures var ts := DailyInstants(m.dtStart, Sum(m.travelDays));
            var sols := Propagate(m, x0, odeint, Zipped(m)).solutions;
            var d := DistanceUpdate(CoordTimeseries(eph, ts, m.planets), sols, sqrt, previous);
            && TotalRows(sols) < |ts| == Sum(m.travelDays)
            && (TotalRows(sols) != 1 ==> d == (Some(ShapeMismatch(Sum(m.travelDays), TotalRows(sols))), previous))
            && (TotalRows(sols) == 1 ==> d.0 == None && d.1.Some? && |d.1.value| == Sum(m.travelDays))
  {
    var n := Zipped(m);
    var ts := DailyInstants(m.dtStart, Sum(m.travelDays));
    var sols := Propagate(m, x0, odeint, n).solutions;
    assert n == |m.deltaV|;
    RowCount(m, x0, odeint, n);
    SumSplit(m.travelDays, n);
    SumOfPositives(m.travelDays[..n]);
    SumOfPositives(m.travelDays[n..]);
    assert TotalRows(sols) < Sum(m.travelDays) == |ts|;
    EarthSeries(eph, ts, m.planets);
    var earth := CoordTimeseries(eph, ts, m.planets)["earth"];
    assert |earth.x| == |ts| && 0 < |sols|;
  }

  /** Without the Earth among the listed bodies the distance keeps the value of
      an earlier run, and no error is raised. */
  lemma DistanceKeptWithoutEarth(eph: Lookup, ts: seq<real>, planets: seq<string>,
                                 solutions: seq<seq<seq<real>>>, sqrt: real -> real, previous: Option<seq<real>>)
    requires RowsOfFour(solutions) && "earth" !in planets
    ensures "earth" !in CoordTimeseries(eph, ts, planets)
    ensures DistanceUpdate(CoordTimeseries(eph, ts, planets), solutions, sqrt, previous) == (None, previous)
  {
  }
}
