/** Rolling statistics (src/recon/anomaly/stats.py): Welford's recurrence over exact rationals. */
module RollingStats {

  datatype Stats = Stats(count: nat, mean: real, m2: real, activeDays: nat, lastActive: int)

  datatype Observation = Observation(amount: int, day: int)

  function First(o: Observation): Stats {
    Stats(1, o.amount as real, 0.0, 1, o.day)
  }

  function Observe(s: Stats, o: Observation): Stats {
    var x := o.amount as real;
    var count := s.count + 1;
    var delta := x - s.mean;
    var mean := s.mean + delta / count as real;
    var newDay := o.day > s.lastActive;
    Stats(count, mean, s.m2 + delta * (x - mean),
          s.activeDays + (if newDay then 1 else 0), if newDay then o.day else s.lastActive)
  }

  /** The statistics after a whole history. */
  function Fold(history: seq<Observation>): Stats
    requires history != []
  {
    if |history| == 1 then First(history[0])
    else Observe(Fold(history[..|history| - 1]), history[|history| - 1])
  }

  lemma FoldNext(history: seq<Observation>)
    requires |history| > 1
    ensures Fold(history) == Observe(Fold(history[..|history| - 1]), history[|history| - 1])
  {
  }

  lemma FoldOne(o: Observation)
    ensures Fold([o]) == First(o)
  {
  }

  // ------------------------------------------------------------------- what they should be

  function Total(history: seq<Observation>): real {
    if history == [] then 0.0 else Total(history[..|history| - 1]) + history[|history| - 1].amount as real
  }

  function Square(a: real): real { a * a }

  function Times(a: real, b: real): real { a * b }

  /** The sum of squared deviations from m. */
  function Deviations(history: seq<Observation>, m: real): real {
    if history == [] then 0.0
    else Deviations(history[..|history| - 1], m) + Square(history[|history| - 1].amount as real - m)
  }

  lemma {:induction false} DeviationsAreNonNegative(history: seq<Observation>, m: real)
    ensures Deviations(history, m) >= 0.0
  {
    hide Square;
    if history != [] {
      DeviationsAreNonNegative(history[..|history| - 1], m);
      SquareIsNonNegative(history[|history| - 1].amount as real - m);
    }
  }

  lemma SquareIsNonNegative(a: real)
    ensures Square(a) >= 0.0
  {
  }

  lemma Bilinear(a: real, b: real, c: real)
    ensures Times(a + b, c) == Times(a, c) + Times(b, c) && Times(c, a + b) == Times(c, a) + Times(c, b)
    ensures Times(a, b) == Times(b, a) && Times(1.0, a) == a && Times(0.0, a) == 0.0
  {
  }

  lemma OneTerm(x: real, m: real, d: real)
    ensures Square(x - (m + d)) == Square(x - m) - 2.0 * Times(d, x - m) + Square(d)
  {
  }

  /** Moving the centre from m to m + d. */
  lemma {:induction false} Recentre(history: seq<Observation>, m: real, d: real)
    ensures Deviations(history, m + d)
            == Deviations(history, m) - 2.0 * Times(d, Total(history) - Times(|history| as real, m))
               + Times(|history| as real, Square(d))
  {
    hide Square, Times;
    if history == [] {
      Bilinear(m, d, d);
      Bilinear(Square(d), d, d);
      Bilinear(d, 0.0, d);
    } else {
      var n := |history| - 1;
      var front, x, c := history[..n], history[n].amount as real, n as real;
      Recentre(front, m, d);
      OneTerm(x, m, d);
      assert |history| as real == c + 1.0;
      Bilinear(c, 1.0, m);
      Bilinear(m, m, m);
      Bilinear(c, 1.0, Square(d));
      Bilinear(Square(d), m, m);
      Bilinear(Total(front) - Times(c, m), x - m, d);
      assert Total(front) - Times(c, m) + (x - m) == Total(history) - Times(c + 1.0, m);
    }
  }

  /** One step of the recurrence: c values around their mean m, one more value x. */
  lemma WelfordStep(s: Stats, o: Observation)
    requires s.count >= 1
    ensures var x, c, after := o.amount as real, s.count as real, Observe(s, o);
            && after.count == s.count + 1
            && Times(c + 1.0, after.mean) == Times(c, s.mean) + x
            && after.m2 == s.m2 + Times(c, Square(after.mean - s.mean)) + Square(x - after.mean)
  {
    var x, c := o.amount as real, s.count as real;
    var delta := x - s.mean;
    var d := delta / (c + 1.0);
    assert (s.count + 1) as real == c + 1.0;
    assert d * (c + 1.0) == delta;
    StepAlgebra(c, s.mean, x, d);
  }

  lemma StepAlgebra(c: real, m: real, x: real, d: real)
    requires d * (c + 1.0) == x - m
    ensures Times(c + 1.0, m + d) == Times(c, m) + x
    ensures (x - m) * (x - (m + d)) == Times(c, Square(d)) + Square(x - (m + d))
  {
    var p := c * d;
    assert x - m == p + d;
    assert x - (m + d) == p;
    assert (c + 1.0) * (m + d) == c * m + m + (c + 1.0) * d;
    assert (p + d) * p == p * p + d * p;
    assert d * p == c * (d * d);
  }

  lemma Centred(c: real, m: real, total: real, d: real)
    requires Times(c, m) == total
    ensures Times(d, total - Times(c, m)) == 0.0
  {
  }

  /** The fold holds the true mean and the true sum of squared deviations from it. */
  lemma {:induction false} WelfordIsExact(history: seq<Observation>)
    requires history != []
    ensures var s := Fold(history);
            && s.count == |history|
            && Times(|history| as real, s.mean) == Total(history)
            && s.m2 == Deviations(history, s.mean)
  {
    hide Fold, Observe, Times, Square;
    var n := |history| - 1;
    var front, o := history[..n], history[n];
    if n == 0 {
      assert history == [o] && front == [];
      FoldOne(o);
      Bilinear(o.amount as real, 0.0, 0.0);
      NoSpread(o.amount as real);
    } else {
      WelfordIsExact(front);
      FoldNext(history);
      var before, after := Fold(front), Fold(history);
      WelfordStep(before, o);
      Recentre(front, before.mean, after.mean - before.mean);
      Centred(n as real, before.mean, Total(front), after.mean - before.mean);
      assert before.mean + (after.mean - before.mean) == after.mean;
      assert |history| as real == n as real + 1.0;
    }
  }

  lemma NoSpread(x: real)
    ensures Square(x - x) == 0.0
  {
  }

  /** Hence m2 is never negative and the sample variance is the mean square of the textbook formula. */
  lemma VarianceIsSound(history: seq<Observation>)
    requires history != []
    ensures Fold(history).m2 >= 0.0
    ensures |history| > 1 ==>
              Variance(Fold(history))
              == Deviations(history, Total(history) / |history| as real) / (|history| - 1) as real
    ensures |history| == 1 ==> Variance(Fold(history)) == 0.0
  {
    hide Fold, Deviations, Total, Square;
    WelfordIsExact(history);
    DeviationsAreNonNegative(history, Fold(history).mean);
    Divided(Fold(history).mean, |history| as real, Total(history));
  }

  lemma Divided(mean: real, n: real, total: real)
    requires n > 0.0 && Times(n, mean) == total
    ensures mean == total / n
  {
  }

  /** variance: the sample variance, zero until there are two observations. */
  function Variance(s: Stats): real {
    if s.count > 1 then s.m2 / (s.count - 1) as real else 0.0
  }

  // ------------------------------------------------------------------- active days

  function Days(history: seq<Observation>): set<int> {
    set o | o in history :: o.day
  }

  predicate NonDecreasing(history: seq<Observation>) {
    forall j, k :: 0 <= j < k < |history| ==> history[j].day <= history[k].day
  }

  lemma ObserveDays(s: Stats, o: Observation)
    ensures var after := Observe(s, o);
            && after.activeDays == s.activeDays + (if o.day > s.lastActive then 1 else 0)
            && after.lastActive == if o.day > s.lastActive then o.day else s.lastActive
  {
  }

  lemma DaysMore(front: seq<Observation>, o: Observation)
    ensures Days(front + [o]) == Days(front) + {o.day}
  {
    assert forall x :: x in front + [o] <==> x in front || x == o;
  }

  /** activeDays never counts a day twice; when days do not go backwards it counts every one. */
  lemma {:induction false} ActiveDaysAreDistinct(history: seq<Observation>)
    requires history != []
    ensures var s := Fold(history);
            && s.activeDays <= |Days(history)|
            && (forall d :: d in Days(history) ==> d <= s.lastActive) && s.lastActive in Days(history)
            && (NonDecreasing(history) ==>
                 s.activeDays == |Days(history)| && s.lastActive == history[|history| - 1].day)
  {
    hide Fold, Observe, Days;
    var n := |history| - 1;
    var front, o := history[..n], history[n];
    assert history == front + [o];
    DaysMore(front, o);
    if n == 0 {
      assert history == [o] && front == [];
      FoldOne(o);
      NoDays();
    } else {
      ActiveDaysAreDistinct(front);
      FoldNext(history);
      ObserveDays(Fold(front), o);
      OneMoreMember(Days(front), o.day);
    }
  }

  lemma NoDays()
    ensures Days([]) == {}
  {
  }

  lemma OneMoreMember(days: set<int>, d: int)
    ensures |days + {d}| == |days| + (if d in days then 0 else 1)
  {
    assert d in days ==> days + {d} == days;
  }
}
