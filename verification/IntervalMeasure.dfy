/**
  Cost accounting of the ninja build report (repos/vllm/tools/report_build_time_ninja.py).

  `SummarizeEntries` sweeps over the start and stop events of all build steps and charges every
  step, at every instant, an equal part of the elapsed time.  This module gives that charge an
  independent meaning (`Share`, an integral of 1 / number of running steps), gives "time during
  which something runs" an independent meaning (`Measure`, the length of a union of intervals),
  proves the conservation law between the two, and proves the event sweep against them.
 */
module IntervalMeasure {

  /** The half-open interval [start, end) during which a build step runs. */
  datatype Span = Span(start: real, end: real)

  function Max(x: real, y: real): real { if x < y then y else x }

  function Min(x: real, y: real): real { if x < y then x else y }

  /** Some step is running at instant t. */
  ghost predicate Busy(ts: seq<Span>, t: real) {
    exists i :: 0 <= i < |ts| && ts[i].start <= t < ts[i].end
  }

  /** Length of the part of [a, b) that is covered by the union of the spans. */
  function Measure(ts: seq<Span>, a: real, b: real): real
    decreases |ts|
  {
    if a >= b || ts == [] then 0.0
    else
      var lo, hi := Max(a, ts[0].start), Min(b, ts[0].end);
      if lo >= hi then Measure(ts[1..], a, b)
      else Measure(ts[1..], a, lo) + (hi - lo) + Measure(ts[1..], hi, b)
  }

  /**
    The integral over [a, b) of 1 / (k + number of spans running), instants with nothing running
    counting as zero.
   */
  function Share(ts: seq<Span>, a: real, b: real, k: nat): real
    decreases |ts|
  {
    if a >= b then 0.0
    else if ts == [] then (if k == 0 then 0.0 else (b - a) / k as real)
    else
      var lo, hi := Max(a, ts[0].start), Min(b, ts[0].end);
      if lo >= hi then Share(ts[1..], a, b, k)
      else Share(ts[1..], a, lo, k) + Share(ts[1..], lo, hi, k + 1) + Share(ts[1..], hi, b, k)
  }

  /** The charges of all the spans in us for the window [a, b), summed. */
  function Charged(us: seq<Span>, ts: seq<Span>, a: real, b: real, k: nat): real {
    if us == [] then 0.0
    else Share(ts, Max(a, us[0].start), Min(b, us[0].end), k) + Charged(us[1..], ts, a, b, k)
  }

  /** Number of spans that run throughout a window they either fill or avoid. */
  function Running(ts: seq<Span>, a: real): nat {
    if ts == [] then 0
    else (if ts[0].start <= a < ts[0].end then 1 else 0) + Running(ts[1..], a)
  }

  /** Every span covers [a, b) entirely or does not meet it. */
  ghost predicate Uniform(ts: seq<Span>, a: real, b: real) {
    forall i :: 0 <= i < |ts| ==> Fills(ts[i], a, b) || Avoids(ts[i], a, b)
  }

  predicate Fills(s: Span, a: real, b: real) { s.start <= a && b <= s.end }

  predicate Avoids(s: Span, a: real, b: real) { s.end <= a || b <= s.start || s.end <= s.start }

  // ----- Measure: the length of a union

  lemma {:induction false} MeasureSplit(ts: seq<Span>, a: real, m: real, b: real)
    requires a <= m <= b
    ensures Measure(ts, a, b) == Measure(ts, a, m) + Measure(ts, m, b)
    decreases |ts|
  {
    if ts != [] {
      var rest := ts[1..];
      var lo, hi := Max(a, ts[0].start), Min(b, ts[0].end);
      if lo >= hi || m <= lo {
        MeasureSplit(rest, a, m, if lo >= hi then b else lo);
      } else if m >= hi {
        MeasureSplit(rest, hi, m, b);
      }
    }
  }

  /** The measure of a window is between nothing and all of it. */
  lemma {:induction false} MeasureBounds(ts: seq<Span>, a: real, b: real)
    requires a <= b
    ensures 0.0 <= Measure(ts, a, b) <= b - a
    decreases |ts|
  {
    if ts != [] && a < b {
      var lo, hi := Max(a, ts[0].start), Min(b, ts[0].end);
      if lo >= hi {
        MeasureBounds(ts[1..], a, b);
      } else {
        MeasureBounds(ts[1..], a, lo);
        MeasureBounds(ts[1..], hi, b);
      }
    }
  }

  /** A window is fully measured exactly when it has no idle instant. */
  lemma {:induction false} FullMeasureIffNoIdleGap(ts: seq<Span>, a: real, b: real)
    requires a <= b
    ensures Measure(ts, a, b) == b - a <==> forall t :: a <= t < b ==> Busy(ts, t)
    decreases |ts|
  {
    if a == b {
    } else if ts == [] {
      assert !Busy(ts, a);
    } else {
      var rest := ts[1..];
      forall t ensures Busy(ts, t) <==> ts[0].start <= t < ts[0].end || Busy(rest, t) {
        BusyCons(ts, t);
      }
      var lo, hi := Max(a, ts[0].start), Min(b, ts[0].end);
      if lo >= hi {
        FullMeasureIffNoIdleGap(rest, a, b);
      } else {
        MeasureBounds(rest, a, lo);
        MeasureBounds(rest, hi, b);
        FullMeasureIffNoIdleGap(rest, a, lo);
        FullMeasureIffNoIdleGap(rest, hi, b);
      }
    }
  }

  /** Nothing of a window is measured exactly when no instant of it is busy. */
  lemma {:induction false} ZeroMeasureIffIdle(ts: seq<Span>, a: real, b: real)
    requires a <= b
    ensures Measure(ts, a, b) == 0.0 <==> forall t :: a <= t < b ==> !Busy(ts, t)
    decreases |ts|
  {
    if a < b && ts != [] {
      var rest := ts[1..];
      forall t ensures Busy(ts, t) <==> ts[0].start <= t < ts[0].end || Busy(rest, t) {
        BusyCons(ts, t);
      }
      var lo, hi := Max(a, ts[0].start), Min(b, ts[0].end);
      if lo >= hi {
        ZeroMeasureIffIdle(rest, a, b);
      } else {
        MeasureBounds(rest, a, lo);
        MeasureBounds(rest, hi, b);
        assert Busy(ts, lo);
      }
    }
  }

  lemma BusyCons(ts: seq<Span>, t: real)
    requires ts != []
    ensures Busy(ts, t) <==> ts[0].start <= t < ts[0].end || Busy(ts[1..], t)
  {
    if Busy(ts[1..], t) {
      var i :| 0 <= i < |ts[1..]| && ts[1..][i].start <= t < ts[1..][i].end;
      assert ts[i + 1] == ts[1..][i];
    }
    if Busy(ts, t) {
      var i :| 0 <= i < |ts| && ts[i].start <= t < ts[i].end;
      assert i > 0 ==> ts[i] == ts[1..][i - 1];
    }
  }

  // ----- Share: the charge of a window

  lemma {:induction false} ShareSplit(ts: seq<Span>, a: real, m: real, b: real, k: nat)
    requires a <= m <= b
    ensures Share(ts, a, b, k) == Share(ts, a, m, k) + Share(ts, m, b, k)
    decreases |ts|
  {
    if ts == [] {
      if k > 0 { DivSplit(a, m, b, k as real); }
    } else {
      var rest := ts[1..];
      var lo, hi := Max(a, ts[0].start), Min(b, ts[0].end);
      if lo >= hi || m <= lo {
        ShareSplit(rest, a, m, if lo >= hi then b else lo, k);
      } else if m >= hi {
        ShareSplit(rest, hi, m, b, k);
      } else {
        ShareSplit(rest, lo, m, hi, k + 1);
      }
    }
  }

  lemma DivSplit(a: real, m: real, b: real, d: real)
    requires d > 0.0
    ensures (b - a) / d == (m - a) / d + (b - m) / d
  {
    assert b - a == (m - a) + (b - m);
  }

  /** A window that every span fills or avoids is charged its length over the number running. */
  lemma {:induction false} ShareOfUniformWindow(ts: seq<Span>, a: real, b: real, k: nat)
    requires a < b && Uniform(ts, a, b)
    ensures Share(ts, a, b, k) ==
            if k + Running(ts, a) == 0 then 0.0 else (b - a) / (k + Running(ts, a)) as real
    decreases |ts|
  {
    if ts != [] {
      assert Fills(ts[0], a, b) || Avoids(ts[0], a, b);
      assert Uniform(ts[1..], a, b) by {
        forall i | 0 <= i < |ts[1..]| ensures Fills(ts[1..][i], a, b) || Avoids(ts[1..][i], a, b) {
          assert ts[1..][i] == ts[i + 1];
        }
      }
      if Fills(ts[0], a, b) {
        ShareOfUniformWindow(ts[1..], a, b, k + 1);
      } else {
        ShareOfUniformWindow(ts[1..], a, b, k);
      }
    }
  }

  /** Elapsed time over the number of running steps, nothing when none runs. */
  function Rate(a: real, b: real, n: nat): real { if n == 0 then 0.0 else (b - a) / n as real }

  lemma ShareIsRate(ts: seq<Span>, a: real, b: real, n: nat)
    requires a <= b
    requires a < b ==> Uniform(ts, a, b) && Running(ts, a) == n
    ensures Share(ts, a, b, 0) == Rate(a, b, n)
  {
    if a < b {
      ShareOfUniformWindow(ts, a, b, 0);
    }
  }

  /** With k steps running besides the spans, a charge lies between length/(k + all) and length/k. */
  lemma {:induction false} ShareBounds(ts: seq<Span>, a: real, b: real, k: nat)
    requires a <= b && k > 0
    ensures (b - a) / (k + |ts|) as real <= Share(ts, a, b, k) <= (b - a) / k as real
    decreases |ts|
  {
    if ts != [] && a < b {
      var rest, n := ts[1..], (k + |ts|) as real;
      var lo, hi := Max(a, ts[0].start), Min(b, ts[0].end);
      if lo >= hi {
        ShareBounds(rest, a, b, k);
        DivAntitone(b - a, (k + |rest|) as real, n);
      } else {
        ShareBounds(rest, a, lo, k);
        ShareBounds(rest, lo, hi, k + 1);
        ShareBounds(rest, hi, b, k);
        DivAntitone(lo - a, (k + |rest|) as real, n);
        DivAntitone(b - hi, (k + |rest|) as real, n);
        DivAntitone(hi - lo, k as real, (k + 1) as real);
        DivSplit(a, lo, b, n);
        DivSplit(lo, hi, b, n);
        DivSplit(a, lo, b, k as real);
        DivSplit(lo, hi, b, k as real);
      }
    }
  }

  lemma DivAntitone(x: real, d: real, e: real)
    requires 0.0 <= x && 0.0 < d <= e
    ensures x / e <= x / d
  {
    assert x / e * e == x && x / d * d == x;
  }

  lemma BoundsAddUp(a: real, lo: real, hi: real, b: real, m: real, n: real, x: real, y: real, z: real)
    requires a <= lo <= hi <= b && 0.0 < m <= n
    requires (lo - a) / m <= x <= lo - a && (hi - lo) / n <= y <= hi - lo && (b - hi) / m <= z <= b - hi
    ensures (b - a) / n <= x + y + z <= b - a
  {
    DivAntitone(lo - a, m, n);
    DivAntitone(b - hi, m, n);
    DivSplit(a, lo, b, n);
    DivSplit(lo, hi, b, n);
  }

  /** A span's own charge lies between its duration over the number of spans and its duration. */
  lemma {:induction false} OwnShareBounds(ts: seq<Span>, i: nat, a: real, b: real)
    requires i < |ts| && a <= b && Fills(ts[i], a, b)
    ensures (b - a) / |ts| as real <= Share(ts, a, b, 0) <= b - a
    decreases |ts|
  {
    if a < b {
      var rest := ts[1..];
      var lo, hi := Max(a, ts[0].start), Min(b, ts[0].end);
      if i == 0 {
        FirstShareBounds(ts, a, b);
      } else if lo >= hi {
        assert ts[i] == rest[i - 1];
        OwnShareBounds(rest, i - 1, a, b);
        DivAntitone(b - a, |rest| as real, |ts| as real);
      } else {
        assert ts[i] == rest[i - 1];
        OwnShareBounds(rest, i - 1, a, lo);
        OwnShareBounds(rest, i - 1, hi, b);
        SplitShareBounds(ts, a, lo, hi, b);
      }
    }
  }

  lemma FirstShareBounds(ts: seq<Span>, a: real, b: real)
    requires ts != [] && a < b && Fills(ts[0], a, b)
    ensures (b - a) / |ts| as real <= Share(ts, a, b, 0) <= b - a
  {
    var rest := ts[1..];
    assert Share(ts, a, b, 0) == Share(rest, a, b, 1);
    ShareBounds(rest, a, b, 1);
  }

  lemma SplitShareBounds(ts: seq<Span>, a: real, lo: real, hi: real, b: real)
    requires |ts| > 1 && a < b && lo == Max(a, ts[0].start) && hi == Min(b, ts[0].end) && lo < hi
    requires (lo - a) / |ts[1..]| as real <= Share(ts[1..], a, lo, 0) <= lo - a
    requires (b - hi) / |ts[1..]| as real <= Share(ts[1..], hi, b, 0) <= b - hi
    ensures (b - a) / |ts| as real <= Share(ts, a, b, 0) <= b - a
  {
    var rest := ts[1..];
    var x, y, z := Share(rest, a, lo, 0), Share(rest, lo, hi, 1), Share(rest, hi, b, 0);
    assert (hi - lo) / |ts| as real <= y <= hi - lo by {
      ShareBounds(rest, lo, hi, 1);
    }
    assert Share(ts, a, b, 0) == x + y + z;
    BoundsAddUp(a, lo, hi, b, |rest| as real, |ts| as real, x, y, z);
  }

  // ----- Conservation

  /** How one more span splits the charge of another span's window. */
  lemma ShareCons(ts: seq<Span>, u: Span, a: real, b: real, k: nat)
    requires a <= b && ts != []
    ensures var lo, hi := Max(a, ts[0].start), Min(b, ts[0].end);
            Share(ts, Max(a, u.start), Min(b, u.end), k) ==
            if lo >= hi then Share(ts[1..], Max(a, u.start), Min(b, u.end), k)
            else Share(ts[1..], Max(a, u.start), Min(lo, u.end), k)
                 + Share(ts[1..], Max(lo, u.start), Min(hi, u.end), k + 1)
                 + Share(ts[1..], Max(hi, u.start), Min(b, u.end), k)
  {
  }

  lemma {:induction false} ChargedCons(us: seq<Span>, ts: seq<Span>, a: real, b: real, k: nat)
    requires a <= b && ts != []
    ensures var lo, hi := Max(a, ts[0].start), Min(b, ts[0].end);
            Charged(us, ts, a, b, k) ==
            if lo >= hi then Charged(us, ts[1..], a, b, k)
            else Charged(us, ts[1..], a, lo, k) + Charged(us, ts[1..], lo, hi, k + 1)
                 + Charged(us, ts[1..], hi, b, k)
    decreases |us|
  {
    if us != [] {
      ShareCons(ts, us[0], a, b, k);
      ChargedCons(us[1..], ts, a, b, k);
    }
  }

  /** x added up k times. */
  function Times(k: nat, x: real): real { if k == 0 then 0.0 else x + Times(k - 1, x) }

  lemma {:induction false} TimesAdds(k: nat, x: real, y: real)
    ensures Times(k, x + y) == Times(k, x) + Times(k, y)
  {
    if k > 0 { TimesAdds(k - 1, x, y); }
  }

  lemma {:induction false} TimesIsProduct(k: nat, x: real)
    ensures Times(k, x) == k as real * x
  {
    if k > 0 { TimesIsProduct(k - 1, x); }
  }

  /**
    The conservation law, with k further steps running all the time: what all steps together are
    charged for a window is the time during which anything runs.
   */
  lemma {:induction false} ChargesCoverWindow(ts: seq<Span>, a: real, b: real, k: nat)
    requires a <= b
    ensures Charged(ts, ts, a, b, k) + Times(k, Share(ts, a, b, k)) ==
            if k == 0 then Measure(ts, a, b) else b - a
    decreases |ts|, 1
  {
    if ts == [] {
      TimesIsProduct(k, Share(ts, a, b, k));
    } else {
      var rest := ts[1..];
      var lo, hi := Max(a, ts[0].start), Min(b, ts[0].end);
      if lo >= hi {
        ChargedCons(rest, ts, a, b, k);
        ChargesCoverWindow(rest, a, b, k);
      } else {
        ChargesCoverPieces(ts, a, lo, hi, b, k);
      }
    }
  }

  /** The inductive step: the pieces before, inside and after the first span's interval. */
  lemma {:induction false} ChargesCoverPieces(ts: seq<Span>, a: real, lo: real, hi: real, b: real, k: nat)
    requires a <= b && ts != []
    requires lo == Max(a, ts[0].start) && hi == Min(b, ts[0].end) && lo < hi
    ensures Charged(ts, ts, a, b, k) + Times(k, Share(ts, a, b, k)) ==
            if k == 0 then Measure(ts, a, b) else b - a
    decreases |ts|, 0
  {
    var rest := ts[1..];
    var x, y, z := Share(rest, a, lo, k), Share(rest, lo, hi, k + 1), Share(rest, hi, b, k);
    var cx, cy, cz :=
      Charged(rest, rest, a, lo, k), Charged(rest, rest, lo, hi, k + 1), Charged(rest, rest, hi, b, k);
    assert Charged(ts, ts, a, b, k) == y + (cx + cy + cz) by {
      ChargedCons(rest, ts, a, b, k);
      assert Share(ts, lo, hi, k) == y;
    }
    assert Share(ts, a, b, k) == x + y + z;
    var mx, mz := if k == 0 then Measure(rest, a, lo) else lo - a, if k == 0 then Measure(rest, hi, b) else b - hi;
    assert cx + Times(k, x) == mx by { ChargesCoverWindow(rest, a, lo, k); }
    assert cy + Times(k + 1, y) == hi - lo by { ChargesCoverWindow(rest, lo, hi, k + 1); }
    assert cz + Times(k, z) == mz by { ChargesCoverWindow(rest, hi, b, k); }
    assert Times(k, x + y + z) == Times(k, x) + Times(k, y) + Times(k, z) by {
      TimesAdds(k, x + y, z);
      TimesAdds(k, x, y);
    }
    assert Times(k + 1, y) == y + Times(k, y);
  }

  /** Summed over all spans, the charges for their whole durations. */
  function TotalCharge(us: seq<Span>, ts: seq<Span>): real {
    if us == [] then 0.0 else Share(ts, us[0].start, us[0].end, 0) + TotalCharge(us[1..], ts)
  }

  lemma {:induction false} TotalIsCharged(us: seq<Span>, ts: seq<Span>, a: real, b: real)
    requires forall i :: 0 <= i < |us| ==> a <= us[i].start && us[i].end <= b
    ensures TotalCharge(us, ts) == Charged(us, ts, a, b, 0)
  {
    if us != [] {
      assert a <= us[0].start && us[0].end <= b;
      assert forall i :: 0 <= i < |us[1..]| ==> us[1..][i] == us[i + 1];
      TotalIsCharged(us[1..], ts, a, b);
    }
  }

  /**
    Conservation of build time: the weighted durations of all steps add up to the length of the
    union of their intervals, and so to the whole window exactly when it has no idle instant.
   */
  lemma Conservation(ts: seq<Span>, a: real, b: real)
    requires a <= b
    requires forall i :: 0 <= i < |ts| ==> a <= ts[i].start && ts[i].end <= b
    ensures TotalCharge(ts, ts) == Measure(ts, a, b) <= b - a
    ensures TotalCharge(ts, ts) == b - a <==> forall t :: a <= t < b ==> Busy(ts, t)
  {
    TotalIsCharged(ts, ts, a, b);
    ChargesCoverWindow(ts, a, b, 0);
    MeasureBounds(ts, a, b);
    FullMeasureIffNoIdleGap(ts, a, b);
  }
}
