/**
 Ping history, frontend/src/pingHistory.ts, over exact reals: the weighted summary of some rows,
 and the sliding window that smooths packet loss without crossing gaps.
 */
module PingHistory {
  import opened Options
  import opened Reals

  datatype Sample = Sample(count: real, successes: real, latency: Option<real>, loss: real)

  datatype Summary = Summary(latency: Option<real>, loss: Option<real>)

  // ---- weighted sums ------------------------------------------------------------------------------------

  ghost function Sum(rows: seq<Sample>, term: Sample -> real): real {
    if rows == [] then 0.0 else Sum(rows[..|rows| - 1], term) + term(rows[|rows| - 1])
  }

  lemma SumAppends(rows: seq<Sample>, row: Sample, term: Sample -> real)
    ensures Sum(rows + [row], term) == Sum(rows, term) + term(row)
  {
    assert (rows + [row])[..|rows|] == rows;
  }

  lemma {:induction false} SumDropsFirst(rows: seq<Sample>, term: Sample -> real)
    requires rows != []
    ensures Sum(rows[1..], term) == Sum(rows, term) - term(rows[0])
  {
    if |rows| > 1 {
      var n := |rows| - 1;
      SumDropsFirst(rows[..n], term);
      assert rows[1..][..n - 1] == rows[..n][1..];
    } else {
      assert rows[..0] == [];
    }
  }

  function Count(row: Sample): real {
    row.count
  }

  function Lost(row: Sample): real {
    row.loss * row.count
  }

  function Succeeded(row: Sample): real {
    if row.latency.Some? then row.successes else 0.0
  }

  function Waited(row: Sample): real {
    if row.latency.Some? then row.latency.value * row.successes else 0.0
  }

  /** A total over a weight, where there is weight. */
  ghost function Mean(total: real, weight: real): Option<real> {
    if weight > 0.0 then Some(total / weight) else None
  }

  ghost function LossOf(rows: seq<Sample>): Option<real> {
    Mean(Sum(rows, Lost), Sum(rows, Count))
  }

  method SummarizePingHistory(rows: seq<Sample>) returns (summary: Summary)
    ensures summary.loss == LossOf(rows)
    ensures summary.latency == Mean(Sum(rows, Waited), Sum(rows, Succeeded))
  {
    var samples, loss, successes, latency := 0.0, 0.0, 0.0, 0.0;
    var k := 0;
    while k < |rows|
      invariant 0 <= k <= |rows|
      invariant samples == Sum(rows[..k], Count) && loss == Sum(rows[..k], Lost)
      invariant successes == Sum(rows[..k], Succeeded) && latency == Sum(rows[..k], Waited)
    {
      var row := rows[k];
      assert rows[..k + 1] == rows[..k] + [row];
      SumAppends(rows[..k], row, Count);
      SumAppends(rows[..k], row, Lost);
      SumAppends(rows[..k], row, Succeeded);
      SumAppends(rows[..k], row, Waited);
      samples := samples + row.count;
      loss := loss + row.loss * row.count;
      if row.latency.Some? {
        successes := successes + row.successes;
        latency := latency + row.latency.value * row.successes;
      }
      k := k + 1;
    }
    assert rows[..k] == rows;
    summary := Summary(if successes > 0.0 then Some(latency / successes) else None,
                       if samples > 0.0 then Some(loss / samples) else None);
  }

  // ---- the window -----------------------------------------------------------------------------------------

  function Ceiling(x: real): int {
    -(-x).Floor
  }

  function Step(stepSecs: real): (s: real)
    ensures s >= 60.0
  {
    if stepSecs > 60.0 then stepSecs else 60.0
  }

  function PingLossWindowSecs(stepSecs: real): real {
    Ceiling(300.0 / Step(stepSecs)) as real * Step(stepSecs)
  }

  function WindowPoints(stepSecs: real): real {
    PingLossWindowSecs(stepSecs) / Step(stepSecs)
  }

  lemma CeilingBounds(x: real)
    ensures x <= Ceiling(x) as real < x + 1.0
  {
  }

  /** The window is the least whole number of steps that covers five minutes; it is one step exactly
      when a step covers them. */
  lemma WindowIsLeast(stepSecs: real)
    ensures var s, w := Step(stepSecs), Ceiling(300.0 / Step(stepSecs));
            && WindowPoints(stepSecs) == w as real && 1 <= w <= 5
            && (w as real - 1.0) * s < 300.0 <= PingLossWindowSecs(stepSecs)
            && (w == 1 <==> stepSecs >= 300.0)
  {
    var s := Step(stepSecs);
    var q := 300.0 / s;
    Divided(300.0, s);
    CeilingBounds(q);
    Undone(Ceiling(q) as real, s);
    CoversFiveMinutes(s, q, Ceiling(q) as real);
    AtMostFive(s, q);
    OneStepIff(s, q, Ceiling(q));
  }

  lemma CoversFiveMinutes(s: real, q: real, v: real)
    requires s > 0.0 && q * s == 300.0 && q <= v < q + 1.0
    ensures (v - 1.0) * s < 300.0 <= v * s
  {
    Scaled(q, v, s);
    Scaled(q, v - 1.0, s);
  }

  lemma AtMostFive(s: real, q: real)
    requires s >= 60.0 && q * s == 300.0
    ensures 0.0 < q <= 5.0
  {
    Scaled(q, 5.0, s);
    Scaled(q, 0.0, s);
  }

  lemma OneStepIff(s: real, q: real, w: int)
    requires s >= 60.0 && q * s == 300.0 && q > 0.0 && q <= w as real < q + 1.0
    ensures w == 1 <==> s >= 300.0
  {
    Scaled(q, 1.0, s);
  }

  /** The first row after the latest gap among the first `n` rows. */
  ghost function RunStart(rows: seq<Option<Sample>>, n: nat): (g: nat)
    requires n <= |rows|
    ensures g <= n && forall k | g <= k < n :: rows[k].Some?
    ensures g > 0 ==> rows[g - 1].None?
  {
    if n == 0 then 0 else if rows[n - 1].None? then n else RunStart(rows, n - 1)
  }

  /** Where the window of at most `w` rows that ends before row `n` starts. */
  ghost function WindowStart(rows: seq<Option<Sample>>, n: nat, w: nat): (start: nat)
    requires n <= |rows|
    ensures start <= n && forall k | start <= k < n :: rows[k].Some?
  {
    if n - w > RunStart(rows, n) then n - w else RunStart(rows, n)
  }

  ghost function Window(rows: seq<Option<Sample>>, start: nat, n: nat): seq<Sample>
    requires start <= n <= |rows| && forall k | start <= k < n :: rows[k].Some?
  {
    seq(n - start, i requires 0 <= i < n - start => rows[start + i].value)
  }

  function Clamped(x: real): real {
    if x < 0.0 then 0.0 else if x > 1.0 then 1.0 else x
  }

  ghost function ClampedOption(x: Option<real>): Option<real> {
    if x.Some? then Some(Clamped(x.value)) else None
  }

  /** The summary's loss over the window that ends with this row; nothing at a gap. */
  ghost function SmoothAt(rows: seq<Option<Sample>>, i: nat, w: nat): Option<real>
    requires i < |rows| && w >= 1
  {
    if rows[i].None? then None
    else ClampedOption(LossOf(Window(rows, WindowStart(rows, i + 1, w), i + 1)))
  }

  ghost predicate Holds(rows: seq<Option<Sample>>, n: nat, w: nat, start: nat, samples: real, loss: real)
    requires n <= |rows|
  {
    && start == WindowStart(rows, n, w)
    && samples == Sum(Window(rows, start, n), Count) && loss == Sum(Window(rows, start, n), Lost)
  }

  lemma GapResets(rows: seq<Option<Sample>>, n: nat, w: nat)
    requires n < |rows| && rows[n].None?
    ensures Holds(rows, n + 1, w, n + 1, 0.0, 0.0)
  {
    assert Window(rows, n + 1, n + 1) == [];
  }

  /** Adding a row at the end, and dropping the first when the window is full, keeps the sums. */
  lemma WindowMoves(rows: seq<Option<Sample>>, n: nat, w: nat, start: nat, samples: real, loss: real)
    requires n < |rows| && rows[n].Some? && w >= 1 && Holds(rows, n, w, start, samples, loss)
    ensures var row := rows[n].value;
            if n - start >= w then
              rows[start].Some? &&
              Holds(rows, n + 1, w, start + 1, samples + Count(row) - Count(rows[start].value),
                    loss + Lost(row) - Lost(rows[start].value))
            else Holds(rows, n + 1, w, start, samples + Count(row), loss + Lost(row))
  {
    WindowGrows(rows, start, n, Count);
    WindowGrows(rows, start, n, Lost);
    if n - start >= w {
      WindowShrinks(rows, start, n + 1, Count);
      WindowShrinks(rows, start, n + 1, Lost);
    }
  }

  lemma WindowGrows(rows: seq<Option<Sample>>, start: nat, n: nat, term: Sample -> real)
    requires start <= n < |rows| && forall k | start <= k <= n :: rows[k].Some?
    ensures Sum(Window(rows, start, n + 1), term) == Sum(Window(rows, start, n), term) + term(rows[n].value)
  {
    assert Window(rows, start, n + 1) == Window(rows, start, n) + [rows[n].value];
    SumAppends(Window(rows, start, n), rows[n].value, term);
  }

  lemma WindowShrinks(rows: seq<Option<Sample>>, start: nat, n: nat, term: Sample -> real)
    requires start < n <= |rows| && forall k | start <= k < n :: rows[k].Some?
    ensures Sum(Window(rows, start + 1, n), term) == Sum(Window(rows, start, n), term) - term(rows[start].value)
  {
    assert Window(rows, start, n)[1..] == Window(rows, start + 1, n);
    SumDropsFirst(Window(rows, start, n), term);
  }

  lemma SmoothStep(rows: seq<Option<Sample>>, i: nat, w: nat, start: nat, samples: real, loss: real)
    requires i < |rows| && rows[i].Some? && w >= 1 && Holds(rows, i + 1, w, start, samples, loss)
    ensures SmoothAt(rows, i, w) == if samples > 0.0 then Some(Clamped(loss / samples)) else None
  {
  }

  /** One row of the scan: the new window and its sums. */
  method Advance(rows: seq<Option<Sample>>, index: nat, windowPoints: real, ghost w: nat, start: nat, samples: real, loss: real)
    returns (start': nat, samples': real, loss': real)
    requires index < |rows| && rows[index].Some? && w >= 1 && windowPoints == w as real
    requires Holds(rows, index, w, start, samples, loss)
    ensures Holds(rows, index + 1, w, start', samples', loss')
  {
    WindowMoves(rows, index, w, start, samples, loss);
    assert (index - start) as real >= windowPoints <==> index - start >= w;
    var row := rows[index].value;
    start', samples', loss' := start, samples + Count(row), loss + Lost(row);
    if (index - start) as real >= windowPoints {
      var expired := rows[start].value;
      start' := start + 1;
      samples' := samples' - Count(expired);
      loss' := loss' - Lost(expired);
    }
  }

  ghost predicate IsSmooth(rows: seq<Option<Sample>>, r: seq<Option<real>>, w: nat)
    requires w >= 1
  {
    |r| <= |rows| && forall i | 0 <= i < |r| :: r[i] == SmoothAt(rows, i, w)
  }

  lemma SmoothMore(rows: seq<Option<Sample>>, r: seq<Option<real>>, w: nat, next: Option<real>)
    requires w >= 1 && IsSmooth(rows, r, w) && |r| < |rows| && next == SmoothAt(rows, |r|, w)
    ensures IsSmooth(rows, r + [next], w)
  {
  }

  method SmoothPingLoss(rows: seq<Option<Sample>>, stepSecs: real) returns (r: seq<Option<real>>)
    ensures |r| == |rows|
    ensures WindowPoints(stepSecs) == 1.0 ==>
              forall i | 0 <= i < |rows| :: r[i] == if rows[i].Some? then Some(rows[i].value.loss) else None
    ensures WindowPoints(stepSecs) != 1.0 ==>
              var w := Ceiling(300.0 / Step(stepSecs)); w > 1 && forall i | 0 <= i < |rows| :: r[i] == SmoothAt(rows, i, w)
  {
    var windowPoints := WindowPoints(stepSecs);
    WindowIsLeast(stepSecs);
    ghost var w := Ceiling(300.0 / Step(stepSecs));
    if windowPoints == 1.0 {
      r := seq(|rows|, i requires 0 <= i < |rows| => if rows[i].Some? then Some(rows[i].value.loss) else None);
      return;
    }
    r := [];
    var start, samples, loss := 0, 0.0, 0.0;
    var index := 0;
    assert Window(rows, 0, 0) == [];
    while index < |rows|
      invariant 0 <= index <= |rows| && |r| == index && start >= 0
      invariant Holds(rows, index, w, start, samples, loss)
      invariant IsSmooth(rows, r, w)
    {
      if rows[index].None? {
        GapResets(rows, index, w);
        SmoothMore(rows, r, w, None);
        start, samples, loss := index + 1, 0.0, 0.0;
        r := r + [None];
      } else {
        start, samples, loss := Advance(rows, index, windowPoints, w, start, samples, loss);
        SmoothStep(rows, index, w, start, samples, loss);
        var smoothed := if samples > 0.0 then Some(Clamped(loss / samples)) else None;
        SmoothMore(rows, r, w, smoothed);
        r := r + [smoothed];
      }
      index := index + 1;
    }
  }

  // ---- the clamp and the shortcut ---------------------------------------------------------------------------

  predicate IsRatio(row: Sample) {
    0.0 <= row.loss <= 1.0 && row.count >= 0.0
  }

  lemma {:induction false} LostAtMostCount(rows: seq<Sample>)
    requires forall k | 0 <= k < |rows| :: IsRatio(rows[k])
    ensures 0.0 <= Sum(rows, Lost) <= Sum(rows, Count)
  {
    if rows != [] {
      var n := |rows| - 1;
      LostAtMostCount(rows[..n]);
      PortionOfRow(rows[n]);
      assert rows[..n] + [rows[n]] == rows;
      SumAppends(rows[..n], rows[n], Lost);
      SumAppends(rows[..n], rows[n], Count);
    }
  }

  lemma PortionOfRow(row: Sample)
    requires IsRatio(row)
    ensures 0.0 <= Lost(row) <= Count(row)
  {
    Portion(row.loss, row.count);
  }

  lemma Portion(a: real, b: real)
    requires 0.0 <= a <= 1.0 && b >= 0.0
    ensures 0.0 <= a * b <= b
  {
    assert (1.0 - a) * b >= 0.0;
  }

  /** For loss ratios and sample counts the clamp changes nothing. */
  lemma ClampChangesNothing(rows: seq<Sample>)
    requires forall k | 0 <= k < |rows| :: IsRatio(rows[k])
    ensures ClampedOption(LossOf(rows)) == LossOf(rows)
  {
    LostAtMostCount(rows);
    if Sum(rows, Count) > 0.0 {
      InUnit(Sum(rows, Lost), Sum(rows, Count));
    }
  }

  lemma InUnit(a: real, b: real)
    requires 0.0 <= a <= b && b > 0.0
    ensures 0.0 <= a / b <= 1.0
  {
    Divided(a, b);
    Scaled(0.0, a / b, b);
    Scaled(a / b, 1.0, b);
  }

  /** The one-bucket shortcut is the summary of the one row exactly when the row has samples. */
  lemma ShortcutAgreesIff(row: Sample)
    ensures LossOf([row]) == Some(row.loss) <==> row.count > 0.0
  {
    assert [row][..0] == [] && [] + [row] == [row];
    SumAppends([], row, Count);
    SumAppends([], row, Lost);
    if row.count > 0.0 {
      MeanIs(Sum([row], Lost), Sum([row], Count), row.loss);
    }
  }

  lemma MeanIs(total: real, weight: real, q: real)
    requires weight > 0.0 && total == q * weight
    ensures Mean(total, weight) == Some(q)
  {
    Undone(q, weight);
  }
}
