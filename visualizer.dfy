/** One refresh cycle of the monitoring dashboard.

    The dashboard owns a queue of decoded messages, filled by the broker
    callback, and a history table. Each refresh drains the queue into the table
    in arrival order, evicts rows outside the sliding window, asks the
    classifier about the last row and renders a snapshot: the window for the
    charts, the verdict and its banner, the temperature bar and two metrics.
    A message lacking a key aborts the cycle midway. */
module Visualizer {
  import opened Telemetry
  import opened Window
  import opened Prediction
  import opened Metrics
  import opened Gauge

  /** What one rendered refresh shows. `bar` is absent when every temperature
      in the window is the same, where the bar's normalisation divides by zero. */
  datatype Snapshot = Snapshot(
    window: seq<Record>,
    verdict: Verdict,
    warning: Warning,
    bar: Option<TemperatureBar>,
    energy: real,
    failureRisk: real)

  /** How a refresh ends: nothing to drain, an exception while draining, or a
      rendered snapshot. */
  datatype Outcome = Idle | Aborted | Rendered(snapshot: Snapshot)

  /** The queue and the table after a refresh, and how it ended. */
  datatype CycleResult = CycleResult(queue: seq<Payload>, history: seq<Record>, outcome: Outcome)

  /** Position of the first message lacking a key, or the queue length. */
  function FirstIncomplete(q: seq<Payload>): (k: nat)
    ensures k <= |q|
    ensures forall i :: 0 <= i < k ==> Complete(q[i])
    ensures k < |q| ==> !Complete(q[k])
  {
    if q == [] then 0
    else if !Complete(q[0]) then 0
    else 1 + FirstIncomplete(q[1..])
  }

  /** The rows made from a run of complete messages, one per message, in order. */
  function Records(q: seq<Payload>): (rs: seq<Record>)
    requires forall i :: 0 <= i < |q| ==> Complete(q[i])
    ensures |rs| == |q|
    ensures forall i :: 0 <= i < |q| ==> ToRecord(q[i]) == Some(rs[i])
  {
    if q == [] then [] else [ToRecord(q[0]).value] + Records(q[1..])
  }

  lemma RecordsSnoc(q: seq<Payload>, n: nat)
    requires n < |q|
    requires forall i :: 0 <= i <= n ==> Complete(q[i])
    ensures Records(q[..n + 1]) == Records(q[..n]) + [ToRecord(q[n]).value]
  {
    var a := Records(q[..n + 1]);
    var b := Records(q[..n]) + [ToRecord(q[n]).value];
    forall i | 0 <= i < n + 1
      ensures a[i] == b[i]
    {
      assert q[..n + 1][i] == q[i];
      if i < n {
        assert q[..n][i] == q[i];
      }
    }
  }

  /** The complete messages for a sequence of rows, one per row, in order. */
  function Messages(rs: seq<Record>): (q: seq<Payload>)
    ensures |q| == |rs| && forall i :: 0 <= i < |rs| ==> q[i] == ToPayload(rs[i])
  {
    seq(|rs|, i requires 0 <= i < |rs| => ToPayload(rs[i]))
  }

  /** Complete messages are drained back as the very rows they carry, in order. */
  lemma MessagesDrainBack(rs: seq<Record>)
    ensures FirstIncomplete(Messages(rs)) == |rs|
    ensures Records(Messages(rs)) == rs
  {
    var q := Messages(rs);
    forall i | 0 <= i < |rs|
      ensures ToRecord(q[i]) == Some(rs[i])
    {
      RecordRoundTrip(rs[i]);
    }
  }

  /** A refresh that finds the complete messages for some rows queued appends
      those rows, in order, then evicts and renders. */
  lemma DrainMessages(rs: seq<Record>, h: seq<Record>, model: Option<Classifier>)
    requires rs != []
    ensures |Evict(h + rs)| > 0
    ensures UpdateDashboard(Messages(rs), h, model)
         == CycleResult([], Evict(h + rs), Rendered(Render(Evict(h + rs), model)))
  {
    MessagesDrainBack(rs);
    EvictKeepsNewest(h + rs);
  }

  /** The messages the publisher sends for a pass over dataset rows, one per
      row, in order. */
  function Published(rs: seq<Record>): (q: seq<Payload>)
    ensures |q| == |rs| && forall i :: 0 <= i < |rs| ==> q[i] == PublisherMessage(rs[i])
  {
    seq(|rs|, i requires 0 <= i < |rs| => PublisherMessage(rs[i]))
  }

  /** The publisher's messages all drain: each becomes its dataset row with the
      power replaced by motor current times the voltage, so the rows come back
      unchanged exactly when their power already is that product. */
  lemma PublishedRowsDrainWithDerivedPower(rs: seq<Record>)
    ensures FirstIncomplete(Published(rs)) == |rs|
    ensures |Records(Published(rs))| == |rs|
    ensures forall i :: 0 <= i < |rs| ==>
      Records(Published(rs))[i] == rs[i].(power := rs[i].motorCurrent * VOLTAGE)
    ensures (forall i :: 0 <= i < |rs| ==> rs[i].power == rs[i].motorCurrent * VOLTAGE) ==>
      Records(Published(rs)) == rs
  {
    var q := Published(rs);
    var got := Records(q);
    forall i | 0 <= i < |rs|
      ensures got[i] == rs[i].(power := rs[i].motorCurrent * VOLTAGE)
    {
      assert ToRecord(q[i]) == Some(got[i]);
    }
    if forall i :: 0 <= i < |rs| ==> rs[i].power == rs[i].motorCurrent * VOLTAGE {
      forall i | 0 <= i < |rs|
        ensures got[i] == rs[i]
      {
        assert rs[i].(power := rs[i].motorCurrent * VOLTAGE) == rs[i];
      }
    }
  }

  /** The temperature bar of a non-empty window: the last row's temperature
      against the window's minimum and maximum, or no bar when every
      temperature in the window is the same. */
  function WindowBar(h: seq<Record>): (b: Option<TemperatureBar>)
    requires |h| > 0
    ensures b.Some? <==> MinTemperature(h) < MaxTemperature(h)
    ensures b.Some? ==> b.value == Bar(Last(h).temperature, MinTemperature(h), MaxTemperature(h), NUM_SEGMENTS)
    ensures b.Some? ==> b.value.value == Last(h).temperature
  {
    var lo := MinTemperature(h);
    var hi := MaxTemperature(h);
    if lo < hi then Some(Bar(Last(h).temperature, lo, hi, NUM_SEGMENTS)) else None
  }

  /** The snapshot rendered for a non-empty window: the window itself, the
      classifier's verdict on it and its banner, the window's temperature bar,
      the energy metric and the failure risk (the probability, or else the flag
      mean, in percent). */
  function Render(h: seq<Record>, model: Option<Classifier>): (s: Snapshot)
    requires |h| > 0
    ensures s.window == h
    ensures s.verdict == PredictFailure(model, h)
    ensures s.warning == WarningFor(s.verdict)
    ensures s.bar == WindowBar(h)
    ensures s.energy * 3600.0 == TotalPower(h)
    ensures s.verdict.Verdict? ==> s.failureRisk == s.verdict.probability * 100.0
    ensures s.verdict.NoVerdict? ==> s.failureRisk * |h| as real == FlagSum(h) * 100.0
    ensures s.verdict.NoVerdict? ==> s.failureRisk == MeanFailure(h) * 100.0
  {
    var v := PredictFailure(model, h);
    Snapshot(h, v, WarningFor(v), WindowBar(h), Energy(h), FailureRisk(v, h))
  }

  /** The whole effect of one refresh on the queue and the table. */
  function UpdateDashboard(q: seq<Payload>, h: seq<Record>, model: Option<Classifier>): (r: CycleResult)
    ensures r.outcome.Idle? <==> q == []
    ensures r.outcome.Aborted? <==> exists i :: 0 <= i < |q| && !Complete(q[i])
    ensures q != [] ==> |r.queue| < |q|
    ensures r.outcome.Rendered? ==>
      && r.queue == []
      && r.history == Evict(h + Records(q))
      && |r.history| > 0
      && r.outcome.snapshot == Render(r.history, model)
  {
    var k := FirstIncomplete(q);
    if q == [] then CycleResult([], h, Idle)
    else if k < |q| then CycleResult(q[k + 1..], h + Records(q[..k]), Aborted)
    else
      var w := Evict(h + Records(q));
      EvictKeepsNewest(h + Records(q));
      CycleResult([], w, Rendered(Render(w, model)))
  }

  /** A refresh that drains everything appends the messages after the old rows
      in queue order and then filters both parts with the same bound, anchored
      on the newest timestamp of old and new rows together. */
  lemma DrainAppendsInArrivalOrder(q: seq<Payload>, h: seq<Record>, model: Option<Classifier>)
    requires q != []
    requires forall i :: 0 <= i < |q| ==> Complete(q[i])
    ensures var r := UpdateDashboard(q, h, model);
      var lo := WindowStart(MaxTimestamp(h + Records(q)));
      && r.queue == []
      && r.history == KeepFrom(h, lo) + KeepFrom(Records(q), lo)
      && r.outcome.Rendered?
  {
    var lo := WindowStart(MaxTimestamp(h + Records(q)));
    KeepFromAppend(h, Records(q), lo);
  }

  /** A message lacking a key ends the refresh: the rows drained before it stay
      appended, it is itself consumed and lost, the messages after it stay
      queued, and nothing is evicted. */
  lemma IncompleteMessageAborts(q: seq<Payload>, h: seq<Record>, model: Option<Classifier>, k: nat)
    requires k < |q| && !Complete(q[k])
    requires forall i :: 0 <= i < k ==> Complete(q[i])
    ensures var r := UpdateDashboard(q, h, model);
      && r.outcome == Aborted
      && r.history == h + Records(q[..k])
      && r.queue == q[k + 1..]
  {
    assert FirstIncomplete(q) == k;
  }

  /** A message from a publisher that leaves out `pressure` is dropped without
      touching the table. */
  lemma MissingPressureIsLost(p: Payload, h: seq<Record>, model: Option<Classifier>)
    requires p.pressure.None?
    ensures UpdateDashboard([p], h, model) == CycleResult([], h, Aborted)
  {
    assert FirstIncomplete([p]) == 0;
    assert [p][..0] == [];
  }

  /** After a rendered refresh the table is a non-empty window: every row lies
      within the retention of the newest, and evicting again removes nothing. */
  lemma RenderedTableIsWindow(q: seq<Payload>, h: seq<Record>, model: Option<Classifier>)
    requires UpdateDashboard(q, h, model).outcome.Rendered?
    ensures var t := UpdateDashboard(q, h, model).history;
      && |t| > 0
      && Evict(t) == t
      && forall i :: 0 <= i < |t| ==> MaxTimestamp(t) - t[i].timestamp <= WINDOW_SECONDS
  {
    var all := h + Records(q);
    EvictIdempotent(all);
    EvictWithinWindow(all);
  }

  /** A refresh with nothing queued changes nothing. */
  lemma IdleRefreshChangesNothing(h: seq<Record>, model: Option<Classifier>)
    ensures UpdateDashboard([], h, model) == CycleResult([], h, Idle)
  {
  }

  /** What the rendered snapshot says: the window it shows is the new table, the
      verdict is the classifier's on the last row of the window, the bar shows that
      row's temperature, and without a verdict (no model, or a call that
      raised) the failure risk is the flag mean. */
  lemma RenderedSnapshot(q: seq<Payload>, h: seq<Record>, model: Option<Classifier>)
    requires UpdateDashboard(q, h, model).outcome.Rendered?
    ensures var r := UpdateDashboard(q, h, model);
      var s := r.outcome.snapshot;
      && |r.history| > 0
      && s.window == r.history
      && s.verdict == PredictFailure(model, r.history)
      && s.warning == WarningFor(s.verdict)
      && s.bar == WindowBar(r.history)
      && (s.bar.Some? ==> s.bar.value.value == Last(r.history).temperature)
      && (s.bar.Some? <==> MinTemperature(r.history) < MaxTemperature(r.history))
      && (s.verdict.NoVerdict? <==>
            || model.None?
            || model.value.predict(LatestFeatures(r.history)).None?
            || model.value.failureProbability(LatestFeatures(r.history)).None?)
      && (s.verdict.NoVerdict? ==> s.failureRisk == MeanFailure(r.history) * 100.0)
      && s.energy == TotalPower(r.history) / 3600.0
  {
    var r := UpdateDashboard(q, h, model);
    var w := r.history;
    var s := r.outcome.snapshot;
    assert |w| > 0 && s == Render(w, model);
    assert s.verdict == PredictFailure(model, w);
  }

  /** The bar of a window always fills its first segment in green and caps its
      last segment exactly when the last row holds the window maximum. */
  lemma RenderedBar(h: seq<Record>)
    requires |h| > 0 && WindowBar(h).Some?
    ensures WindowBar(h).value.segments[0] == Filled(Rgb(0, 255, 0), true, false)
    ensures WindowBar(h).value.segments[NUM_SEGMENTS - 1].Filled? &&
            WindowBar(h).value.segments[NUM_SEGMENTS - 1].rightCap
            <==> Last(h).temperature == MaxTemperature(h)
  {
    var lo := MinTemperature(h);
    var hi := MaxTemperature(h);
    var t := Last(h).temperature;
    BarFirstSegment(t, lo, hi, NUM_SEGMENTS);
    BarCaps(t, lo, hi, NUM_SEGMENTS);
  }

  /** Messages are shown in arrival order, not time order: after draining a
      reading from 02:00 and then one from 01:30, the bar and the classifier see
      the 01:30 reading. */
  lemma LatestMeansLastArrived(model: Option<Classifier>)
    ensures
      var newer := Record(7200, 50.0, 1.0, 2.0, 3.0, 660.0, 0.0);
      var older := Record(5400, 40.0, 1.0, 2.0, 3.0, 660.0, 0.0);
      var r := UpdateDashboard([ToPayload(newer), ToPayload(older)], [], model);
      && r.history == [newer, older]
      && r.outcome.Rendered?
      && r.outcome.snapshot.bar.Some?
      && r.outcome.snapshot.bar.value.value == 40.0
      && r.outcome.snapshot.verdict == PredictFailure(model, [older])
  {
    var newer := Record(7200, 50.0, 1.0, 2.0, 3.0, 660.0, 0.0);
    var older := Record(5400, 40.0, 1.0, 2.0, 3.0, 660.0, 0.0);
    var t := [newer, older];
    TwoReadingsDrainInArrivalOrder(model, newer, older);
    assert MinTemperature(t) == 40.0;
    assert MaxTemperature(t) == 50.0;
    assert Last(t) == older;
    VerdictDependsOnlyOnLatestReadings(model, t, [older]);
  }

  /** Two complete messages within the window of each other are both kept, in
      the order they arrived. */
  lemma TwoReadingsDrainInArrivalOrder(model: Option<Classifier>, a: Record, b: Record)
    requires -WINDOW_SECONDS <= a.timestamp - b.timestamp <= WINDOW_SECONDS
    ensures UpdateDashboard([ToPayload(a), ToPayload(b)], [], model)
         == CycleResult([], [a, b], Rendered(Render([a, b], model)))
  {
    var t := [a, b];
    EvictPairInWindow(a, b);
    MessagesPair(a, b);
    assert [] + t == t;
    DrainMessages(t, [], model);
  }

  lemma MessagesPair(a: Record, b: Record)
    ensures Messages([a, b]) == [ToPayload(a), ToPayload(b)]
  {
  }

  /** Two rows within the retention of each other are both kept, in order. */
  lemma EvictPairInWindow(a: Record, b: Record)
    requires -WINDOW_SECONDS <= a.timestamp - b.timestamp <= WINDOW_SECONDS
    ensures Evict([a, b]) == [a, b]
  {
    var t := [a, b];
    if a.timestamp >= b.timestamp {
      MaxTimestampAt(t, 0);
    } else {
      MaxTimestampAt(t, 1);
    }
    KeepFromAll(t, WindowStart(MaxTimestamp(t)));
  }

  /** The rendering steps of a refresh, in the dashboard's order: verdict and
      banner, temperature bar, then the two metrics. */
  method RenderSnapshot(h: seq<Record>, model: Option<Classifier>) returns (s: Snapshot)
    requires |h| > 0
    ensures s == Render(h, model)
    ensures s.window == h && s.verdict == PredictFailure(model, h)
    ensures s.bar.Some? <==> MinTemperature(h) < MaxTemperature(h)
    ensures s.bar.Some? ==> s.bar.value.value == h[|h| - 1].temperature
    ensures s.energy * 3600.0 == TotalPower(h)
  {
    var verdict := PredictFailure(model, h);
    var lo := MinTemperature(h);
    var hi := MaxTemperature(h);
    var bar: Option<TemperatureBar> := None;
    if lo < hi {
      var b := CreateTemperatureBar(h[|h| - 1].temperature, lo, hi, NUM_SEGMENTS);
      bar := Some(b);
    }
    var energy := Energy(h);
    var risk := FailureRisk(verdict, h);
    s := Snapshot(h, verdict, WarningFor(verdict), bar, energy, risk);
  }

  /** The dashboard's session state. */
  class Dashboard {
    /** Decoded messages waiting to be drained, oldest first. */
    var queue: seq<Payload>
    /** The history table, in the order rows were appended. */
    var history: seq<Record>
    /** The classifier loaded once per session, if loading succeeded. */
    const model: Option<Classifier>

    /** A new session: nothing queued, an empty table. */
    constructor(model: Option<Classifier>)
      ensures queue == [] && history == [] && this.model == model
    {
      queue := [];
      history := [];
      this.model := model;
    }

    /** The broker callback hands over one decoded message. */
    method Enqueue(p: Payload)
      modifies this`queue
      ensures queue == old(queue) + [p]
      ensures history == old(history)
    {
      queue := queue + [p];
    }

    /** One refresh: drain, evict, predict, render. */
    method Cycle() returns (outcome: Outcome)
      modifies this`queue, this`history
      ensures CycleResult(queue, history, outcome) == UpdateDashboard(old(queue), old(history), model)
    {
      ghost var q0 := queue;
      ghost var h0 := history;
      ghost var n := 0;
      var updated := false;
      while queue != []
        invariant 0 <= n <= |q0| && queue == q0[n..]
        invariant forall i :: 0 <= i < n ==> Complete(q0[i])
        invariant history == h0 + Records(q0[..n])
        invariant updated <==> n > 0
        decreases |queue|
      {
        var d := queue[0];
        queue := queue[1..];
        var row := ToRecord(d);
        if row.None? {
          outcome := Aborted;
          assert FirstIncomplete(q0) == n;
          return;
        }
        RecordsSnoc(q0, n);
        history := history + [row.value];
        updated := true;
        n := n + 1;
      }
      if !updated {
        outcome := Idle;
        return;
      }
      assert q0[..n] == q0;
      if history != [] {
        history := Evict(history);
      }
      EvictKeepsNewest(h0 + Records(q0));
      var snapshot := RenderSnapshot(history, model);
      outcome := Rendered(snapshot);
    }
  }
}
