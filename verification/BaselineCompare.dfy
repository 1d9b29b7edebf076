/** The anomaly decision: current values against stored baselines. */
module BaselineCompare {
  import opened Baselines

  const METRICS: seq<string> := ["rx_errors", "tx_errors", "rx_drops", "tx_drops", "rx_crc_errors"]

  datatype Config = Config(deviationThreshold: real, immediateThreshold: real, baselineWarmupHours: int)

  /** How often the value contains the p95 baseline. */
  datatype Factor = Finite(value: real) | Infinite

  datatype AnomalyResult = AnomalyResult(port: string, metric: string, currentValue: real,
                                         p50: real, p95: real, p99: real,
                                         deviationFactor: Factor,
                                         isAnomaly: bool, isImmediate: bool, warmedUp: bool)

  predicate AtLeast(f: Factor, threshold: real) {
    f.Infinite? || f.value >= threshold
  }

  function Deviation(value: real, p95: real): Factor {
    if p95 > 0.0 then Finite(value / p95)
    else if value > 0.0 then Infinite
    else Finite(0.0)
  }

  /** The verdict on one value. `hour` is the current hour of the week. */
  function Verdict(rows: Table, config: Config, port: string, metric: string, value: real, hour: nat): AnomalyResult {
    var warmedUp := IsWarmedUp(rows, port, metric, config.baselineWarmupHours);
    var key := Key(port, metric, hour);
    if key !in rows then
      AnomalyResult(port, metric, value, 0.0, 0.0, 0.0, Finite(0.0), false, false, false)
    else
      var f := Deviation(value, rows[key].p95);
      AnomalyResult(port, metric, value, rows[key].p50, rows[key].p95, rows[key].p99, f,
                    warmedUp && AtLeast(f, config.deviationThreshold),
                    warmedUp && AtLeast(f, config.immediateThreshold),
                    warmedUp)
  }

  lemma ScaleBound(threshold: real, a: real, b: real)
    requires threshold >= 0.0 && a <= b
    ensures threshold * a <= threshold * b
  {
  }

  lemma ScaleStrictly(p: real, a: real, b: real)
    requires p > 0.0 && a < b
    ensures a * p < b * p
  {
  }

  lemma RatioReaches(v: real, p: real, threshold: real)
    requires p > 0.0
    ensures v / p >= threshold <==> v >= threshold * p
  {
    var ratio := v / p;
    assert ratio * p == v;
    if ratio > threshold {
      ScaleStrictly(p, threshold, ratio);
    } else if ratio < threshold {
      ScaleStrictly(p, ratio, threshold);
    }
  }

  /** The value is out of proportion to p95, or p95 is of no use to compare with. */
  ghost predicate Exceeds(v: real, p95: real, threshold: real) {
    p95 <= 0.0 || v >= threshold * p95
  }

  /** What a value needs to reach a threshold in a bucket that has a baseline. */
  lemma ReachesIff(v: real, p95: real, threshold: real)
    requires v > 0.0
    ensures AtLeast(Deviation(v, p95), threshold) <==> Exceeds(v, p95, threshold)
  {
    if p95 > 0.0 {
      RatioReaches(v, p95, threshold);
    }
  }

  /** So this is what flags a value once the metric is warmed up. */
  lemma FlaggedIff(rows: Table, config: Config, port: string, metric: string, v: real, hour: nat)
    requires Key(port, metric, hour) in rows && v > 0.0
    requires IsWarmedUp(rows, port, metric, config.baselineWarmupHours)
    ensures var p95 := rows[Key(port, metric, hour)].p95;
            var verdict := Verdict(rows, config, port, metric, v, hour);
            && (verdict.isAnomaly <==> Exceeds(v, p95, config.deviationThreshold))
            && (verdict.isImmediate <==> Exceeds(v, p95, config.immediateThreshold))
  {
    ReachesIff(v, rows[Key(port, metric, hour)].p95, config.deviationThreshold);
    ReachesIff(v, rows[Key(port, metric, hour)].p95, config.immediateThreshold);
  }

  lemma AboveScaled(v: real, t: real, a: real, b: real)
    requires 0.0 < a <= b && v > 0.0 && v >= t * b
    ensures v >= t * a
  {
    if t >= 0.0 {
      ScaleBound(t, a, b);
    } else {
      ScaleBound(a, t, 0.0);
    }
  }

  /**
   Main result: once warmed up, a positive value that reaches a threshold times the largest earlier
   sample of its bucket (plus one estimator step) is always flagged, also when p95 fell to zero or
   below. This holds for an anomaly and for one that needs immediate attention, each with its own threshold.
   */
  lemma LargeValuesFlagged(log: seq<Sample>, config: Config, port: string, metric: string, v: real, hour: nat,
                           lo: real, hi: real)
    requires InWeek(log) && ValuesOf(log, Key(port, metric, hour)) != []
    requires AllIn(ValuesOf(log, Key(port, metric, hour)), lo, hi) && hi >= 0.0
    requires SamplesOf(log, port, metric) >= config.baselineWarmupHours
    requires v > 0.0
    ensures var verdict := Verdict(TableOf(log), config, port, metric, v, hour);
            && (v >= config.deviationThreshold * (hi + 0.0025) ==> verdict.isAnomaly)
            && (v >= config.immediateThreshold * (hi + 0.0025) ==> verdict.isImmediate)
  {
    RowsAreStreams(log, Key(port, metric, hour));
    RowRange(log, Key(port, metric, hour), lo, hi);
    WarmupConservation(log, port, metric);
    LargeAgainstRow(TableOf(log), config, port, metric, v, hour, hi + 0.0025);
  }

  lemma LargeAgainstRow(rows: Table, config: Config, port: string, metric: string, v: real, hour: nat, most: real)
    requires Key(port, metric, hour) in rows && rows[Key(port, metric, hour)].p95 <= most && v > 0.0
    requires IsWarmedUp(rows, port, metric, config.baselineWarmupHours)
    ensures var verdict := Verdict(rows, config, port, metric, v, hour);
            && (v >= config.deviationThreshold * most ==> verdict.isAnomaly)
            && (v >= config.immediateThreshold * most ==> verdict.isImmediate)
  {
    FlaggedIff(rows, config, port, metric, v, hour);
    LargeReaches(v, config.deviationThreshold, rows[Key(port, metric, hour)].p95, most);
    LargeReaches(v, config.immediateThreshold, rows[Key(port, metric, hour)].p95, most);
  }

  lemma LargeReaches(v: real, t: real, p95: real, most: real)
    requires v > 0.0 && p95 <= most
    ensures v >= t * most ==> Exceeds(v, p95, t)
  {
    if v >= t * most && p95 > 0.0 {
      AboveScaled(v, t, p95, most);
    }
  }

  lemma BelowScaled(v: real, t: real, a: real, b: real)
    requires 0.0 < a <= b && 0.0 <= v < t * a
    ensures v < t * b
  {
    if t <= 0.0 {
      ScaleBound(a, t, 0.0);
    }
    ScaleBound(t, a, b);
  }

  lemma SmallFallsShort(v: real, t: real, p95: real, least: real)
    requires v >= 0.0 && 0.0 < least <= p95
    ensures v < t * least ==> !AtLeast(Deviation(v, p95), t)
  {
    if v < t * least {
      BelowScaled(v, t, least, p95);
      RatioReaches(v, p95, t);
    }
  }

  lemma SmallAgainstRow(rows: Table, config: Config, port: string, metric: string, v: real, hour: nat, least: real)
    requires Key(port, metric, hour) in rows ==> least <= rows[Key(port, metric, hour)].p95
    requires v >= 0.0 && least > 0.0
    ensures var verdict := Verdict(rows, config, port, metric, v, hour);
            && (v < config.deviationThreshold * least ==> !verdict.isAnomaly)
            && (v < config.immediateThreshold * least ==> !verdict.isImmediate)
  {
    if Key(port, metric, hour) in rows {
      SmallFallsShort(v, config.deviationThreshold, rows[Key(port, metric, hour)].p95, least);
      SmallFallsShort(v, config.immediateThreshold, rows[Key(port, metric, hour)].p95, least);
    }
  }

  /** Main result: a value below a threshold times the smallest earlier sample (less one step) is never flagged for it. */
  lemma SmallValuesNotFlagged(log: seq<Sample>, config: Config, port: string, metric: string, v: real, hour: nat,
                              lo: real, hi: real)
    requires AllIn(ValuesOf(log, Key(port, metric, hour)), lo, hi) && lo > 0.0475 && v >= 0.0
    ensures var verdict := Verdict(TableOf(log), config, port, metric, v, hour);
            && (v < config.deviationThreshold * (lo - 0.0475) ==> !verdict.isAnomaly)
            && (v < config.immediateThreshold * (lo - 0.0475) ==> !verdict.isImmediate)
  {
    if Key(port, metric, hour) in TableOf(log) {
      RowRange(log, Key(port, metric, hour), lo, hi);
    }
    SmallAgainstRow(TableOf(log), config, port, metric, v, hour, lo - 0.0475);
  }

  // ---- Whole calls ----------------------------------------------------------------

  /** One call of the port check: the counters of a port at some hour of the week. */
  datatype Call = Call(port: string, stats: map<string, int>, hour: nat)

  function CounterOf(stats: map<string, int>, metric: string): int {
    if metric in stats then stats[metric] else 0
  }

  /** The sample a call stores for a metric; a missing counter counts as 0. */
  function SampleFor(call: Call, metric: string): Sample {
    Sample(Key(call.port, metric, call.hour), CounterOf(call.stats, metric) as real)
  }

  /** The samples of the first `n` metrics. */
  function SamplesOfCall(call: Call, n: nat): seq<Sample>
    requires n <= |METRICS|
  {
    seq(n, i requires 0 <= i < n => SampleFor(call, METRICS[i]))
  }

  /** The anomaly of one metric, if it has one. */
  function FoundFor(rows: Table, config: Config, call: Call, metric: string): seq<AnomalyResult> {
    var value := CounterOf(call.stats, metric);
    var verdict := Verdict(rows, config, call.port, metric, value as real, call.hour);
    if value > 0 && verdict.isAnomaly then [verdict] else []
  }

  /** The anomalies of a call among the first `n` metrics, each judged against the table as it was before the call. */
  function AnomaliesOf(rows: Table, config: Config, call: Call, n: nat): seq<AnomalyResult>
    requires n <= |METRICS|
  {
    if n == 0 then []
    else AnomaliesOf(rows, config, call, n - 1) + FoundFor(rows, config, call, METRICS[n - 1])
  }

  /** The log after a run of calls, starting from an empty store. */
  function LogOf(calls: seq<Call>): seq<Sample> {
    if calls == [] then []
    else LogOf(calls[..|calls| - 1]) + SamplesOfCall(calls[|calls| - 1], |METRICS|)
  }

  /** Samples of other metrics do not change a verdict. */
  lemma {:induction false} OtherMetricsDoNotMatter(log: seq<Sample>, more: seq<Sample>, config: Config,
                                                   port: string, metric: string, value: real, hour: nat)
    requires forall i :: 0 <= i < |more| ==> more[i].key.metric != metric
    ensures Verdict(TableOf(log + more), config, port, metric, value, hour) ==
            Verdict(TableOf(log), config, port, metric, value, hour)
  {
    if more == [] {
      assert log + more == log;
    } else {
      var init, s := more[..|more| - 1], more[|more| - 1];
      OtherMetricsDoNotMatter(log, init, config, port, metric, value, hour);
      assert (log + more)[..|log + more| - 1] == log + init;
      TotalUpdated(TableOf(log + init), s, port, metric, HOURS);
    }
  }

  lemma MetricsDiffer()
    ensures forall i, j :: 0 <= i < j < |METRICS| ==> METRICS[i] != METRICS[j]
  {
    assert METRICS[0][0] == 'r' && METRICS[0][3] == 'e';
    assert METRICS[1][0] == 't' && METRICS[1][3] == 'e';
    assert METRICS[2][0] == 'r' && METRICS[2][3] == 'd';
    assert METRICS[3][0] == 't' && METRICS[3][3] == 'd';
    assert METRICS[4][0] == 'r' && METRICS[4][3] == 'c';
  }

  lemma OtherMetricsFoundSame(log: seq<Sample>, more: seq<Sample>, config: Config, call: Call, metric: string)
    requires forall i :: 0 <= i < |more| ==> more[i].key.metric != metric
    ensures FoundFor(TableOf(log + more), config, call, metric) == FoundFor(TableOf(log), config, call, metric)
  {
    OtherMetricsDoNotMatter(log, more, config, call.port, metric, CounterOf(call.stats, metric) as real, call.hour);
  }

  /** The samples stored before metric n belong to other metrics, so it is judged against the table as it was before the call. */
  lemma MetricStep(log: seq<Sample>, config: Config, call: Call, n: nat)
    requires n < |METRICS|
    ensures log + SamplesOfCall(call, n) + [SampleFor(call, METRICS[n])] == log + SamplesOfCall(call, n + 1)
    ensures FoundFor(TableOf(log + SamplesOfCall(call, n)), config, call, METRICS[n]) ==
            FoundFor(TableOf(log), config, call, METRICS[n])
  {
    SamplesSoFar(call, n);
    OtherMetricsFoundSame(log, SamplesOfCall(call, n), config, call, METRICS[n]);
  }

  lemma SamplesSoFar(call: Call, n: nat)
    requires n < |METRICS|
    ensures SamplesOfCall(call, n + 1) == SamplesOfCall(call, n) + [SampleFor(call, METRICS[n])]
    ensures forall i :: 0 <= i < n ==> SamplesOfCall(call, n)[i].key.metric != METRICS[n]
  {
    MetricsDiffer();
  }

  // ---- What a call reports -------------------------------------------------------------

  /** The place of an error counter in the fixed order of the checks; 5 for anything else. */
  function Place(metric: string): nat {
    if metric == "rx_errors" then 0
    else if metric == "tx_errors" then 1
    else if metric == "rx_drops" then 2
    else if metric == "tx_drops" then 3
    else if metric == "rx_crc_errors" then 4
    else 5
  }

  /** A counter to report: positive, with a baseline for its bucket, warmed up, and out of proportion to p95. */
  ghost predicate Reportable(log: seq<Sample>, config: Config, call: Call, metric: string) {
    var key := Key(call.port, metric, call.hour);
    && Place(metric) < 5
    && metric in call.stats && call.stats[metric] > 0
    && key in TableOf(log)
    && |Positions(log, call.port, metric)| >= config.baselineWarmupHours
    && Exceeds(call.stats[metric] as real, TableOf(log)[key].p95, config.deviationThreshold)
  }

  /** What a reported result says about its counter. */
  ghost predicate Describes(log: seq<Sample>, config: Config, call: Call, r: AnomalyResult) {
    var key := Key(call.port, r.metric, call.hour);
    && r.port == call.port
    && r.metric in call.stats && r.currentValue == call.stats[r.metric] as real
    && key in TableOf(log)
    && r.p50 == TableOf(log)[key].p50 && r.p95 == TableOf(log)[key].p95 && r.p99 == TableOf(log)[key].p99
    && r.deviationFactor == (if r.p95 > 0.0 then Finite(r.currentValue / r.p95) else Infinite)
    && r.isAnomaly && r.warmedUp
    && (r.isImmediate <==> Exceeds(r.currentValue, r.p95, config.immediateThreshold))
  }

  ghost predicate Names(anomalies: seq<AnomalyResult>, metric: string) {
    exists i :: 0 <= i < |anomalies| && anomalies[i].metric == metric
  }

  /** The reportable counters at the first `n` places, each once, in their order. */
  ghost predicate ReportOf(log: seq<Sample>, config: Config, call: Call, anomalies: seq<AnomalyResult>, n: nat) {
    && (forall metric :: Names(anomalies, metric) <==> Place(metric) < n && Reportable(log, config, call, metric))
    && (forall i :: 0 <= i < |anomalies| ==> Describes(log, config, call, anomalies[i]))
    && InOrder(anomalies)
  }

  lemma PlaceOfMetric(n: nat)
    requires n < |METRICS|
    ensures forall metric :: Place(metric) == n <==> metric == METRICS[n]
  {
    MetricsDiffer();
  }

  /** The verdict on a positive value in a bucket that has a baseline. */
  lemma VerdictTells(rows: Table, config: Config, port: string, metric: string, v: real, hour: nat)
    requires Key(port, metric, hour) in rows && v > 0.0
    ensures var row, verdict := rows[Key(port, metric, hour)], Verdict(rows, config, port, metric, v, hour);
            && verdict.port == port && verdict.metric == metric && verdict.currentValue == v
            && verdict.p50 == row.p50 && verdict.p95 == row.p95 && verdict.p99 == row.p99
            && verdict.deviationFactor == (if row.p95 > 0.0 then Finite(v / row.p95) else Infinite)
            && verdict.warmedUp == IsWarmedUp(rows, port, metric, config.baselineWarmupHours)
            && (verdict.isAnomaly <==> verdict.warmedUp && Exceeds(v, row.p95, config.deviationThreshold))
            && (verdict.isImmediate <==> verdict.warmedUp && Exceeds(v, row.p95, config.immediateThreshold))
  {
    ReachesIff(v, rows[Key(port, metric, hour)].p95, config.deviationThreshold);
    ReachesIff(v, rows[Key(port, metric, hour)].p95, config.immediateThreshold);
  }

  lemma WarmedUpIff(log: seq<Sample>, port: string, metric: string, minSamples: int)
    requires InWeek(log)
    ensures IsWarmedUp(TableOf(log), port, metric, minSamples) <==> |Positions(log, port, metric)| >= minSamples
  {
    WarmupConservation(log, port, metric);
    SamplesOfCounts(log, port, metric);
  }

  /** At most one result, and it is there if and only if the counter is to be reported. */
  ghost predicate FoundRight(log: seq<Sample>, config: Config, call: Call, metric: string, found: seq<AnomalyResult>) {
    if Reportable(log, config, call, metric)
    then |found| == 1 && found[0].metric == metric && Describes(log, config, call, found[0])
    else found == []
  }

  lemma NothingFound(log: seq<Sample>, config: Config, call: Call, metric: string)
    requires CounterOf(call.stats, metric) <= 0 || Key(call.port, metric, call.hour) !in TableOf(log)
    ensures FoundFor(TableOf(log), config, call, metric) == [] && !Reportable(log, config, call, metric)
  {
  }

  lemma SomethingFound(rows: Table, config: Config, call: Call, metric: string, found: seq<AnomalyResult>)
    requires CounterOf(call.stats, metric) > 0 && Key(call.port, metric, call.hour) in rows
    requires found == FoundFor(rows, config, call, metric)
    ensures var row, v := rows[Key(call.port, metric, call.hour)], CounterOf(call.stats, metric) as real;
            && (found == [] || |found| == 1)
            && (found != [] <==> IsWarmedUp(rows, call.port, metric, config.baselineWarmupHours)
                                 && Exceeds(v, row.p95, config.deviationThreshold))
            && (found != [] ==>
                  var r := found[0];
                  && r.port == call.port && r.metric == metric && r.currentValue == v
                  && r.p50 == row.p50 && r.p95 == row.p95 && r.p99 == row.p99
                  && r.deviationFactor == (if row.p95 > 0.0 then Finite(v / row.p95) else Infinite)
                  && r.isAnomaly && r.warmedUp
                  && (r.isImmediate <==> Exceeds(v, row.p95, config.immediateThreshold)))
  {
    VerdictTells(rows, config, call.port, metric, CounterOf(call.stats, metric) as real, call.hour);
  }

  lemma FoundIffReportable(log: seq<Sample>, config: Config, call: Call, metric: string, found: seq<AnomalyResult>)
    requires InWeek(log) && Place(metric) < 5 && found == FoundFor(TableOf(log), config, call, metric)
    ensures FoundRight(log, config, call, metric, found)
  {
    if CounterOf(call.stats, metric) > 0 && Key(call.port, metric, call.hour) in TableOf(log) {
      assert CounterOf(call.stats, metric) == call.stats[metric];
      WarmedUpIff(log, call.port, metric, config.baselineWarmupHours);
      SomethingFound(TableOf(log), config, call, metric, found);
    } else {
      NothingFound(log, config, call, metric);
    }
  }

  lemma NamesGrow(anomalies: seq<AnomalyResult>, found: seq<AnomalyResult>, metric: string)
    requires |found| <= 1
    ensures Names(anomalies + found, metric) <==> Names(anomalies, metric) || (found != [] && found[0].metric == metric)
  {
    var all := anomalies + found;
    if Names(anomalies, metric) {
      var i :| 0 <= i < |anomalies| && anomalies[i].metric == metric;
      assert all[i].metric == metric;
    }
    if found != [] && found[0].metric == metric {
      assert all[|anomalies|].metric == metric;
    }
  }

  /** Each result stands behind those with a smaller place. */
  ghost predicate InOrder(anomalies: seq<AnomalyResult>) {
    forall i, j :: 0 <= i < j < |anomalies| ==> Place(anomalies[i].metric) < Place(anomalies[j].metric)
  }

  lemma OrderGrows(anomalies: seq<AnomalyResult>, found: seq<AnomalyResult>, n: nat)
    requires InOrder(anomalies) && |found| <= 1 && (found != [] ==> Place(found[0].metric) == n)
    requires forall i :: 0 <= i < |anomalies| ==> Place(anomalies[i].metric) < n
    ensures InOrder(anomalies + found)
  {
  }

  lemma ReportGrows(log: seq<Sample>, config: Config, call: Call, anomalies: seq<AnomalyResult>, n: nat,
                    metric: string, found: seq<AnomalyResult>)
    requires ReportOf(log, config, call, anomalies, n) && FoundRight(log, config, call, metric, found)
    requires forall m :: Place(m) == n <==> m == metric
    ensures ReportOf(log, config, call, anomalies + found, n + 1)
  {
    forall m ensures Names(anomalies + found, m) <==> Place(m) < n + 1 && Reportable(log, config, call, m) {
      NamesGrow(anomalies, found, m);
    }
    forall i | 0 <= i < |anomalies| ensures Place(anomalies[i].metric) < n {
      assert Names(anomalies, anomalies[i].metric);
    }
    OrderGrows(anomalies, found, n);
  }

  lemma {:induction false} AnomaliesAreReport(log: seq<Sample>, config: Config, call: Call, n: nat)
    requires InWeek(log) && n <= |METRICS|
    ensures ReportOf(log, config, call, AnomaliesOf(TableOf(log), config, call, n), n)
  {
    if n == 0 {
    } else {
      AnomaliesAreReport(log, config, call, n - 1);
      PlaceOfMetric(n - 1);
      FoundIffReportable(log, config, call, METRICS[n - 1], FoundFor(TableOf(log), config, call, METRICS[n - 1]));
      ReportGrows(log, config, call, AnomaliesOf(TableOf(log), config, call, n - 1), n - 1, METRICS[n - 1],
                  FoundFor(TableOf(log), config, call, METRICS[n - 1]));
    }
  }

  /** The five samples that a call stores, in their order; a missing counter counts as 0. */
  ghost predicate Stores(before: seq<Sample>, after: seq<Sample>, call: Call) {
    && |after| == |before| + 5 && after[..|before|] == before
    && forall i :: |before| <= i < |after| ==>
        var s := after[i];
        && Place(s.key.metric) == i - |before| && s.key.port == call.port && s.key.hour == call.hour
        && s.value == (if s.key.metric in call.stats then call.stats[s.key.metric] as real else 0.0)
  }

  lemma SamplesAreStored(log: seq<Sample>, call: Call)
    ensures Stores(log, log + SamplesOfCall(call, |METRICS|), call)
  {
    var after := log + SamplesOfCall(call, |METRICS|);
    forall i | |log| <= i < |after| ensures Place(after[i].key.metric) == i - |log| {
      PlaceOfMetric(i - |log|);
    }
  }

  lemma LargeIsReportable(log: seq<Sample>, config: Config, call: Call, metric: string, lo: real, hi: real)
    requires Place(metric) < 5 && metric in call.stats && call.stats[metric] > 0
    requires ValuesOf(log, Key(call.port, metric, call.hour)) != []
    requires AllIn(ValuesOf(log, Key(call.port, metric, call.hour)), lo, hi)
    requires |Positions(log, call.port, metric)| >= config.baselineWarmupHours
    requires call.stats[metric] as real >= config.deviationThreshold * (hi + 0.0025)
    ensures Reportable(log, config, call, metric)
  {
    RowsAreStreams(log, Key(call.port, metric, call.hour));
    RowRange(log, Key(call.port, metric, call.hour), lo, hi);
    LargeReaches(call.stats[metric] as real, config.deviationThreshold,
                 TableOf(log)[Key(call.port, metric, call.hour)].p95, hi + 0.0025);
  }

  lemma LargeIsImmediate(log: seq<Sample>, config: Config, call: Call, r: AnomalyResult, lo: real, hi: real)
    requires Describes(log, config, call, r) && r.currentValue > 0.0
    requires AllIn(ValuesOf(log, Key(call.port, r.metric, call.hour)), lo, hi)
    requires r.currentValue >= config.immediateThreshold * (hi + 0.0025)
    ensures r.isImmediate
  {
    RowRange(log, Key(call.port, r.metric, call.hour), lo, hi);
    LargeReaches(r.currentValue, config.immediateThreshold, r.p95, hi + 0.0025);
  }

  /**
   Main result: a counter that reaches the threshold times the largest earlier sample of its bucket
   (plus one estimator step) is in the list that a call returns, marked immediate when it reaches that threshold.
   */
  lemma LargeValuesReported(log: seq<Sample>, config: Config, call: Call, anomalies: seq<AnomalyResult>,
                            metric: string, lo: real, hi: real)
    requires ReportOf(log, config, call, anomalies, 5)
    requires Place(metric) < 5 && metric in call.stats && call.stats[metric] > 0
    requires ValuesOf(log, Key(call.port, metric, call.hour)) != []
    requires AllIn(ValuesOf(log, Key(call.port, metric, call.hour)), lo, hi)
    requires |Positions(log, call.port, metric)| >= config.baselineWarmupHours
    requires call.stats[metric] as real >= config.deviationThreshold * (hi + 0.0025)
    ensures exists i :: 0 <= i < |anomalies| && anomalies[i].metric == metric
    ensures call.stats[metric] as real >= config.immediateThreshold * (hi + 0.0025) ==>
              forall i :: 0 <= i < |anomalies| && anomalies[i].metric == metric ==> anomalies[i].isImmediate
  {
    LargeIsReportable(log, config, call, metric, lo, hi);
    assert Names(anomalies, metric);
    if call.stats[metric] as real >= config.immediateThreshold * (hi + 0.0025) {
      forall i | 0 <= i < |anomalies| && anomalies[i].metric == metric ensures anomalies[i].isImmediate {
        LargeIsImmediate(log, config, call, anomalies[i], lo, hi);
      }
    }
  }

  /** Main result: and one below the threshold times the smallest earlier sample (less one step) is not. */
  lemma SmallValuesNotReported(log: seq<Sample>, config: Config, call: Call, anomalies: seq<AnomalyResult>,
                               metric: string, lo: real, hi: real)
    requires ReportOf(log, config, call, anomalies, 5) && metric in call.stats
    requires AllIn(ValuesOf(log, Key(call.port, metric, call.hour)), lo, hi) && lo > 0.0475
    requires call.stats[metric] as real < config.deviationThreshold * (lo - 0.0475)
    ensures forall i :: 0 <= i < |anomalies| ==> anomalies[i].metric != metric
  {
    var key, v := Key(call.port, metric, call.hour), call.stats[metric] as real;
    if Reportable(log, config, call, metric) {
      RowRange(log, key, lo, hi);
      BelowScaled(v, config.deviationThreshold, lo - 0.0475, TableOf(log)[key].p95);
      assert false;
    }
    assert !Names(anomalies, metric);
  }

  /** Judges one counter if it is positive, and then stores it. */
  method CheckMetric(store: BaselineStore, config: Config, call: Call, metric: string) returns (found: seq<AnomalyResult>)
    requires store.Valid() && call.hour < HOURS
    modifies store
    ensures store.Valid()
    ensures store.log == old(store.log) + [SampleFor(call, metric)]
    ensures found == FoundFor(TableOf(old(store.log)), config, call, metric)
  {
    found := [];
    var value := CounterOf(call.stats, metric);
    if value > 0 {
      var result := Verdict(store.rows, config, call.port, metric, value as real, call.hour);
      if result.isAnomaly {
        found := [result];
      }
    }
    store.Update(call.port, metric, value as real, call.hour);
  }

  /** Checks every error counter of a port; each is judged against the table as it was before the call. */
  method CheckPortStats(store: BaselineStore, config: Config, call: Call) returns (anomalies: seq<AnomalyResult>)
    requires store.Valid() && call.hour < HOURS
    modifies store
    ensures store.Valid()
    ensures store.log == old(store.log) + SamplesOfCall(call, |METRICS|)
    ensures anomalies == AnomaliesOf(TableOf(old(store.log)), config, call, |METRICS|)
    ensures Stores(old(store.log), store.log, call)
    ensures ReportOf(old(store.log), config, call, anomalies, 5)
  {
    anomalies := [];
    ghost var log0 := store.log;
    for n := 0 to |METRICS|
      invariant store.Valid()
      invariant store.log == log0 + SamplesOfCall(call, n)
      invariant anomalies == AnomaliesOf(TableOf(log0), config, call, n)
    {
      MetricStep(log0, config, call, n);
      var found := CheckMetric(store, config, call, METRICS[n]);
      anomalies := anomalies + found;
    }
    AnomaliesAreReport(log0, config, call, |METRICS|);
    SamplesAreStored(log0, call);
  }

  function CallsFor(calls: seq<Call>, port: string): nat {
    if calls == [] then 0
    else CallsFor(calls[..|calls| - 1], port) + if calls[|calls| - 1].port == port then 1 else 0
  }

  lemma {:induction false} SamplesConcat(a: seq<Sample>, b: seq<Sample>, port: string, metric: string)
    ensures SamplesOf(a + b, port, metric) == SamplesOf(a, port, metric) + SamplesOf(b, port, metric)
  {
    if b == [] {
      assert a + b == a;
    } else {
      assert (a + b)[..|a + b| - 1] == a + b[..|b| - 1];
      SamplesConcat(a, b[..|b| - 1], port, metric);
    }
  }

  lemma {:induction false} OneSamplePerMetric(call: Call, n: nat, k: nat, port: string)
    requires n <= |METRICS| && k < |METRICS|
    ensures SamplesOf(SamplesOfCall(call, n), port, METRICS[k]) == if call.port == port && k < n then 1 else 0
  {
    if n == 0 {
    } else {
      MetricsDiffer();
      OneSamplePerMetric(call, n - 1, k, port);
      assert SamplesOfCall(call, n)[..n - 1] == SamplesOfCall(call, n - 1);
    }
  }

  /** Each call for a port adds one sample to each of its metrics. */
  lemma {:induction false} SamplesAreCalls(calls: seq<Call>, port: string, k: nat)
    requires k < |METRICS|
    ensures SamplesOf(LogOf(calls), port, METRICS[k]) == CallsFor(calls, port)
  {
    if calls == [] {
    } else {
      var init, last := calls[..|calls| - 1], calls[|calls| - 1];
      SamplesAreCalls(init, port, k);
      SamplesConcat(LogOf(init), SamplesOfCall(last, |METRICS|), port, METRICS[k]);
      OneSamplePerMetric(last, |METRICS|, k, port);
    }
  }

  ghost predicate CalledAt(calls: seq<Call>, port: string, hour: nat) {
    exists i :: 0 <= i < |calls| && calls[i].port == port && calls[i].hour == hour
  }

  lemma {:induction false} ValuesComeFromSamples(log: seq<Sample>, key: Key) returns (i: nat)
    requires ValuesOf(log, key) != []
    ensures i < |log| && log[i].key == key
  {
    if log[|log| - 1].key == key {
      i := |log| - 1;
    } else {
      i := ValuesComeFromSamples(log[..|log| - 1], key);
    }
  }

  lemma {:induction false} SamplesComeFromCalls(calls: seq<Call>, i: nat)
    requires i < |LogOf(calls)|
    ensures CalledAt(calls, LogOf(calls)[i].key.port, LogOf(calls)[i].key.hour)
  {
    var init, last := calls[..|calls| - 1], calls[|calls| - 1];
    if i < |LogOf(init)| {
      SamplesComeFromCalls(init, i);
      var j :| 0 <= j < |init| && init[j].port == LogOf(init)[i].key.port && init[j].hour == LogOf(init)[i].key.hour;
      assert calls[j] == init[j];
    } else {
      assert calls[|calls| - 1] == last;
    }
  }

  ghost predicate CallsInWeek(calls: seq<Call>) {
    forall i :: 0 <= i < |calls| ==> calls[i].hour < HOURS
  }

  lemma {:induction false} LogInWeek(calls: seq<Call>)
    requires CallsInWeek(calls)
    ensures InWeek(LogOf(calls))
  {
    if calls == [] {
    } else {
      LogInWeek(calls[..|calls| - 1]);
    }
  }

  /**
   Main result: over any run of port checks from an empty store, a metric is flagged only after
   at least `baseline_warmup_hours` earlier calls for its port, one of them in the same hour of the week.
   */
  lemma FlaggedOnlyAfterWarmup(calls: seq<Call>, config: Config, port: string, k: nat, value: real, hour: nat)
    requires CallsInWeek(calls) && k < |METRICS|
    requires Verdict(TableOf(LogOf(calls)), config, port, METRICS[k], value, hour).isAnomaly
    ensures CallsFor(calls, port) >= config.baselineWarmupHours
    ensures CalledAt(calls, port, hour)
  {
    var log := LogOf(calls);
    LogInWeek(calls);
    SamplesAreCalls(calls, port, k);
    WarmupConservation(log, port, METRICS[k]);
    RowsAreStreams(log, Key(port, METRICS[k], hour));
    var i := ValuesComeFromSamples(log, Key(port, METRICS[k], hour));
    SamplesComeFromCalls(calls, i);
  }

  /** Main result: and the list that a call returns names a metric only then. */
  lemma ReportedOnlyAfterWarmup(calls: seq<Call>, config: Config, call: Call, anomalies: seq<AnomalyResult>, i: nat)
    requires CallsInWeek(calls) && ReportOf(LogOf(calls), config, call, anomalies, 5) && i < |anomalies|
    ensures CallsFor(calls, call.port) >= config.baselineWarmupHours
    ensures CalledAt(calls, call.port, call.hour)
  {
    var log, metric := LogOf(calls), anomalies[i].metric;
    assert Names(anomalies, metric);
    PlaceOfMetric(Place(metric));
    LogInWeek(calls);
    SamplesAreCalls(calls, call.port, Place(metric));
    SamplesOfCounts(log, call.port, metric);
    RowsAreStreams(log, Key(call.port, metric, call.hour));
    var j := ValuesComeFromSamples(log, Key(call.port, metric, call.hour));
    SamplesComeFromCalls(calls, j);
  }
}
