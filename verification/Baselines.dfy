/**
 The baseline table: one row of quantile estimates for each port, metric and hour
 of the week, updated in place.
 */
module Baselines {
  import opened Calibration
  import opened Wrappers

  const HOURS: nat := 168

  datatype Key = Key(port: string, metric: string, hour: nat)

  datatype Row = Row(p50: real, p95: real, p99: real, sampleCount: nat)

  datatype Sample = Sample(key: Key, value: real)

  type Table = map<Key, Row>

  /** The bucket of a point in time; `weekday` counts from Monday = 0. */
  function HourOfWeek(weekday: nat, hour: nat): (bucket: nat)
    requires weekday < 7 && hour < 24
    ensures bucket < 168
    ensures bucket / 24 == weekday && bucket % 24 == hour
  {
    weekday * 24 + hour
  }

  function Seeded(value: real): Row {
    Row(value, value, value, 1)
  }

  function Stepped(row: Row, value: real): Row {
    Row(EmaQuantile(row.p50, value, ALPHA, 0.50),
        EmaQuantile(row.p95, value, ALPHA, 0.95),
        EmaQuantile(row.p99, value, ALPHA, 0.99),
        row.sampleCount + 1)
  }

  function Updated(rows: Table, s: Sample): Table {
    rows[s.key := if s.key in rows then Stepped(rows[s.key], s.value) else Seeded(s.value)]
  }

  /** The table after a log of samples, starting empty. */
  function TableOf(log: seq<Sample>): Table {
    if log == [] then map[]
    else Updated(TableOf(log[..|log| - 1]), log[|log| - 1])
  }

  /** The values logged under one key, in order. */
  function ValuesOf(log: seq<Sample>, key: Key): seq<real> {
    if log == [] then []
    else
      var rest, s := ValuesOf(log[..|log| - 1], key), log[|log| - 1];
      if s.key == key then rest + [s.value] else rest
  }

  /** The row of a bucket that received these values: the first one is the seed. */
  function RowFrom(values: seq<real>): Row
    requires values != []
  {
    Row(Estimate(values[0], values[1..], 0.50),
        Estimate(values[0], values[1..], 0.95),
        Estimate(values[0], values[1..], 0.99),
        |values|)
  }

  /** Buckets do not disturb each other: each row is the estimators run over its own samples. */
  lemma {:induction false} RowsAreStreams(log: seq<Sample>, key: Key)
    ensures key in TableOf(log) <==> ValuesOf(log, key) != []
    ensures key in TableOf(log) ==>
              var row, values := TableOf(log)[key], ValuesOf(log, key);
              && row == RowFrom(values) && row.sampleCount == |values|
              && row.p50 == Estimate(values[0], values[1..], 0.50)
              && row.p95 == Estimate(values[0], values[1..], 0.95)
              && row.p99 == Estimate(values[0], values[1..], 0.99)
  {
    if log == [] {
    } else {
      var init, s := log[..|log| - 1], log[|log| - 1];
      RowsAreStreams(init, key);
      var before, after := ValuesOf(init, key), ValuesOf(log, key);
      if s.key == key && before != [] {
        assert after[0] == before[0];
        assert after[1..][..|after| - 2] == before[1..];
      }
    }
  }

  /**
   Main result: in every table the program can reach, p95 exceeds p50 by at most 0.0275,
   p99 exceeds p95 by at most 0.048, and p99 exceeds p50 by at most 0.0255.
   */
  lemma RowsAlmostOrdered(log: seq<Sample>, key: Key)
    requires key in TableOf(log)
    ensures var row := TableOf(log)[key];
            row.p95 <= row.p50 + 0.0275 && row.p99 <= row.p95 + 0.048 && row.p99 <= row.p50 + 0.0255
  {
    RowsAreStreams(log, key);
    var values := ValuesOf(log, key);
    BoundedCrossing(values[0], values[1..], 0.50, 0.95);
    BoundedCrossing(values[0], values[1..], 0.95, 0.99);
    BoundedCrossing(values[0], values[1..], 0.50, 0.99);
  }

  ghost predicate AllIn(values: seq<real>, lo: real, hi: real) {
    forall i :: 0 <= i < |values| ==> lo <= values[i] <= hi
  }

  /** Each stored estimate leaves the range of the bucket's samples by at most one of its steps. */
  lemma RowRange(log: seq<Sample>, key: Key, lo: real, hi: real)
    requires key in TableOf(log) && AllIn(ValuesOf(log, key), lo, hi)
    ensures lo - 0.025 <= TableOf(log)[key].p50 <= hi + 0.025
    ensures lo - 0.0475 <= TableOf(log)[key].p95 <= hi + 0.0025
    ensures lo - 0.0495 <= TableOf(log)[key].p99 <= hi + 0.0005
  {
    RowsAreStreams(log, key);
    var values := ValuesOf(log, key);
    EstimateRange(values[0], values[1..], 0.50, lo, hi);
    EstimateRange(values[0], values[1..], 0.95, lo, hi);
    EstimateRange(values[0], values[1..], 0.99, lo, hi);
  }

  // ---- Warm-up ------------------------------------------------------------------

  function CountAt(rows: Table, key: Key): nat {
    if key in rows then rows[key].sampleCount else 0
  }

  /** The sum of sample counts over the first `hours` buckets of a port and metric. */
  function Total(rows: Table, port: string, metric: string, hours: nat): nat {
    if hours == 0 then 0
    else Total(rows, port, metric, hours - 1) + CountAt(rows, Key(port, metric, hours - 1))
  }

  predicate IsWarmedUp(rows: Table, port: string, metric: string, minSamples: int) {
    Total(rows, port, metric, HOURS) >= minSamples
  }

  ghost predicate InWeek(log: seq<Sample>) {
    forall i :: 0 <= i < |log| ==> log[i].key.hour < HOURS
  }

  /** How many samples of a port and metric were logged, whatever their hour. */
  function SamplesOf(log: seq<Sample>, port: string, metric: string): nat {
    if log == [] then 0
    else
      var s := log[|log| - 1];
      SamplesOf(log[..|log| - 1], port, metric) + if s.key.port == port && s.key.metric == metric then 1 else 0
  }

  lemma {:induction false} TotalUpdated(rows: Table, s: Sample, port: string, metric: string, hours: nat)
    ensures Total(Updated(rows, s), port, metric, hours) ==
            Total(rows, port, metric, hours) +
            if s.key.port == port && s.key.metric == metric && s.key.hour < hours then 1 else 0
  {
    if hours == 0 {
    } else {
      TotalUpdated(rows, s, port, metric, hours - 1);
    }
  }

  /** Main result: the counts of all buckets of a port and metric add up to the number of its updates. */
  lemma {:induction false} WarmupConservation(log: seq<Sample>, port: string, metric: string)
    requires InWeek(log)
    ensures Total(TableOf(log), port, metric, HOURS) == SamplesOf(log, port, metric)
  {
    if log == [] {
      EmptyTotal(port, metric, HOURS);
    } else {
      WarmupConservation(log[..|log| - 1], port, metric);
      TotalUpdated(TableOf(log[..|log| - 1]), log[|log| - 1], port, metric, HOURS);
    }
  }

  lemma {:induction false} EmptyTotal(port: string, metric: string, hours: nat)
    ensures Total(map[], port, metric, hours) == 0
  {
    if hours == 0 {
    } else {
      EmptyTotal(port, metric, hours - 1);
    }
  }

  /** The positions of a log that hold a sample of the port and metric. */
  ghost function Positions(log: seq<Sample>, port: string, metric: string): set<int> {
    set i | 0 <= i < |log| && log[i].key.port == port && log[i].key.metric == metric
  }

  lemma {:induction false} SamplesOfCounts(log: seq<Sample>, port: string, metric: string)
    ensures SamplesOf(log, port, metric) == |Positions(log, port, metric)|
  {
    if log == [] {
    } else {
      var n := |log| - 1;
      SamplesOfCounts(log[..n], port, metric);
      var here := if log[n].key.port == port && log[n].key.metric == metric then {n} else {};
      assert Positions(log, port, metric) == Positions(log[..n], port, metric) + here;
    }
  }

  /** One column of a row under one sample: the steps up and down. */
  ghost predicate Moves(before: real, now: real, value: real, up: real, down: real) {
    && (value > before ==> now == before + up)
    && (value < before ==> now == before - down)
    && (value == before ==> now == before)
  }

  class BaselineStore {
    var rows: Table
    ghost var log: seq<Sample>

    ghost predicate Valid()
      reads this
    {
      rows == TableOf(log) && InWeek(log)
    }

    constructor ()
      ensures Valid() && log == []
    {
      rows, log := map[], [];
    }

    /** The row of a bucket; it is the estimators run over the bucket's own samples. */
    method Get(port: string, metric: string, hour: nat) returns (row: Option<Row>)
      requires Valid()
      ensures row == if Key(port, metric, hour) in rows then Some(rows[Key(port, metric, hour)]) else None
      ensures row.Some? <==> ValuesOf(log, Key(port, metric, hour)) != []
      ensures row.Some? ==>
                var values := ValuesOf(log, Key(port, metric, hour));
                && row.value.sampleCount == |values|
                && row.value.p50 == Estimate(values[0], values[1..], 0.50)
                && row.value.p95 == Estimate(values[0], values[1..], 0.95)
                && row.value.p99 == Estimate(values[0], values[1..], 0.99)
    {
      var key := Key(port, metric, hour);
      RowsAreStreams(log, key);
      row := if key in rows then Some(rows[key]) else None;
    }

    /** A first sample seeds all three columns; a later one moves each of them by its own steps. */
    method Update(port: string, metric: string, value: real, hour: nat)
      requires Valid() && hour < HOURS
      modifies this
      ensures Valid()
      ensures log == old(log) + [Sample(Key(port, metric, hour), value)]
      ensures rows.Keys == old(rows).Keys + {Key(port, metric, hour)}
      ensures forall k :: k in old(rows) && k != Key(port, metric, hour) ==> rows[k] == old(rows)[k]
      ensures Key(port, metric, hour) !in old(rows) ==>
                rows[Key(port, metric, hour)] == Row(value, value, value, 1)
      ensures Key(port, metric, hour) in old(rows) ==>
                var before, now := old(rows)[Key(port, metric, hour)], rows[Key(port, metric, hour)];
                && now.sampleCount == before.sampleCount + 1
                && Moves(before.p50, now.p50, value, 0.025, 0.025)
                && Moves(before.p95, now.p95, value, 0.0025, 0.0475)
                && Moves(before.p99, now.p99, value, 0.0005, 0.0495)
    {
      var key := Key(port, metric, hour);
      var existing := Get(port, metric, hour);
      RowsAreStreams(log, key);
      if existing.None? {
        rows := rows[key := Seeded(value)];
      } else {
        rows := rows[key := Stepped(existing.value, value)];
      }
      log := log + [Sample(key, value)];
      assert log[..|log| - 1] == old(log);
    }

    /** Warmed up means that at least `minSamples` samples of the port and metric were ever stored. */
    method CheckWarmedUp(port: string, metric: string, minSamples: int) returns (warm: bool)
      requires Valid()
      ensures warm <==> SamplesOf(log, port, metric) >= minSamples
      ensures warm <==> |Positions(log, port, metric)| >= minSamples
    {
      SamplesOfCounts(log, port, metric);
      WarmupConservation(log, port, metric);
      warm := IsWarmedUp(rows, port, metric, minSamples);
    }
  }
}
