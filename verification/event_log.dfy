/**
  The durable log of raw sensor readings (the `datas` table) and the
  group-by query over it. The log is append-only, so it is a sequence of
  rows in insertion order; the per-sensor aggregates are defined by
  recursion on the last row, which is the form appends unfold into.
 */
module EventLog {

  /** One `(id, time, value)` row of the `datas` table. */
  datatype Row = Row(id: string, time: int, value: real)

  type Log = seq<Row>

  /** One row of the group-by query, in its SELECT order:
      `id, value, count(*), avg(value), sum(value)`. */
  datatype AggRow = AggRow(id: string, value: real, count: int, avg: real, total: real)

  /** `SensorManager.write_sensor_event`: insert exactly one row. */
  function WriteSensorEvent(log: Log, sensorId: string, timestamp: int, value: real): (r: Log)
    ensures |r| == |log| + 1
    ensures r[..|log|] == log
    ensures r[|log|] == Row(sensorId, timestamp, value)
  {
    log + [Row(sensorId, timestamp, value)]
  }

  /** The number of rows logged for `id`. */
  function CountOf(log: Log, id: string): nat
  {
    if |log| == 0 then 0
    else CountOf(log[..|log| - 1], id) + (if log[|log| - 1].id == id then 1 else 0)
  }

  /** The sum of the values logged for `id`. */
  function SumOf(log: Log, id: string): real
  {
    if |log| == 0 then 0.0
    else SumOf(log[..|log| - 1], id) + (if log[|log| - 1].id == id then log[|log| - 1].value else 0.0)
  }

  /** The value of the most recently inserted row for `id`. */
  function LastValue(log: Log, id: string): real
    requires CountOf(log, id) > 0
  {
    if log[|log| - 1].id == id then log[|log| - 1].value else LastValue(log[..|log| - 1], id)
  }

  /** Some row of the log carries `id` and `value`. */
  ghost predicate HasValue(log: Log, id: string, value: real)
  {
    exists k :: 0 <= k < |log| && log[k].id == id && log[k].value == value
  }

  /** `row` is the group of `id == row.id`: a non-empty group whose count,
      sum and average are the group's, and whose bare `value` column is
      the value of one of the group's rows (which one is unspecified). */
  ghost predicate IsGroupRow(log: Log, row: AggRow)
  {
    && CountOf(log, row.id) > 0
    && row.count == CountOf(log, row.id)
    && row.total == SumOf(log, row.id)
    && row.avg == SumOf(log, row.id) / (CountOf(log, row.id) as real)
    && HasValue(log, row.id, row.value)
  }

  /** No two query rows share an id. */
  ghost predicate UniqueRowIds(rows: seq<AggRow>)
  {
    forall i, j :: 0 <= i < j < |rows| ==> rows[i].id != rows[j].id
  }

  /** What `SensorManager.get_stats_for_all_sensors` may return for `log`:
      exactly one group row per distinct id in the log, in any order. */
  ghost predicate IsAggregation(log: Log, rows: seq<AggRow>)
  {
    && UniqueRowIds(rows)
    && (forall i :: 0 <= i < |rows| ==> IsGroupRow(log, rows[i]))
    && (forall k :: 0 <= k < |log| ==> exists i :: 0 <= i < |rows| && rows[i].id == log[k].id)
  }

  /** Appending one row adds one to its id's count, its value to its id's
      sum, makes it its id's last value, and leaves every other id alone. */
  lemma WriteSensorEventExtends(log: Log, sensorId: string, timestamp: int, value: real, id: string)
    ensures var log' := WriteSensorEvent(log, sensorId, timestamp, value);
      && CountOf(log', id) == CountOf(log, id) + (if id == sensorId then 1 else 0)
      && SumOf(log', id) == SumOf(log, id) + (if id == sensorId then value else 0.0)
      && (id == sensorId ==> LastValue(log', id) == value)
      && (id != sensorId && CountOf(log, id) > 0 ==> LastValue(log', id) == LastValue(log, id))
  {
    var log' := WriteSensorEvent(log, sensorId, timestamp, value);
    assert log'[..|log'| - 1] == log;
  }

  /** An id with no rows sums to zero. */
  lemma {:induction false} UnloggedSumIsZero(log: Log, id: string)
    requires CountOf(log, id) == 0
    ensures SumOf(log, id) == 0.0
  {
    if |log| > 0 {
      UnloggedSumIsZero(log[..|log| - 1], id);
    }
  }

  /** The log holds a row for `id` exactly when its count is positive. */
  lemma {:induction false} CountPositiveIffLogged(log: Log, id: string)
    ensures CountOf(log, id) > 0 <==> exists k :: 0 <= k < |log| && log[k].id == id
  {
    if |log| > 0 {
      var init := log[..|log| - 1];
      CountPositiveIffLogged(init, id);
      assert forall k :: 0 <= k < |init| ==> init[k] == log[k];
    }
  }

  /** The last value of a logged id is the value of one of its rows. */
  lemma {:induction false} LastValueIsLogged(log: Log, id: string)
    requires CountOf(log, id) > 0
    ensures HasValue(log, id, LastValue(log, id))
  {
    if log[|log| - 1].id != id {
      var init := log[..|log| - 1];
      LastValueIsLogged(init, id);
      var k :| 0 <= k < |init| && init[k].id == id && init[k].value == LastValue(init, id);
      assert log[k] == init[k];
    }
  }

  /** The distinct ids of the log, in order of first appearance. */
  function DistinctIds(log: Log): (ids: seq<string>)
    ensures forall i, j :: 0 <= i < j < |ids| ==> ids[i] != ids[j]
    ensures forall i :: 0 <= i < |ids| ==> CountOf(log, ids[i]) > 0
    ensures forall k :: 0 <= k < |log| ==> log[k].id in ids
  {
    if |log| == 0 then []
    else
      var init := log[..|log| - 1];
      var prev := DistinctIds(init);
      assert forall k :: 0 <= k < |init| ==> init[k] == log[k];
      var id := log[|log| - 1].id;
      if id in prev then prev
      else
        var ids := prev + [id];
        assert forall i :: 0 <= i < |prev| ==> ids[i] == prev[i];
        ids
  }

  /** The group row of `id`, reporting the last inserted value. */
  function GroupRow(log: Log, id: string): AggRow
    requires CountOf(log, id) > 0
  {
    var n := CountOf(log, id);
    var s := SumOf(log, id);
    AggRow(id, LastValue(log, id), n, s / (n as real), s)
  }

  /** The group rows of `ids`, in order. */
  function GroupRows(log: Log, ids: seq<string>): (rows: seq<AggRow>)
    requires forall i :: 0 <= i < |ids| ==> CountOf(log, ids[i]) > 0
    ensures |rows| == |ids|
    ensures forall i :: 0 <= i < |rows| ==> rows[i] == GroupRow(log, ids[i])
  {
    if |ids| == 0 then []
    else GroupRows(log, ids[..|ids| - 1]) + [GroupRow(log, ids[|ids| - 1])]
  }

  /** The group rows of distinct logged ids that cover the log form a valid
      result of the group-by query. */
  lemma GroupRowsAreAggregation(log: Log, ids: seq<string>, rows: seq<AggRow>)
    requires forall i, j :: 0 <= i < j < |ids| ==> ids[i] != ids[j]
    requires forall i :: 0 <= i < |ids| ==> CountOf(log, ids[i]) > 0
    requires forall k :: 0 <= k < |log| ==> log[k].id in ids
    requires |rows| == |ids|
    requires forall i :: 0 <= i < |rows| ==> rows[i] == GroupRow(log, ids[i])
    ensures IsAggregation(log, rows)
    ensures forall i :: 0 <= i < |rows| ==> rows[i].value == LastValue(log, rows[i].id)
  {
    assert forall i :: 0 <= i < |rows| ==> rows[i].id == ids[i];
    forall i | 0 <= i < |rows|
      ensures IsGroupRow(log, rows[i])
    {
      LastValueIsLogged(log, ids[i]);
    }
    forall k | 0 <= k < |log|
      ensures exists i :: 0 <= i < |rows| && rows[i].id == log[k].id
    {
      var i :| 0 <= i < |ids| && ids[i] == log[k].id;
      assert rows[i].id == log[k].id;
    }
  }

  /** One admissible result of the group-by query: one row per distinct id,
      in order of first appearance, reporting each group's last inserted
      value in the bare `value` column. */
  function Aggregate(log: Log): (rows: seq<AggRow>)
    ensures IsAggregation(log, rows)
    ensures forall i :: 0 <= i < |rows| ==>
      CountOf(log, rows[i].id) > 0 && rows[i].value == LastValue(log, rows[i].id)
  {
    var ids := DistinctIds(log);
    var rows := GroupRows(log, ids);
    GroupRowsAreAggregation(log, ids, rows);
    rows
  }
}
