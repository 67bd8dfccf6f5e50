/**
  The `hard_reset_statistics` management command: it takes the rows of the
  log's group-by query and either overwrites the cache entry of every
  logged sensor (reset mode) or asserts, row by row and field by field,
  that the cache already holds those values (health-check mode), stopping
  at the first assertion that fails.
 */
module HardReset {
  import opened Wrappers
  import opened SensorCache
  import opened EventLog

  /** The four fields the health check compares, in the order it does. */
  datatype Field = Avg | Count | Temperature | Total

  /** What stopped a health check. */
  datatype Violation =
    /** `assert current_sensor is not None` failed. */
    | Missing(id: string)
    /** The entry is the bare reference float: `current_sensor['avg']`
        raises `TypeError`, which aborts the command like a failed assertion. */
    | NotARecord(id: string)
    /** `assert current_sensor[field] == ...` failed. */
    | Differs(id: string, field: Field)

  /** How a run of the command ends: with the resulting cache, or aborted
      by the health check's first failing assertion or `TypeError`. */
  datatype Outcome = Completed(cache: Cache) | Aborted(violation: Violation)

  /** The cache entry that `set(sensor_id, count, avg, temp, total)` writes for
      the unpacked row `sensor_id, temp, count, avg, total`. */
  function RowStats(row: AggRow): CacheValue
  {
    Stats(SensorStats(row.count, row.avg, row.value, row.total))
  }

  /** The cache already holds exactly what reset mode would write for `row`. */
  ghost predicate Matches(cache: Cache, row: AggRow)
  {
    row.id in cache && cache[row.id] == RowStats(row)
  }

  /** The ids of the query rows. */
  function RowIds(rows: seq<AggRow>): set<string>
  {
    set i | 0 <= i < |rows| :: rows[i].id
  }

  /** The last row for `id`; its values are the ones reset mode leaves behind. */
  function LastRowFor(rows: seq<AggRow>, id: string): (row: AggRow)
    requires id in RowIds(rows)
    ensures row.id == id
    ensures row in rows
  {
    var last := rows[|rows| - 1];
    if last.id == id then last
    else
      assert RowIds(rows) == RowIds(rows[..|rows| - 1]) + {last.id};
      LastRowFor(rows[..|rows| - 1], id)
  }

  /** The health check of one row: `None` when all assertions pass, otherwise
      the first one that fails, in the order avg, count, temperature, total. */
  function CheckRow(cache: Cache, row: AggRow): (r: Option<Violation>)
    ensures r.None? <==> Matches(cache, row)
    ensures r.Some? ==> r.value.id == row.id
    ensures row.id !in cache ==> r == Some(Missing(row.id))
    ensures row.id in cache && cache[row.id].Reading? ==> r == Some(NotARecord(row.id))
    ensures row.id in cache && cache[row.id].Stats? ==>
      var s := cache[row.id].stats;
      && (s.avg != row.avg ==> r == Some(Differs(row.id, Avg)))
      && (s.avg == row.avg && s.count != row.count ==> r == Some(Differs(row.id, Count)))
      && (s.avg == row.avg && s.count == row.count && s.temperature != row.value ==>
            r == Some(Differs(row.id, Temperature)))
      && (s.avg == row.avg && s.count == row.count && s.temperature == row.value && s.total != row.total ==>
            r == Some(Differs(row.id, Total)))
  {
    if row.id !in cache then Some(Missing(row.id))
    else
      match cache[row.id]
      case Reading(_) => Some(NotARecord(row.id))
      case Stats(s) =>
        if s.avg != row.avg then Some(Differs(row.id, Avg))
        else if s.count != row.count then Some(Differs(row.id, Count))
        else if s.temperature != row.value then Some(Differs(row.id, Temperature))
        else if s.total != row.total then Some(Differs(row.id, Total))
        else None
  }

  /** Health-check mode over all rows, in order: the first failing assertion,
      or `None` when every row matches. */
  function FirstViolation(cache: Cache, rows: seq<AggRow>): (r: Option<Violation>)
    ensures r.None? <==> forall i :: 0 <= i < |rows| ==> Matches(cache, rows[i])
  {
    if |rows| == 0 then None
    else
      var init := rows[..|rows| - 1];
      assert forall i :: 0 <= i < |init| ==> init[i] == rows[i];
      match FirstViolation(cache, init)
      case Some(v) => Some(v)
      case None => CheckRow(cache, rows[|rows| - 1])
  }

  /** Reset mode over all rows, in order: `SensorManager.set` per row. */
  function Reset(cache: Cache, rows: seq<AggRow>): (r: Cache)
    ensures r.Keys == cache.Keys + RowIds(rows)
    ensures forall k :: k in cache && k !in RowIds(rows) ==> r[k] == cache[k]
    ensures forall k :: k in RowIds(rows) ==> r[k] == RowStats(LastRowFor(rows, k))
  {
    if |rows| == 0 then cache
    else
      var init := rows[..|rows| - 1];
      var row := rows[|rows| - 1];
      assert RowIds(rows) == RowIds(init) + {row.id};
      Set(Reset(cache, init), row.id, row.count, row.avg, row.value, row.total)
  }

  /** `Command.update_cache`: reset mode returns the overwritten cache;
      health-check mode never writes, and completes exactly when every row
      matches the cache. */
  function UpdateCache(cache: Cache, rows: seq<AggRow>, healthCheck: bool): (r: Outcome)
    ensures !healthCheck ==> r.Completed?
    ensures !healthCheck && UniqueRowIds(rows) ==> forall i :: 0 <= i < |rows| ==> Matches(r.cache, rows[i])
    ensures healthCheck && r.Completed? ==> r.cache == cache
    ensures healthCheck ==> (r.Completed? <==> forall i :: 0 <= i < |rows| ==> Matches(cache, rows[i]))
    ensures r.Completed? ==> forall k :: k in cache && k !in RowIds(rows) ==> k in r.cache && r.cache[k] == cache[k]
    ensures r.Completed? ==> forall k :: k in r.cache ==> k in cache || k in RowIds(rows)
  {
    if healthCheck then
      match FirstViolation(cache, rows)
      case Some(v) => Aborted(v)
      case None => Completed(cache)
    else
      var r := Reset(cache, rows);
      assert UniqueRowIds(rows) ==> forall i :: 0 <= i < |rows| ==> Matches(r, rows[i]) by {
        if UniqueRowIds(rows) {
          forall i | 0 <= i < |rows| {
            LastRowForDistinct(rows, i);
          }
        }
      }
      Completed(r)
  }

  /** `Command.handle`: the `--health_check` option selects the mode, and an
      absent option (`options.get` gives `None`) means reset mode. `rows` is
      the group-by query's result over `log`, whichever admissible one the
      database returns. */
  function Handle(cache: Cache, log: Log, rows: seq<AggRow>, healthCheck: Option<bool>): (r: Outcome)
    requires IsAggregation(log, rows)
    ensures healthCheck != Some(true) ==>
      && r.Completed?
      && (forall k :: k in cache && CountOf(log, k) == 0 ==> k in r.cache && r.cache[k] == cache[k])
      && (forall k :: CountOf(log, k) > 0 ==>
            && k in r.cache
            && r.cache[k].Stats?
            && r.cache[k].stats.count == CountOf(log, k)
            && r.cache[k].stats.total == SumOf(log, k)
            && r.cache[k].stats.avg == SumOf(log, k) / (CountOf(log, k) as real)
            && HasValue(log, k, r.cache[k].stats.temperature))
    ensures healthCheck == Some(true) ==>
      && (r.Completed? <==> forall i :: 0 <= i < |rows| ==> Matches(cache, rows[i]))
      && (r.Completed? ==> r.cache == cache)
    ensures r.Completed? ==> forall k :: k in r.cache ==> k in cache || CountOf(log, k) > 0
  {
    ResetAlignsWithLog(cache, log, rows);
    RowIdsAreLogged(log, rows);
    UpdateCache(cache, rows, healthCheck == Some(true))
  }

  /** Every id of a valid query result has rows in the log. */
  lemma RowIdsAreLogged(log: Log, rows: seq<AggRow>)
    requires IsAggregation(log, rows)
    ensures forall k :: k in RowIds(rows) ==> CountOf(log, k) > 0
  {
    forall k | k in RowIds(rows)
      ensures CountOf(log, k) > 0
    {
      var i :| 0 <= i < |rows| && rows[i].id == k;
      assert IsGroupRow(log, rows[i]);
    }
  }

  /** A logged id has a query row, and its last query row is its group. */
  lemma LoggedIdHasGroupRow(log: Log, rows: seq<AggRow>, k: string)
    requires IsAggregation(log, rows)
    requires CountOf(log, k) > 0
    ensures k in RowIds(rows)
    ensures IsGroupRow(log, LastRowFor(rows, k))
  {
    CountPositiveIffLogged(log, k);
    var j :| 0 <= j < |log| && log[j].id == k;
    var i :| 0 <= i < |rows| && rows[i].id == k;
    assert k in RowIds(rows);
  }

  /** Reset mode over any result of the group-by query leaves every logged
      sensor with its log-derived count, total and average and one of its
      logged values, and leaves every other entry alone. */
  lemma ResetAlignsWithLog(cache: Cache, log: Log, rows: seq<AggRow>)
    requires IsAggregation(log, rows)
    ensures forall k :: k in cache && CountOf(log, k) == 0 ==>
      k in Reset(cache, rows) && Reset(cache, rows)[k] == cache[k]
    ensures forall k :: CountOf(log, k) > 0 ==>
      var r := Reset(cache, rows);
      && k in r
      && r[k].Stats?
      && r[k].stats.count == CountOf(log, k)
      && r[k].stats.total == SumOf(log, k)
      && r[k].stats.avg == SumOf(log, k) / (CountOf(log, k) as real)
      && HasValue(log, k, r[k].stats.temperature)
  {
    forall k | CountOf(log, k) > 0
      ensures k in RowIds(rows) && IsGroupRow(log, LastRowFor(rows, k))
    {
      LoggedIdHasGroupRow(log, rows, k);
    }
  }

  /** In a list of rows with distinct ids, every row is the last row for its id. */
  lemma {:induction false} LastRowForDistinct(rows: seq<AggRow>, i: int)
    requires UniqueRowIds(rows)
    requires 0 <= i < |rows|
    ensures rows[i].id in RowIds(rows)
    ensures LastRowFor(rows, rows[i].id) == rows[i]
  {
    assert rows[i].id in RowIds(rows);
    if i < |rows| - 1 {
      var init := rows[..|rows| - 1];
      assert init[i] == rows[i];
      LastRowForDistinct(init, i);
    }
  }

  /** Health-check mode stops at the first row that does not match: its
      result is that row's failing assertion, whatever the later rows hold,
      and a logged sensor missing from the cache fails as missing. */
  lemma {:induction false} HealthCheckStopsAtFirstMismatch(cache: Cache, rows: seq<AggRow>, i: int)
    requires 0 <= i < |rows|
    requires forall j :: 0 <= j < i ==> Matches(cache, rows[j])
    requires !Matches(cache, rows[i])
    ensures UpdateCache(cache, rows, true) == Aborted(CheckRow(cache, rows[i]).value)
    ensures rows[i].id !in cache ==> UpdateCache(cache, rows, true) == Aborted(Missing(rows[i].id))
  {
    FirstViolationAt(cache, rows, i);
  }

  lemma {:induction false} FirstViolationAt(cache: Cache, rows: seq<AggRow>, i: int)
    requires 0 <= i < |rows|
    requires forall j :: 0 <= j < i ==> Matches(cache, rows[j])
    requires !Matches(cache, rows[i])
    ensures FirstViolation(cache, rows) == CheckRow(cache, rows[i])
  {
    var init := rows[..|rows| - 1];
    if i < |rows| - 1 {
      assert init[i] == rows[i];
      FirstViolationAt(cache, init, i);
    } else {
      assert forall j :: 0 <= j < |init| ==> Matches(cache, init[j]);
    }
  }

  /** Reset mode over rows the cache already matches changes nothing. */
  lemma ResetOfMatchingRowsChangesNothing(cache: Cache, rows: seq<AggRow>)
    requires forall i :: 0 <= i < |rows| ==> Matches(cache, rows[i])
    ensures Reset(cache, rows) == cache
  {
    var r := Reset(cache, rows);
    assert r.Keys == cache.Keys;
    forall k | k in RowIds(rows)
      ensures r[k] == cache[k]
    {
      var row := LastRowFor(rows, k);
      var i :| 0 <= i < |rows| && rows[i] == row;
      assert Matches(cache, rows[i]);
    }
  }

  /** Running reset mode twice leaves the same cache as running it once. */
  lemma ResetIsIdempotent(cache: Cache, rows: seq<AggRow>)
    ensures Reset(Reset(cache, rows), rows) == Reset(cache, rows)
  {
    var once := Reset(cache, rows);
    var twice := Reset(once, rows);
    assert twice.Keys == once.Keys;
    forall k | k in twice
      ensures twice[k] == once[k]
    {
      if k in RowIds(rows) {
        assert twice[k] == RowStats(LastRowFor(rows, k)) == once[k];
      }
    }
  }

  /** After reset mode, health-check mode on the same rows succeeds. */
  lemma ResetThenHealthCheckSucceeds(cache: Cache, rows: seq<AggRow>)
    requires UniqueRowIds(rows)
    ensures UpdateCache(cache, rows, false).Completed?
    ensures UpdateCache(UpdateCache(cache, rows, false).cache, rows, true)
         == Completed(UpdateCache(cache, rows, false).cache)
  {
  }
}
