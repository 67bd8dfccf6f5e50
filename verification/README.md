# sensor-app running statistics, modelled in Dafny

This project models the running-statistics pipeline of the sensor backend and proves properties of it.

- Each sensor reading is fetched from an external endpoint and turned into a `sensor_fetched` signal.
- The signal's receivers do two things, in order:
  - append the raw reading to the durable `datas` log;
  - fold it into a per-sensor record `{count, avg, temperature, total}` in a cache that never expires.
- A weather fetch stores one reference temperature in the same cache, under the key `helsinki_temperature`.
- The `hard_reset_statistics` command recomputes the per-sensor aggregates from the log. It then runs in one of two modes:
  - reset mode overwrites the cache entries;
  - health-check mode asserts that the cache already holds the same values.
- Two read endpoints list the statistics and report a sensor's difference from the reference temperature.

Modules, one per component:

- `Wrappers`, `Exceptions` (`wrappers.dfy`): `Option`, `Result`, and the Python exceptions the code can raise.
- `SensorCache` (`sensor_cache.dfy`): the cache half of `SensorManager`. The cache is a `map<string, CacheValue>`. A value is either a statistics record or the bare reference float.
- `EventLog` (`event_log.dfy`): the log as a `seq<Row>` of `(id, time, value)`, plus the group-by query. `IsAggregation` states what the query may return: one row per logged id, with that id's count, sum and average, and as its bare `value` column the value of *some* row of the group. `Aggregate` is one admissible result.
- `HardReset` (`hard_reset.dfy`): `Command.update_cache` in both modes, and `Command.handle`.
- `Tasks` (`tasks.dfy`): the fetch tasks as pure functions from an HTTP response to zero or one event, the three handlers, the `init_signals` wiring, and sequential delivery.
- `Consistency` (`consistency.dfy`): the invariant that links the log and the cache under sequential delivery.
- `Views` (`views.dfy`): the found / not-found decisions of the two endpoints.

Temperatures are `real`, so `avg == total / count` holds exactly. `SensorManager.get` is the plain cache lookup, so the model writes it inline as `k in cache` and `cache[k]`.

Where the Python code raises, the model returns a value that names the exception:

- A sensor entry that is the bare reference float gives `AttributeError` when it is read, as a `Failure`.
- Subscripting such an entry in the statistics listing gives `TypeError`, as a `Failure`.
- A zero count gives `ZeroDivisionError`, as a `Failure`.
- A missing JSON key in a fetched body ends the task as `Raised(KeyError(key))`.
- In the health check, subscripting a bare-float entry raises `TypeError`. Like a failed `assert`, this aborts the command, so both end as `Aborted` with the offending row.

## Model

| member | source | states |
|---|---|---|
| `SensorCache.Set` | backend/sensor/models.py:79-90 | The sensor's entry becomes exactly the four given fields. No other key changes, and the key set only gains `sensorId`. |
| `SensorCache.UpdateHelsinkiTemperature` | backend/sensor/models.py:49-55 | Only the `helsinki_temperature` key changes, and it holds the bare temperature. |
| `SensorCache.UpdateSensorStatistics` | backend/sensor/models.py:33-47 | With no entry: count 1, and avg, temperature and total all equal to the sample. With an entry: count rises by exactly 1, total gains the sample, avg is the new total over the new count, temperature is the sample. No other key changes. Well-formedness (count ≥ 1 and avg = total/count) is preserved. A bare-float entry fails with `AttributeError`. A count of −1 fails with `ZeroDivisionError`. |
| `SensorCache.GetStatistics` | backend/sensor/models.py:92-104 | Succeeds iff no supported key holds a bare float. Each item is a supported, present sensor with its count and avg copied unchanged. Every supported, present sensor appears exactly once, and absent sensors are omitted. |
| `SensorCache.GetHelsinkiTempDiff` | backend/sensor/models.py:106-113 | Returns a value iff the sensor is present and the reference is a bare float. The value is the absolute difference of the two temperatures, so it is ≥ 0. Otherwise returns `None`, except that a sensor key holding a bare float raises `AttributeError`. |
| `EventLog.WriteSensorEvent` | backend/sensor/models.py:18-31 | Appends exactly one `(id, time, value)` row and keeps every earlier row. |
| `EventLog.WriteSensorEventExtends` | backend/sensor/models.py:18-31 | After an append, that id's row count rises by 1, its sum rises by the value, and its last value is the value. Every other id's count, sum and last value stay the same. |
| `EventLog.CountPositiveIffLogged` | backend/sensor/models.py:63-69 | An id has a positive count iff some log row carries it. |
| `EventLog.Aggregate` | backend/sensor/models.py:57-73 | The result is a valid aggregation: one row per distinct logged id, with no duplicates. Each row has the group's count, sum and sum/count, and a value taken from one of the group's rows. |
| `EventLog.GroupRowsAreAggregation` | backend/sensor/models.py:57-73 | One group row for each of a list of distinct logged ids that covers the log is a valid query result, whose `value` column holds each id's last inserted value. |
| `HardReset.CheckRow` | backend/sensor/management/commands/hard_reset_statistics.py:29-34 | A row passes iff the cache holds exactly its four fields. A missing entry fails as `Missing`, and a bare-float entry as `NotARecord`. Otherwise the first differing field is reported, checked in the order avg, count, temperature, total. A failure names the row's sensor. |
| `HardReset.FirstViolation` | backend/sensor/management/commands/hard_reset_statistics.py:27-35 | The health check passes iff every row matches the cache in all four fields. |
| `HardReset.Reset` | backend/sensor/management/commands/hard_reset_statistics.py:36-43 | Every row id ends up in the cache with the fields of its last row, unpacked as `id, temp, count, avg, total`. Keys absent from the rows, including the reference key, are unchanged. |
| `HardReset.UpdateCache` | backend/sensor/management/commands/hard_reset_statistics.py:20-43 | Reset mode always completes, and every row with a distinct id then matches. Health-check mode never writes, and it completes iff all rows match. Both modes leave keys that are not in the rows unchanged, and a completed run adds no key outside the cache and the row ids. |
| `HardReset.Handle` | backend/sensor/management/commands/hard_reset_statistics.py:45-48 | Holds for any valid result of the log query. Without a true `health_check` option it resets. Every logged sensor then gets its log count, sum and average and one of its logged values, and other entries stay. With the option it only checks: it completes iff every query row matches the cache, and then the cache is unchanged. A completed run adds no key that was neither in the cache nor logged. |
| `HardReset.RowIdsAreLogged` | backend/sensor/models.py:57-73 | Every id of a valid query result has at least one log row. |
| `HardReset.LoggedIdHasGroupRow` | backend/sensor/models.py:57-73 | Every sensor with log rows has a row in any valid query result, and its last such row carries that sensor's group count, sum, average and a logged value. |
| `HardReset.ResetAlignsWithLog` | backend/sensor/management/commands/hard_reset_statistics.py:36-43 | For any valid result of the log query, reset leaves each logged sensor with its log-derived count, total and average and one of its logged values. It leaves unlogged keys alone. |
| `HardReset.HealthCheckStopsAtFirstMismatch` | backend/sensor/management/commands/hard_reset_statistics.py:27-34 | If all rows before row i match and row i does not, the check fails with row i's assertion, whatever the later rows hold. A missing cache entry fails as `Missing`. |
| `HardReset.ResetIsIdempotent` | backend/sensor/management/commands/hard_reset_statistics.py:36-43 | Resetting twice with the same rows gives the same cache as resetting once. |
| `HardReset.ResetThenHealthCheckSucceeds` | backend/sensor/management/commands/hard_reset_statistics.py:27-43 | With distinct row ids, a health check right after a reset over the same rows completes. |
| `HardReset.ResetOfMatchingRowsChangesNothing` | backend/sensor/management/commands/hard_reset_statistics.py:36-43 | Resetting with rows the cache already matches leaves the cache identical. |
| `Tasks.FetchSensorData` | backend/sensor/tasks.py:47-66 | A non-ok response sends nothing and logs its status. An ok body with `id`, `timestamp` and `data` sends exactly one `sensor_fetched`, built from those body fields and not from the requested id. A missing key raises `KeyError` for the first missing key, checked in the order `id`, `timestamp`, `data`, before anything is sent. |
| `Tasks.FetchWeather` | backend/sensor/tasks.py:69-85 | A non-ok response sends nothing. An ok body sends exactly one `weather_fetched` carrying its `temperature`. A missing key raises `KeyError`. |
| `Tasks.Emitted` | backend/sensor/tasks.py:53-66 | A fetch sends at most one event, and sends exactly one iff it ended by sending. |
| `Tasks.Connect` | backend/sensor/tasks.py:31-44 | Connecting a handler appends it to the end of its own signal's receiver list. The other signal's receivers are unchanged. |
| `Tasks.InitSignals` | backend/sensor/tasks.py:31-44 | `sensor_fetched` has the receivers write-to-log and then update-statistics, in that order. `weather_fetched` has only update-reference. |
| `Tasks.Apply` | backend/sensor/tasks.py:15-28 | `write_sensor_event` appends all three fields to the log. `update_statistics` drops the timestamp and updates the cache with `(sensor_id, value)`. `update_helsinki_temperature` sets the reference. A handler given the other signal's arguments raises `TypeError`. |
| `Tasks.Process` | backend/sensor/tasks.py:53-85 | A fetch that sends nothing leaves both the log and the cache unchanged. |
| `Tasks.ProcessDeliversEmitted` | backend/sensor/tasks.py:53-85 | A fetch followed by delivery is the sequential delivery of exactly the events the fetch emitted: one when it sent, none otherwise. |
| `Tasks.SensorEventFanOut` | backend/sensor/tasks.py:33-40 | Delivering a sensor event adds exactly its row to the log. The cache becomes the statistics update's result, or stays unchanged if that update raised. |
| `Tasks.WeatherEventFanOut` | backend/sensor/tasks.py:41-44 | Delivering a weather event leaves the log alone and only sets the reference temperature. |
| `Tasks.FailedFetchChangesNothing` | backend/sensor/tasks.py:62-85 | A non-ok sensor or weather response changes neither store. |
| `Consistency.AppendAndUpdateKeepAlignment` | backend/sensor/models.py:33-47 | On an aligned log and cache, the statistics update for a sensor other than the reference key cannot raise. Appending that sensor's row and folding in its value keeps every sensor's entry equal to its log-derived count, average, last value and total. |
| `Consistency.SensorStepKeepsAlignment` | backend/sensor/models.py:33-47 | If the log and cache agree before a sensor event, they agree after it. |
| `Consistency.WeatherStepKeepsAlignment` | backend/sensor/models.py:49-55 | A weather event keeps the sensors aligned and makes its temperature the reference. |
| `Consistency.DispatchKeepsCacheAlignedWithLog` | backend/sensor/tasks.py:15-44 | Deliver events one at a time from an empty log and cache, with no sensor named `helsinki_temperature`. Afterwards, each sensor's cache count is the number of its log rows and its total is their sum. Its avg is total/count and its temperature is its last value. The log holds one row per sensor event, and the reference is the last weather temperature. |
| `Consistency.HealthCheckOnAlignedStores` | backend/sensor/management/commands/hard_reset_statistics.py:27-35 | When the stores are aligned, count, avg and total always agree. The health check over any valid query result then passes iff the query's bare `value` column reports each sensor's last inserted value. |
| `Consistency.ReconcileAfterDispatchFindsNothing` | backend/sensor/management/commands/hard_reset_statistics.py:20-48 | Take the stores after sequential delivery and the query result that reports last inserted values. The health check over that result passes, and reset leaves the cache exactly as it was. |
| `Consistency.ReferenceKeyCollision` | backend/sensor/models.py:33-55 | A sensor named `helsinki_temperature` that reports after a weather reading gets its row logged. Its statistics update then fails, so the cache keeps the reference float and the log and cache disagree. |
| `Views.SensorStatistics` | backend/sensor/views.py:7-10 | The response carries the statistics listing unchanged under `sensors`, and fails exactly when the listing fails. |
| `Views.DecideDifference` | backend/sensor/views.py:15-22 | As written (`if temp:`), a payload is returned iff the difference is present and non-zero, and the payload is the difference unchanged. `None` and `0.0` both give a 404. |
| `Views.TemperatureDifference` | backend/sensor/views.py:13-22 | As written, the endpoint answers iff the sensor and reference exist and their temperatures differ. The answer is the absolute difference of the two temperatures, which is then positive. Otherwise it answers 404, or fails when the sensor key holds the bare float. |
| `Views.DecideDifferenceCorrected` | backend/sensor/views.py:15-22 | Corrected test: a 404 iff the difference is `None`. A present difference, zero included, is returned unchanged. |
| `Views.TemperatureDifferenceCorrected` | backend/sensor/views.py:13-22 | With the corrected test, a sensor with a temperature and a reference always gets the absolute difference. |
| `Views.ZeroDifferenceIsNotFound` | backend/sensor/views.py:16-22 | A sensor whose temperature equals the reference has difference 0. The endpoint as written answers 404, and the corrected one answers 0. |
| `Views.DecisionsDifferOnlyOnZero` | backend/sensor/views.py:16-22 | The as-written and corrected tests disagree exactly when the difference is `Some(0.0)`. |

## Left out

- HTTP fetching: `requests.get`, the endpoint URLs and `EXTERNAL_API_TIMEOUT` are replaced by a `Response` value that is either ok with a parsed body or not ok. Timeouts and connection errors are outside the model.
- JSON value types: body fields are modelled as present or absent with the right type. A field of the wrong type is not modelled.
- Logging and printing: `logging.error`, the command's `print` calls and the `sender` argument of the signals carry no state.
- SQLite handling: connection and cursor code, commits, and the `ORDER BY time DESC` output ordering are left out. `IsAggregation` allows any row order.
- The bare `value` column of the group-by query: it is any member of the group's values, not the latest by time. `Aggregate` picks the last inserted value as one admissible result. `Consistency.ReconcileAfterDispatchFindsNothing` relies on that choice, and `Consistency.HealthCheckOnAlignedStores` states the general case.
- Celery signal internals are not part of this model. `Tasks.Send` assumes a receiver that raises leaves the stores as it found them, has its exception appended to the delivery's `errors`, and does not stop later receivers. `dispatch_uid` de-duplication is not modelled: `init_signals` runs once, on an empty registry.
- Scheduling and concurrency: the beat schedule in `backend/backend/celery.py` and overlapping fetches are left out. In particular, the lost-update race in the read-modify-write of `update_sensor_statistics` is not modelled; only sequential delivery is.
- Cache and database failures: storage errors are not modelled.
- Floating point: IEEE rounding is not modelled, because temperatures are `real`. The exact `==` comparisons of the health check therefore compare exact values.
- `SUPPORTED_SENSORS`: `sensor/constants.py` is not part of this model. The list is a parameter of `SensorCache.GetStatistics`.
- Out of scope: URL routing (`urls.py`), authentication and token endpoints, and the demo database seeder (`create_iot_db.py`).
- The most recent reading by time as the reset value: the query's bare `value` column does not select it, and the model follows the query. A sensor's reset temperature is therefore only known to be one of its logged values.

## Findings

| source | as written | input that shows it | evidently intended | confidence | as-written member | corrected member |
|---|---|---|---|---|---|---|
| backend/sensor/views.py:16 | `if temp:` is false for a difference of `0.0`, so an existing sensor answers 404 | sensor `iddqd` with temperature 19.08, reference 19.08 | `if temp is not None:`, answering `{"differenceInCelsius": 0.0}` | medium, not executed | `Views.TemperatureDifference` (shown by `Views.ZeroDifferenceIsNotFound`) | `Views.TemperatureDifferenceCorrected` |
