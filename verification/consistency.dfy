/**
  The property the two stores are meant to keep between them: when sensor
  events are delivered one at a time through the handlers `init_signals`
  connects, every sensor's cache entry is exactly what the log implies,
  and the reconcile command then finds nothing to change.
 */
module Consistency {
  import opened Wrappers
  import opened SensorCache
  import opened EventLog
  import opened HardReset
  import opened Tasks

  /** The log rows a sequence of events produces: one per sensor event. */
  function SensorRows(events: seq<Event>): Log
  {
    if |events| == 0 then []
    else
      var prev := SensorRows(events[..|events| - 1]);
      match events[|events| - 1]
      case SensorFetched(id, t, v) => prev + [Row(id, t, v)]
      case WeatherFetched(_) => prev
  }

  /** The temperature of the last weather event, if any. */
  function LastWeather(events: seq<Event>): Option<real>
  {
    if |events| == 0 then None
    else
      match events[|events| - 1]
      case WeatherFetched(t) => Some(t)
      case SensorFetched(_, _, _) => LastWeather(events[..|events| - 1])
  }

  /** The cache entry that `count` rows summing to `total` with last value
      `last` should leave for a sensor. */
  function ExpectedStats(count: nat, total: real, last: real): CacheValue
    requires count > 0
  {
    Stats(SensorStats(count, total / (count as real), last, total))
  }

  /** The cache entry of `id` is present exactly when the log has rows for
      it, and then holds their count, average, last value and total. */
  ghost predicate EntryAligned(log: Log, cache: Cache, id: string)
  {
    && (id in cache <==> CountOf(log, id) > 0)
    && (id in cache ==>
          CountOf(log, id) > 0 && cache[id] == ExpectedStats(CountOf(log, id), SumOf(log, id), LastValue(log, id)))
  }

  /** Every sensor's cache entry agrees with its log rows, no row uses the
      reference key, and the reference key holds `reference`. */
  ghost predicate Aligned(store: Store, reference: Option<real>)
  {
    && CountOf(store.log, HelsinkiTemperatureKey) == 0
    && (forall id :: id != HelsinkiTemperatureKey ==> EntryAligned(store.log, store.cache, id))
    && (match reference
        case None => HelsinkiTemperatureKey !in store.cache
        case Some(t) => HelsinkiTemperatureKey in store.cache && store.cache[HelsinkiTemperatureKey] == Reading(t))
  }

  /** Appending a sensor's row and folding its value into the cache keeps
      the two aligned; the fold cannot raise on an aligned cache. */
  lemma AppendAndUpdateKeepAlignment(log: Log, cache: Cache, reference: Option<real>, sensorId: string, timestamp: int, value: real)
    requires Aligned(Store(log, cache), reference)
    requires sensorId != HelsinkiTemperatureKey
    ensures UpdateSensorStatistics(cache, sensorId, value).Success?
    ensures Aligned(Store(log + [Row(sensorId, timestamp, value)], UpdateSensorStatistics(cache, sensorId, value).value), reference)
  {
    assert EntryAligned(log, cache, sensorId);
    var log' := log + [Row(sensorId, timestamp, value)];
    var cache' := UpdateSensorStatistics(cache, sensorId, value).value;
    assert log' == EventLog.WriteSensorEvent(log, sensorId, timestamp, value);
    WriteSensorEventExtends(log, sensorId, timestamp, value, HelsinkiTemperatureKey);
    WriteSensorEventExtends(log, sensorId, timestamp, value, sensorId);
    if sensorId !in cache {
      UnloggedSumIsZero(log, sensorId);
    }
    assert EntryAligned(log', cache', sensorId);
    forall id | id != HelsinkiTemperatureKey
      ensures EntryAligned(log', cache', id)
    {
      if id != sensorId {
        assert EntryAligned(log, cache, id);
        WriteSensorEventExtends(log, sensorId, timestamp, value, id);
      }
    }
  }

  /** Delivering one sensor event keeps the stores aligned. */
  lemma SensorStepKeepsAlignment(store: Store, reference: Option<real>, sensorId: string, timestamp: int, value: real)
    requires Aligned(store, reference)
    requires sensorId != HelsinkiTemperatureKey
    ensures Aligned(Dispatch(InitSignals(), store, SensorFetched(sensorId, timestamp, value)), reference)
  {
    SensorEventFanOut(store, sensorId, timestamp, value);
    AppendAndUpdateKeepAlignment(store.log, store.cache, reference, sensorId, timestamp, value);
    var next := Dispatch(InitSignals(), store, SensorFetched(sensorId, timestamp, value));
    var update := UpdateSensorStatistics(store.cache, sensorId, value);
    assert next.cache == update.value;
    assert next == Store(store.log + [Row(sensorId, timestamp, value)], update.value);
  }

  /** Delivering one weather event keeps the sensors aligned and makes its
      temperature the reference. */
  lemma WeatherStepKeepsAlignment(store: Store, reference: Option<real>, temperature: real)
    requires Aligned(store, reference)
    ensures Aligned(Dispatch(InitSignals(), store, WeatherFetched(temperature)), Some(temperature))
  {
    WeatherEventFanOut(store, temperature);
    var next := Dispatch(InitSignals(), store, WeatherFetched(temperature));
    forall id | id != HelsinkiTemperatureKey
      ensures EntryAligned(next.log, next.cache, id)
    {
      assert EntryAligned(store.log, store.cache, id);
    }
  }

  /** Sequential delivery from an empty log and cache keeps each sensor's
      cache count and total equal to the number and the sum of its log
      rows, its average equal to their quotient and its temperature equal
      to its last delivered value; the log holds one row per sensor event
      and the reference key holds the last weather temperature. Sensor ids
      must differ from the reference key, which shares the cache. */
  lemma {:induction false} DispatchKeepsCacheAlignedWithLog(events: seq<Event>)
    requires forall i :: 0 <= i < |events| && events[i].SensorFetched? ==>
      events[i].sensorId != HelsinkiTemperatureKey
    ensures Run(InitSignals(), EmptyStore, events).log == SensorRows(events)
    ensures Aligned(Run(InitSignals(), EmptyStore, events), LastWeather(events))
  {
    if |events| > 0 {
      var init := events[..|events| - 1];
      var e := events[|events| - 1];
      assert forall i :: 0 <= i < |init| ==> init[i] == events[i];
      DispatchKeepsCacheAlignedWithLog(init);
      var prev := Run(InitSignals(), EmptyStore, init);
      assert Run(InitSignals(), EmptyStore, events) == Dispatch(InitSignals(), prev, e);
      if e.SensorFetched? {
        SensorEventFanOut(prev, e.sensorId, e.timestamp, e.value);
        SensorStepKeepsAlignment(prev, LastWeather(init), e.sensorId, e.timestamp, e.value);
      } else {
        WeatherEventFanOut(prev, e.temperature);
        WeatherStepKeepsAlignment(prev, LastWeather(init), e.temperature);
      }
    }
  }

  /** With aligned stores, the health check over any result of the group-by
      query passes exactly when the query's bare `value` column reports each
      sensor's last inserted value: count, average and total always agree. */
  lemma HealthCheckOnAlignedStores(store: Store, reference: Option<real>, rows: seq<AggRow>)
    requires Aligned(store, reference)
    requires IsAggregation(store.log, rows)
    ensures UpdateCache(store.cache, rows, true).Completed? <==>
      forall i :: 0 <= i < |rows| ==> rows[i].value == LastValue(store.log, rows[i].id)
  {
    forall i | 0 <= i < |rows|
      ensures Matches(store.cache, rows[i]) <==> rows[i].value == LastValue(store.log, rows[i].id)
    {
      assert IsGroupRow(store.log, rows[i]);
      assert EntryAligned(store.log, store.cache, rows[i].id);
    }
  }

  /** After sequential delivery, the health check over the query result
      that reports last inserted values passes, and reset mode over it
      leaves the cache exactly as it was. */
  lemma ReconcileAfterDispatchFindsNothing(events: seq<Event>)
    requires forall i :: 0 <= i < |events| && events[i].SensorFetched? ==>
      events[i].sensorId != HelsinkiTemperatureKey
    ensures var s := Run(InitSignals(), EmptyStore, events);
      UpdateCache(s.cache, Aggregate(s.log), true) == Completed(s.cache)
    ensures var s := Run(InitSignals(), EmptyStore, events);
      UpdateCache(s.cache, Aggregate(s.log), false) == Completed(s.cache)
  {
    var s := Run(InitSignals(), EmptyStore, events);
    DispatchKeepsCacheAlignedWithLog(events);
    var rows := Aggregate(s.log);
    HealthCheckOnAlignedStores(s, LastWeather(events), rows);
    ResetOfMatchingRowsChangesNothing(s.cache, rows);
  }

  /** Why sensor ids must avoid the reference key: a sensor event for
      `helsinki_temperature` after a weather event is written to the log,
      but its statistics update raises, so the log holds a row the cache
      does not count. */
  lemma ReferenceKeyCollision()
    ensures var s := Run(InitSignals(), EmptyStore,
                         [WeatherFetched(19.08), SensorFetched(HelsinkiTemperatureKey, 1530127249766, 23.76)]);
      && CountOf(s.log, HelsinkiTemperatureKey) == 1
      && s.cache[HelsinkiTemperatureKey] == Reading(19.08)
  {
    var events := [WeatherFetched(19.08), SensorFetched(HelsinkiTemperatureKey, 1530127249766, 23.76)];
    var head := events[..1];
    assert head[..0] == [];
    assert head[0] == WeatherFetched(19.08);
    assert Run(InitSignals(), EmptyStore, head[..0]) == EmptyStore;
    WeatherEventFanOut(EmptyStore, 19.08);
    var first := Run(InitSignals(), EmptyStore, head);
    assert first == Dispatch(InitSignals(), EmptyStore, WeatherFetched(19.08));
    assert first == Store([], map[HelsinkiTemperatureKey := Reading(19.08)]);
    assert events[..|events| - 1] == head;
    SensorEventFanOut(first, HelsinkiTemperatureKey, 1530127249766, 23.76);
    var s := Run(InitSignals(), EmptyStore, events);
    assert s.log == [Row(HelsinkiTemperatureKey, 1530127249766, 23.76)];
    assert s.log[..0] == [];
  }
}
