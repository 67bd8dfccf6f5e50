/**
  The cache side of `SensorManager`: one key-value store that holds a
  running-statistics record per sensor id and, under the fixed key
  `helsinki_temperature`, the latest reference temperature. Every write has
  no expiry, so the cache is a plain map that later writes overwrite.
 */
module SensorCache {
  import opened Wrappers
  import opened Exceptions

  /** The key under which the reference (Helsinki) temperature is stored. */
  const HelsinkiTemperatureKey: string := "helsinki_temperature"

  /** The record `{count, avg, temperature, total}` stored per sensor. */
  datatype SensorStats = SensorStats(count: int, avg: real, temperature: real, total: real)

  /** A cache value: a sensor's statistics record, or the bare reference float. */
  datatype CacheValue =
    | Stats(stats: SensorStats)
    | Reading(temperature: real)

  type Cache = map<string, CacheValue>

  /** One item of the statistics listing, `{id, count, avgTemp}`. */
  datatype StatItem = StatItem(id: string, count: int, avgTemp: real)

  function Abs(x: real): real
  {
    if x < 0.0 then -x else x
  }

  /** Every statistics record in the cache has a positive count and an
      average that is exactly its total divided by its count. */
  ghost predicate WellFormed(cache: Cache)
  {
    forall k :: k in cache && cache[k].Stats? ==>
      var s := cache[k].stats;
      s.count >= 1 && s.avg == s.total / (s.count as real)
  }

  /** `SensorManager.set`: overwrite the whole entry of `sensorId` with the
      four fields, leaving every other key as it was. */
  function Set(cache: Cache, sensorId: string, count: int, avg: real, temperature: real, total: real): (r: Cache)
    ensures r.Keys == cache.Keys + {sensorId}
    ensures r[sensorId].Stats?
    ensures r[sensorId].stats.count == count && r[sensorId].stats.avg == avg
    ensures r[sensorId].stats.temperature == temperature && r[sensorId].stats.total == total
    ensures forall k :: k in cache && k != sensorId ==> r[k] == cache[k]
  {
    cache[sensorId := Stats(SensorStats(count, avg, temperature, total))]
  }

  /** `SensorManager.update_helsinki_temperature`: store the bare reference
      temperature under its fixed key and touch nothing else. */
  function UpdateHelsinkiTemperature(cache: Cache, temperature: real): (r: Cache)
    ensures r.Keys == cache.Keys + {HelsinkiTemperatureKey}
    ensures r[HelsinkiTemperatureKey] == Reading(temperature)
    ensures forall k :: k in cache && k != HelsinkiTemperatureKey ==> r[k] == cache[k]
  {
    cache[HelsinkiTemperatureKey := Reading(temperature)]
  }

  /** `SensorManager.update_sensor_statistics`: a read-modify-write that
      defaults a missing entry to count 0 and total 0, adds one sample,
      recomputes the average and stores the sample as `temperature`.
      Reading the entry fails when the key holds the bare reference float
      (it has no `.get`), and the division fails when the new count is 0. */
  function UpdateSensorStatistics(cache: Cache, sensorId: string, value: real): (r: Result<Cache, Exception>)
    ensures r.Success? ==> r.value.Keys == cache.Keys + {sensorId}
    ensures sensorId in cache && cache[sensorId].Reading? ==> r == Failure(AttributeError)
    ensures sensorId !in cache ==>
      && r.Success?
      && r.value[sensorId] == Stats(SensorStats(1, value, value, value))
    ensures sensorId in cache && cache[sensorId].Stats? ==>
      var s := cache[sensorId].stats;
      (r.Failure? <==> s.count == -1)
      && (r.Failure? ==> r.error == ZeroDivisionError)
      && (r.Success? ==>
            && r.value[sensorId].Stats?
            && r.value[sensorId].stats.count == s.count + 1
            && r.value[sensorId].stats.total == s.total + value
            && r.value[sensorId].stats.temperature == value
            && r.value[sensorId].stats.avg
               == r.value[sensorId].stats.total / (r.value[sensorId].stats.count as real))
    ensures r.Success? ==> forall k :: k in cache && k != sensorId ==> r.value[k] == cache[k]
    ensures r.Success? && WellFormed(cache) ==> WellFormed(r.value)
  {
    if sensorId in cache && cache[sensorId].Reading? then
      Failure(AttributeError)
    else
      var oldCount := if sensorId in cache then cache[sensorId].stats.count else 0;
      var oldTotal := if sensorId in cache then cache[sensorId].stats.total else 0.0;
      var count := oldCount + 1;
      var total := oldTotal + value;
      if count == 0 then
        Failure(ZeroDivisionError)
      else
        Success(Set(cache, sensorId, count, total / (count as real), value, total))
  }

  /** `SensorManager.get_statistics`: one `{id, count, avgTemp}` item per
      supported sensor that has a cache entry, copying count and average.
      `cache.get_many` returns a dict, so a sensor listed twice yields one
      item; subscripting a bare float entry raises `TypeError`. */
  function GetStatistics(cache: Cache, supported: seq<string>): (r: Result<seq<StatItem>, Exception>)
    ensures r.Success? <==> forall k :: k in supported && k in cache ==> cache[k].Stats?
    ensures r.Failure? ==> r.error == TypeError
    ensures r.Success? ==> forall i :: 0 <= i < |r.value| ==>
      && r.value[i].id in supported
      && r.value[i].id in cache
      && cache[r.value[i].id].Stats?
      && r.value[i].count == cache[r.value[i].id].stats.count
      && r.value[i].avgTemp == cache[r.value[i].id].stats.avg
    ensures r.Success? ==> forall k :: k in supported && k in cache ==>
      exists i :: 0 <= i < |r.value| && r.value[i].id == k
    ensures r.Success? ==> forall i, j :: 0 <= i < j < |r.value| ==> r.value[i].id != r.value[j].id
  {
    if |supported| == 0 then
      Success([])
    else
      var earlier := supported[..|supported| - 1];
      var k := supported[|supported| - 1];
      assert forall x :: x in supported <==> x in earlier || x == k;
      match GetStatistics(cache, earlier)
      case Failure(e) => Failure(e)
      case Success(items) =>
        if k in earlier || k !in cache then
          Success(items)
        else
          match cache[k]
          case Reading(_) => Failure(TypeError)
          case Stats(s) =>
            var r := items + [StatItem(k, s.count, s.avg)];
            assert r[|items|].id == k;
            assert forall i :: 0 <= i < |items| ==> r[i] == items[i];
            Success(r)
  }

  /** `SensorManager.get_helsinki_temp_diff`: the absolute difference between
      the sensor's last temperature and the reference, or `None` when either
      is missing. A missing sensor yields `{}.get('temperature') == None`; a
      reference key holding a dict makes the subtraction raise `TypeError`,
      which is caught. Looking up a sensor id whose entry is the bare float
      raises `AttributeError`, which is not caught. */
  function GetHelsinkiTempDiff(cache: Cache, sensorId: string): (r: Result<Option<real>, Exception>)
    ensures r.Failure? <==> sensorId in cache && cache[sensorId].Reading?
    ensures r.Failure? ==> r.error == AttributeError
    ensures r.Success? ==>
      (r.value.Some? <==>
         && sensorId in cache
         && HelsinkiTemperatureKey in cache
         && cache[HelsinkiTemperatureKey].Reading?)
    ensures r.Success? && r.value.Some? ==>
      && r.value.value >= 0.0
      && r.value.value == Abs(cache[sensorId].stats.temperature - cache[HelsinkiTemperatureKey].temperature)
  {
    var sensorTemp: Result<Option<real>, Exception> :=
      if sensorId !in cache then Success(None)
      else match cache[sensorId]
        case Reading(_) => Failure(AttributeError)
        case Stats(s) => Success(Some(s.temperature));
    var helsinkiTemp: Option<real> :=
      if HelsinkiTemperatureKey in cache && cache[HelsinkiTemperatureKey].Reading?
      then Some(cache[HelsinkiTemperatureKey].temperature)
      else None;
    match sensorTemp
    case Failure(e) => Failure(e)
    case Success(st) =>
      if st.Some? && helsinkiTemp.Some? then Success(Some(Abs(st.value - helsinkiTemp.value)))
      else Success(None)
  }
}
