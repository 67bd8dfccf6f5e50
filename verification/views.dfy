/**
  The decision logic of the two read endpoints: the statistics listing and
  the difference from the reference temperature. Request parsing,
  authentication and JSON encoding are the web framework's and are not
  part of this model.
 */
module Views {
  import opened Wrappers
  import opened Exceptions
  import opened SensorCache

  /** The body `{'sensors': [...]}` of the statistics endpoint. */
  datatype StatisticsResponse = SensorsJson(sensors: seq<StatItem>)

  /** The difference endpoint's answer: `{'differenceInCelsius': d}` or a 404. */
  datatype DifferenceResponse = DifferenceJson(differenceInCelsius: real) | NotFound

  /** `sensor_statistics`: the listing, unchanged, under `sensors`. */
  function SensorStatistics(cache: Cache, supported: seq<string>): (r: Result<StatisticsResponse, Exception>)
    ensures r.Success? <==> GetStatistics(cache, supported).Success?
    ensures r.Success? ==> r.value.sensors == GetStatistics(cache, supported).value
    ensures r.Failure? ==> r.error == GetStatistics(cache, supported).error
  {
    match GetStatistics(cache, supported)
    case Success(items) => Success(SensorsJson(items))
    case Failure(e) => Failure(e)
  }

  /** The `if temp:` test as written: Python treats both `None` and a float
      equal to zero as false, so a zero difference is a 404 too. */
  function DecideDifference(temp: Option<real>): (r: DifferenceResponse)
    ensures r.DifferenceJson? <==> temp.Some? && temp.value != 0.0
    ensures r.DifferenceJson? ==> r.differenceInCelsius == temp.value
  {
    if temp.Some? && temp.value != 0.0 then DifferenceJson(temp.value) else NotFound
  }

  /** The evidently intended test, `if temp is not None:`: a 404 exactly
      when the difference is missing. */
  function DecideDifferenceCorrected(temp: Option<real>): (r: DifferenceResponse)
    ensures r.NotFound? <==> temp.None?
    ensures temp.Some? ==> r == DifferenceJson(temp.value)
  {
    match temp
    case None => NotFound
    case Some(d) => DifferenceJson(d)
  }

  /** `temperature_difference` as written. */
  function TemperatureDifference(cache: Cache, sensorId: string): (r: Result<DifferenceResponse, Exception>)
    ensures r.Failure? <==> sensorId in cache && cache[sensorId].Reading?
    ensures r.Success? ==>
      (r.value.DifferenceJson? <==>
         && sensorId in cache
         && HelsinkiTemperatureKey in cache
         && cache[HelsinkiTemperatureKey].Reading?
         && cache[sensorId].stats.temperature != cache[HelsinkiTemperatureKey].temperature)
    ensures r.Success? && r.value.DifferenceJson? ==>
      && r.value.differenceInCelsius > 0.0
      && r.value.differenceInCelsius == Abs(cache[sensorId].stats.temperature - cache[HelsinkiTemperatureKey].temperature)
  {
    match GetHelsinkiTempDiff(cache, sensorId)
    case Failure(e) => Failure(e)
    case Success(diff) => Success(DecideDifference(diff))
  }

  /** `temperature_difference` with the corrected test: a sensor with a
      temperature and a reference always gets an answer, zero included. */
  function TemperatureDifferenceCorrected(cache: Cache, sensorId: string): (r: Result<DifferenceResponse, Exception>)
    ensures r.Failure? <==> sensorId in cache && cache[sensorId].Reading?
    ensures r.Success? ==>
      (r.value.DifferenceJson? <==>
         && sensorId in cache
         && HelsinkiTemperatureKey in cache
         && cache[HelsinkiTemperatureKey].Reading?)
    ensures r.Success? && r.value.DifferenceJson? ==>
      r.value.differenceInCelsius == Abs(cache[sensorId].stats.temperature - cache[HelsinkiTemperatureKey].temperature)
  {
    match GetHelsinkiTempDiff(cache, sensorId)
    case Failure(e) => Failure(e)
    case Success(diff) => Success(DecideDifferenceCorrected(diff))
  }

  /** A sensor whose last temperature equals the reference exists and has a
      difference of 0, yet the endpoint as written answers 404; the
      corrected one answers 0. */
  lemma ZeroDifferenceIsNotFound()
    ensures var cache := map["iddqd" := Stats(SensorStats(1, 19.08, 19.08, 19.08)),
                             HelsinkiTemperatureKey := Reading(19.08)];
      && GetHelsinkiTempDiff(cache, "iddqd") == Success(Some(0.0))
      && TemperatureDifference(cache, "iddqd") == Success(NotFound)
      && TemperatureDifferenceCorrected(cache, "iddqd") == Success(DifferenceJson(0.0))
  {
    var cache := map["iddqd" := Stats(SensorStats(1, 19.08, 19.08, 19.08)),
                     HelsinkiTemperatureKey := Reading(19.08)];
    assert "iddqd" != HelsinkiTemperatureKey;
    assert cache["iddqd"].Stats?;
  }

  /** The two tests disagree exactly on a zero difference. */
  lemma DecisionsDifferOnlyOnZero(temp: Option<real>)
    ensures DecideDifference(temp) != DecideDifferenceCorrected(temp) <==> temp == Some(0.0)
  {
  }
}
