/**
  The Celery tasks and signal handlers: a fetch turns an HTTP response into
  zero or one event, and the event is delivered, in connection order, to
  the handlers `init_signals` connected to its signal. The state the
  handlers act on is the pair of the durable log and the cache.
 */
module Tasks {
  import opened Wrappers
  import opened Exceptions
  import opened SensorCache
  import opened EventLog

  /** The sensor endpoint's JSON body; a field is `None` when the key is absent. */
  datatype SensorBody = SensorBody(id: Option<string>, timestamp: Option<int>, data: Option<real>)

  /** The weather endpoint's JSON body. */
  datatype WeatherBody = WeatherBody(temperature: Option<real>)

  /** An HTTP response: `response.ok` with its parsed body, or not ok. */
  datatype Response<B> = Ok(body: B) | NotOk(statusCode: int)

  /** The two signals, with the keyword arguments they are sent with. */
  datatype Event =
    | SensorFetched(sensorId: string, timestamp: int, value: real)
    | WeatherFetched(temperature: real)

  /** How a fetch task ends: it sent one event, logged a non-ok status,
      or raised while reading the body. */
  datatype FetchOutcome =
    | Sent(event: Event)
    | LoggedError(statusCode: int)
    | Raised(error: Exception)

  /** The signal handlers of `tasks.py`. */
  datatype Handler = WriteSensorEventHandler | UpdateStatisticsHandler | UpdateHelsinkiTemperatureHandler

  /** The receivers connected to each signal, in connection order. */
  datatype Registry = Registry(sensorFetched: seq<Handler>, weatherFetched: seq<Handler>)

  /** The two stores the handlers write: the durable log and the cache. */
  datatype Store = Store(log: Log, cache: Cache)

  /** The result of sending one event: the store after every receiver ran,
      and the exceptions receivers raised, in order. */
  datatype Delivery = Delivery(store: Store, errors: seq<Exception>)

  const EmptyRegistry := Registry([], [])

  const EmptyStore := Store([], map[])

  /** The events a fetch sent: one on `Sent`, none otherwise. */
  function Emitted(outcome: FetchOutcome): (events: seq<Event>)
    ensures |events| <= 1
    ensures |events| == 1 <==> outcome.Sent?
    ensures outcome.Sent? ==> events[0] == outcome.event
  {
    match outcome
    case Sent(e) => [e]
    case _ => []
  }

  /** `fetch_sensor_data`: a non-ok response is logged and sends nothing; an
      ok body sends one `sensor_fetched` whose fields are read from the body's
      `id`, `timestamp` and `data` in that order, so a missing key raises
      `KeyError` for the first one missing before anything is sent. The
      requested `sensorId` only selects the URL. */
  function FetchSensorData(sensorId: string, response: Response<SensorBody>): (r: FetchOutcome)
    ensures response.NotOk? ==> r == LoggedError(response.statusCode)
    ensures r.Sent? <==>
      response.Ok? && response.body.id.Some? && response.body.timestamp.Some? && response.body.data.Some?
    ensures r.Sent? ==>
      r.event == SensorFetched(response.body.id.value, response.body.timestamp.value, response.body.data.value)
    ensures response.Ok? && response.body.id.None? ==> r == Raised(KeyError("id"))
    ensures response.Ok? && response.body.id.Some? && response.body.timestamp.None? ==>
      r == Raised(KeyError("timestamp"))
    ensures response.Ok? && response.body.id.Some? && response.body.timestamp.Some? && response.body.data.None? ==>
      r == Raised(KeyError("data"))
  {
    match response
    case NotOk(status) => LoggedError(status)
    case Ok(body) =>
      if body.id.None? then Raised(KeyError("id"))
      else if body.timestamp.None? then Raised(KeyError("timestamp"))
      else if body.data.None? then Raised(KeyError("data"))
      else Sent(SensorFetched(body.id.value, body.timestamp.value, body.data.value))
  }

  /** `fetch_weather`: an ok body sends one `weather_fetched` carrying its
      `temperature`; a non-ok response is logged and sends nothing. */
  function FetchWeather(response: Response<WeatherBody>): (r: FetchOutcome)
    ensures response.NotOk? ==> r == LoggedError(response.statusCode)
    ensures r.Sent? <==> response.Ok? && response.body.temperature.Some?
    ensures r.Sent? ==> r.event == WeatherFetched(response.body.temperature.value)
    ensures response.Ok? && response.body.temperature.None? ==> r == Raised(KeyError("temperature"))
  {
    match response
    case NotOk(status) => LoggedError(status)
    case Ok(body) =>
      if body.temperature.None? then Raised(KeyError("temperature"))
      else Sent(WeatherFetched(body.temperature.value))
  }

  /** `Signal.connect`: append a receiver to a signal's receiver list. */
  function Connect(registry: Registry, sensorSignal: bool, handler: Handler): (r: Registry)
    ensures sensorSignal ==> r.weatherFetched == registry.weatherFetched
    ensures !sensorSignal ==> r.sensorFetched == registry.sensorFetched
    ensures (if sensorSignal then r.sensorFetched else r.weatherFetched)
         == (if sensorSignal then registry.sensorFetched else registry.weatherFetched) + [handler]
  {
    if sensorSignal then registry.(sensorFetched := registry.sensorFetched + [handler])
    else registry.(weatherFetched := registry.weatherFetched + [handler])
  }

  /** `init_signals`: the three connections made when the worker starts. */
  function InitSignals(): (r: Registry)
    ensures r.sensorFetched == [WriteSensorEventHandler, UpdateStatisticsHandler]
    ensures r.weatherFetched == [UpdateHelsinkiTemperatureHandler]
  {
    var r1 := Connect(EmptyRegistry, true, WriteSensorEventHandler);
    var r2 := Connect(r1, true, UpdateStatisticsHandler);
    Connect(r2, false, UpdateHelsinkiTemperatureHandler)
  }

  /** The receivers of the signal an event is sent on. */
  function Receivers(registry: Registry, event: Event): seq<Handler>
  {
    match event
    case SensorFetched(_, _, _) => registry.sensorFetched
    case WeatherFetched(_) => registry.weatherFetched
  }

  /** One handler receiving one event's keyword arguments. `write_sensor_event`
      passes all three sensor fields to the log, `update_statistics` drops the
      timestamp, `update_helsinki_temperature` takes the temperature; a handler
      called with the other signal's arguments raises `TypeError`. */
  function Apply(handler: Handler, event: Event, store: Store): (r: Result<Store, Exception>)
    ensures handler == WriteSensorEventHandler && event.SensorFetched? ==>
      r == Success(store.(log := EventLog.WriteSensorEvent(store.log, event.sensorId, event.timestamp, event.value)))
    ensures handler == UpdateStatisticsHandler && event.SensorFetched? ==>
      (match UpdateSensorStatistics(store.cache, event.sensorId, event.value)
       case Success(c) => r == Success(store.(cache := c))
       case Failure(e) => r == Failure(e))
    ensures handler == UpdateHelsinkiTemperatureHandler && event.WeatherFetched? ==>
      r == Success(store.(cache := SensorCache.UpdateHelsinkiTemperature(store.cache, event.temperature)))
    ensures (handler == UpdateHelsinkiTemperatureHandler) == event.SensorFetched? ==> r == Failure(TypeError)
  {
    match (handler, event)
    case (WriteSensorEventHandler, SensorFetched(id, t, v)) =>
      Success(store.(log := EventLog.WriteSensorEvent(store.log, id, t, v)))
    case (UpdateStatisticsHandler, SensorFetched(id, _, v)) =>
      (match UpdateSensorStatistics(store.cache, id, v)
       case Success(c) => Success(store.(cache := c))
       case Failure(e) => Failure(e))
    case (UpdateHelsinkiTemperatureHandler, WeatherFetched(t)) =>
      Success(store.(cache := SensorCache.UpdateHelsinkiTemperature(store.cache, t)))
    case _ => Failure(TypeError)
  }

  /** One receiver of a delivery in progress: its result replaces the
      store, or its exception is logged and the store is kept. */
  function Deliver(d: Delivery, handler: Handler, event: Event): Delivery
  {
    match Apply(handler, event, d.store)
    case Success(s) => Delivery(s, d.errors)
    case Failure(e) => Delivery(d.store, d.errors + [e])
  }

  /** `Signal.send`: run the receivers in order; a receiver that raises is
      logged and leaves the store as it found it, and the next one still runs. */
  function Send(handlers: seq<Handler>, event: Event, store: Store): (r: Delivery)
    ensures |r.errors| <= |handlers|
  {
    if |handlers| == 0 then Delivery(store, [])
    else Deliver(Send(handlers[..|handlers| - 1], event, store), handlers[|handlers| - 1], event)
  }

  /** Sending to two receivers runs the first, then the second. */
  lemma SendToTwo(first: Handler, second: Handler, event: Event, store: Store)
    ensures Send([first, second], event, store)
         == Deliver(Deliver(Delivery(store, []), first, event), second, event)
  {
    var handlers := [first, second];
    assert [first][..0] == [];
    assert Send([first], event, store) == Deliver(Send([], event, store), first, event);
    assert handlers[..1] == [first];
    assert Send(handlers, event, store) == Deliver(Send([first], event, store), second, event);
  }

  /** One event sent on its signal through the registry. */
  function Dispatch(registry: Registry, store: Store, event: Event): Store
  {
    Send(Receivers(registry, event), event, store).store
  }

  /** A fetch followed by the delivery of whatever it sent. */
  function Process(registry: Registry, store: Store, outcome: FetchOutcome): (r: Store)
    ensures !outcome.Sent? ==> r == store
  {
    match outcome
    case Sent(e) => Dispatch(registry, store, e)
    case _ => store
  }

  /** Events delivered one at a time, in order. */
  function Run(registry: Registry, store: Store, events: seq<Event>): Store
  {
    if |events| == 0 then store
    else Dispatch(registry, Run(registry, store, events[..|events| - 1]), events[|events| - 1])
  }

  /** A fetch followed by delivery is the sequential delivery of the events
      the fetch emitted: one event on `Sent`, none otherwise. */
  lemma ProcessDeliversEmitted(registry: Registry, store: Store, outcome: FetchOutcome)
    ensures Process(registry, store, outcome) == Run(registry, store, Emitted(outcome))
  {
    if outcome.Sent? {
      var events := Emitted(outcome);
      assert events[..0] == [];
      assert Run(registry, store, events) == Dispatch(registry, Run(registry, store, []), outcome.event);
    }
  }

  /** A sensor event reaches the log first and the statistics second: the
      log gains exactly its row, and the cache is the statistics update's
      result, or unchanged when that update raised. */
  lemma SensorEventFanOut(store: Store, sensorId: string, timestamp: int, value: real)
    ensures var s := Dispatch(InitSignals(), store, SensorFetched(sensorId, timestamp, value));
      && s.log == store.log + [Row(sensorId, timestamp, value)]
      && s.cache == (match UpdateSensorStatistics(store.cache, sensorId, value)
                     case Success(c) => c
                     case Failure(_) => store.cache)
  {
    var event := SensorFetched(sensorId, timestamp, value);
    SendToTwo(WriteSensorEventHandler, UpdateStatisticsHandler, event, store);
    var written := store.(log := store.log + [Row(sensorId, timestamp, value)]);
    assert Deliver(Delivery(store, []), WriteSensorEventHandler, event) == Delivery(written, []);
  }

  /** A weather event only sets the reference temperature; the log is untouched. */
  lemma WeatherEventFanOut(store: Store, temperature: real)
    ensures Dispatch(InitSignals(), store, WeatherFetched(temperature))
         == Store(store.log, SensorCache.UpdateHelsinkiTemperature(store.cache, temperature))
  {
    var event := WeatherFetched(temperature);
    var handlers := InitSignals().weatherFetched;
    assert handlers[..0] == [];
    assert Send(handlers, event, store) == Deliver(Send([], event, store), UpdateHelsinkiTemperatureHandler, event);
  }

  /** A non-ok response, sensor or weather, changes neither store. */
  lemma FailedFetchChangesNothing(registry: Registry, store: Store, sensorId: string, statusCode: int)
    ensures Process(registry, store, FetchSensorData(sensorId, NotOk(statusCode))) == store
    ensures Process(registry, store, FetchWeather(NotOk(statusCode))) == store
  {
  }
}
