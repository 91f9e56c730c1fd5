/** The `GET /weather/:cep` handler: resolves the code to a city, looks up
    its weather and maps every failure to a status and a message. */
module WeatherHandler {
  import opened Results
  import opened GoHttp
  import opened Model
  import opened Cep
  import opened Weather

  datatype Handler = Handler(weatherService: WeatherService, cepService: CepService)

  /** The JSON body the handler writes. */
  datatype Body = WeatherBody(weather: WeatherResponse) | ErrorBody(error: ErrorResponse)

  /** A request the handler's services handed to the HTTP client. */
  datatype Outbound = AddressLookup(url: string) | WeatherLookup(url: string)

  /** The status and body written with `c.JSON`, and the outbound requests made, in order. */
  datatype Reply = Reply(status: int, body: Body, calls: seq<Outbound>)

  const InternalErrorMessage := "internal server error"
  const WeatherErrorMessage := "error getting weather data"

  /** The status each resolver error kind stands for: the two zipcode errors
      are told to the caller, every other one is an internal error. */
  function StatusForKind(kind: CepError): (status: int)
    ensures status == StatusUnprocessableEntity <==> kind == InvalidZipcode
    ensures status == StatusNotFound <==> kind == NotFound
    ensures status != StatusOK
  {
    match kind
    case InvalidZipcode => StatusUnprocessableEntity
    case NotFound => StatusNotFound
    case _ => StatusInternalServerError
  }

  /** The handler's `switch err.Error()`: status and message for a resolver
      error text. Only the two zipcode texts are written back as they are,
      each with its own status; every other text becomes a bare 500. */
  function CepErrorReply(message: string): (reply: (int, string))
    ensures reply.0 == StatusUnprocessableEntity <==> message == InvalidZipcodeMessage
    ensures reply.0 == StatusNotFound <==> message == NotFoundMessage
    ensures reply.0 == StatusUnprocessableEntity || reply.0 == StatusNotFound || reply.0 == StatusInternalServerError
    ensures reply.1 == (if reply.0 == StatusInternalServerError then InternalErrorMessage else message)
  {
    if message == InvalidZipcodeMessage then (StatusUnprocessableEntity, InvalidZipcodeMessage)
    else if message == NotFoundMessage then (StatusNotFound, NotFoundMessage)
    else (StatusInternalServerError, InternalErrorMessage)
  }

  function AddressCalls(request: Option<string>): (calls: seq<Outbound>)
  {
    match request case None => [] case Some(url) => [AddressLookup(url)]
  }

  function WeatherCalls(request: Option<string>): (calls: seq<Outbound>)
  {
    match request case None => [] case Some(url) => [WeatherLookup(url)]
  }

  /** The reply once the resolver failed with `message`: the weather service
      is not asked. */
  function ResolverFailed(message: string, request: Option<string>): (r: Reply)
    ensures r.status != StatusOK && r.body.ErrorBody? && r.calls == AddressCalls(request)
  {
    var (status, text) := CepErrorReply(message);
    Reply(status, ErrorBody(ErrorResponse(text)), AddressCalls(request))
  }

  /** The reply once the resolver found a city and the weather service answered. */
  function WeatherAnswered(request: Option<string>, weather: Lookup<WeatherResponse, WeatherError>): (r: Reply)
    ensures r.status == StatusOK <==> r.body.WeatherBody?
    ensures r.calls == AddressCalls(request) + WeatherCalls(weather.request)
  {
    var calls := AddressCalls(request) + WeatherCalls(weather.request);
    match weather.result
    case Err(_, _) => Reply(StatusInternalServerError, ErrorBody(ErrorResponse(WeatherErrorMessage)), calls)
    case Ok(temperature) => Reply(StatusOK, WeatherBody(temperature), calls)
  }

  /** `Handler.GetWeatherByCEP` for path parameter `cep`, given what the
      address service and the weather service would answer. */
  function GetWeatherByCep(h: Handler, cep: string,
                           cepExchange: Exchange<Decoding<ViaCepBody>>,
                           weatherExchange: Exchange<Reading<WeatherApiBody>>): (r: Reply)
    // 200 exactly when a temperature is written; at most one call to each
    // service, the address service first.
    ensures r.status == StatusOK <==> r.body.WeatherBody?
    ensures |r.calls| <= 2 && (|r.calls| > 0 ==> r.calls[0].AddressLookup?)
    ensures |r.calls| == 2 ==> r.calls[1].WeatherLookup?
  {
    var cityLookup := GetCity(h.cepService, cep, cepExchange);
    match cityLookup.result
    case Err(_, message) => ResolverFailed(message, cityLookup.request)
    case Ok(city) => WeatherAnswered(cityLookup.request, GetTemperature(h.weatherService, city, weatherExchange))
  }

  /** A resolver error is answered with the status its kind stands for, only
      the two zipcode texts reach the caller, and the weather service is not
      asked: the trace holds at most the address lookup. */
  lemma ResolverErrorAnswered(h: Handler, cep: string,
                              cepExchange: Exchange<Decoding<ViaCepBody>>,
                              weatherExchange: Exchange<Reading<WeatherApiBody>>)
    requires GetCity(h.cepService, cep, cepExchange).result.Err?
    ensures
      var e := GetCity(h.cepService, cep, cepExchange);
      var r := GetWeatherByCep(h, cep, cepExchange, weatherExchange);
      && r.status == StatusForKind(e.result.kind)
      && r.body == ErrorBody(ErrorResponse(
           if e.result.kind == InvalidZipcode then InvalidZipcodeMessage
           else if e.result.kind == NotFound then NotFoundMessage
           else InternalErrorMessage))
      && r.calls == AddressCalls(e.request)
  {
  }

  /** Once the resolver found a city, that city is what the weather service is
      asked about; any weather failure is a bare 500, a success is 200 with
      the temperatures unchanged, and the trace is both requests in order. */
  lemma WeatherResultAnswered(h: Handler, cep: string,
                              cepExchange: Exchange<Decoding<ViaCepBody>>,
                              weatherExchange: Exchange<Reading<WeatherApiBody>>)
    requires GetCity(h.cepService, cep, cepExchange).result.Ok?
    ensures
      var found := GetCity(h.cepService, cep, cepExchange);
      var weather := GetTemperature(h.weatherService, found.result.value, weatherExchange);
      var r := GetWeatherByCep(h, cep, cepExchange, weatherExchange);
      var calls := AddressCalls(found.request) + WeatherCalls(weather.request);
      && (weather.result.Err? ==> r == Reply(StatusInternalServerError, ErrorBody(ErrorResponse(WeatherErrorMessage)), calls))
      && (weather.result.Ok? ==> r == Reply(StatusOK, WeatherBody(weather.result.value), calls))
  {
  }

  /** A path parameter that is not eight ASCII digits is answered 422 and
      neither outside service is called. */
  lemma InvalidCepAnswered422(h: Handler, cep: string,
                              cepExchange: Exchange<Decoding<ViaCepBody>>,
                              weatherExchange: Exchange<Reading<WeatherApiBody>>)
    requires !IsCep(cep)
    ensures GetWeatherByCep(h, cep, cepExchange, weatherExchange) ==
      Reply(StatusUnprocessableEntity, ErrorBody(ErrorResponse(InvalidZipcodeMessage)), [])
  {
  }

  /** A weather failure hides its detail: the reply is the same whatever went wrong. */
  lemma WeatherFailuresLookAlike(h: Handler, cep: string,
                                 cepExchange: Exchange<Decoding<ViaCepBody>>,
                                 w1: Exchange<Reading<WeatherApiBody>>, w2: Exchange<Reading<WeatherApiBody>>)
    requires GetCity(h.cepService, cep, cepExchange).result.Ok?
    requires GetTemperature(h.weatherService, GetCity(h.cepService, cep, cepExchange).result.value, w1).result.Err?
    requires GetTemperature(h.weatherService, GetCity(h.cepService, cep, cepExchange).result.value, w2).result.Err?
    ensures GetWeatherByCep(h, cep, cepExchange, w1).status == GetWeatherByCep(h, cep, cepExchange, w2).status == StatusInternalServerError
    ensures GetWeatherByCep(h, cep, cepExchange, w1).body == GetWeatherByCep(h, cep, cepExchange, w2).body
  {
  }

  /** With the default resolver, the address lookup in the trace identifies
      the code that was asked about: two requests whose first outbound call
      is the same URL were for the same code. */
  lemma AddressLookupIdentifiesCode(h: Handler, a: string, b: string,
                                    ea: Exchange<Decoding<ViaCepBody>>, eb: Exchange<Decoding<ViaCepBody>>,
                                    wa: Exchange<Reading<WeatherApiBody>>, wb: Exchange<Reading<WeatherApiBody>>)
    requires h.cepService == NewCepService()
    requires GetWeatherByCep(h, a, ea, wa).calls != []
    requires GetWeatherByCep(h, b, eb, wb).calls != []
    requires GetWeatherByCep(h, a, ea, wa).calls[0] == GetWeatherByCep(h, b, eb, wb).calls[0]
    ensures a == b
  {
    var la, lb := GetCity(h.cepService, a, ea), GetCity(h.cepService, b, eb);
    assert GetWeatherByCep(h, a, ea, wa).calls[0] == AddressLookup(la.request.value);
    assert GetWeatherByCep(h, b, eb, wb).calls[0] == AddressLookup(lb.request.value);
    CepUrlInjective(a, b);
  }
}
