/** The weather lookup: asks WeatherAPI for a city's current temperature and
    converts it to Fahrenheit and Kelvin. */
module Weather {
  import opened Results
  import opened GoFmt
  import opened GoHttp
  import opened GoUrl
  import opened Model

  const BaseUrl := "http://api.weatherapi.com/v1/current.json?key=%s&q=%s&aqi=no"

  datatype WeatherService = WeatherService(apiKey: string, baseURL: string)

  /** The one field the lookup decodes: `current.temp_c`, which Go's decoder
      leaves at 0 when the body lacks it. */
  datatype WeatherApiBody = WeatherApiBody(tempC: real)

  datatype WeatherError =
    | MissingApiKey   // no API key configured; no request is made
    | FetchFailed     // http.NewRequest or the HTTP client failed
    | ReadFailed      // the body could not be read
    | DecodeFailed    // the body was not JSON of the expected shape

  const MissingApiKeyMessage := "weather API key not configured"

  /** The URL the lookup requests: the key first, the escaped city second. */
  function WeatherUrl(apiKey: string, escapedCity: string): (url: string)
  {
    "http://api.weatherapi.com/v1/current.json?key=" + apiKey + "&q=" + escapedCity + "&aqi=no"
  }

  /** The template, cut at its two verbs. */
  lemma BaseUrlPieces()
    ensures BaseUrl == "http://api.weatherapi.com" + ("/v1/current.json?key=" + ("%s" + ("&q=" + ("%s" + "&aqi=no"))))
  {
  }

  /** The URL, cut at its two values. */
  lemma WeatherUrlPieces(apiKey: string, escapedCity: string)
    ensures WeatherUrl(apiKey, escapedCity) ==
      "http://api.weatherapi.com" + ("/v1/current.json?key=" + (apiKey + ("&q=" + (escapedCity + "&aqi=no"))))
  {
  }

  lemma WeatherTemplate(apiKey: string, escapedCity: string)
    ensures Sprintf(BaseUrl, [apiKey, escapedCity]) == WeatherUrl(apiKey, escapedCity)
  {
    BaseUrlPieces();
    WeatherUrlPieces(apiKey, escapedCity);
    SprintfTwoAfter("http://api.weatherapi.com", "/v1/current.json?key=", "&q=", "&aqi=no", apiKey, escapedCity);
  }

  /** `NewWeatherService(apiKey, client)`: keeps the key, and its template
      yields the WeatherAPI URL for every key and escaped city. */
  function NewWeatherService(apiKey: string): (s: WeatherService)
    ensures s.apiKey == apiKey
    ensures forall key, q :: Sprintf(s.baseURL, [key, q]) == WeatherUrl(key, q)
  {
    forall key, q ensures Sprintf(BaseUrl, [key, q]) == WeatherUrl(key, q) {
      WeatherTemplate(key, q);
    }
    WeatherService(apiKey, BaseUrl)
  }

  /** The three scales from a Celsius reading: F = C * 1.8 + 32 and K = C + 273. */
  function FromCelsius(c: real): (w: WeatherResponse)
    ensures w.tempC == c
    ensures (w.tempF - 32.0) / 1.8 == c
    ensures w.tempK - 273.0 == c
  {
    WeatherResponse(c, c * 1.8 + 32.0, c + 273.0)
  }

  /** `WeatherService.GetTemperature(city)`, with the HTTP client's answer as `exchange`. */
  function GetTemperature(svc: WeatherService, city: string, exchange: Exchange<Reading<WeatherApiBody>>): (r: Lookup<WeatherResponse, WeatherError>)
    // No key: fixed error, and the client is never invoked.
    ensures svc.apiKey == "" ==> r == Lookup(Err(MissingApiKey, MissingApiKeyMessage), None)
    // The request goes to the template filled with the key and the escaped city.
    ensures r.request.Some? ==> svc.apiKey != "" && r.request.value == Sprintf(svc.baseURL, [svc.apiKey, QueryEscape(city)])
    ensures svc == NewWeatherService(svc.apiKey) && svc.apiKey != "" && (forall i | 0 <= i < |svc.apiKey| :: !IsControl(svc.apiKey[i])) ==>
      r.request == Some(WeatherUrl(svc.apiKey, QueryEscape(city)))
    ensures svc.apiKey != "" && NewRequestError(Sprintf(svc.baseURL, [svc.apiKey, QueryEscape(city)])).None? ==>
      r.request == Some(Sprintf(svc.baseURL, [svc.apiKey, QueryEscape(city)]))
    // A URL that `http.NewRequest` rejects is reported as a fetch error, with no request.
    ensures svc.apiKey != "" && NewRequestError(Sprintf(svc.baseURL, [svc.apiKey, QueryEscape(city)])).Some? ==>
      r == Lookup(Err(FetchFailed, "error fetching weather data: " + NewRequestError(Sprintf(svc.baseURL, [svc.apiKey, QueryEscape(city)])).value), None)
    // Transport, read and decode failures, in that order, each wrapping its cause.
    ensures r.request.Some? && exchange.TransportError? ==>
      r.result == Err(FetchFailed, "error fetching weather data: " + exchange.cause)
    ensures r.request.Some? && exchange.Response? && exchange.body.Unreadable? ==>
      r.result == Err(ReadFailed, "error reading response body: " + exchange.body.cause)
    ensures r.request.Some? && exchange.Response? && exchange.body.Read? && exchange.body.decoding.Undecodable? ==>
      r.result == Err(DecodeFailed, "error decoding weather response: " + exchange.body.decoding.cause)
    // Any decodable body, whatever the status, yields its reading in three scales.
    ensures r.request.Some? && exchange.Response? && exchange.body.Read? && exchange.body.decoding.Decoded? ==>
      r.result == Ok(FromCelsius(exchange.body.decoding.value.tempC))
    ensures r.result.Ok? ==> r.request.Some? && exchange.Response? && exchange.body.Read? && exchange.body.decoding.Decoded?
  {
    if svc.apiKey == "" then Lookup(Err(MissingApiKey, MissingApiKeyMessage), None)
    else
      var url := Sprintf(svc.baseURL, [svc.apiKey, QueryEscape(city)]);
      assert svc == NewWeatherService(svc.apiKey) && (forall i | 0 <= i < |svc.apiKey| :: !IsControl(svc.apiKey[i])) ==>
        NewRequestError(url) == None by {
        if svc == NewWeatherService(svc.apiKey) && (forall i | 0 <= i < |svc.apiKey| :: !IsControl(svc.apiKey[i])) {
          WeatherUrlAccepted(svc.apiKey, QueryEscape(city));
        }
      }
      match NewRequestError(url)
      case Some(cause) => Lookup(Err(FetchFailed, "error fetching weather data: " + cause), None)
      case None =>
        var result := match exchange
          case TransportError(cause) => Err(FetchFailed, "error fetching weather data: " + cause)
          case Response(_, Unreadable(cause)) => Err(ReadFailed, "error reading response body: " + cause)
          case Response(_, Read(Undecodable(cause))) => Err(DecodeFailed, "error decoding weather response: " + cause)
          case Response(_, Read(Decoded(body))) => Ok(FromCelsius(body.tempC));
        Lookup(result, Some(url))
  }

  /** With a key free of control bytes the WeatherAPI URL passes `http.NewRequest`. */
  lemma WeatherUrlAccepted(apiKey: string, escapedCity: string)
    requires forall i | 0 <= i < |apiKey| :: !IsControl(apiKey[i])
    requires forall i | 0 <= i < |escapedCity| :: !IsControl(escapedCity[i])
    ensures NewRequestError(WeatherUrl(apiKey, escapedCity)) == None
  {
    var host, path, q, tail := "http://api.weatherapi.com", "/v1/current.json?key=", "&q=", "&aqi=no";
    assert forall i | 0 <= i < |host| :: !IsControl(host[i]);
    assert forall i | 0 <= i < |path| :: !IsControl(path[i]);
    assert forall i | 0 <= i < |q| :: !IsControl(q[i]);
    assert forall i | 0 <= i < |tail| :: !IsControl(tail[i]);
    ControlFree(host);
    ControlFree(path);
    ControlFree(apiKey);
    ControlFree(q);
    ControlFree(escapedCity);
    ControlFree(tail);
    NoControlConcat(escapedCity, tail);
    NoControlConcat(q, escapedCity + tail);
    NoControlConcat(apiKey, q + (escapedCity + tail));
    NoControlConcat(path, apiKey + (q + (escapedCity + tail)));
    NoControlConcat(host, path + (apiKey + (q + (escapedCity + tail))));
    WeatherUrlPieces(apiKey, escapedCity);
  }

  /** The response status is never looked at. */
  lemma StatusIgnored(svc: WeatherService, city: string, s1: int, s2: int, body: Reading<WeatherApiBody>)
    ensures GetTemperature(svc, city, Response(s1, body)) == GetTemperature(svc, city, Response(s2, body))
  {
  }
}
