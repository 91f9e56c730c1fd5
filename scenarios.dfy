/** The repository's test cases and the endpoint's end-to-end cases, stated
    on the model; where a case holds for every code or city it is stated so. */
module Scenarios {
  import opened Results
  import opened GoHttp
  import opened GoUrl
  import opened Model
  import opened Cep
  import opened Weather
  import opened WeatherHandler

  /** Neither a short code nor one with letters reaches the address service. */
  lemma MalformedCodesRejected(e: Exchange<Decoding<ViaCepBody>>)
    ensures GetCity(NewCepService(), "12345", e) == Lookup(Err(InvalidZipcode, "invalid zipcode"), None)
    ensures GetCity(NewCepService(), "abcde123", e) == Lookup(Err(InvalidZipcode, "invalid zipcode"), None)
  {
    assert !IsAsciiDigit("abcde123"[0]);
  }

  lemma SampleCodesValid()
    ensures IsCep("01001000") && IsCep("99999999")
  {
  }

  /** A code the address service knows resolves to its locality, and the
      request goes to that code's ViaCEP URL. */
  lemma KnownCodeResolved(cep: string, city: string, status: int)
    requires IsCep(cep) && city != "" && status != StatusBadRequest
    ensures GetCity(NewCepService(), cep, Response(status, Decoded(ViaCepBody(city, "")))) ==
      Lookup(Ok(city), Some(CepUrl(cep)))
  {
  }

  /** `{"erro": "true"}` is "can not find zipcode", after a request to the code's URL. */
  lemma UnknownCodeNotFound(cep: string, city: string)
    requires IsCep(cep)
    ensures GetCity(NewCepService(), cep, Response(StatusOK, Decoded(ViaCepBody(city, "true")))) ==
      Lookup(Err(NotFound, "can not find zipcode"), Some(CepUrl(cep)))
  {
  }

  lemma ResolverFailuresWrapped(cep: string, cause: string, body: Decoding<ViaCepBody>)
    requires IsCep(cep)
    ensures GetCity(NewCepService(), cep, Response(StatusOK, Undecodable(cause))).result ==
      Err(CepError.DecodeFailed, "error decoding CEP response: " + cause)
    ensures GetCity(NewCepService(), cep, TransportError(cause)).result ==
      Err(CepError.FetchFailed, "error fetching CEP: " + cause)
    ensures GetCity(NewCepService(), cep, Response(StatusBadRequest, body)).result ==
      Err(InvalidZipcode, "invalid zipcode")
  {
  }

  /** 25 degrees Celsius is 77 Fahrenheit and 298 in the code's Kelvin. */
  lemma TwentyFiveDegrees()
    ensures FromCelsius(25.0) == WeatherResponse(25.0, 77.0, 298.0)
  {
  }

  lemma SampleKeyClean()
    ensures forall i | 0 <= i < |"test-api-key"| :: !IsControl("test-api-key"[i])
  {
  }

  /** A configured key yields the decoded reading in three scales, whatever the status. */
  lemma ReadingConverted(key: string, city: string, status: int, celsius: real)
    requires key != "" && forall i | 0 <= i < |key| :: !IsControl(key[i])
    ensures GetTemperature(NewWeatherService(key), city, Response(status, Read(Decoded(WeatherApiBody(celsius))))) ==
      Lookup(Ok(FromCelsius(celsius)), Some(WeatherUrl(key, QueryEscape(city))))
  {
  }

  lemma WeatherLookupFailures(city: string, cause: string, e: Exchange<Reading<WeatherApiBody>>)
    ensures GetTemperature(WeatherService("", ""), city, e) ==
      Lookup(Err(MissingApiKey, "weather API key not configured"), None)
    ensures GetTemperature(NewWeatherService("test-api-key"), city, TransportError(cause)).result ==
      Err(WeatherError.FetchFailed, "error fetching weather data: " + cause)
  {
    SampleKeyClean();
  }

  lemma EscapeS() ensures QueryEscape("S") == "S" {}
  lemma EscapeATilde() ensures QueryEscape("ã") == "%C3%A3" {}
  lemma EscapeO() ensures QueryEscape("o") == "o" {}
  lemma EscapeSpace() ensures QueryEscape(" ") == "+" {}
  lemma EscapePaulo() ensures QueryEscape("Paulo") == "Paulo" {}
  lemma SaoPauloPieces() ensures "São Paulo" == "S" + ("ã" + ("o" + (" " + "Paulo"))) {}
  lemma EscapedPieces() ensures "S" + ("%C3%A3" + ("o" + ("+" + "Paulo"))) == "S%C3%A3o+Paulo" {}

  /** The city travels as its UTF-8 bytes, percent-encoded, with `+` for the space. */
  lemma CityEscaped()
    ensures QueryEscape("São Paulo") == "S%C3%A3o+Paulo"
  {
    calc {
      QueryEscape("São Paulo");
      { SaoPauloPieces(); }
      QueryEscape("S" + ("ã" + ("o" + (" " + "Paulo"))));
      { QueryEscapeConcat("S", "ã" + ("o" + (" " + "Paulo"))); EscapeS(); }
      "S" + QueryEscape("ã" + ("o" + (" " + "Paulo")));
      { QueryEscapeConcat("ã", "o" + (" " + "Paulo")); EscapeATilde(); }
      "S" + ("%C3%A3" + QueryEscape("o" + (" " + "Paulo")));
      { QueryEscapeConcat("o", " " + "Paulo"); EscapeO(); }
      "S" + ("%C3%A3" + ("o" + QueryEscape(" " + "Paulo")));
      { QueryEscapeConcat(" ", "Paulo"); EscapeSpace(); EscapePaulo(); }
      "S" + ("%C3%A3" + ("o" + ("+" + "Paulo")));
      { EscapedPieces(); }
      "S%C3%A3o+Paulo";
    }
  }

  /** A known code and a configured key: 200 with the three scales, after one
      request to each service, address service first. */
  lemma EndToEndSuccess(key: string, cep: string, city: string, celsius: real)
    requires key != "" && forall i | 0 <= i < |key| :: !IsControl(key[i])
    requires IsCep(cep) && city != ""
    ensures
      GetWeatherByCep(Handler(NewWeatherService(key), NewCepService()), cep,
                      Response(StatusOK, Decoded(ViaCepBody(city, ""))),
                      Response(StatusOK, Read(Decoded(WeatherApiBody(celsius))))) ==
      Reply(StatusOK, WeatherBody(FromCelsius(celsius)),
            [AddressLookup(CepUrl(cep)), WeatherLookup(WeatherUrl(key, QueryEscape(city)))])
  {
    var h := Handler(NewWeatherService(key), NewCepService());
    var c := Response(StatusOK, Decoded(ViaCepBody(city, "")));
    var w := Response(StatusOK, Read(Decoded(WeatherApiBody(celsius))));
    KnownCodeResolved(cep, city, StatusOK);
    ReadingConverted(key, city, StatusOK, celsius);
    WeatherResultAnswered(h, cep, c, w);
  }

  /** `/weather/01001000` for São Paulo at 25 degrees. */
  lemma EndToEndSaoPaulo()
    ensures
      GetWeatherByCep(Handler(NewWeatherService("test-api-key"), NewCepService()), "01001000",
                      Response(StatusOK, Decoded(ViaCepBody("São Paulo", ""))),
                      Response(StatusOK, Read(Decoded(WeatherApiBody(25.0))))) ==
      Reply(StatusOK, WeatherBody(WeatherResponse(25.0, 77.0, 298.0)),
            [AddressLookup(CepUrl("01001000")), WeatherLookup(WeatherUrl("test-api-key", "S%C3%A3o+Paulo"))])
  {
    SampleCodesValid();
    SampleKeyClean();
    EndToEndSuccess("test-api-key", "01001000", "São Paulo", 25.0);
    CityEscaped();
    TwentyFiveDegrees();
  }

  /** A code the service does not know: 404 and only the address lookup. */
  lemma EndToEndNotFound(h: Handler, cep: string, city: string, w: Exchange<Reading<WeatherApiBody>>)
    requires h.cepService == NewCepService() && IsCep(cep)
    ensures GetWeatherByCep(h, cep, Response(StatusOK, Decoded(ViaCepBody(city, "true"))), w) ==
      Reply(StatusNotFound, ErrorBody(ErrorResponse("can not find zipcode")), [AddressLookup(CepUrl(cep))])
  {
    UnknownCodeNotFound(cep, city);
  }

  /** `/weather/12345`: 422 and no outbound call at all. */
  lemma EndToEndMalformed(h: Handler, c: Exchange<Decoding<ViaCepBody>>, w: Exchange<Reading<WeatherApiBody>>)
    ensures GetWeatherByCep(h, "12345", c, w) ==
      Reply(StatusUnprocessableEntity, ErrorBody(ErrorResponse("invalid zipcode")), [])
  {
  }

  /** The address service unreachable: 500 with the generic text. */
  lemma EndToEndResolverDown(h: Handler, cep: string, cause: string, w: Exchange<Reading<WeatherApiBody>>)
    requires h.cepService == NewCepService() && IsCep(cep)
    ensures GetWeatherByCep(h, cep, TransportError(cause), w) ==
      Reply(StatusInternalServerError, ErrorBody(ErrorResponse("internal server error")), [AddressLookup(CepUrl(cep))])
  {
    ResolverFailuresWrapped(cep, cause, Undecodable(cause));
  }
}
