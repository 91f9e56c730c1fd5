# viacep-cloud-run in Dafny

This project models the decision logic behind the service's single endpoint,
`GET /weather/{cep}`. Given a Brazilian postal code (CEP), the endpoint:

1. asks the ViaCEP address service for the city;
2. asks WeatherAPI for that city's current temperature;
3. answers with the temperature in Celsius, Fahrenheit and Kelvin, or with
   an HTTP status and an error message.

There are three parts, each pure and loop-free in the Go code:

- **Postal-code resolver** (`Cep`, `cep_service.dfy`). `GetCity` does four
  things in order:
  - checks the code against the RE2 pattern `^\d{8}$`;
  - builds the ViaCEP URL with `fmt.Sprintf`;
  - lets `http.NewRequest` accept or reject that URL;
  - classifies the client's answer: transport failure, then status 400,
    then a body that does not decode, then "not found", then success.
- **Weather lookup** (`Weather`, `weather_service.dfy`). `GetTemperature` does
  the following in order:
  - refuses to run without an API key;
  - escapes the city with `url.QueryEscape` and fills the URL template;
  - classifies transport, body-read and decode failures, in that order;
  - converts a reading with F = C·1.8 + 32 and K = C + 273.
- **Request handler** (`WeatherHandler`, `weather_handler.dfy`).
  `GetWeatherByCep` maps resolver errors to 422, 404 or 500 by matching
  their message text. It calls the weather lookup only after the resolver
  has succeeded, and maps every weather failure to one generic 500.

Network calls are inputs here, not effects. The answer that `httpClient.Do`,
the body read and the JSON decoder would give becomes a value:

- `Exchange` is either `TransportError(cause)` or `Response(status, body)`.
- `Decoding` is either `Decoded(fields)` or `Undecodable(cause)`.
- `Reading` is either `Read(decoding)` or `Unreadable(cause)`.

Each service returns a `Lookup`: its Go `(value, error)` result, plus the URL
it handed to the HTTP client, or `None` when it never called the client.
The handler returns a `Reply` holding:

- the status;
- the JSON body;
- the outbound requests made, in order.

"No call was made" is therefore something the model states and proves.

Support modules model the parts of Go's libraries that the core relies on:

- `GoFmt.Sprintf`: the `%s` subset of `fmt.Sprintf`.
- `GoHttp.NewRequestError`: the control-byte check of `url.Parse`.
- `GoUrl.QueryEscape`: the query-component escaping of `net/url`, over
  UTF-8 bytes.
- `Results`: the shared result types.

`Scenarios` restates the repository's unit tests and the endpoint's
end-to-end cases on the model.

Three behaviours of the code are easy to misread, and the model keeps them
as written:

- Only status 400 exactly, not every 4xx status, counts as an invalid
  zipcode (`internal/service/cep_service.go:48`).
- The not-found flag `erro` is decoded as a string, and only the text
  `"true"` counts as not found (`internal/service/cep_service.go:54`,
  `internal/service/cep_service.go:61`). A JSON boolean `"erro": true` fails
  that decode, so in the model it is an `Undecodable` body and the handler
  answers 500.
- The Kelvin offset is 273, not 273.15, as in the code
  (`internal/service/weather_service.go:61`).

One consequence of the code is proved rather than hidden: the weather lookup
never looks at the response status (`Weather.StatusIgnored`). Go's decoder
leaves a missing `current.temp_c` at 0, so an error body that is valid JSON
(WeatherAPI's answer to a bad key, for example) becomes a 200 reply reading
0 °C.

## Model

| member | source | states |
|---|---|---|
| `Cep.NewCepService` | internal/service/cep_service.go:20-28 | The resolver's template, filled with any code, gives exactly `https://viacep.com.br/ws/` + code + `/json/`. |
| `Cep.CepTemplate` | internal/service/cep_service.go:25 | `Sprintf` on the template `https://viacep.com.br/ws/%s/json/` with one code gives the ViaCEP URL of that code. |
| `Cep.CepUrlInjective` | internal/service/cep_service.go:36 | Two codes with the same request URL are the same code, so the URL determines the code. `WeatherHandler.AddressLookupIdentifiesCode` relies on it. |
| `Cep.MatchesDigitsToEndIff` | internal/service/cep_service.go:31-32 | The anchored pattern `\d{n}$` matches a text exactly when it has length n and every character is an ASCII digit. Both directions are proved. |
| `Cep.PatternIsCep` | internal/service/cep_service.go:31-32 | `^\d{8}$` accepts exactly the strings of eight ASCII digits. |
| `Cep.CepUrlAccepted` | internal/service/cep_service.go:37-40 | For a valid code, `http.NewRequest` never rejects the default ViaCEP URL, so the "error creating request" branch cannot be reached with the default service. |
| `Cep.Classify` | internal/service/cep_service.go:42-65 | Every error it returns carries the text "invalid zipcode" exactly when its kind is InvalidZipcode, and "can not find zipcode" exactly when its kind is NotFound. |
| `Cep.GetCity` | internal/service/cep_service.go:30-66 | (1) A code that is not 8 ASCII digits gives "invalid zipcode" and no request. (2) A request goes only to the templated URL of a valid code. It is made whenever `http.NewRequest` accepts that URL, which with the default service is always, to the ViaCEP URL. (3) A URL that `http.NewRequest` rejects gives "error creating request: " + cause and no request. A transport failure gives "error fetching CEP: " + cause. (4) Status 400 gives "invalid zipcode". (5) An undecodable body gives "error decoding CEP response: " + cause. (6) A decoded body is not found exactly when `erro == "true"` or `localidade` is empty. (7) Otherwise the decoded `localidade` is returned as the city, and a city is only ever that decoded, non-empty `localidade`. (8) An error's message text identifies its kind for the two zipcode errors. |
| `Cep.InvalidCepIgnoresService` | internal/service/cep_service.go:31-34 | For a malformed code, the result is the same whatever the address service would have answered: no call is made. |
| `Cep.BadRequestIgnoresBody` | internal/service/cep_service.go:48-50 | A 400 answer gives the same result whatever its body holds: the status is checked before any decoding. |
| `GoFmt.Sprintf` | internal/service/cep_service.go:36 | A format without `%` is returned unchanged and uses no argument. |
| `GoFmt.SprintfLiteral` | internal/service/weather_service.go:33 | Text without `%` at the head of a format is copied through, and the rest is formatted with the same arguments. |
| `GoFmt.SprintfTwo` | internal/service/weather_service.go:33 | A template of the form literal, `%s`, literal, `%s`, literal gets its first argument in the first slot and its second argument in the second. |
| `GoHttp.NewRequestError` | internal/service/cep_service.go:37-40 | `http.NewRequest` fails exactly when a control byte occurs before the first `#` of the URL. |
| `GoHttp.NoControlConcat` | internal/service/weather_service.go:34-37 | Joining two texts that each pass the URL control-byte check gives a text that passes too. |
| `GoUrl.QueryEscape` | internal/service/weather_service.go:32 | The escaped city holds only unreserved characters, `+` and `%`. It never holds a control character, `#`, `&` or `=`, so a city cannot end the URL or add a query parameter. |
| `GoUrl.UnescapeEscapeBytes` | internal/service/weather_service.go:32 | Unescaping the escaped bytes gives back exactly those bytes. |
| `GoUrl.QueryUnescapeEscape` | internal/service/weather_service.go:32 | Unescaping `QueryEscape(city)` gives exactly the UTF-8 bytes of the city. |
| `GoUrl.QueryEscapeConcat` | internal/service/weather_service.go:32 | Escaping a joined text is the same as joining the escaped pieces. |
| `Weather.NewWeatherService` | internal/service/weather_service.go:20-26 | The service keeps the given key. Its template, filled with any key and escaped city, gives `http://api.weatherapi.com/v1/current.json?key=` + key + `&q=` + city + `&aqi=no`. |
| `Weather.WeatherTemplate` | internal/service/weather_service.go:23 | In the WeatherAPI template, the key goes into the first slot and the escaped city into the second. |
| `Weather.FromCelsius` | internal/service/weather_service.go:59-61 | Celsius is kept as read. (F − 32) / 1.8 gives back the Celsius reading, and K − 273 gives it back too. |
| `Weather.GetTemperature` | internal/service/weather_service.go:28-68 | (1) An empty key gives "weather API key not configured" and no request. (2) A request goes only to the template filled with the key and then the escaped city. It is made whenever `http.NewRequest` accepts that URL; with the default template and a key free of control bytes that is always, to the WeatherAPI URL. (3) A URL that `http.NewRequest` rejects gives "error fetching weather data: " + cause and no request. Transport, read and decode failures give "error fetching weather data: ", "error reading response body: " and "error decoding weather response: " + cause, in that order. (4) Any decodable body, whatever its status, gives its reading in three scales. (5) Success happens only then. |
| `Weather.WeatherUrlAccepted` | internal/service/weather_service.go:34-37 | With a key free of control bytes, `http.NewRequest` accepts the WeatherAPI URL for any city. |
| `Weather.StatusIgnored` | internal/service/weather_service.go:38-59 | The response status never changes the result. |
| `WeatherHandler.StatusForKind` | internal/handler/weather_handler.go:29-36 | The status is 422 exactly for InvalidZipcode, 404 exactly for NotFound, and never 200. |
| `WeatherHandler.CepErrorReply` | internal/handler/weather_handler.go:29-36 | The status is 422 exactly for the text "invalid zipcode", 404 exactly for "can not find zipcode", and 500 for any other text. The message is written back unchanged only for those two texts; otherwise it is "internal server error". |
| `WeatherHandler.ResolverFailed` | internal/handler/weather_handler.go:28-37 | A resolver failure is answered with a non-200 error body, and the trace holds at most the address lookup. |
| `WeatherHandler.WeatherAnswered` | internal/handler/weather_handler.go:40-47 | After the resolver succeeds, the status is 200 exactly when a temperature is written, and the trace is the address request followed by the weather request. |
| `WeatherHandler.GetWeatherByCep` | internal/handler/weather_handler.go:24-48 | The status is 200 exactly when the body is a temperature. There is at most one call to each service, and the address service is called first. |
| `WeatherHandler.ResolverErrorAnswered` | internal/handler/weather_handler.go:27-38 | Matching on the message text gives the same status as the error's kind: 422 "invalid zipcode", 404 "can not find zipcode", otherwise 500 "internal server error". The weather service is not called. |
| `WeatherHandler.WeatherResultAnswered` | internal/handler/weather_handler.go:40-47 | The weather service is asked about the city the resolver found. Any weather error gives 500 "error getting weather data" with no detail. Success gives 200 with the temperatures unchanged. The trace is both requests, in order. |
| `WeatherHandler.InvalidCepAnswered422` | internal/handler/weather_handler.go:27-31 | A path parameter that is not 8 ASCII digits gives 422 "invalid zipcode", and neither outside service is called. |
| `WeatherHandler.WeatherFailuresLookAlike` | internal/handler/weather_handler.go:40-45 | Any two weather failures give the same status and body, so the cause is never exposed. |
| `WeatherHandler.AddressLookupIdentifiesCode` | internal/handler/weather_handler.go:27 | With the default resolver, two requests whose first outbound call is the same address lookup were for the same code: the URL sent to ViaCEP identifies the code asked about. |
| `Scenarios.MalformedCodesRejected` | internal/service/cep_service_test.go:59-71 | "12345" and "abcde123" are rejected with "invalid zipcode", and no request is made. |
| `Scenarios.KnownCodeResolved` | internal/service/cep_service_test.go:34-57 | A valid code with a decoded locality resolves to that locality, after a request to `https://viacep.com.br/ws/<cep>/json/`. |
| `Scenarios.UnknownCodeNotFound` | internal/service/cep_service_test.go:73-94 | `{"erro": "true"}` gives "can not find zipcode", after a request to the code's URL. |
| `Scenarios.ResolverFailuresWrapped` | internal/service/cep_service_test.go:96-161 | An invalid JSON body, a client error and a 400 status give the decode, fetch and invalid-zipcode errors with their texts. |
| `Scenarios.TwentyFiveDegrees` | internal/service/weather_service_test.go:15-44 | 25 °C is 77 °F and 298 K. |
| `Scenarios.ReadingConverted` | internal/service/weather_service.go:44-67 | With a configured key, any status and a decoded reading give its three scales, after a request to the WeatherAPI URL. |
| `Scenarios.WeatherLookupFailures` | internal/service/weather_service_test.go:46-76 | A missing key gives "weather API key not configured" with no request. A client error gives "error fetching weather data: " + cause. |
| `Scenarios.CityEscaped` | internal/service/weather_service.go:32 | "São Paulo" is sent as `S%C3%A3o+Paulo`. |
| `Scenarios.EndToEndSuccess` | internal/handler/weather_handler.go:24-48 | A valid code, a decoded city and a configured key give 200 with the three scales. The trace is exactly the ViaCEP request, then the WeatherAPI request. |
| `Scenarios.EndToEndSaoPaulo` | internal/handler/weather_handler.go:47 | `/weather/01001000` for São Paulo at 25 °C gives 200 `{25, 77, 298}` after the two expected requests. |
| `Scenarios.EndToEndNotFound` | internal/handler/weather_handler.go:32-33 | `{"erro": "true"}` gives 404 "can not find zipcode", and only the address lookup is made. |
| `Scenarios.EndToEndMalformed` | internal/handler/weather_handler.go:30-31 | `/weather/12345` gives 422 "invalid zipcode" with no outbound call. |
| `Scenarios.EndToEndResolverDown` | internal/handler/weather_handler.go:34-35 | When the address service is unreachable, the reply is 500 "internal server error". |

## Left out

- `Weather.FromCelsius`: temperatures are Dafny `real`, not `float64`, and the `round` helper (`internal/service/weather_service.go:70-73`) is not modelled. Rounding goes through `fmt.Sprintf("%.*f")` and `strconv.ParseFloat`, which are floating-point library behaviour. The reply holds the exact values that the formulas give.
- JSON decoding (`json.NewDecoder`, `json.Unmarshal`) is not modelled. The decoded fields, or the decoder's failure, are inputs. A field missing from the body is taken to decode as `""` or `0`, as Go does.
- The HTTP client (`httpClient.Do`, the 10-second timeout, and the default client chosen when `nil` is passed, `internal/service/cep_service.go:21-23`) is not modelled. Its answer is an input. `resp.Body.Close` has no observable effect here. `NewWeatherService` keeps a `nil` client as it is; that the client exists is taken for granted.
- `GoHttp.NewRequestError`: only `url.Parse`'s control-byte check is modelled. Its other failure, a malformed `%` escape after a `#`, can happen only when the API key contains `#`, and is not modelled. The error text is the inner cause `net/url: invalid control character in URL`, without the `parse "<url>": ` prefix that Go's `url.Error` adds.
- `GoFmt.Sprintf`: only `%s`, `%%`, a missing argument and a lone trailing `%` are modelled. Other verbs, flags and widths, and the `%!(EXTRA …)` suffix for unused arguments, are not; both URL templates use only `%s` with the right number of arguments.
- Strings are sequences of Unicode scalar values. Go strings are byte sequences and may hold invalid UTF-8, which the model cannot represent. Text decoded from JSON is always valid UTF-8.
- The gin `Context` (`c.Param`, `c.JSON`) and `log.Println` are not modelled. The handler returns its status and body as a value, and it is given the path parameter directly.
- `cmd/api/main.go` (`.env` loading, reading the environment, router setup, port binding) is process plumbing and is not part of this model.
- `model.CEPServiceResponse` (with a boolean `Erro`) and `model.WeatherAPICurrent` are not used by the core, so they are not modelled.
- Concurrency between requests is not modelled: the services hold no mutable state after construction.
