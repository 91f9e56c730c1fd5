/** The postal-code (CEP) resolver: validates the code, asks the ViaCEP
    address service for it and classifies the answer. */
module Cep {
  import opened Results
  import opened GoFmt
  import opened GoHttp

  const BaseUrl := "https://viacep.com.br/ws/%s/json/"

  datatype CepService = CepService(baseURL: string)

  /** The two fields the resolver decodes from the address service's JSON;
      a field missing from the body decodes as the empty string. */
  datatype ViaCepBody = ViaCepBody(localidade: string, erro: string)

  datatype CepError =
    | InvalidZipcode   // bad format, or the address service answered 400
    | RequestFailed    // http.NewRequest rejected the URL
    | FetchFailed      // the HTTP client failed
    | DecodeFailed     // the body was not the expected JSON
    | NotFound         // the address service knows no such code

  const InvalidZipcodeMessage := "invalid zipcode"
  const NotFoundMessage := "can not find zipcode"

  /** The URL the resolver requests for a code. */
  function CepUrl(cep: string): (url: string)
  {
    "https://viacep.com.br/ws/" + cep + "/json/"
  }

  /** The template, filled with a code, is the ViaCEP URL of that code. */
  lemma CepTemplate(cep: string)
    ensures Sprintf(BaseUrl, [cep]) == CepUrl(cep)
  {
    assert BaseUrl == "https://viacep.com.br/ws/" + "%s" + "/json/";
    assert [cep] + [] == [cep];
    SprintfOne("https://viacep.com.br/ws/", "/json/", cep, []);
  }

  /** `NewCEPService`: its template yields the ViaCEP URL for every code. */
  function NewCepService(): (s: CepService)
    ensures forall cep :: Sprintf(s.baseURL, [cep]) == CepUrl(cep)
  {
    forall cep ensures Sprintf(BaseUrl, [cep]) == CepUrl(cep) {
      CepTemplate(cep);
    }
    CepService(BaseUrl)
  }

  /** The URL determines the code it was built from. */
  lemma CepUrlInjective(a: string, b: string)
    requires CepUrl(a) == CepUrl(b)
    ensures a == b
  {
    var p := "https://viacep.com.br/ws/";
    assert a == CepUrl(a)[|p|..|CepUrl(a)| - 6];
    assert b == CepUrl(b)[|p|..|CepUrl(b)| - 6];
  }

  predicate IsAsciiDigit(c: char)
  {
    '0' <= c <= '9'
  }

  /** A postal code: exactly eight ASCII digits. */
  predicate IsCep(s: string)
  {
    |s| == 8 && forall i | 0 <= i < |s| :: IsAsciiDigit(s[i])
  }

  /** RE2's `\d{n}$` matched at the start of `s`: `\d` is an ASCII digit and
      `$`, without the multi-line flag, only the end of the text. */
  predicate MatchesDigitsToEnd(s: string, n: nat)
    decreases n
  {
    if n == 0 then s == []
    else s != [] && IsAsciiDigit(s[0]) && MatchesDigitsToEnd(s[1..], n - 1)
  }

  /** `regexp.MustCompile("^\d{8}$").MatchString(s)`. */
  predicate MatchesCepPattern(s: string)
  {
    MatchesDigitsToEnd(s, 8)
  }

  /** The pattern accepts exactly the strings of `n` ASCII digits. */
  lemma {:induction false} MatchesDigitsToEndIff(s: string, n: nat)
    ensures MatchesDigitsToEnd(s, n) <==> |s| == n && forall i | 0 <= i < |s| :: IsAsciiDigit(s[i])
    decreases n
  {
    if n > 0 && s != [] {
      MatchesDigitsToEndIff(s[1..], n - 1);
      assert forall i | 1 <= i < |s| :: s[i] == s[1..][i - 1];
    }
  }

  lemma PatternIsCep(s: string)
    ensures MatchesCepPattern(s) <==> IsCep(s)
  {
    MatchesDigitsToEndIff(s, 8);
  }

  /** The default URL of a valid code passes `http.NewRequest`. */
  lemma CepUrlAccepted(cep: string)
    requires IsCep(cep)
    ensures NewRequestError(CepUrl(cep)) == None
  {
    var prefix, suffix := "https://viacep.com.br/ws/", "/json/";
    assert forall i | 0 <= i < |prefix| :: !IsControl(prefix[i]);
    assert forall i | 0 <= i < |suffix| :: !IsControl(suffix[i]);
    ControlFree(prefix);
    ControlFree(cep);
    ControlFree(suffix);
    NoControlConcat(prefix, cep);
    NoControlConcat(prefix + cep, suffix);
  }

  /** What the address service sent back, classified in the order the
      resolver checks it; the two texts the handler matches on each identify
      one error kind. */
  function Classify(exchange: Exchange<Decoding<ViaCepBody>>): (r: Result<string, CepError>)
    ensures r.Err? ==> (r.message == InvalidZipcodeMessage <==> r.kind == InvalidZipcode)
    ensures r.Err? ==> (r.message == NotFoundMessage <==> r.kind == NotFound)
  {
    match exchange
    case TransportError(cause) =>
      HeadsDiffer("error fetching CEP: ", cause, InvalidZipcodeMessage);
      HeadsDiffer("error fetching CEP: ", cause, NotFoundMessage);
      Err(FetchFailed, "error fetching CEP: " + cause)
    case Response(status, body) =>
      if status == StatusBadRequest then Err(InvalidZipcode, InvalidZipcodeMessage)
      else
        match body
        case Undecodable(cause) =>
          HeadsDiffer("error decoding CEP response: ", cause, InvalidZipcodeMessage);
          HeadsDiffer("error decoding CEP response: ", cause, NotFoundMessage);
          Err(DecodeFailed, "error decoding CEP response: " + cause)
        case Decoded(fields) =>
          if fields.erro == "true" || fields.localidade == "" then Err(NotFound, NotFoundMessage)
          else Ok(fields.localidade)
  }

  /** `CEPService.GetCity(cep)`, with the HTTP client's answer as `exchange`. */
  function GetCity(svc: CepService, cep: string, exchange: Exchange<Decoding<ViaCepBody>>): (r: Lookup<string, CepError>)
    // A code that is not eight ASCII digits is rejected before any request.
    ensures !IsCep(cep) ==> r == Lookup(Err(InvalidZipcode, InvalidZipcodeMessage), None)
    // A request is made only for a valid code, and to the templated URL; with
    // the default service it is always made, to the ViaCEP URL.
    ensures r.request.Some? ==> IsCep(cep) && r.request.value == Sprintf(svc.baseURL, [cep])
    ensures svc == NewCepService() && IsCep(cep) ==> r.request == Some(CepUrl(cep))
    ensures IsCep(cep) && NewRequestError(Sprintf(svc.baseURL, [cep])).None? ==>
      r.request == Some(Sprintf(svc.baseURL, [cep]))
    // A URL that `http.NewRequest` rejects is an error wrapping its cause, with no request.
    ensures IsCep(cep) && NewRequestError(Sprintf(svc.baseURL, [cep])).Some? ==>
      r == Lookup(Err(RequestFailed, "error creating request: " + NewRequestError(Sprintf(svc.baseURL, [cep])).value), None)
    // Transport failure, status 400 and an undecodable body, in that order.
    ensures r.request.Some? && exchange.TransportError? ==>
      r.result == Err(FetchFailed, "error fetching CEP: " + exchange.cause)
    ensures r.request.Some? && exchange.Response? && exchange.status == StatusBadRequest ==>
      r.result == Err(InvalidZipcode, InvalidZipcodeMessage)
    ensures r.request.Some? && exchange.Response? && exchange.status != StatusBadRequest && exchange.body.Undecodable? ==>
      r.result == Err(DecodeFailed, "error decoding CEP response: " + exchange.body.cause)
    // Not found exactly when the decoded flag is the string "true" or the locality is empty.
    ensures r.request.Some? && exchange.Response? && exchange.status != StatusBadRequest && exchange.body.Decoded? ==>
      (r.result == Err(NotFound, NotFoundMessage) <==>
        exchange.body.value.erro == "true" || exchange.body.value.localidade == "")
    // A found locality is returned as the city.
    ensures (&& r.request.Some? && exchange.Response? && exchange.status != StatusBadRequest && exchange.body.Decoded?
             && exchange.body.value.erro != "true" && exchange.body.value.localidade != "") ==>
      r.result == Ok(exchange.body.value.localidade)
    // A city is only ever the decoded, non-empty locality.
    ensures r.result.Ok? ==>
      && r.request.Some? && exchange.Response? && exchange.status != StatusBadRequest
      && exchange.body.Decoded? && exchange.body.value.erro != "true"
      && r.result.value == exchange.body.value.localidade && r.result.value != ""
    // The two texts the handler matches on each identify one kind.
    ensures r.result.Err? ==> (r.result.message == InvalidZipcodeMessage <==> r.result.kind == InvalidZipcode)
    ensures r.result.Err? ==> (r.result.message == NotFoundMessage <==> r.result.kind == NotFound)
  {
    PatternIsCep(cep);
    if !MatchesCepPattern(cep) then Lookup(Err(InvalidZipcode, InvalidZipcodeMessage), None)
    else
      var url := Sprintf(svc.baseURL, [cep]);
      assert svc == NewCepService() ==> NewRequestError(url) == None by {
        if svc == NewCepService() {
          CepUrlAccepted(cep);
        }
      }
      match NewRequestError(url)
      case Some(cause) =>
        HeadsDiffer("error creating request: ", cause, InvalidZipcodeMessage);
        HeadsDiffer("error creating request: ", cause, NotFoundMessage);
        Lookup(Err(RequestFailed, "error creating request: " + cause), None)
      case None => Lookup(Classify(exchange), Some(url))
  }

  /** An invalid code gives the same answer whatever the address service would have said. */
  lemma InvalidCepIgnoresService(svc: CepService, cep: string, e1: Exchange<Decoding<ViaCepBody>>, e2: Exchange<Decoding<ViaCepBody>>)
    requires !IsCep(cep)
    ensures GetCity(svc, cep, e1) == GetCity(svc, cep, e2)
  {
  }

  /** A 400 answer is "invalid zipcode" whatever its body holds. */
  lemma BadRequestIgnoresBody(svc: CepService, cep: string, b1: Decoding<ViaCepBody>, b2: Decoding<ViaCepBody>)
    ensures GetCity(svc, cep, Response(StatusBadRequest, b1)) == GetCity(svc, cep, Response(StatusBadRequest, b2))
  {
  }
}
