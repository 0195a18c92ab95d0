/**
 * Worldline payments: the string a request to the Worldline API signs, the
 * credentials it is made with, the locale it is made in, and the
 * classification of a failed payment's Worldline status code.
 */
module Worldlines {
  import opened Py

  const POST := "POST"
  const CONTENT_TYPE := "application/json; charset=utf-8"
  const BASE_SUFFIX := "v2"
  const NL := "\n"
  const SLASH := "/"

  /** getContentType: a payload type only for POST requests. */
  function ContentType(httpMethod: string): (r: string)
    ensures r != "" <==> httpMethod == POST
  {
    if httpMethod == POST then CONTENT_TYPE else ""
  }

  /** The API path of an endpoint: "/v2/<pspid>/<endpoint>". */
  function EndpointPath(pspid: string, endpoint: string): string
  {
    SLASH + BASE_SUFFIX + SLASH + pspid + SLASH + endpoint
  }

  /** getStringToHash: method, content type, date, path, each followed by a newline. */
  function StringToHash(endpoint: string, now: string, httpMethod: string, pspid: string): string
  {
    httpMethod + NL + ContentType(httpMethod) + NL + now + NL + EndpointPath(pspid, endpoint) + NL
  }

  /**
   * The signed string holds its four lines and nothing else: splitting it at
   * newlines gives back the method, the content type (empty unless POST), the
   * date and the endpoint's path.
   */
  lemma {:induction false} StringToHashLines(endpoint: string, now: string, httpMethod: string, pspid: string)
    requires '\n' !in httpMethod && '\n' !in now && '\n' !in pspid && '\n' !in endpoint
    ensures Split(StringToHash(endpoint, now, httpMethod, pspid), NL)
            == [httpMethod, ContentType(httpMethod), now, EndpointPath(pspid, endpoint), ""]
  {
    var path := EndpointPath(pspid, endpoint);
    var ws := [httpMethod, ContentType(httpMethod), now, path, ""];
    Join5(ws, NL);
    assert StringToHash(endpoint, now, httpMethod, pspid) == Join(ws, NL);
    assert '\n' !in path by {
      assert path == SLASH + BASE_SUFFIX + SLASH + (pspid + SLASH + endpoint);
      NoNewlineConcat(SLASH + BASE_SUFFIX + SLASH, pspid + SLASH + endpoint);
      NoNewlineConcat(pspid + SLASH, endpoint);
      NoNewlineConcat(pspid, SLASH);
    }
    assert '\n' !in ContentType(httpMethod);
    forall k | 0 <= k < |ws| ensures !Contains(ws[k], NL) {
      ContainsChar(ws[k], '\n');
    }
    SplitJoin(ws, NL);
  }

  lemma {:induction false} NoNewlineConcat(a: string, b: string)
    requires '\n' !in a && '\n' !in b
    ensures '\n' !in a + b
  {
    forall i | 0 <= i < |a + b| ensures (a + b)[i] != '\n' {
      if i >= |a| {
        assert (a + b)[i] == b[i - |a|];
      }
    }
  }

  // ------------------------------------------------------------------------
  // getCredentials
  // ------------------------------------------------------------------------

  /** A PSPID, API key and API secret, any of which may be None. */
  datatype Credentials = Credentials(pspid: Option<string>, apiKey: Option<string>, apiSecret: Option<string>)
  {
    predicate HasNone() { pspid.None? || apiKey.None? || apiSecret.None? }
  }

  /** `x or y`: y when x is None or empty. */
  function Or(x: Option<string>, y: Option<string>): (r: Option<string>)
    ensures x.Some? && x.value != "" ==> r == x
    ensures x.None? || x.value == "" ==> r == y
  {
    if x.Some? && x.value != "" then x else y
  }

  /**
   * getCredentials, for a field whose credentials method (when it has one)
   * returned `custom`: without a method, the configuration's triple; a
   * returned triple with a None in it is completed from the configuration;
   * any other result is returned as is.
   */
  function GetCredentials(hasMethod: bool, custom: Option<Credentials>, config: Credentials): (r: Option<Credentials>)
    ensures !hasMethod ==> r == Some(config)
    ensures hasMethod && (custom.None? || !custom.value.HasNone()) ==> r == custom
  {
    if !hasMethod then Some(config)
    else if custom.Some? && custom.value.HasNone() then
      var c := custom.value;
      Some(Credentials(Or(c.pspid, config.pspid), Or(c.apiKey, config.apiKey), Or(c.apiSecret, config.apiSecret)))
    else custom
  }

  /**
   * Completing a triple with a None: every given non-empty entry is kept, every
   * missing or empty one comes from the configuration; so with a complete
   * configuration the result has no None left.
   */
  lemma {:induction false} CredentialsCompleted(custom: Credentials, config: Credentials)
    requires custom.HasNone()
    ensures GetCredentials(true, Some(custom), config).Some?
    ensures var r := GetCredentials(true, Some(custom), config).value;
            && (custom.pspid.Some? && custom.pspid.value != "" ==> r.pspid == custom.pspid)
            && (custom.pspid.None? || custom.pspid.value == "" ==> r.pspid == config.pspid)
            && (custom.apiKey.Some? && custom.apiKey.value != "" ==> r.apiKey == custom.apiKey)
            && (custom.apiKey.None? || custom.apiKey.value == "" ==> r.apiKey == config.apiKey)
            && (custom.apiSecret.Some? && custom.apiSecret.value != "" ==> r.apiSecret == custom.apiSecret)
            && (custom.apiSecret.None? || custom.apiSecret.value == "" ==> r.apiSecret == config.apiSecret)
            && (!config.HasNone() ==> !r.HasNone())
  {
  }

  // ------------------------------------------------------------------------
  // getLocale
  // ------------------------------------------------------------------------

  const LOCALES: map<string, string> := map["en" := "UK", "fr" := "BE", "nl" := "BE"]
  const DEFAULT_LOCALE := "en_UK"

  /** getLocale: "<lang>_<country>" for a supported language, en_UK for any other. */
  function Locale(lang: string): (r: string)
    ensures lang in LOCALES ==> r == lang + "_" + LOCALES[lang]
    ensures lang !in LOCALES ==> r == DEFAULT_LOCALE
  {
    if lang in LOCALES then lang + "_" + LOCALES[lang] else DEFAULT_LOCALE
  }

  /** English is British, French and Dutch are Belgian, and every locale names its language. */
  lemma {:induction false} Locales(lang: string)
    ensures Locale("en") == "en_UK" && Locale("fr") == "fr_BE" && Locale("nl") == "nl_BE"
    ensures StartsWith(Locale(lang), if lang in LOCALES then lang else "en")
  {
    var r := Locale(lang);
    if lang in LOCALES {
      assert r[..|lang|] == lang;
    } else {
      assert r[..2] == "en";
    }
  }

  // ------------------------------------------------------------------------
  // getErrorType
  // ------------------------------------------------------------------------

  const PAY_SUC := 0
  const PAY_REJ := 1
  const PAY_WRO := 2
  const PAY_UNK := 3
  const PAY_CAN := 4

  /** The codes whose message is the full Worldline response. */
  const DETAIL_CODES: set<int> := {PAY_WRO, PAY_UNK}
  /** The failure categories, in the order they are tried. */
  const FAILURE_CODES: seq<int> := [PAY_REJ, PAY_WRO, PAY_CAN]

  /** paymentCodes: the Worldline status codes of each category. */
  function PaymentCodes(category: int): set<int>
  {
    if category == PAY_SUC then {9}
    else if category == PAY_REJ then {6, 61, 62, 64, 75, 96, 2, 57, 59, 73, 83, 93}
    else if category == PAY_WRO then {0, 5, 56, 46, 50, 51, 55}
    else if category == PAY_CAN then {1}
    else {}
  }

  /** The first failure category holding the status code, else PAY_UNK. */
  function FailCode(code: int): int
  {
    if code in PaymentCodes(PAY_REJ) then PAY_REJ
    else if code in PaymentCodes(PAY_WRO) then PAY_WRO
    else if code in PaymentCodes(PAY_CAN) then PAY_CAN
    else PAY_UNK
  }

  const WL := "WL="
  const ATTRIBUTE_ERROR := "AttributeError"

  /**
   * What getErrorType reads of a Worldline response: the status code of
   * `resp.paymentResult.payment` (None when the response has no payment
   * result, Some(None) when that status carries no readable code), the status
   * code of the response itself (read when the response is the status, `full`
   * being False), and its text `str(resp)`.
   */
  datatype Response = Response(payment: Option<Option<int>>, code: Option<int>, text: string)

  /**
   * The status code getErrorType works on. With `full`, the payment status is
   * looked up before the try, so a response without a payment result raises
   * AttributeError out of getErrorType.
   */
  function StatusCode(resp: Response, full: bool): (r: Result<Option<int>>)
    ensures r.Err? <==> full && resp.payment.None?
    ensures r.Ok? ==> r.value == if full then resp.payment.value else resp.code
  {
    if !full then Ok(resp.code)
    else if resp.payment.None? then Err(ATTRIBUTE_ERROR)
    else Ok(resp.payment.value)
  }

  /**
   * The category and message for a status code that could be read (`code`)
   * or not (None, the AttributeError the try catches); `text` is `str(resp)`.
   */
  function Classify(code: Option<int>, text: string): (int, string)
  {
    if code.None? then (PAY_WRO, text)
    else
      var f := FailCode(code.value);
      (f, if f in DETAIL_CODES then text else WL + IntToString(code.value))
  }

  /** getErrorType: the category and the message to log, or the AttributeError it lets escape. */
  function ErrorType(resp: Response, full: bool): Result<(int, string)>
  {
    match StatusCode(resp, full)
    case Err(e) => Err(e)
    case Ok(code) => Ok(Classify(code, resp.text))
  }

  /** getErrorType, with its loop over the failure categories and its `found` flag. */
  method GetErrorType(resp: Response, full: bool) returns (r: Result<(int, string)>)
    ensures r == ErrorType(resp, full)
  {
    var status := StatusCode(resp, full);
    if status.Err? {
      return Err(status.error);
    }
    if status.value.None? {
      return Ok((PAY_WRO, resp.text));
    }
    var c := status.value.value;
    var found := false;
    var failCode := PAY_UNK;
    var k := 0;
    while k < |FAILURE_CODES| && !found
      invariant 0 <= k <= |FAILURE_CODES|
      invariant found ==> k > 0 && failCode == FAILURE_CODES[k - 1] && c in PaymentCodes(failCode)
      invariant forall j | 0 <= j < k - (if found then 1 else 0) :: c !in PaymentCodes(FAILURE_CODES[j])
    {
      if c in PaymentCodes(FAILURE_CODES[k]) {
        found := true;
        failCode := FAILURE_CODES[k];
      }
      k := k + 1;
    }
    if !found {
      failCode := PAY_UNK;
    }
    if found {
      assert forall j | 0 <= j < k - 1 :: c !in PaymentCodes(FAILURE_CODES[j]);
    } else {
      assert c !in PaymentCodes(FAILURE_CODES[0]) && c !in PaymentCodes(FAILURE_CODES[1])
        && c !in PaymentCodes(FAILURE_CODES[2]);
    }
    assert failCode == FailCode(c);
    var text := if failCode in DETAIL_CODES then resp.text else WL + IntToString(c);
    r := Ok((failCode, text));
  }

  /**
   * The categories are disjoint, so the order they are tried in does not
   * matter: a status code is classified in the failure category that holds
   * it, and as uncertain when none does (a success code included).
   */
  lemma {:induction false} ErrorTypeClassifies(code: int, text: string)
    ensures Classify(Some(code), text).0 == PAY_REJ <==> code in PaymentCodes(PAY_REJ)
    ensures Classify(Some(code), text).0 == PAY_WRO <==> code in PaymentCodes(PAY_WRO)
    ensures Classify(Some(code), text).0 == PAY_CAN <==> code in PaymentCodes(PAY_CAN)
    ensures Classify(Some(code), text).0 == PAY_UNK <==>
              code !in PaymentCodes(PAY_REJ) + PaymentCodes(PAY_WRO) + PaymentCodes(PAY_CAN)
    ensures Classify(Some(code), text).0 != PAY_SUC
  {
  }

  /**
   * getErrorType raises exactly when `full` is set and the response has no
   * payment result (the onPay path, which calls onError with the defaults).
   * Otherwise wrong and uncertain payments log the full response and the
   * others "WL=<code>"; a status without a readable code is a wrong payment
   * logged in full.
   */
  lemma {:induction false} ErrorTextDetail(resp: Response, full: bool)
    ensures ErrorType(resp, full).Err? <==> full && resp.payment.None?
    ensures ErrorType(resp, full).Ok? ==>
              var (f, text) := ErrorType(resp, full).value;
              var code := if full then resp.payment.value else resp.code;
              (f == PAY_WRO || f == PAY_UNK ==> text == resp.text)
              && (f == PAY_REJ || f == PAY_CAN ==> code.Some? && text == WL + IntToString(code.value))
              && (code.None? ==> (f, text) == (PAY_WRO, resp.text))
              && (code.Some? ==> f == FailCode(code.value))
  {
  }
}
