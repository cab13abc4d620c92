/**
 * `OAuth2ResourceUtilities`: resolving a client's handler and turning the provider's
 * callback into a redirect. `authenticate` extracts the expected parameters, asks the
 * handler to verify them, checks for the Zimbra session token, lets the handler exchange
 * the code for a credential, and redirects to the validated relay with `error` and
 * `error_msg` query parameters describing the first failure.
 */
module ResourceUtilities {
  import opened Wrappers
  import opened Handlers
  import opened FormCodec
  import opened UriSyntax
  import opened UriBuilder
  import ClassManager

  const QueryError := "error"
  const QueryErrorMsg := "error_msg"
  const ErrorAccessDenied := "access_denied"
  const ErrorInvalidZmAuthCode := "invalid_zm_auth_code"
  const ErrorInvalidZmAuthCodeMsg := "No Zimbra auth token was found."
  const ErrorAuthenticationError := "authentication_error"
  /** `ServiceException.PERM_DENIED`. */
  const PermDenied := "service.PERM_DENIED"
  const DefaultSuccessRedirect := "/"

  /** The request's query parameters: each name maps to its array of values, which may be null. */
  type QueryParams = map<string, Option<seq<string>>>

  /** The error parameters `authenticate` collects; a value may be null. */
  type ErrorParams = map<string, Option<string>>

  /** The exceptions that leave `authorize` and `authenticate`. */
  datatype Fault =
    | ConfigurationError(configuration: ClassManager.ConfigurationException)
    | ServiceFailure(service: ServiceError)
    | IllegalArgument(decode: DecodeFault)
    | ArrayIndexOutOfBounds(key: string)  // labelled with the expected name whose array is empty

  /** `StringUtils.isEmpty`: null or "". */
  predicate IsEmpty(s: Option<string>) {
    s.None? || s.value == ""
  }

  // ------------------------------------------------------------------ getParams

  /**
   * What `getParams` computes over the expected names: each name the request carries with
   * a non-null array maps to the array's first element; an empty array makes `values[0]`
   * throw, reported with the name.
   */
  function ExtractParams(expected: seq<string>, query: QueryParams): Result<Params, string> {
    if expected == [] then Success(map[])
    else
      var key := expected[|expected| - 1];
      match ExtractParams(expected[..|expected| - 1], query)
      case Failure(k) => Failure(k)
      case Success(found) =>
        if key in query && query[key].Some? then
          if query[key].value == [] then Failure(key) else Success(found[key := query[key].value[0]])
        else Success(found)
  }

  /** The expected names the request carries with a non-null array. */
  ghost function Carried(expected: seq<string>, query: QueryParams): set<string> {
    set k | k in expected && k in query && query[k].Some?
  }

  /**
   * `getParams` keeps exactly the expected names the request carries, each with its first
   * value, and throws exactly when one of those carries an empty array.
   */
  lemma {:induction false} ExtractParamsMeaning(expected: seq<string>, query: QueryParams)
    ensures ExtractParams(expected, query).Success? <==>
      forall k | k in Carried(expected, query) :: query[k].value != []
    ensures ExtractParams(expected, query).Success? ==>
      && ExtractParams(expected, query).value.Keys == Carried(expected, query)
      && forall k | k in Carried(expected, query) :: ExtractParams(expected, query).value[k] == query[k].value[0]
    ensures ExtractParams(expected, query).Failure? ==>
      var k := ExtractParams(expected, query).error;
      k in expected && k in query && query[k] == Some([])
  {
    if expected != [] {
      var init := expected[..|expected| - 1];
      var key := expected[|expected| - 1];
      ExtractParamsMeaning(init, query);
      assert expected == init + [key];
      assert Carried(expected, query) ==
        Carried(init, query) + (if key in query && query[key].Some? then {key} else {});
      var r := ExtractParams(init, query);
      if r.Failure? {
        assert r.error in Carried(expected, query);
      }
    }
  }

  /** Once a prefix of the expected names throws, the whole loop throws the same. */
  lemma {:induction false} ExtractFailureSticks(expected: seq<string>, query: QueryParams, n: nat)
    requires n <= |expected| && ExtractParams(expected[..n], query).Failure?
    ensures ExtractParams(expected, query) == ExtractParams(expected[..n], query)
    decreases |expected|
  {
    if n < |expected| {
      var init := expected[..|expected| - 1];
      assert init[..n] == expected[..n];
      ExtractFailureSticks(init, query, n);
    } else {
      assert expected[..n] == expected;
    }
  }

  /** `getParams`. */
  method GetParams(expected: seq<string>, query: QueryParams) returns (r: Result<Params, string>)
    ensures r == ExtractParams(expected, query)
  {
    var found: Params := map[];
    for i := 0 to |expected|
      invariant ExtractParams(expected[..i], query) == Success(found)
    {
      var key := expected[i];
      assert expected[..i + 1][..i] == expected[..i];
      if key in query && query[key].Some? {
        var values := query[key].value;
        if values == [] {
          ExtractFailureSticks(expected, query, i + 1);
          return Failure(key);
        }
        found := found[key := values[0]];
      }
    }
    assert expected[..|expected|] == expected;
    return Success(found);
  }

  // ---------------------------------------------------------- getValidatedRelay

  lemma DefaultRedirectIsRelative()
    ensures UriParses(DefaultSuccessRedirect) && !ColonFirst(DefaultSuccessRedirect)
  {
    assert IndexOfAny(DefaultSuccessRedirect, {'?', '#'}) == 1;
  }

  /**
   * `getValidatedRelay`: a non-empty relay is form-decoded and kept when it parses as a
   * URI without a scheme; anything else gives the default redirect. A malformed escape
   * makes the decoder throw, and that exception is not caught.
   */
  function ValidatedRelay(url: Option<string>): (r: Result<string, DecodeFault>)
    ensures IsEmpty(url) ==> r == Success(DefaultSuccessRedirect)
    ensures !IsEmpty(url) ==> (r.Failure? <==> FormDecode(url.value).Failure?)
    ensures r.Success? ==> r.value != "" && UriParses(r.value) && !ColonFirst(r.value)
    ensures !IsEmpty(url) && FormDecode(url.value).Success? ==>
      var decoded := FormDecode(url.value).value;
      && (UriParses(decoded) && !HasScheme(decoded) ==> r == Success(decoded))
      && (!UriParses(decoded) || HasScheme(decoded) ==> r == Success(DefaultSuccessRedirect))
  {
    DefaultRedirectIsRelative();
    if IsEmpty(url) then Success(DefaultSuccessRedirect)
    else match FormDecode(url.value)
      case Failure(f) => Failure(f)
      case Success(decoded) =>
        if UriParses(decoded) && !HasScheme(decoded) then
          ParsedAbsoluteIsColonFirst(decoded);
          Success(decoded)
        else Success(DefaultSuccessRedirect)
  }

  /** A relative relay with nothing to decode is kept as it is. */
  lemma {:induction false} RelativeRelayKept(url: string)
    requires url != ""
    requires forall i | 0 <= i < |url| :: url[i] != '%' && url[i] != '+'
    requires UriParses(url) && !ColonFirst(url)
    ensures ValidatedRelay(Some(url)) == Success(url)
  {
    FormDecodePlain(url);
  }

  /**
   * A network-path reference "//host/path" names another host and has no scheme: the
   * guard keeps it.
   */
  lemma {:induction false} NetworkPathRelayKept(host: string, path: string)
    requires host != [] && path != [] && path[0] == '/'
    requires forall i | 0 <= i < |host| :: IsAlpha(host[i]) || IsDigit(host[i]) || host[i] == '.' || host[i] == '-'
    requires forall i | 0 <= i < |path| :: (IsUnreserved(path[i]) || path[i] == '/') && path[i] != '+'
    ensures ValidatedRelay(Some("//" + host + path)) == Success("//" + host + path)
  {
    var s := "//" + host + path;
    assert forall i | 0 <= i < |s| :: s[i] != '%' && s[i] != '+' by {
      assert forall i | 0 <= i < |s| :: s[i] == '/' || s[i] in host || s[i] in path;
    }
    FormDecodePlain(s);
    NetworkPathParses(host, path);
  }

  /** A relay "scheme:rest" with nothing to decode is replaced by the default redirect. */
  lemma {:induction false} AbsoluteRelayReplaced(scheme: string, rest: string)
    requires SchemeNameOk(scheme)
    requires forall i | 0 <= i < |rest| :: rest[i] != '%' && rest[i] != '+'
    requires forall i | 0 <= i < |scheme| :: scheme[i] != '+'
    ensures ValidatedRelay(Some(scheme + ":" + rest)) == Success(DefaultSuccessRedirect)
  {
    var s := scheme + ":" + rest;
    assert forall i | 0 <= i < |s| :: s[i] == (if i < |scheme| then scheme[i] else if i == |scheme| then ':' else rest[i - |scheme| - 1]);
    FormDecodePlain(s);
    IndexOfAnyAt(s, {':', '/', '?', '#'}, |scheme|);
    assert s[..|scheme|] == scheme;
  }

  /**
   * A relay with a ':' before any '/', '?' or '#' behind something that is not a scheme
   * name makes the URI constructor throw `URISyntaxException`, which gives the default.
   */
  lemma {:induction false} InvalidSchemeRelayReplaced(url: string)
    requires forall i | 0 <= i < |url| :: url[i] != '%' && url[i] != '+'
    requires ColonFirst(url) && !SchemeNameOk(url[..SchemeEnd(url)])
    ensures ValidatedRelay(Some(url)) == Success(DefaultSuccessRedirect)
  {
    FormDecodePlain(url);
    InvalidSchemeFails(url);
  }

  /** A malformed escape in the relay escapes as `IllegalArgumentException`. */
  lemma MalformedRelayThrows()
    ensures ValidatedRelay(Some("%zz")) == Failure(IllegalHexCharacters)
  {
  }

  // ------------------------------------------------------------- addQueryParams

  /** The pairs `addQueryParams` passes to `addParameter`, visiting the names in `order`. */
  function AppendedPairs(order: seq<string>, params: ErrorParams): seq<QueryPair> {
    if order == [] then []
    else
      var key := order[|order| - 1];
      var pairs := AppendedPairs(order[..|order| - 1], params);
      if key in params && key != "" && !IsEmpty(params[key]) then pairs + [(key, params[key].value)]
      else pairs
  }

  /** `order` lists every name of `params` once: an order in which a map hands out its entries. */
  predicate IsIterationOrder(order: seq<string>, params: ErrorParams) {
    && (forall i, j | 0 <= i < j < |order| :: order[i] != order[j])
    && (forall k | k in params :: k in order)
  }

  /** Exactly the entries with a non-empty name and a non-empty value are added. */
  lemma {:induction false} AppendedPairsMembers(order: seq<string>, params: ErrorParams)
    ensures forall p :: p in AppendedPairs(order, params) <==>
      p.0 in order && p.0 in params && p.0 != "" && params[p.0] == Some(p.1) && p.1 != ""
  {
    if order != [] {
      var init := order[..|order| - 1];
      AppendedPairsMembers(init, params);
      assert order == init + [order[|order| - 1]];
    }
  }

  predicate NamesDistinct(ps: seq<QueryPair>) {
    forall i, j | 0 <= i < j < |ps| :: ps[i].0 != ps[j].0
  }

  /** Each name is added at most once. */
  lemma {:induction false} AppendedPairsDistinct(order: seq<string>, params: ErrorParams)
    requires forall i, j | 0 <= i < j < |order| :: order[i] != order[j]
    ensures NamesDistinct(AppendedPairs(order, params))
  {
    if order != [] {
      var init := order[..|order| - 1];
      var key := order[|order| - 1];
      AppendedPairsDistinct(init, params);
      AppendedPairsMembers(init, params);
      assert key !in init;
      var pairs := AppendedPairs(init, params);
      if key in params && key != "" && !IsEmpty(params[key]) {
        var ps := pairs + [(key, params[key].value)];
        assert AppendedPairs(order, params) == ps;
        forall i, j | 0 <= i < j < |ps|
          ensures ps[i].0 != ps[j].0
        {
          if j == |pairs| {
            assert pairs[i] in pairs;
            assert ps[j].0 == key && ps[i] == pairs[i];
          } else {
            assert ps[i] == pairs[i] && ps[j] == pairs[j];
          }
        }
      }
    }
  }

  /**
   * What `addQueryParams` returns: the path itself when it is empty, when there are no
   * parameters, or when it does not parse; otherwise the path with the pairs appended.
   */
  function QueryParamsAdded(path: string, params: ErrorParams, order: seq<string>): string {
    if path == "" || |params| < 1 || !UriParses(path) then path
    else Render(SplitUri(path), AppendedPairs(order, params))
  }

  /** `addQueryParams`, visiting the entries of `params` in `order`. */
  method AddQueryParams(path: string, params: ErrorParams, order: seq<string>) returns (r: string)
    requires IsIterationOrder(order, params)
    ensures r == QueryParamsAdded(path, params, order)
  {
    if path == "" || |params| < 1 {
      return path;
    }
    if !UriParses(path) {
      return path;
    }
    var pathUri := SplitUri(path);
    var added: seq<QueryPair> := [];
    for i := 0 to |order|
      invariant added == AppendedPairs(order[..i], params)
    {
      var key := order[i];
      assert order[..i + 1][..i] == order[..i];
      if key in params {
        var value := params[key];
        if key != "" && !IsEmpty(value) {
          added := added + [(key, value.value)];
        }
      }
    }
    assert order[..|order|] == order;
    r := Render(pathUri, added);
  }

  /**
   * The promises of `addQueryParams`: no change for an empty path, an empty map or a path
   * that does not parse; otherwise the part before the query and a non-empty existing
   * query stay in front, an existing fragment stays at the end, and every entry with a
   * non-empty name and value appears encoded.
   */
  lemma {:induction false} QueryParamsAddedMeaning(path: string, params: ErrorParams, order: seq<string>)
    requires IsIterationOrder(order, params)
    ensures path == "" || |params| == 0 || !UriParses(path) ==> QueryParamsAdded(path, params, order) == path
    ensures UriParses(path) ==> SplitUri(path).head <= QueryParamsAdded(path, params, order)
    ensures UriParses(path) && SplitUri(path).query.Some? && SplitUri(path).query.value != "" ==>
      SplitUri(path).head + "?" + SplitUri(path).query.value <= QueryParamsAdded(path, params, order)
    ensures path != "" && UriParses(path) ==>
      forall k | k in params && k != "" && !IsEmpty(params[k]) ::
        Contains(QueryParamsAdded(path, params, order), RenderPair((k, params[k].value)))
    ensures (forall k | k in params :: k == "" || IsEmpty(params[k])) ==> QueryParamsAdded(path, params, order) == path
    ensures UriParses(path) && SplitUri(path).fragment.Some? ==>
      EndsWith(QueryParamsAdded(path, params, order), "#" + SplitUri(path).fragment.value)
  {
    var u := SplitUri(path);
    var ps := AppendedPairs(order, params);
    AppendedPairsMembers(order, params);
    if UriParses(path) && u.fragment.Some? {
      if path != "" && |params| >= 1 {
        RenderKeepsFragment(u, ps);
      } else {
        SplitRenderRoundTrip(path);
        RenderKeepsFragment(u, []);
      }
    }
    if path != "" && |params| >= 1 && UriParses(path) {
      RenderKeepsHead(u, ps);
      if u.query.Some? && u.query.value != "" {
        RenderKeepsQuery(u, ps);
      }
      forall k | k in params && k != "" && !IsEmpty(params[k])
        ensures Contains(QueryParamsAdded(path, params, order), RenderPair((k, params[k].value)))
      {
        RenderAdds(u, ps, (k, params[k].value));
      }
      if forall k | k in params :: k == "" || IsEmpty(params[k]) {
        if ps != [] {
          assert ps[0] in ps;
        }
        SplitRenderRoundTrip(path);
      }
    } else if UriParses(path) {
      SplitRenderRoundTrip(path);
      RenderKeepsHead(u, []);
      if u.query.Some? && u.query.value != "" {
        RenderKeepsQuery(u, []);
      }
    }
  }

  /** The single `error` entry with a non-empty code is the one pair added. */
  lemma SingleErrorPair(e: ErrorParams, code: string)
    requires code != "" && e == map[QueryError := Some(code)]
    ensures AppendedPairs([QueryError], e) == [(QueryError, code)]
    ensures |e| == 1
  {
    assert [QueryError][..0] == [];
  }

  /**
   * A relative path with a query, such as "/app?x=1", given one `error` entry: the entry
   * is added after the existing query, so both "x=1" and "error=<code>" end up in it.
   */
  lemma ErrorAddedAfterQuery(head: string, q: string, e: ErrorParams, code: string)
    requires head != [] && head[0] == '/' && (|head| == 1 || head[1] != '/')
    requires forall i | 0 <= i < |head| :: Allowed(Path, head[i])
    requires q != [] && forall i | 0 <= i < |q| :: Allowed(Uric, q[i]) && q[i] != '#'
    requires code != "" && e == map[QueryError := Some(code)]
    ensures QueryParamsAdded(head + "?" + q, e, [QueryError]) == head + "?" + q + "&" + RenderPair((QueryError, code))
  {
    var path := head + "?" + q;
    var u := SplitUri(path);
    var ps := AppendedPairs([QueryError], e);
    assert QueryParamsAdded(path, e, [QueryError]) == Render(u, ps) by {
      PathWithQueryParses(head, q);
      SingleErrorPair(e, code);
    }
    assert u == UriParts(head, Some(q), None) by {
      DelimitersNotAllowed();
      assert forall i | 0 <= i < |head| :: head[i] != '?' && head[i] != '#';
      SplitAtQuery(head, q);
    }
    assert ps == [(QueryError, code)] by {
      SingleErrorPair(e, code);
    }
    assert Render(u, ps) == head + "?" + q + "&" + RenderPair((QueryError, code)) by {
      RenderAfterQuery(head, q, ps);
      assert JoinPairs(ps) == RenderPair((QueryError, code));
    }
  }

  // --------------------------------------------------------------- authenticate

  /**
   * The error parameters `authenticate` collects: a failed verification of the
   * parameters; otherwise a missing session token; otherwise a failed exchange.
   * Permission denied becomes `access_denied` at both steps.
   */
  function ErrorParamsFor(h: Handler, params: Params, zmAuthToken: Option<string>): (e: ErrorParams)
    ensures e.Keys <= {QueryError, QueryErrorMsg}
    ensures e != map[] ==> QueryError in e
    ensures e == map[] <==>
      && h.verifyAuthenticateParams(params).Pass?
      && !IsEmpty(zmAuthToken)
      && h.authenticate(AuthInfo(params, zmAuthToken.value)).Pass?
  {
    match h.verifyAuthenticateParams(params)
    case Fail(err) =>
      if err.code == Some(PermDenied) then map[QueryError := Some(ErrorAccessDenied), QueryErrorMsg := err.message]
      else map[QueryError := err.code]
    case Pass =>
      if IsEmpty(zmAuthToken) then
        map[QueryError := Some(ErrorInvalidZmAuthCode), QueryErrorMsg := Some(ErrorInvalidZmAuthCodeMsg)]
      else match h.authenticate(AuthInfo(params, zmAuthToken.value))
        case Fail(err) =>
          if err.code == Some(PermDenied) then map[QueryError := Some(ErrorAccessDenied)]
          else map[QueryError := Some(ErrorAuthenticationError), QueryErrorMsg := err.message]
        case Pass => map[]
  }

  /**
   * A failed verification decides the error parameters whatever the session token and
   * the exchange would do: `access_denied` with the message for permission denied,
   * otherwise the failure's own code and no message.
   */
  lemma VerifyFailureDecides(h: Handler, params: Params, zmAuthToken: Option<string>, other: Option<string>,
                             exchange: AuthInfo -> Outcome)
    requires h.verifyAuthenticateParams(params).Fail?
    ensures var err := h.verifyAuthenticateParams(params).error;
      var e := ErrorParamsFor(h, params, zmAuthToken);
      && e[QueryError] == (if err.code == Some(PermDenied) then Some(ErrorAccessDenied) else err.code)
      && (QueryErrorMsg in e <==> err.code == Some(PermDenied))
      && (QueryErrorMsg in e ==> e[QueryErrorMsg] == err.message)
    ensures ErrorParamsFor(h.(authenticate := exchange), params, other) == ErrorParamsFor(h, params, zmAuthToken)
  {
  }

  /**
   * With the parameters verified and no session token, the error is `invalid_zm_auth_code`
   * with its message, and no exchange is attempted.
   */
  lemma MissingTokenDecides(h: Handler, params: Params, zmAuthToken: Option<string>, exchange: AuthInfo -> Outcome)
    requires h.verifyAuthenticateParams(params).Pass? && IsEmpty(zmAuthToken)
    ensures ErrorParamsFor(h, params, zmAuthToken)
      == map[QueryError := Some(ErrorInvalidZmAuthCode), QueryErrorMsg := Some(ErrorInvalidZmAuthCodeMsg)]
    ensures ErrorParamsFor(h.(authenticate := exchange), params, zmAuthToken) == ErrorParamsFor(h, params, zmAuthToken)
  {
  }

  /**
   * A failed exchange gives `access_denied` without a message for permission denied,
   * otherwise `authentication_error` with the failure's message.
   */
  lemma ExchangeFailureDecides(h: Handler, params: Params, zmAuthToken: Option<string>)
    requires h.verifyAuthenticateParams(params).Pass? && !IsEmpty(zmAuthToken)
    requires h.authenticate(AuthInfo(params, zmAuthToken.value)).Fail?
    ensures var err := h.authenticate(AuthInfo(params, zmAuthToken.value)).error;
      var e := ErrorParamsFor(h, params, zmAuthToken);
      && e[QueryError] == Some(if err.code == Some(PermDenied) then ErrorAccessDenied else ErrorAuthenticationError)
      && (QueryErrorMsg in e <==> err.code != Some(PermDenied))
      && (QueryErrorMsg in e ==> e[QueryErrorMsg] == err.message)
  {
  }

  /** The two orders in which a map of `error` and `error_msg` can hand out its entries. */
  predicate IsErrorOrder(order: seq<string>) {
    order == [QueryError, QueryErrorMsg] || order == [QueryErrorMsg, QueryError]
  }

  /**
   * What `authenticate` returns once the handler is resolved: the validated relay with the
   * error parameters added, or the exception that escapes. The relay is looked up on every
   * path, whatever the handler's verification and exchange did.
   */
  function AuthenticateOutcome(h: Handler, query: QueryParams, zmAuthToken: Option<string>, order: seq<string>)
    : Result<string, Fault>
  {
    match ExtractParams(h.authenticateParamKeys, query)
    case Failure(key) => Failure(ArrayIndexOutOfBounds(key))
    case Success(params) =>
      match ValidatedRelay(h.getRelay(params))
      case Failure(f) => Failure(IllegalArgument(f))
      case Success(relay) => Success(QueryParamsAdded(relay, ErrorParamsFor(h, params, zmAuthToken), order))
  }

  /** `authenticate` after `getHandler` returned `h`. */
  method AuthenticateWith(h: Handler, queryParams: QueryParams, zmAuthToken: Option<string>, order: seq<string>)
    returns (r: Result<string, Fault>)
    requires IsErrorOrder(order)
    ensures r == AuthenticateOutcome(h, queryParams, zmAuthToken, order)
  {
    var errorParams: ErrorParams := map[];
    var found := GetParams(h.authenticateParamKeys, queryParams);
    if found.Failure? {
      return Failure(ArrayIndexOutOfBounds(found.error));
    }
    var params := found.value;

    match h.verifyAuthenticateParams(params) {
      case Fail(e) =>
        if e.code == Some(PermDenied) {
          errorParams := errorParams[QueryError := Some(ErrorAccessDenied)];
          errorParams := errorParams[QueryErrorMsg := e.message];
        } else {
          errorParams := errorParams[QueryError := e.code];
        }
      case Pass =>
    }

    if |errorParams| == 0 {
      if IsEmpty(zmAuthToken) {
        errorParams := errorParams[QueryError := Some(ErrorInvalidZmAuthCode)];
        errorParams := errorParams[QueryErrorMsg := Some(ErrorInvalidZmAuthCodeMsg)];
      } else {
        var authInfo := AuthInfo(params, zmAuthToken.value);
        match h.authenticate(authInfo) {
          case Fail(e) =>
            if e.code == Some(PermDenied) {
              errorParams := errorParams[QueryError := Some(ErrorAccessDenied)];
            } else {
              errorParams := errorParams[QueryError := Some(ErrorAuthenticationError)];
              errorParams := errorParams[QueryErrorMsg := e.message];
            }
          case Pass =>
        }
      }
    }
    assert errorParams == ErrorParamsFor(h, params, zmAuthToken);

    var relay := h.getRelay(params);
    var validated := ValidatedRelay(relay);
    if validated.Failure? {
      return Failure(IllegalArgument(validated.error));
    }
    var location := AddQueryParams(validated.value, errorParams, order);
    r := Success(location);
  }

  /** The fixed names and codes are their own form encoding. */
  lemma FixedNamesEncodeAsThemselves()
    ensures FormEncode(QueryError) == QueryError
    ensures FormEncode(QueryErrorMsg) == QueryErrorMsg
    ensures FormEncode(ErrorInvalidZmAuthCode) == ErrorInvalidZmAuthCode
  {
    FormEncodeSafe(QueryError);
    FormEncodeSafe(QueryErrorMsg);
    FormEncodeSafe(ErrorInvalidZmAuthCode);
  }

  /** An error entry with a non-empty value appears, encoded, in the redirect built from a relay. */
  lemma ErrorEntryAdded(relay: string, e: ErrorParams, order: seq<string>, k: string)
    requires IsErrorOrder(order) && e.Keys <= {QueryError, QueryErrorMsg}
    requires relay != "" && UriParses(relay)
    requires k in e && k != "" && !IsEmpty(e[k])
    ensures Contains(QueryParamsAdded(relay, e, order), RenderPair((k, e[k].value)))
  {
    assert IsIterationOrder(order, e);
    QueryParamsAddedMeaning(relay, e, order);
  }

  /** How an entry with a fixed name reads in a query: the name, '=', the encoded value. */
  lemma FixedPairRendering(name: string, value: string)
    requires name in {QueryError, QueryErrorMsg}
    ensures RenderPair((name, value)) == name + "=" + FormEncode(value)
  {
    FixedNamesEncodeAsThemselves();
  }

  /** The redirect of an outcome that was not an exception is the relay with the errors added. */
  lemma OutcomeRedirect(h: Handler, query: QueryParams, zmAuthToken: Option<string>, order: seq<string>)
    requires AuthenticateOutcome(h, query, zmAuthToken, order).Success?
    ensures var params := ExtractParams(h.authenticateParamKeys, query).value;
      var relay := ValidatedRelay(h.getRelay(params));
      && relay.Success? && relay.value != "" && UriParses(relay.value)
      && AuthenticateOutcome(h, query, zmAuthToken, order).value
         == QueryParamsAdded(relay.value, ErrorParamsFor(h, params, zmAuthToken), order)
  {
  }

  /** A redirect that carries errors carries `error=<code>` for a non-empty code. */
  lemma RedirectCarriesError(h: Handler, query: QueryParams, zmAuthToken: Option<string>, order: seq<string>)
    requires IsErrorOrder(order)
    requires AuthenticateOutcome(h, query, zmAuthToken, order).Success?
    ensures var params := ExtractParams(h.authenticateParamKeys, query).value;
      var e := ErrorParamsFor(h, params, zmAuthToken);
      QueryError in e && !IsEmpty(e[QueryError]) ==>
        Contains(AuthenticateOutcome(h, query, zmAuthToken, order).value, QueryError + "=" + FormEncode(e[QueryError].value))
  {
    var params := ExtractParams(h.authenticateParamKeys, query).value;
    var e := ErrorParamsFor(h, params, zmAuthToken);
    OutcomeRedirect(h, query, zmAuthToken, order);
    var relay := ValidatedRelay(h.getRelay(params)).value;
    if QueryError in e && !IsEmpty(e[QueryError]) {
      ErrorEntryAdded(relay, e, order, QueryError);
      FixedPairRendering(QueryError, e[QueryError].value);
    }
  }

  /** Both entries of a two-entry error map with non-empty values appear in the redirect. */
  lemma BothEntriesAdded(relay: string, e: ErrorParams, order: seq<string>, code: string, msg: string)
    requires IsErrorOrder(order) && relay != "" && UriParses(relay)
    requires code != "" && msg != ""
    requires e == map[QueryError := Some(code), QueryErrorMsg := Some(msg)]
    ensures Contains(QueryParamsAdded(relay, e, order), QueryError + "=" + FormEncode(code))
    ensures Contains(QueryParamsAdded(relay, e, order), QueryErrorMsg + "=" + FormEncode(msg))
  {
    ErrorEntryAdded(relay, e, order, QueryError);
    ErrorEntryAdded(relay, e, order, QueryErrorMsg);
    FixedPairRendering(QueryError, code);
    FixedPairRendering(QueryErrorMsg, msg);
  }

  /**
   * Without a session token, and with the parameters verified, the redirect carries
   * `error=invalid_zm_auth_code` and the fixed message.
   */
  lemma MissingTokenRedirect(h: Handler, query: QueryParams, zmAuthToken: Option<string>, order: seq<string>)
    requires IsErrorOrder(order) && IsEmpty(zmAuthToken)
    requires AuthenticateOutcome(h, query, zmAuthToken, order).Success?
    requires h.verifyAuthenticateParams(ExtractParams(h.authenticateParamKeys, query).value).Pass?
    ensures var url := AuthenticateOutcome(h, query, zmAuthToken, order).value;
      && Contains(url, QueryError + "=" + FormEncode(ErrorInvalidZmAuthCode))
      && Contains(url, QueryErrorMsg + "=" + FormEncode(ErrorInvalidZmAuthCodeMsg))
  {
    var params := ExtractParams(h.authenticateParamKeys, query).value;
    OutcomeRedirect(h, query, zmAuthToken, order);
    var relay := ValidatedRelay(h.getRelay(params)).value;
    MissingTokenDecides(h, params, zmAuthToken, h.authenticate);
    BothEntriesAdded(relay, ErrorParamsFor(h, params, zmAuthToken), order, ErrorInvalidZmAuthCode, ErrorInvalidZmAuthCodeMsg);
  }

  /**
   * Every redirect `authenticate` returns is relative: no ':' comes before its first '/',
   * '?' or '#', so it has no scheme, with or without the error parameters.
   */
  lemma RedirectIsRelative(h: Handler, query: QueryParams, zmAuthToken: Option<string>, order: seq<string>)
    requires AuthenticateOutcome(h, query, zmAuthToken, order).Success?
    ensures !ColonFirst(AuthenticateOutcome(h, query, zmAuthToken, order).value)
    ensures !HasScheme(AuthenticateOutcome(h, query, zmAuthToken, order).value)
  {
    var params := ExtractParams(h.authenticateParamKeys, query).value;
    var e := ErrorParamsFor(h, params, zmAuthToken);
    OutcomeRedirect(h, query, zmAuthToken, order);
    var relay := ValidatedRelay(h.getRelay(params)).value;
    if |e| >= 1 {
      RenderStaysRelative(relay, AppendedPairs(order, e));
    }
  }

  /** When every step passes, the redirect is the validated relay itself. */
  lemma CleanRedirect(h: Handler, query: QueryParams, zmAuthToken: Option<string>, order: seq<string>)
    requires AuthenticateOutcome(h, query, zmAuthToken, order).Success?
    requires var params := ExtractParams(h.authenticateParamKeys, query).value;
      && h.verifyAuthenticateParams(params).Pass?
      && !IsEmpty(zmAuthToken)
      && h.authenticate(AuthInfo(params, zmAuthToken.value)).Pass?
    ensures var params := ExtractParams(h.authenticateParamKeys, query).value;
      AuthenticateOutcome(h, query, zmAuthToken, order).value == ValidatedRelay(h.getRelay(params)).value
    ensures var url := AuthenticateOutcome(h, query, zmAuthToken, order).value;
      UriParses(url) && !ColonFirst(url)
  {
  }

  /**
   * A relay with a malformed escape makes `authenticate` throw, whatever the handler's
   * verification and exchange did: no redirect is returned.
   */
  lemma MalformedRelayEscapes(h: Handler, query: QueryParams, zmAuthToken: Option<string>, order: seq<string>)
    requires ExtractParams(h.authenticateParamKeys, query).Success?
    requires ValidatedRelay(h.getRelay(ExtractParams(h.authenticateParamKeys, query).value)).Failure?
    ensures AuthenticateOutcome(h, query, zmAuthToken, order).Failure?
    ensures AuthenticateOutcome(h, query, zmAuthToken, order).error.IllegalArgument?
  {
  }

  // ------------------------------------------------------- authorize, authenticate

  /** `authenticate`: resolve the client's handler, then run the callback through it. */
  method Authenticate(registry: ClassManager.Registry, client: string, queryParams: QueryParams,
                      zmAuthToken: Option<string>, order: seq<string>)
    returns (r: Result<string, Fault>)
    requires registry.Valid() && IsErrorOrder(order)
    modifies registry
    ensures registry.Valid()
    ensures old(registry.constructed) <= registry.constructed
    ensures |registry.constructed| <= |old(registry.constructed)| + 1
    ensures client in old(registry.handlersCache) || ClassManager.Build(registry.factory, client).Failure? ==>
      registry.handlersCache == old(registry.handlersCache) && registry.constructed == old(registry.constructed)
    ensures client !in old(registry.handlersCache) && ClassManager.Build(registry.factory, client).Success? ==>
      && client in registry.handlersCache
      && fresh(registry.handlersCache[client])
      && registry.handlersCache[client].handler == ClassManager.Build(registry.factory, client).value.handler
      && registry.handlersCache == old(registry.handlersCache)[client := registry.handlersCache[client]]
      && registry.constructed == old(registry.constructed) + [client]
    ensures match ClassManager.Resolve(old(registry.handlersCache), registry.factory, client)
      case Failure(e) => r == Failure(ConfigurationError(e))
      case Success(h) => r == AuthenticateOutcome(h, queryParams, zmAuthToken, order)
  {
    var handler := registry.GetHandler(client);
    if handler.Failure? {
      return Failure(ConfigurationError(handler.error));
    }
    r := AuthenticateWith(handler.value.handler, queryParams, zmAuthToken, order);
  }

  /** The handler's authorize location, or its `ServiceException`. */
  function AuthorizeOutcome(h: Handler, relay: Option<string>): Result<string, Fault> {
    match h.authorize(relay)
    case Success(location) => Success(location)
    case Failure(err) => Failure(ServiceFailure(err))
  }

  /** `authorize`: resolve the client's handler and return its authorize location. */
  method Authorize(registry: ClassManager.Registry, client: string, relay: Option<string>)
    returns (r: Result<string, Fault>)
    requires registry.Valid()
    modifies registry
    ensures registry.Valid()
    ensures old(registry.constructed) <= registry.constructed
    ensures |registry.constructed| <= |old(registry.constructed)| + 1
    ensures client in old(registry.handlersCache) || ClassManager.Build(registry.factory, client).Failure? ==>
      registry.handlersCache == old(registry.handlersCache) && registry.constructed == old(registry.constructed)
    ensures client !in old(registry.handlersCache) && ClassManager.Build(registry.factory, client).Success? ==>
      && client in registry.handlersCache
      && fresh(registry.handlersCache[client])
      && registry.handlersCache[client].handler == ClassManager.Build(registry.factory, client).value.handler
      && registry.handlersCache == old(registry.handlersCache)[client := registry.handlersCache[client]]
      && registry.constructed == old(registry.constructed) + [client]
    ensures match ClassManager.Resolve(old(registry.handlersCache), registry.factory, client)
      case Failure(e) => r == Failure(ConfigurationError(e))
      case Success(h) => r == AuthorizeOutcome(h, relay)
  {
    var handler := registry.GetHandler(client);
    if handler.Failure? {
      return Failure(ConfigurationError(handler.error));
    }
    match handler.value.handler.authorize(relay) {
      case Success(location) => r := Success(location);
      case Failure(err) => r := Failure(ServiceFailure(err));
    }
  }

  /**
   * `authenticate` and then `authorize` for the same client: both run through the same
   * handler, and at most one handler is constructed for the two calls.
   */
  method AuthenticateThenAuthorize(registry: ClassManager.Registry, client: string, queryParams: QueryParams,
                                   zmAuthToken: Option<string>, order: seq<string>, relay: Option<string>)
    returns (authenticated: Result<string, Fault>, authorized: Result<string, Fault>)
    requires registry.Valid() && IsErrorOrder(order)
    modifies registry
    ensures registry.Valid()
    ensures |registry.constructed| <= |old(registry.constructed)| + 1
    ensures match ClassManager.Resolve(old(registry.handlersCache), registry.factory, client)
      case Failure(e) =>
        authenticated == Failure(ConfigurationError(e)) && authorized == Failure(ConfigurationError(e))
        && registry.handlersCache == old(registry.handlersCache)
      case Success(h) =>
        authenticated == AuthenticateOutcome(h, queryParams, zmAuthToken, order)
        && authorized == AuthorizeOutcome(h, relay)
  {
    authenticated := Authenticate(registry, client, queryParams, zmAuthToken, order);
    authorized := Authorize(registry, client, relay);
  }
}
