# OAuth2 resource utilities and handler registry, in Dafny

This project models the request-handling core of the Zimbra OAuth social extension:

- `OAuth2ResourceUtilities` resolves a client's handler and turns a provider's OAuth2
  callback into a redirect. `authenticate` runs these steps in order:
  1. extract the parameters the handler expects;
  2. let the handler verify them;
  3. check for a Zimbra session token;
  4. let the handler exchange the code for a credential;
  5. redirect to the relay URL the handler names, once it is validated.
  The first failure is reported as `error` / `error_msg` query parameters on that redirect.
- `ClassManager.getHandler` keeps a cache of handler instances by client name. It builds
  and caches a handler the first time a client is asked for.

Modules, one file each:

| file | module | models |
|---|---|---|
| `wrappers.dfy` | `Wrappers` | `Option` (Java `null`) and `Result` (a return or a thrown exception) |
| `form_codec.dfy` | `FormCodec` | `URLDecoder.decode(.., "UTF-8")`: '+', `%XX` runs decoded as UTF-8, `Integer.parseInt(.., 16)` quirks, the `IllegalArgumentException` cases. Also the form encoding `URIBuilder.addParameter` applies |
| `uri_syntax.dfy` | `UriSyntax` | which strings `new java.net.URI(s)` accepts, and `isAbsolute` (has a scheme, RFC 3986 sections 3.1 and 4.3) |
| `uri_builder.dfy` | `UriBuilder` | `URIBuilder` as `addQueryParams` uses it: split a reference, append encoded `name=value` pairs after the existing query, rebuild it |
| `handlers.dfy` | `Handlers` | `IOAuth2Handler` as a record of what each of its calls returns or throws |
| `class_manager.dfy` | `ClassManager` | `getHandler` as a `Registry` class with the `handlersCache` map field. Configuration loading and reflective construction are a fallible `Factory` |
| `resource_utilities.dfy` | `ResourceUtilities` | `getParams`, `getValidatedRelay`, `addQueryParams`, `authenticate`, `authorize` |

The parts that change state step by step are methods proved against specification functions:

- `GetParams` and `AddQueryParams` are loops.
- `AuthenticateWith` fills the error map the way `authenticate` does.
- `Registry.GetHandler` updates the cache.

`ValidatedRelay`, `ErrorParamsFor` and `AuthenticateOutcome` are the specification functions. The lemmas beside them state what the source promises.

The iteration order of the `errorParams` `HashMap` is unspecified in Java. Each operation that visits it takes the order as an explicit parameter `order`. Only properties that hold for every order are stated about the URL: which pairs appear, not where.

Behaviour of the code that the model keeps as it is:

- Once the handler is resolved, `authenticate` does not always redirect. A malformed `%` escape in the relay makes `URLDecoder` throw `IllegalArgumentException`. Only `UnsupportedEncodingException` and `URISyntaxException` are caught (OAuth2ResourceUtilities.java:192-196), so `authenticate` throws (`MalformedRelayEscapes`). A request that carries an expected parameter with an empty values array also throws, at `values[0]` (:166).
- A verification error takes precedence over a missing session token: the token is checked only when the error map is still empty (:93), so `invalid_zm_auth_code` is reported only after verification passed (`VerifyFailureDecides`, `MissingTokenDecides`).
- A network-path relay such as `//evil.example/x` has no scheme, so the relay guard keeps it (`NetworkPathRelayKept`). It names another host.
- When `authenticate` throws for a malformed relay, the handler's exchange has already run.

## Model

| member | source | states |
|---|---|---|
| FormCodec.ParseHexPair | src/java/com/zimbra/oauth/utilities/OAuth2ResourceUtilities.java:188 | the two characters after '%' give a value in (-16, 256) only as `Integer.parseInt(.., 16)` reads them; a negative value only with a leading '-' |
| FormCodec.EscapeRun | src/java/com/zimbra/oauth/utilities/OAuth2ResourceUtilities.java:188 | a run of `%XX` escapes is read as a whole: it stops only where no further '%' follows, takes three characters per byte, and fewer than three characters is the incomplete-escape error |
| FormCodec.Utf8Decode | src/java/com/zimbra/oauth/utilities/OAuth2ResourceUtilities.java:188 | decoding a non-empty byte run yields at least one character. As in the JDK's decoder, a complete sequence that encodes a surrogate gives one U+FFFD, and any other malformed sequence gives one U+FFFD for its longest prefix that could start a well-formed sequence |
| FormCodec.EncodedSurrogateReplaced | src/java/com/zimbra/oauth/utilities/OAuth2ResourceUtilities.java:188 | the three bytes `ED A0..BF 80..BF` of an encoded surrogate decode to a single U+FFFD |
| FormCodec.TruncatedSurrogateReplaced | src/java/com/zimbra/oauth/utilities/OAuth2ResourceUtilities.java:188 | the first two bytes of an encoded surrogate at the end of the input decode to a single U+FFFD |
| FormCodec.FormDecode | src/java/com/zimbra/oauth/utilities/OAuth2ResourceUtilities.java:188 | a non-empty string that decodes gives a non-empty string |
| FormCodec.FormDecodePlain | src/java/com/zimbra/oauth/utilities/OAuth2ResourceUtilities.java:188 | text without '%' or '+' decodes to itself |
| FormCodec.TrailingPercentFails | src/java/com/zimbra/oauth/utilities/OAuth2ResourceUtilities.java:188 | a '%' at the end of otherwise plain text makes the decoder throw |
| FormCodec.Utf8RoundTrip | src/java/com/zimbra/oauth/utilities/OAuth2ResourceUtilities.java:188 | UTF-8 decoding inverts UTF-8 encoding for every string |
| FormCodec.FormRoundTrip | src/java/com/zimbra/oauth/utilities/OAuth2ResourceUtilities.java:224 | `URLDecoder` decoding inverts the form encoding of every string |
| FormCodec.FormEncodeSafe | src/java/com/zimbra/oauth/utilities/OAuth2ResourceUtilities.java:224 | a string of letters, digits and `. - * _` is its own form encoding |
| UriSyntax.ParsedAbsoluteIsColonFirst | src/java/com/zimbra/oauth/utilities/OAuth2ResourceUtilities.java:189 | for a string `new URI` accepts, having a scheme is the same as having a ':' before any '/', '?' or '#' |
| UriSyntax.InvalidSchemeFails | src/java/com/zimbra/oauth/utilities/OAuth2ResourceUtilities.java:189 | a ':' before any '/', '?' or '#' that follows an invalid scheme name is a `URISyntaxException` |
| UriBuilder.SplitRenderRoundTrip | src/java/com/zimbra/oauth/utilities/OAuth2ResourceUtilities.java:218-227 | rebuilding a split reference without added parameters gives it back |
| UriBuilder.RenderKeepsHead | src/java/com/zimbra/oauth/utilities/OAuth2ResourceUtilities.java:218-227 | the part before the query stays in front of the rebuilt reference |
| UriBuilder.RenderKeepsQuery | src/java/com/zimbra/oauth/utilities/OAuth2ResourceUtilities.java:218-227 | a non-empty existing query stays right after that part |
| UriBuilder.RenderAdds | src/java/com/zimbra/oauth/utilities/OAuth2ResourceUtilities.java:224-227 | every added pair occurs, as encoded `name=value`, in the rebuilt reference |
| UriBuilder.RenderKeepsFragment | src/java/com/zimbra/oauth/utilities/OAuth2ResourceUtilities.java:218-227 | an existing fragment, with its '#', stays at the end of the rebuilt reference |
| UriBuilder.RenderStaysRelative | src/java/com/zimbra/oauth/utilities/OAuth2ResourceUtilities.java:218-227 | adding parameters never puts a ':' before the first '/', '?' or '#' of a reference that had none there |
| UriBuilder.SplitAtQuery | src/java/com/zimbra/oauth/utilities/OAuth2ResourceUtilities.java:218 | a reference with one '?' and no '#' splits into the part before it and the query |
| ClassManager.Build | src/java/com/zimbra/oauth/managers/ClassManager.java:39-59 | a built handler comes from the client's configuration, from the class named by `classes.handlers.<client>`, constructed with that configuration, and a working chain always builds one. The class stage fails exactly when the key is missing or the class cannot be loaded, and the instantiation stage exactly when the constructor throws. A configuration failure of either kind, `InvalidClientException` included, becomes a `ConfigurationException` with the configuration message and its cause. A class or construction failure carries that step's message |
| ClassManager.Registry.constructor | src/java/com/zimbra/oauth/managers/ClassManager.java:19 | the cache starts empty and nothing has been constructed |
| ClassManager.Registry.GetHandler | src/java/com/zimbra/oauth/managers/ClassManager.java:29-64 | a hit returns the cached instance and changes nothing. A miss that fails throws the build's `ConfigurationException` and leaves the cache unchanged. A miss that succeeds returns a new instance, caches it under `client` with every other entry unchanged, and records one construction. At most one construction per client is an invariant |
| ClassManager.GetHandlerTwice | src/java/com/zimbra/oauth/managers/ClassManager.java:31-63 | a second call for the same client gives the same answer (the identical instance on success), and the two calls construct at most one handler |
| ResourceUtilities.ExtractParamsMeaning | src/java/com/zimbra/oauth/utilities/OAuth2ResourceUtilities.java:157-172 | the result has exactly the expected names the request carries with a non-null array, each mapped to its first value. It throws exactly when one of those arrays is empty, and reports that name |
| ResourceUtilities.ExtractFailureSticks | src/java/com/zimbra/oauth/utilities/OAuth2ResourceUtilities.java:162-169 | once `values[0]` throws for a prefix of the expected names, the whole loop throws the same |
| ResourceUtilities.GetParams | src/java/com/zimbra/oauth/utilities/OAuth2ResourceUtilities.java:157-172 | the loop computes `ExtractParams` of the expected names |
| ResourceUtilities.ValidatedRelay | src/java/com/zimbra/oauth/utilities/OAuth2ResourceUtilities.java:181-199 | an empty relay gives the default redirect. Otherwise it throws exactly when decoding throws. A decoded relay that parses and has no scheme is returned. Otherwise (a scheme or a syntax error) the default is returned. Every returned relay is non-empty, parses and has no ':' before its first '/', '?' or '#' |
| ResourceUtilities.RelativeRelayKept | src/java/com/zimbra/oauth/utilities/OAuth2ResourceUtilities.java:184-191 | a relative relay with nothing to decode is returned unchanged |
| ResourceUtilities.NetworkPathRelayKept | src/java/com/zimbra/oauth/utilities/OAuth2ResourceUtilities.java:189-191 | a network-path relay `//host/path` is kept |
| ResourceUtilities.AbsoluteRelayReplaced | src/java/com/zimbra/oauth/utilities/OAuth2ResourceUtilities.java:189-191 | a relay `scheme:rest` with nothing to decode gives the default redirect |
| ResourceUtilities.InvalidSchemeRelayReplaced | src/java/com/zimbra/oauth/utilities/OAuth2ResourceUtilities.java:188-196 | a relay with a ':' behind something that is not a scheme name makes the URI constructor throw `URISyntaxException`, and the default redirect is returned |
| ResourceUtilities.MalformedRelayThrows | src/java/com/zimbra/oauth/utilities/OAuth2ResourceUtilities.java:188-196 | `%zz` as relay throws `IllegalArgumentException` rather than giving the default |
| ResourceUtilities.AppendedPairsMembers | src/java/com/zimbra/oauth/utilities/OAuth2ResourceUtilities.java:220-226 | a pair is passed to `addParameter` exactly when its name is visited, is non-empty, and maps to a non-null non-empty value (so a null `error_msg` is never added) |
| ResourceUtilities.AppendedPairsDistinct | src/java/com/zimbra/oauth/utilities/OAuth2ResourceUtilities.java:220-226 | each name is added at most once |
| ResourceUtilities.AddQueryParams | src/java/com/zimbra/oauth/utilities/OAuth2ResourceUtilities.java:211-234 | the loop over the map's entries computes `QueryParamsAdded` |
| ResourceUtilities.QueryParamsAddedMeaning | src/java/com/zimbra/oauth/utilities/OAuth2ResourceUtilities.java:211-234 | the path is returned unchanged when it is empty, when the map is empty, when it does not parse, and when no entry has a non-empty name and value. Otherwise the part before the query and a non-empty existing query stay in front, an existing fragment stays at the end, and every entry with a non-empty name and value appears as encoded `name=value` |
| ResourceUtilities.ErrorAddedAfterQuery | src/java/com/zimbra/oauth/utilities/OAuth2ResourceUtilities.java:211-234 | a relative path with a query, such as `/app?x=1`, given `{error: code}`, becomes the path, '&' and `error=<code>` |
| ResourceUtilities.ErrorParamsFor | src/java/com/zimbra/oauth/utilities/OAuth2ResourceUtilities.java:75-123 | the error map only ever holds `error` and `error_msg`, holds `error` whenever it is non-empty, and is empty exactly when verification passes, the token is non-empty and the exchange passes |
| ResourceUtilities.VerifyFailureDecides | src/java/com/zimbra/oauth/utilities/OAuth2ResourceUtilities.java:80-93 | a failed verification gives `access_denied` with the message for `PERM_DENIED`, otherwise the failure's own code and no message. The token and the exchange then make no difference |
| ResourceUtilities.MissingTokenDecides | src/java/com/zimbra/oauth/utilities/OAuth2ResourceUtilities.java:93-102 | with verification passed and an empty or null token, the error is `invalid_zm_auth_code` with the fixed message, and the exchange is not consulted |
| ResourceUtilities.ExchangeFailureDecides | src/java/com/zimbra/oauth/utilities/OAuth2ResourceUtilities.java:103-121 | a failed exchange gives `access_denied` without a message for `PERM_DENIED`, otherwise `authentication_error` with the failure's message |
| ResourceUtilities.AuthenticateWith | src/java/com/zimbra/oauth/utilities/OAuth2ResourceUtilities.java:75-127 | filling the error map step by step and redirecting computes `AuthenticateOutcome` |
| ResourceUtilities.OutcomeRedirect | src/java/com/zimbra/oauth/utilities/OAuth2ResourceUtilities.java:125-127 | every redirect is the validated relay of `getRelay(params)` with the error map added, whatever the handler's steps did |
| ResourceUtilities.RedirectCarriesError | src/java/com/zimbra/oauth/utilities/OAuth2ResourceUtilities.java:125-127 | when the error map has a non-empty code, the redirect contains `error=<code>` |
| ResourceUtilities.MissingTokenRedirect | src/java/com/zimbra/oauth/utilities/OAuth2ResourceUtilities.java:93-127 | with verification passed and no token, the redirect contains `error=invalid_zm_auth_code` and `error_msg=<fixed message>` |
| ResourceUtilities.RedirectIsRelative | src/java/com/zimbra/oauth/utilities/OAuth2ResourceUtilities.java:125-127 | every redirect `authenticate` returns has no scheme, with or without error parameters |
| ResourceUtilities.CleanRedirect | src/java/com/zimbra/oauth/utilities/OAuth2ResourceUtilities.java:93-127 | when every step passes, the redirect is the validated relay itself |
| ResourceUtilities.MalformedRelayEscapes | src/java/com/zimbra/oauth/utilities/OAuth2ResourceUtilities.java:125-127 | a relay with a malformed escape makes `authenticate` throw `IllegalArgumentException` whatever the handler did |
| ResourceUtilities.Authenticate | src/java/com/zimbra/oauth/utilities/OAuth2ResourceUtilities.java:72-128 | a handler resolution failure is thrown as it is. Otherwise the result is `AuthenticateOutcome` of the resolved handler. The registry keeps its invariant. A hit or a failed build leaves the cache unchanged. A successful build caches a new instance of the built handler under `client` and records one construction |
| ResourceUtilities.Authorize | src/java/com/zimbra/oauth/utilities/OAuth2ResourceUtilities.java:57-60 | a handler resolution failure is thrown as it is. Otherwise the result is the handler's `authorize(relay)`, location or `ServiceException`. A hit or a failed build leaves the cache unchanged. A successful build caches a new instance of the built handler under `client` and records one construction |
| ResourceUtilities.AuthenticateThenAuthorize | src/java/com/zimbra/oauth/utilities/OAuth2ResourceUtilities.java:57-128 | `authenticate` and then `authorize` for one client run through the same handler, construct at most one handler, and both throw the same resolution failure when there is no handler |

## Left out

- `refresh` (OAuth2ResourceUtilities.java:139-148): it only wraps the handler's `refresh` in a JAX-RS response built by `OAuth2Utilities`, which is not part of this model.
- `ServiceNotAvailableException`: constructors only; no logic.
- The provider handlers and their HTTP token exchanges and persistence. Each handler call is a function of its arguments (`Handlers.Handler`), so a handler with side effects or varying answers is not modelled.
- `Configuration.buildConfiguration`, `Class.forName` and the reflective constructor call. They are the `ClassManager.Factory` the registry is given; `Configuration` is not part of this model.
- A missing `classes.handlers.<client>` entry is treated like a class that cannot be loaded. A loaded class that is not an `IOAuth2Handler` (a `ClassCastException`) is not modelled.
- The `synchronized` block and `Collections.synchronizedMap`: calls are sequential. The re-check of the cache under the lock then finds what the first check found, so `GetHandler` checks once.
- `ZimbraLog` logging.
- `OAuth2Constants` is not part of this model. `DEFAULT_SUCCESS_REDIRECT` is taken as "/", the text of `ERROR_INVALID_ZM_AUTH_CODE_MSG` is a stand-in, and `ENCODING` is taken as UTF-8. With UTF-8 the `UnsupportedEncodingException` branch (192-193) cannot be reached.
- Java strings are UTF-16. Dafny characters are Unicode scalar values, so unpaired surrogates are not modelled.
- `Integer.parseInt` also accepts non-ASCII digits that `Character.digit` knows; only ASCII hex digits (and the sign quirks) are modelled.
- `java.net.URI` parsing: a bracketed IPv6 authority is treated as a syntax error. A server-based authority (user info, port) is checked only as registry-name characters.
- `URIBuilder.build().toString()` re-parses and re-encodes the existing query and normalises the path. The model keeps both as they were. A `URISyntaxException` from `build()` is not modelled; only the parse of the path can fail.
- A null `path` or null `params` map for `addQueryParams` and a null name in a map: `authenticate` does not pass them, and they are not modelled.
- A null element inside a request's values array is not modelled: the values are non-null strings. In the code a null `values[0]` is put into the parameter map (:166) and reaches the handler's `verifyAuthenticateParams`, `authenticate` and `getRelay`.
- `HashMap` iteration order is a parameter, so every statement about the URL holds for any order.
- ResourceUtilities.ExtractParamsMeaning: the reported name is an expected name whose array is empty; that it is the first such name in list order is not stated.
- ResourceUtilities.ArrayIndexOutOfBounds: the exception `values[0]` throws (:166) carries the index 0, not a parameter name. The name in the model's fault is a label the model adds: `ExtractParams` reports the first expected name, in list order, whose array is empty.
- ClassManager.Factory: a client's configuration and the class path are taken as fixed, so the factory is a pure function. A build that failed fails the same way when it is retried; in the code a retry runs `Configuration.buildConfiguration` and `Class.forName` again and may succeed. `GetHandlerTwice` and `AuthenticateThenAuthorize` rely on this for their statements about a failed first call.
