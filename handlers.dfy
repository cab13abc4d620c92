/**
 * A provider handler (`IOAuth2Handler`) as the core sees it: what each call returns or
 * throws. The provider's HTTP token exchange and the persistence of credentials happen
 * behind these calls and are not part of the model.
 */
module Handlers {
  import opened Wrappers

  /** Request parameters after extraction: one value per expected name. */
  type Params = map<string, string>

  /** A `ServiceException`: its code and its message, either of which may be null. */
  datatype ServiceError = ServiceError(code: Option<string>, message: Option<string>)

  /** A call that returns normally (`Pass`) or throws a `ServiceException` (`Fail`). */
  datatype Outcome = Pass | Fail(error: ServiceError)

  /** The `OAuthInfo` passed to `authenticate`: the extracted params and the Zimbra auth token. */
  datatype AuthInfo = AuthInfo(params: Params, zmAuthToken: string)

  /** The calls the core makes on a handler, each as the function of its arguments it is. */
  datatype Handler = Handler(
    authorize: Option<string> -> Result<string, ServiceError>,
    authenticateParamKeys: seq<string>,
    verifyAuthenticateParams: Params -> Outcome,
    authenticate: AuthInfo -> Outcome,
    getRelay: Params -> Option<string>)
}
