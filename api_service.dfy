/**
 * The client's HTTP wrapper: a request interceptor that adds the bearer header
 * to requests that ask for authentication, and a response interceptor that
 * hands the caller the response body.
 */
module ApiService {
  import opened Wrappers
  import opened Browser

  const AuthorizationHeader := "Authorization"
  const BearerPrefix := "Bearer "

  /** The options object of one request; `authenticate` is None when the option is missing or misspelled. */
  class RequestConfig {
    const url: string
    const authenticate: Option<bool>
    var headers: map<string, string>

    constructor (url: string, authenticate: Option<bool>, headers: map<string, string>)
      ensures this.url == url && this.authenticate == authenticate && this.headers == headers
    {
      this.url, this.authenticate, this.headers := url, authenticate, headers;
    }
  }

  /** The request asks for authentication (`config.authenticate === true`) and a non-empty token is stored. */
  predicate AddsBearer(authenticate: Option<bool>, token: Option<string>) {
    authenticate == Some(true) && token.Some? && token.value != ""
  }

  /** The request interceptor: only `headers.Authorization` may change, and only when `AddsBearer` holds. */
  method InterceptRequest(config: RequestConfig, storage: SessionStorage)
    modifies config`headers
    ensures var token := storage.GetItem(TokenKey);
            config.headers ==
              if AddsBearer(config.authenticate, token)
              then old(config.headers)[AuthorizationHeader := BearerPrefix + token.value]
              else old(config.headers)
  {
    var token := storage.GetItem(TokenKey);
    if config.authenticate == Some(true) && token.Some? && token.value != "" {
      config.headers := config.headers[AuthorizationHeader := BearerPrefix + token.value];
    }
  }

  /** A response as the transport delivers it. */
  datatype HttpResponse<T> = HttpResponse(status: int, data: T)

  /** The response interceptor's success path: callers receive `response.data`. */
  function Unwrap<T>(response: HttpResponse<T>): T {
    response.data
  }
}
