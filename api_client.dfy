/** The request helpers (frontend/src/utils/api.js): the API base URL, the
    origin the socket and uploads use, and the Authorization header every
    request carries while a token is stored. The build environment and
    `window.location.origin` are parameters. */
module ApiClient {
  import opened Wrappers
  import opened AuthStorage
  import Strings

  /** `REACT_APP_API_URL`, else `/api` in production builds and the local
      development server otherwise. */
  function ApiBaseUrl(configured: Option<string>, nodeEnv: string): (base: string)
    ensures Strings.Truthy(configured) ==> base == configured.value
    ensures !Strings.Truthy(configured) && nodeEnv == "production" ==> base == "/api"
    ensures !Strings.Truthy(configured) && nodeEnv != "production" ==> base == "http://localhost:4000/api"
  {
    Strings.Or(configured, if nodeEnv == "production" then "/api" else "http://localhost:4000/api")
  }

  /** `base.replace(/\/api\/?$/, "")`: a final `/api` or `/api/` is cut off;
      the pattern is anchored at the end, so nothing else is touched. */
  function StripApiSuffix(base: string): (r: string)
    ensures Strings.EndsWith(base, "/api/") ==> r + "/api/" == base
    ensures Strings.EndsWith(base, "/api") ==> r + "/api" == base
    ensures !Strings.EndsWith(base, "/api/") && !Strings.EndsWith(base, "/api") ==> r == base
  {
    if Strings.EndsWith(base, "/api/") then
      assert base[|base| - 1] == '/';
      base[..|base| - 5]
    else if Strings.EndsWith(base, "/api") then base[..|base| - 4]
    else base
  }

  /** `getSocketBaseUrl()`, and the same expression `uploadFile` repeats for
      its base: a relative base means the page's own origin. */
  function SocketBaseUrl(base: string, origin: string): (r: string)
    ensures Strings.StartsWith(base, "/") ==> r == origin
    ensures !Strings.StartsWith(base, "/") ==> r == StripApiSuffix(base)
  {
    if Strings.StartsWith(base, "/") then origin else StripApiSuffix(base)
  }

  /** Where `uploadFile` posts the file. */
  function UploadTarget(base: string, origin: string): string {
    SocketBaseUrl(base, origin) + "/api/uploads"
  }

  /** An absolute base that ends in `/api`, with or without a slash, loses
      exactly that ending, however many `/api` come before it. */
  lemma StripsOneSuffix(server: string)
    ensures StripApiSuffix(server + "/api") == server
    ensures StripApiSuffix(server + "/api/") == server
  {
    var a, b := server + "/api", server + "/api/";
    assert a[|a| - 1] == 'i' && a[|a| - 4..] == "/api";
    assert b[|b| - 5..] == "/api/";
  }

  /** For an absolute base ending in `/api`, uploads go to that same API
      server, under its `/uploads` route. */
  lemma UploadsReachTheApi(server: string, origin: string)
    requires !Strings.StartsWith(server + "/api", "/")
    ensures UploadTarget(server + "/api", origin) == server + "/api" + "/uploads"
  {
    StripsOneSuffix(server);
  }

  /** In a production build without a configured URL, the socket and the
      uploads use the page's own origin. */
  lemma ProductionUsesOrigin(origin: string)
    ensures SocketBaseUrl(ApiBaseUrl(None, "production"), origin) == origin
    ensures UploadTarget(ApiBaseUrl(None, "production"), origin) == origin + "/api/uploads"
  {
    assert Strings.StartsWith("/api", "/");
  }

  /** The header value the client sends for a token. */
  function BearerHeader(token: string): string {
    "Bearer " + token
  }

  /** An outgoing request's configuration; the interceptor edits `headers`
      in place. */
  class RequestConfig {
    var headers: map<string, string>

    constructor (headers: map<string, string>)
      ensures this.headers == headers
    {
      this.headers := headers;
    }
  }

  /** The request interceptor: the header is set exactly when a non-empty
      token is stored; no other header changes. */
  method AttachToken(config: RequestConfig, store: LocalStorage)
    modifies config
    ensures Strings.Truthy(Token(store)) ==>
      config.headers == old(config.headers)["Authorization" := BearerHeader(Token(store).value)]
    ensures !Strings.Truthy(Token(store)) ==> config.headers == old(config.headers)
  {
    var token := store.GetItem(TokenKey);
    if Strings.Truthy(token) {
      config.headers := config.headers["Authorization" := BearerHeader(token.value)];
    }
  }

  /** The headers `uploadFile` builds. */
  function UploadHeaders(token: Option<string>): (h: map<string, string>)
    ensures "Content-Type" in h && h["Content-Type"] == "multipart/form-data"
    ensures "Authorization" in h <==> Strings.Truthy(token)
    ensures "Authorization" in h ==> h["Authorization"] == BearerHeader(token.value)
    ensures h.Keys <= {"Content-Type", "Authorization"}
  {
    var h := map["Content-Type" := "multipart/form-data"];
    if Strings.Truthy(token) then h["Authorization" := BearerHeader(token.value)] else h
  }
}
