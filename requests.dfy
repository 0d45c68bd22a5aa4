/**
 The two HTTP requests the exporter sends to the JupyterHub REST API: the
 user-list fetch and the per-user server stop. Each is built from the API host
 and token flags by string concatenation; usernames are inserted unescaped.
 The parsers `TokenOf` and `UserOfServerUrl` invert the builders and are used
 to state what a built request addresses.
 */
module Requests {

  import opened Wrappers
  import opened Flags

  datatype Method = Get | Delete

  datatype Request = Request(verb: Method, url: string, headers: map<string, string>)

  const Authorization: string := "Authorization"
  const TokenScheme: string := "token "
  const UsersPath: string := "/users"
  const ServerPath: string := "/server"

  /** The header map sent with every request. */
  function AuthHeaders(token: string): (h: map<string, string>)
    ensures h.Keys == {Authorization}
    ensures TokenOf(h[Authorization]) == Some(token)
  {
    var value := TokenScheme + token;
    assert value[..|TokenScheme|] == TokenScheme && value[|TokenScheme|..] == token;
    map[Authorization := value]
  }

  /** The token carried by an Authorization header value, if it has the token scheme. */
  function TokenOf(value: string): (t: Option<string>)
    ensures t.Some? ==> TokenScheme + t.value == value
    ensures t.None? ==> forall token :: TokenScheme + token != value
  {
    if |value| >= |TokenScheme| && value[..|TokenScheme|] == TokenScheme then
      assert TokenScheme + value[|TokenScheme|..] == value;
      Some(value[|TokenScheme|..])
    else
      assert forall token :: (TokenScheme + token)[..|TokenScheme|] == TokenScheme;
      None
  }

  /** The user-list URL: the host followed by the users collection path. It
      is not the server URL of any user. */
  function UsersUrl(host: string): (url: string)
    ensures |url| == |host| + |UsersPath| && url[..|host|] == host && url[|host|..] == UsersPath
    ensures UserOfServerUrl(host, url) == None
  {
    host + UsersPath
  }

  /** The URL of a user's server: the host, the users collection, the
      username inserted as it is, and the server path. */
  function ServerUrl(host: string, user: string): (url: string)
    ensures var prefix := host + UsersPath + "/";
      && |url| == |prefix| + |user| + |ServerPath|
      && url[..|prefix|] == prefix
      && url[|prefix|..|prefix| + |user|] == user
      && url[|prefix| + |user|..] == ServerPath
  {
    host + UsersPath + "/" + user + ServerPath
  }

  /** The user whose server `url` addresses under `host`, if any. */
  function UserOfServerUrl(host: string, url: string): (u: Option<string>)
    ensures u.Some? ==> ServerUrl(host, u.value) == url
  {
    var prefix := host + UsersPath + "/";
    if |url| >= |prefix| + |ServerPath| && url[..|prefix|] == prefix && url[|url| - |ServerPath|..] == ServerPath then
      var user := url[|prefix|..|url| - |ServerPath|];
      assert url == url[..|prefix|] + user + url[|url| - |ServerPath|..];
      Some(user)
    else
      None
  }

  /** Decoding the URL of a user's server gives back that user. */
  lemma ServerUrlRoundTrip(host: string, user: string)
    ensures UserOfServerUrl(host, ServerUrl(host, user)) == Some(user)
  {
  }

  /** Distinct users' servers have distinct URLs under one host. */
  lemma ServerUrlInjective(host: string, u1: string, u2: string)
    requires ServerUrl(host, u1) == ServerUrl(host, u2)
    ensures u1 == u2
  {
    ServerUrlRoundTrip(host, u1);
    ServerUrlRoundTrip(host, u2);
  }

  /** The request `GetActiveUser` sends: GET on the users collection. */
  function UserListRequest(cfg: Config): (r: Request)
    ensures r.verb == Get
    ensures r.headers.Keys == {Authorization} && TokenOf(r.headers[Authorization]) == Some(cfg.apiToken)
    ensures r.url == UsersUrl(cfg.apiHost) && UserOfServerUrl(cfg.apiHost, r.url) == None
  {
    Request(Get, UsersUrl(cfg.apiHost), AuthHeaders(cfg.apiToken))
  }

  /** The request `StopSingleServer` sends for `user`: DELETE on that user's server. */
  function StopRequest(cfg: Config, user: string): (r: Request)
    ensures r.verb == Delete
    ensures r.headers.Keys == {Authorization} && TokenOf(r.headers[Authorization]) == Some(cfg.apiToken)
    ensures UserOfServerUrl(cfg.apiHost, r.url) == Some(user)
  {
    ServerUrlRoundTrip(cfg.apiHost, user);
    Request(Delete, ServerUrl(cfg.apiHost, user), AuthHeaders(cfg.apiToken))
  }

  /** Stop requests for different users differ. */
  lemma StopRequestInjective(cfg: Config, u1: string, u2: string)
    requires StopRequest(cfg, u1) == StopRequest(cfg, u2)
    ensures u1 == u2
  {
  }
}
