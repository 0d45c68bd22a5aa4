# JupyterHub exporter: scrape-time decision engine

A Dafny model of the core of `jupyterhub_exporter`, a Prometheus exporter for
JupyterHub. On every scrape the exporter fetches the hub's user list, keeps the
users that have a running server together with their last-activity instant in
Unix nanoseconds, and then splits them by an idle timeout of `waitHour` hours:
an active user yields one `active_user` sample (label `userName`, value the
last-activity instant); an idle user's server is stopped with one DELETE request.

Modules (all in one directory, verified together):

- `Wrappers` (`wrappers.dfy`): `Option`, standing for Go's nil map and for a failed timestamp parse.
- `Int64` (`int64.dfy`): Go's `int64` and its two's-complement wrap-around (`Wrap`).
- `Flags` (`flags.dfy`): the four command-line flags as one `Config` value, with their defaults.
- `Requests` (`requests.dfy`): the GET of the user list and the DELETE of a user's server, built by
  string concatenation from the host and token flags; `TokenOf` and `UserOfServerUrl` parse them back.
- `Activity` (`activity.dfy`): the active/idle rule `IsActive`, evaluated on int64 as Go does.
- `Fetcher` (`fetcher.dfy`): `GetActiveUser`, a loop over the decoded records proved against
  `ActiveIndex`, a left-to-right fold over the records that is the specification of the map.
- `Exporter` (`exporter.dfy`): `Collect`, a loop over the map's keys taken in arbitrary order. It
  returns the samples and the stop requests it sends, specified as multisets.

The transport and JSON decoding are one function parameter `api: Request -> Reply`. A `Reply` is a
transport failure, an undecodable body, or the decoded records. `time.Parse` followed by `UnixNano`
is the parameter `parse`. The value stored when parsing fails is the parameter `zero`: the source
stores `UnixNano()` of Go's zero `time.Time`, which is not the Unix epoch and is not pinned down
here. The clock reading is the parameter `now`.

Three behaviours of the code that the model keeps:

- A transport error yields a nil map (jupyterhub_exporter.go:99-102). On a JSON decoding error
  `GetActiveUser` returns an empty map (:107, :117-119). The model keeps the two apart as `None`
  and `Some(map[])`; `Collect` ranges over either as over an empty map.
- The `stop` flag (help text "stop single server", :25) is declared and never read, so every idle
  user is stopped. `Config.willStop` is carried and no member reads it.
- An unparsable timestamp is stored as the zero `time.Time`'s `UnixNano`, which is not the Unix
  epoch (:112-113).

## Model

| member | source | states |
|---|---|---|
| `Int64.Wrap` | jupyterhub_exporter.go:129 | the int64 Go produces for a mathematical value: the same value when it is in range, otherwise a value congruent to it modulo 2^64 |
| `Requests.AuthHeaders` | jupyterhub_exporter.go:76-78 | the header map has exactly the key `Authorization`, and its value carries the API token under the `token ` scheme |
| `Requests.TokenOf` | jupyterhub_exporter.go:77 | inverse of the header value: a token it returns rebuilds the value exactly, and it returns nothing only for values no token produces |
| `Requests.UserOfServerUrl` | jupyterhub_exporter.go:79 | inverse of the server URL: a user it returns rebuilds the URL `host + "/users/" + user + "/server"` exactly |
| `Requests.ServerUrlRoundTrip` | jupyterhub_exporter.go:79 | decoding the server URL built for a user gives back that user |
| `Requests.ServerUrlInjective` | jupyterhub_exporter.go:79 | under one host, different users' server URLs differ |
| `Requests.UsersUrl` | jupyterhub_exporter.go:97 | the user-list URL is the host followed by `/users`, and it is not the server URL of any user |
| `Requests.ServerUrl` | jupyterhub_exporter.go:79 | the server URL of a user is `host + "/users/"`, then the username inserted unescaped, then `/server` |
| `Requests.UserListRequest` | jupyterhub_exporter.go:93-97 | the user-list fetch is a GET of `host + "/users"` with the token's Authorization header, and it addresses no user's server |
| `Requests.StopRequest` | jupyterhub_exporter.go:75-80 | the stop request for a user is a DELETE with the token's Authorization header whose URL is the string `host + "/users/" + user + "/server"`, from which `UserOfServerUrl` recovers exactly that user |
| `Requests.StopRequestInjective` | jupyterhub_exporter.go:75-80 | stop requests for different users are different requests |
| `Activity.IsActive` | jupyterhub_exporter.go:129 | the int64 comparison `now - lastActivity < hours*60*60*1e9` with both sides wrapped as Go wraps them; when neither side overflows, it is exactly the strict comparison of elapsed time with the window |
| `Activity.WindowBoundaryIsIdle` | jupyterhub_exporter.go:129 | elapsed time exactly equal to the window is idle, with or without overflow |
| `Activity.LaterActivityStaysActive` | jupyterhub_exporter.go:129 | when the elapsed time does not overflow, a later last activity never turns an active user idle |
| `Fetcher.ActiveIndexDomain` | jupyterhub_exporter.go:110-115 | a username is in the map iff some record with that name has a non-empty server |
| `Fetcher.LastWriterWins` | jupyterhub_exporter.go:110-114 | the value stored for a name is the parsed timestamp, or the fallback, of the last record with that name and a non-empty server |
| `Fetcher.ActiveIndexHasLastWriter` | jupyterhub_exporter.go:110-114 | every name in the map has such a last record, so together with `LastWriterWins` each value is determined |
| `Fetcher.GetActiveUser` | jupyterhub_exporter.go:90-122 | issues the user-list GET. It returns a nil map exactly on a transport error and an empty map on a decoding error. Otherwise it returns the record fold `ActiveIndex` |
| `Exporter.DueAfterOneMore` | jupyterhub_exporter.go:128-140 | handling one more user adds exactly one outcome for that user: its sample when active, its stop request when idle |
| `Exporter.Collect` | jupyterhub_exporter.go:124-141 | the samples sent are, as a multiset, one `ActiveUser(u, m[u])` per active user of the fetched map `m`. The stop requests sent are one per idle user, with no flag consulted. A failed fetch gives neither |
| `Exporter.SnapshotOutcomes` | jupyterhub_exporter.go:128-140 | from `Collect`'s contract: each sample names a user in the map, carries that user's timestamp and is active. Each stop targets an idle user in the map. Every user in the map gets exactly one sample-or-stop |
| `Exporter.ThreeUserScenario` | jupyterhub_exporter.go:107-140 | with the default 24-hour window, a user active 1 hour ago is reported, a user active 30 hours ago is stopped, and a user with an empty server gets neither |

`Fetcher.ActiveIndex`, `Fetcher.FetchedIndex`, `Fetcher.Timestamp`, `Fetcher.IsLastWriter`,
`Exporter.UsersOf`, `Exporter.ActiveMetrics`, `Exporter.StopRequests` and `Exporter.ScrapedUsers`
are the specification functions the contracts above are stated in. They have no contract of their own.

## Left out

- HTTP transport (`APIRequest`, TLS with verification disabled, reading the body) and
  `json.Unmarshal`: abstracted as the parameter `api`, which returns any `Reply`.
- `time.Parse` with the layout `2006-01-02T15:04:05.000000Z`: abstracted as the parameter `parse`. The
  zero time's `UnixNano` is the uninterpreted parameter `zero`.
- `time.Now()`: the parameter `now`.
- URL parsing of the unescaped username by `http.NewRequest` (:51-53): the model stops at the URL
  string. A name containing `?`, `#` or `/` makes the request reach a different resource, and a
  name with a bad `%` escape makes the request fail before anything is sent.
- The outcome of a stop request: `StopSingleServer` only logs it, so the model records the request sent
  and ignores the reply.
- Logging (`log.Println`), `Describe`, metric registration, the `jupyterhub_` namespace prefix, the
  landing page, flag parsing and `main`.
- The `float64` conversion of the sample value: the model keeps the int64 timestamp.
- The order in which Go ranges over the map: `Collect` picks users in an arbitrary order, and its
  contract speaks only of multisets.
- Overlapping concurrent scrapes: each `Collect` call is modelled on its own.
