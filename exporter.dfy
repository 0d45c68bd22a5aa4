/**
 One scrape (`Collect`): fetch the active-user map, then for every user in it
 either emit one `active_user` sample (label `userName`, value the
 last-activity nanoseconds) or, when the user is idle, send one stop request.
 Go leaves the map's iteration order unspecified, so the loop picks users in an
 arbitrary order and the outcomes are specified as multisets.
 */
module Exporter {

  import opened Wrappers
  import opened Int64
  import opened Flags
  import opened Requests
  import opened Activity
  import opened Fetcher

  /** One sample of the `active_user` series. */
  datatype Metric = ActiveUser(userName: string, value: int64)

  /** Ranging over a nil map visits nothing. */
  function UsersOf(activeUsers: Option<map<string, int64>>): map<string, int64>
  {
    activeUsers.GetOr(map[])
  }

  /** The samples due for the active users among `users`. */
  ghost function ActiveMetrics(m: map<string, int64>, users: set<string>, now: int64, hours: int64): set<Metric>
  {
    set u | u in users && u in m && IsActive(now, m[u], hours) :: ActiveUser(u, m[u])
  }

  /** The stop requests due for the idle users among `users`. */
  ghost function StopRequests(cfg: Config, m: map<string, int64>, users: set<string>, now: int64): set<Request>
  {
    set u | u in users && u in m && !IsActive(now, m[u], cfg.waitHour) :: StopRequest(cfg, u)
  }

  /** The map a scrape ranges over: the one `GetActiveUser` returns, a nil map read as empty. */
  ghost function ScrapedUsers(cfg: Config, api: Request -> Reply, parse: string -> Option<int64>, zero: int64): map<string, int64>
  {
    UsersOf(FetchedIndex(api(UserListRequest(cfg)), parse, zero))
  }

  /** Handling user `u` adds exactly its own outcome to the due samples and stops. */
  lemma DueAfterOneMore(cfg: Config, m: map<string, int64>, done: set<string>, u: string, now: int64)
    requires u in m && u !in done
    ensures var active := IsActive(now, m[u], cfg.waitHour);
      && multiset(ActiveMetrics(m, done + {u}, now, cfg.waitHour))
         == multiset(ActiveMetrics(m, done, now, cfg.waitHour)) + (if active then multiset{ActiveUser(u, m[u])} else multiset{})
      && multiset(StopRequests(cfg, m, done + {u}, now))
         == multiset(StopRequests(cfg, m, done, now)) + (if active then multiset{} else multiset{StopRequest(cfg, u)})
  {
  }

  /** The source's scrape loop. Returns the samples sent on the channel and the
      stop requests sent, one per idle user, whatever `cfg.willStop` says. */
  method Collect(cfg: Config, api: Request -> Reply, parse: string -> Option<int64>, zero: int64, now: int64)
    returns (metrics: seq<Metric>, stops: seq<Request>)
    ensures var m := ScrapedUsers(cfg, api, parse, zero);
      && multiset(metrics) == multiset(ActiveMetrics(m, m.Keys, now, cfg.waitHour))
      && multiset(stops) == multiset(StopRequests(cfg, m, m.Keys, now))
    ensures !api(UserListRequest(cfg)).Decoded? ==> metrics == [] && stops == []
  {
    var activeUsers := GetActiveUser(cfg, api, parse, zero);
    var m := UsersOf(activeUsers);
    metrics, stops := [], [];
    var pending := m.Keys;
    while pending != {}
      invariant pending <= m.Keys
      invariant multiset(metrics) == multiset(ActiveMetrics(m, m.Keys - pending, now, cfg.waitHour))
      invariant multiset(stops) == multiset(StopRequests(cfg, m, m.Keys - pending, now))
      decreases pending
    {
      var userName :| userName in pending;
      var lastActivity := m[userName];
      DueAfterOneMore(cfg, m, m.Keys - pending, userName, now);
      assert m.Keys - (pending - {userName}) == (m.Keys - pending) + {userName};
      if IsActive(now, lastActivity, cfg.waitHour) {
        metrics := metrics + [ActiveUser(userName, lastActivity)];
      } else {
        stops := stops + [StopRequest(cfg, userName)];
      }
      pending := pending - {userName};
    }
  }

  /** What a snapshot satisfying `Collect`'s contract means user by user:
      every user of the map gets exactly one outcome, a sample carrying its
      own timestamp when active or a stop request for its own server when idle,
      and nothing is emitted or stopped for anyone else. */
  lemma SnapshotOutcomes(cfg: Config, m: map<string, int64>, now: int64, metrics: seq<Metric>, stops: seq<Request>)
    requires multiset(metrics) == multiset(ActiveMetrics(m, m.Keys, now, cfg.waitHour))
    requires multiset(stops) == multiset(StopRequests(cfg, m, m.Keys, now))
    ensures forall k | 0 <= k < |metrics| ::
      var u := metrics[k].userName; u in m && metrics[k].value == m[u] && IsActive(now, m[u], cfg.waitHour)
    ensures forall k | 0 <= k < |stops| ::
      exists u | u in m :: !IsActive(now, m[u], cfg.waitHour) && stops[k] == StopRequest(cfg, u)
    ensures forall u | u in m ::
      multiset(metrics)[ActiveUser(u, m[u])] + multiset(stops)[StopRequest(cfg, u)] == 1
  {
    forall k | 0 <= k < |metrics|
      ensures var u := metrics[k].userName; u in m && metrics[k].value == m[u] && IsActive(now, m[u], cfg.waitHour)
    {
      assert metrics[k] in multiset(metrics);
    }
    forall k | 0 <= k < |stops|
      ensures exists u | u in m :: !IsActive(now, m[u], cfg.waitHour) && stops[k] == StopRequest(cfg, u)
    {
      assert stops[k] in multiset(stops);
    }
    forall u | u in m
      ensures multiset(metrics)[ActiveUser(u, m[u])] + multiset(stops)[StopRequest(cfg, u)] == 1
    {
      if IsActive(now, m[u], cfg.waitHour) {
        assert ActiveUser(u, m[u]) in ActiveMetrics(m, m.Keys, now, cfg.waitHour);
      } else {
        assert StopRequest(cfg, u) in StopRequests(cfg, m, m.Keys, now);
      }
    }
  }

  /** A worked scrape: with the default 24-hour window, a user last active an hour ago is
      reported, one last active 30 hours ago is stopped, and one without a
      running server appears in neither outcome. */
  lemma ThreeUserScenario(cfg: Config, parse: string -> Option<int64>, zero: int64, now: int64)
    requires cfg.waitHour == Defaults.waitHour && now as int >= 30 * NanosPerHour
    requires parse("a") == Some((now as int - NanosPerHour) as int64)
    requires parse("b") == Some((now as int - 30 * NanosPerHour) as int64)
    ensures var m := ActiveIndex([UserRecord("A", "/user/A", "a"), UserRecord("B", "/user/B", "b"), UserRecord("C", "", "c")], parse, zero);
      && m.Keys == {"A", "B"}
      && ActiveMetrics(m, m.Keys, now, cfg.waitHour) == {ActiveUser("A", (now as int - NanosPerHour) as int64)}
      && StopRequests(cfg, m, m.Keys, now) == {StopRequest(cfg, "B")}
  {
    var records := [UserRecord("A", "/user/A", "a"), UserRecord("B", "/user/B", "b"), UserRecord("C", "", "c")];
    var a, b := (now as int - NanosPerHour) as int64, (now as int - 30 * NanosPerHour) as int64;
    assert records[..|records| - 1] == records[..2];
    assert records[..2][..1] == records[..1];
    assert records[..1][..0] == [];
    assert ActiveIndex(records[..1], parse, zero) == map["A" := a];
    assert ActiveIndex(records[..2], parse, zero) == map["A" := a, "B" := b];
    var m := ActiveIndex(records, parse, zero);
    assert m == map["A" := (now as int - NanosPerHour) as int64, "B" := (now as int - 30 * NanosPerHour) as int64];
    assert IsActive(now, m["A"], cfg.waitHour);
    assert !IsActive(now, m["B"], cfg.waitHour);
  }
}
