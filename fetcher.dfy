/**
 The user-state fetch (`GetActiveUser`): one GET of the user list, then a map
 from username to last-activity nanoseconds holding only users with a running
 server. The HTTP transport together with JSON decoding is the parameter `api`;
 `time.Parse` followed by `UnixNano` is the parameter `parse`, and `zero` is
 what the source falls back to when parsing fails (the `UnixNano` of Go's zero
 time, left uninterpreted).
 */
module Fetcher {

  import opened Wrappers
  import opened Int64
  import opened Flags
  import opened Requests

  /** One element of the decoded JSON array. */
  datatype UserRecord = UserRecord(name: string, server: string, lastActivity: string)

  /** What the transport and the JSON decoder make of one request. */
  datatype Reply =
    | TransportFailed
    | Undecodable
    | Decoded(records: seq<UserRecord>)

  /** The stored instant of a record: the parsed time, or the fallback on a parse error. */
  function Timestamp(parse: string -> Option<int64>, zero: int64, text: string): int64
  {
    parse(text).GetOr(zero)
  }

  /** The map the record loop builds, written as a fold over the records in list order. */
  function ActiveIndex(records: seq<UserRecord>, parse: string -> Option<int64>, zero: int64): map<string, int64>
    decreases |records|
  {
    if records == [] then map[]
    else
      var index := ActiveIndex(records[..|records| - 1], parse, zero);
      var last := records[|records| - 1];
      if last.server != "" then index[last.name := Timestamp(parse, zero, last.lastActivity)] else index
  }

  /** `GetActiveUser`'s result for a reply: a nil map on a transport error, an
      empty map on a decoding error, the record index otherwise. */
  function FetchedIndex(reply: Reply, parse: string -> Option<int64>, zero: int64): Option<map<string, int64>>
  {
    match reply
    case TransportFailed => None
    case Undecodable => Some(map[])
    case Decoded(records) => Some(ActiveIndex(records, parse, zero))
  }

  /** Record `i` is the last record naming its user that has a running server. */
  ghost predicate IsLastWriter(records: seq<UserRecord>, i: int)
  {
    && 0 <= i < |records|
    && records[i].server != ""
    && forall j | i < j < |records| :: records[j].name == records[i].name ==> records[j].server == ""
  }

  /** A user is in the index iff some record names them with a non-empty server. */
  lemma {:induction false} ActiveIndexDomain(records: seq<UserRecord>, parse: string -> Option<int64>, zero: int64, name: string)
    ensures name in ActiveIndex(records, parse, zero)
        <==> exists i | 0 <= i < |records| :: records[i].name == name && records[i].server != ""
    decreases |records|
  {
    if records != [] {
      var prefix := records[..|records| - 1];
      ActiveIndexDomain(prefix, parse, zero, name);
      if exists i | 0 <= i < |prefix| :: prefix[i].name == name && prefix[i].server != "" {
        var i :| 0 <= i < |prefix| && prefix[i].name == name && prefix[i].server != "";
        assert records[i] == prefix[i];
      }
      if exists i | 0 <= i < |records| :: records[i].name == name && records[i].server != "" {
        var i :| 0 <= i < |records| && records[i].name == name && records[i].server != "";
        if i < |prefix| {
          assert prefix[i] == records[i];
        }
      }
    }
  }

  /** The value stored for a user is the timestamp of their last record with a running server. */
  lemma {:induction false} LastWriterWins(records: seq<UserRecord>, parse: string -> Option<int64>, zero: int64, i: int)
    requires IsLastWriter(records, i)
    ensures records[i].name in ActiveIndex(records, parse, zero)
    ensures ActiveIndex(records, parse, zero)[records[i].name] == Timestamp(parse, zero, records[i].lastActivity)
    decreases |records|
  {
    if i < |records| - 1 {
      var prefix := records[..|records| - 1];
      assert IsLastWriter(prefix, i) by {
        forall j | i < j < |prefix|
          ensures prefix[j].name == prefix[i].name ==> prefix[j].server == ""
        {
          assert prefix[j] == records[j];
        }
      }
      LastWriterWins(prefix, parse, zero, i);
    }
  }

  /** Every user in the index has a last record with a running server. */
  lemma {:induction false} ActiveIndexHasLastWriter(records: seq<UserRecord>, parse: string -> Option<int64>, zero: int64, name: string)
    requires name in ActiveIndex(records, parse, zero)
    ensures exists i :: IsLastWriter(records, i) && records[i].name == name
    decreases |records|
  {
    var n := |records| - 1;
    if records[n].server != "" && records[n].name == name {
      assert IsLastWriter(records, n);
    } else {
      var prefix := records[..n];
      ActiveIndexHasLastWriter(prefix, parse, zero, name);
      var i :| IsLastWriter(prefix, i) && prefix[i].name == name;
      assert IsLastWriter(records, i) by {
        forall j | i < j < |records|
          ensures records[j].name == records[i].name ==> records[j].server == ""
        {
          if j < n {
            assert prefix[j] == records[j];
          }
        }
      }
    }
  }

  /** The source's record loop: fetch the user list, then insert every record
      with a running server into the map, later records overwriting earlier ones. */
  method GetActiveUser(cfg: Config, api: Request -> Reply, parse: string -> Option<int64>, zero: int64)
    returns (activeUsers: Option<map<string, int64>>)
    ensures activeUsers == FetchedIndex(api(UserListRequest(cfg)), parse, zero)
    ensures activeUsers.None? <==> api(UserListRequest(cfg)).TransportFailed?
  {
    var reply := api(UserListRequest(cfg));
    if reply.TransportFailed? {
      return None;
    }
    var index: map<string, int64> := map[];
    if reply.Decoded? {
      var records := reply.records;
      for i := 0 to |records|
        invariant index == ActiveIndex(records[..i], parse, zero)
      {
        assert records[..i + 1][..i] == records[..i];
        var user := records[i];
        if user.server != "" {
          var lastTimestamp := Timestamp(parse, zero, user.lastActivity);
          index := index[user.name := lastTimestamp];
        }
      }
      assert records[..|records|] == records;
    }
    activeUsers := Some(index);
  }
}
