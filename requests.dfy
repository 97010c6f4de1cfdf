/** The request side of `PermissionManager` as values: the records of remote permission
    requests, the builders of this device's own requests, and the wildcard expansion a request
    path is matched against the registered request listeners with. */
module Requests {
  import opened Wrappers
  import opened Paths
  import opened Masks
  import opened PermissionCache

  /** A request record: its id, the device asking, the path asked for (absent when the record
      names none) and the flags asked for. */
  datatype PermissionRequest = PermissionRequest(id: string, source: string, path: Option<string>, mask: Mask)

  /** The builder of a request this device makes: the key pushed for its record, the path,
      and this device's id as the source. */
  datatype RequestBuilder = RequestBuilder(key: string, path: string, source: string)

  /** The wildcards getAllPaths adds for the delimiters at positions `n` and beyond. */
  function WildcardsFrom(path: string, n: nat): set<string> {
    set k | n <= k < |path| && path[k] == '/' :: path[..k] + "/*"
  }

  /** Cutting `subpath` at its last delimiter `i` adds the wildcard under the cut. */
  lemma WildcardsCut(path: string, n: nat, i: nat)
    requires i < n <= |path| && path[i] == '/'
    requires forall j :: i < j < n ==> path[j] != '/'
    ensures WildcardsFrom(path, i) == WildcardsFrom(path, n) + {path[..i] + "/*"}
  {
  }

  /** getAllPaths(path): the while loop cutting `subpath` at its last delimiter, adding the
      wildcard under each cut. */
  method GetAllPaths(path: string) returns (result: set<string>)
    ensures result == AllPaths(path)
  {
    result := {path, "*"};
    var subpath := path;
    var index := LastDelimiter(subpath);
    while index != -1
      invariant |subpath| <= |path| && subpath == path[..|subpath|]
      invariant index == LastDelimiter(subpath)
      invariant result == {path, "*"} + WildcardsFrom(path, |subpath|)
      decreases |subpath|
    {
      WildcardsCut(path, |subpath|, index);
      subpath := subpath[..index];
      result := result + {subpath + "/*"};
      index := LastDelimiter(subpath);
    }
    assert WildcardsFrom(path, 0) == WildcardsFrom(path, |subpath|);
  }

  /** A registration path matches a request path exactly when it is the path itself, the
      global wildcard, or the wildcard under one of the path's proper ancestors. */
  lemma AllPathsSpec(w: string, path: string)
    ensures w in AllPaths(path) <==>
      w == path || w == "*" || (|w| >= 2 && w[|w| - 2..] == "/*" && AncestorOf(w[..|w| - 2], path))
  {
    forall k | 0 <= k < |path| && path[k] == '/'
      ensures var x := path[..k] + "/*"; |x| >= 2 && x[|x| - 2..] == "/*"
    {
    }
    if |w| >= 2 && w[|w| - 2..] == "/*" {
      var q := w[..|w| - 2];
      assert w == q + "/*";
      WildcardMatchesDescendants(q, path);
    }
  }

  /** The listeners subscribed to the request `rId`. */
  function Subscribers(subscriptions: set<(string, nat)>, rId: string): (r: set<nat>)
    ensures forall l :: l in r <==> (rId, l) in subscriptions
  {
    set s | s in subscriptions && s.0 == rId :: s.1
  }

  /** The request listener registrations a request for `path` is offered to: those under
      one of the path's expansions. */
  function Matching(registrations: set<(Path, nat)>, path: string): set<(Path, nat)> {
    set m | m in registrations && m.0.Some? && m.0.value in AllPaths(path)
  }

  /** A registration is offered the requests for its own path, for every path under the
      ancestor it names a wildcard of, and for every path when it is the global wildcard. */
  lemma MatchingSpec(registrations: set<(Path, nat)>, path: string, w: string, l: nat)
    requires (Some(w), l) in registrations
    ensures (Some(w), l) in Matching(registrations, path) <==>
      w == path || w == "*" || (|w| >= 2 && w[|w| - 2..] == "/*" && AncestorOf(w[..|w| - 2], path))
  {
    AllPathsSpec(w, path);
  }

  /** `log` is `before` followed by `count` calls, which are `calls`. */
  predicate LoggedAfter<T>(log: seq<T>, before: seq<T>, calls: set<T>, count: nat) {
    && |log| == |before| + count
    && log[..|before|] == before
    && Elements(log[|before|..]) == calls
  }

  /** Logging a loop's local calls after `before` gives `LoggedAfter`. */
  lemma LoggedCalls<T>(before: seq<T>, calls: seq<T>, s: set<T>, count: nat)
    requires |calls| == count && Elements(calls) == s
    ensures LoggedAfter(before + calls, before, s, count)
  {
    assert (before + calls)[|before|..] == calls;
  }

  /** The requests under `keys` whose path expands to `path`. */
  function RequestsAt(requests: map<string, PermissionRequest>, keys: set<string>, path: string): set<PermissionRequest>
    requires keys <= requests.Keys
  {
    set k | k in keys && requests[k].path.Some? && path in AllPaths(requests[k].path.value) :: requests[k]
  }

  /** The stored requests getRequests(path) returns: those whose path expands to `path`. */
  function RequestsFor(requests: map<string, PermissionRequest>, path: string): set<PermissionRequest> {
    RequestsAt(requests, requests.Keys, path)
  }

  /** A stored request is returned for `path` exactly when `path` is the request's own path,
      the global wildcard, or the wildcard under an ancestor of the request's path. */
  lemma RequestsForSpec(requests: map<string, PermissionRequest>, path: string, r: PermissionRequest)
    ensures r in RequestsFor(requests, path) <==>
      && r in requests.Values && r.path.Some?
      && (path == r.path.value || path == "*" || (|path| >= 2 && path[|path| - 2..] == "/*" && AncestorOf(path[..|path| - 2], r.path.value)))
  {
    if r.path.Some? {
      AllPathsSpec(path, r.path.value);
    }
  }

  /** The paths of the active requests of `group`: the row mActiveRequests.row(group). */
  function RowPaths(active: map<(string, string), RequestBuilder>, group: string): set<string> {
    set k | k in active && k.0 == group :: k.1
  }
}
