/** What the edge asks of its backend.  Visitors' requests are looked up in the cache as they arrive; replies are stored
    under the request that went out, which the reverse proxy has rewritten. */
module Backends {
  import opened Options
  import opened Text
  import opened CachePolicy

  /** The backend's URL, as far as it changes the requests: its path, in escaped form, and its query. */
  datatype Backend = Backend(path: string, query: string) {
    /** The URL adds nothing to the URI of a request. */
    predicate IsNeutral() {
      (path == "" || path == "/") && query == ""
    }

    /** The URL parses, and names a host. */
    predicate IsProper() {
      (path == "" || path[0] == '/') && '\0' !in path && '\0' !in query
    }
  }

  function JoinPaths(a: string, b: string): string {
    if HasSuffix(a, "/") && HasPrefix(b, "/") then a + b[1..]
    else if !HasSuffix(a, "/") && !HasPrefix(b, "/") then a + "/" + b
    else a + b
  }

  function JoinQueries(a: string, b: string): string {
    if a == "" || b == "" then a + b else a + "&" + b
  }

  function Rewritten(backend: Backend, uri: string): string {
    var cut := Find(uri, '?');
    var path := JoinPaths(backend.path, uri[..cut]);
    if cut < |uri| then path + "?" + JoinQueries(backend.query, uri[cut + 1..])
    else if backend.query == "" then path
    else path + "?" + backend.query
  }

  /** The request that goes out.  The headers that the visitor's Connection header lists are not passed on. */
  function Outgoing(backend: Backend, r: Request): Request {
    Request(r.verb, r.host, Rewritten(backend, r.uri),
            if "Accept-Encoding" in r.dropped then "" else r.acceptEncoding,
            if "Authorization" in r.dropped then "" else r.authorization, {})
  }

  /** A request is stored under the key it was looked up with. */
  predicate KeepsKey(backend: Backend, r: Request) {
    CacheKey(Outgoing(backend, r)) == CacheKey(r)
  }

  predicate KeepsEncoding(r: Request) {
    r.acceptEncoding == "" || "Accept-Encoding" !in r.dropped
  }

  /** The server hands on only requests with such URIs. */
  predicate IsOrdinary(r: Request) {
    HasPrefix(r.uri, "/") && '\0' !in r.uri && '\0' !in r.host
  }

  lemma QueryIsCut(path: string, asked: string)
    requires '?' !in path
    ensures var uri := path + "?" + asked;
            Find(uri, '?') == |path| && uri[..|path|] == path && uri[|path| + 1..] == asked
  {
    var uri := path + "?" + asked;
    assert uri[|path|] == '?' && forall j :: 0 <= j < |path| ==> uri[j] == path[j];
  }

  lemma PlainIsRewritten(b: Backend, path: string)
    requires '?' !in path
    ensures Rewritten(b, path) == JoinPaths(b.path, path) + (if b.query == "" then "" else "?" + b.query)
  {
    hide JoinPaths;
    assert Find(path, '?') == |path| && path[..|path|] == path;
    assert JoinPaths(b.path, path) + "" == JoinPaths(b.path, path);
  }

  lemma QueryIsRewritten(b: Backend, path: string, asked: string)
    requires '?' !in path
    ensures Rewritten(b, path + "?" + asked) ==
            JoinPaths(b.path, path) + "?" + b.query + (if b.query == "" || asked == "" then "" else "&") + asked
  {
    hide JoinPaths;
    var joined := JoinPaths(b.path, path);
    QueryIsCut(path, asked);
    assert Rewritten(b, path + "?" + asked) == joined + "?" + JoinQueries(b.query, asked);
    var middle := if b.query == "" || asked == "" then "" else "&";
    assert JoinQueries(b.query, asked) == b.query + middle + asked;
    assert joined + "?" + (b.query + middle + asked) == joined + "?" + b.query + middle + asked;
  }

  /** By how much the rewriting lengthens a URI. */
  lemma RewrittenLength(backend: Backend, uri: string)
    requires HasPrefix(uri, "/")
    ensures |Rewritten(backend, uri)| >= |uri|
    ensures |Rewritten(backend, uri)| == |uri| <==> backend.IsNeutral()
    ensures backend.IsNeutral() ==> Rewritten(backend, uri) == uri
  {
    hide JoinPaths, Rewritten;
    var cut := Find(uri, '?');
    var path := uri[..cut];
    JoinedLength(backend.path, path);
    if cut < |uri| {
      assert uri == path + "?" + uri[cut + 1..];
      QueryIsRewritten(backend, path, uri[cut + 1..]);
    } else {
      assert uri == path;
      PlainIsRewritten(backend, path);
    }
  }

  lemma JoinedLength(a: string, b: string)
    requires HasPrefix(b, "/")
    ensures |JoinPaths(a, b)| >= |b|
    ensures |JoinPaths(a, b)| == |b| <==> a == "" || a == "/"
    ensures a == "" || a == "/" ==> JoinPaths(a, b) == b
  {
    if HasSuffix(a, "/") {
      assert a[|a| - 1] == '/';
      assert b == "/" + b[1..];
      assert |a| == 1 ==> a == "/";
    }
  }

  lemma RewrittenIsOrdinary(backend: Backend, r: Request)
    requires IsOrdinary(r) && backend.IsProper()
    ensures IsOrdinary(Outgoing(backend, r))
  {
    var cut := Find(r.uri, '?');
    var path := JoinPaths(backend.path, r.uri[..cut]);
    assert r.uri[0] == '/' && cut > 0;
    assert path != "" && path[0] == '/';
    assert Rewritten(backend, r.uri)[0] == '/';
    assert '\0' !in path;
  }

  /** What the origin is asked for: the backend's path, one slash, and the rest of the visitor's path; then the backend's
      query before the visitor's. */
  lemma RewrittenIs(base: string, slash: bool, query: string, path: string, asked: string)
    requires '?' !in path && (slash || !HasSuffix(base, "/"))
    ensures var b := Backend(if slash then base + "/" else base, query);
            && Rewritten(b, "/" + path) == base + "/" + path + (if query == "" then "" else "?" + query)
            && Rewritten(b, "/" + path + "?" + asked) ==
               base + "/" + path + "?" + query + (if query == "" || asked == "" then "" else "&") + asked
  {
    hide Rewritten, JoinPaths, HasSuffix;
    var b := Backend(if slash then base + "/" else base, query);
    PathsAreJoined(base, slash, path);
    PlainIsRewritten(b, "/" + path);
    QueryIsRewritten(b, "/" + path, asked);
  }

  lemma PathsAreJoined(base: string, slash: bool, path: string)
    requires slash || !HasSuffix(base, "/")
    ensures JoinPaths(if slash then base + "/" else base, "/" + path) == base + "/" + path
    ensures !HasPrefix(path, "/") ==> JoinPaths(if slash then base + "/" else base, path) == base + "/" + path
  {
    assert ("/" + path)[1..] == path;
    if slash {
      assert (base + "/")[|base|..] == "/";
    }
  }

  /** Everything else of the request stays, but for what the Connection header lists. */
  lemma OutgoingIs(b: Backend, r: Request)
    ensures var o := Outgoing(b, r);
            && o.verb == r.verb && o.host == r.host && o.uri == Rewritten(b, r.uri)
            && (o.acceptEncoding == "" <==> r.acceptEncoding == "" || "Accept-Encoding" in r.dropped)
            && (o.acceptEncoding != "" ==> o.acceptEncoding == r.acceptEncoding)
            && (o.authorization == "" <==> r.authorization == "" || "Authorization" in r.dropped)
  {
  }

  /** Exactly when lookup and store agree on the key: the backend's URL has neither a path nor a query, and the visitor
      does not list Accept-Encoding, if it is set, among the headers that go no further. */
  lemma KeepsKeyIff(backend: Backend, r: Request)
    requires IsOrdinary(r) && backend.IsProper()
    ensures KeepsKey(backend, r) <==> backend.IsNeutral() && KeepsEncoding(r)
  {
    RewrittenLength(backend, r.uri);
    RewrittenIsOrdinary(backend, r);
    CacheKeyIsInjective(Outgoing(backend, r), r);
  }
}
