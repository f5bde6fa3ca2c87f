/** A small world in which runs of the handler are easy to follow: every object is one byte long, and nothing expires. */
module SmallWorld {
  import opened Options
  import opened Recency
  import opened Text
  import opened CachePolicy
  import opened Backends
  import opened LruStack
  import opened Exchanges

  function For(uri: string): Request {
    Request("GET", "host", uri, "", "", {})
  }

  const PUBLIC := Reply(200, map["Cache-Control" := ["public"]], Some([0]), false)

  function Edge(cap: int, b: Backend): Config {
    Config(1, cap, 1, EdgePolicy(), b)
  }

  function Unit(uri: string): Entry {
    Entry(CacheKey(For(uri)), 200, WithLength(PUBLIC.header, 1), [0], 0, 1)
  }

  function Units(uris: seq<string>): (s: seq<Entry>)
    ensures |s| == |uris|
    ensures forall i :: 0 <= i < |uris| ==> s[i] == Unit(uris[i])
  {
    seq(|uris|, i requires 0 <= i < |uris| => Unit(uris[i]))
  }

  function Fetch(uri: string, missed: bool): Done {
    Done(Exchange(For(uri), PUBLIC, 0, 0), missed)
  }

  /** What fits of objects of one byte each. */
  function Kept(uris: seq<string>, cap: nat): seq<string> {
    if |uris| <= cap then uris else uris[..cap]
  }

  ghost predicate Plain(uris: seq<string>) {
    Distinct(uris) && forall u :: u in uris ==> '\0' !in u
  }

  lemma PublicIsKept(cap: int, b: Backend, uri: string)
    requires cap >= 1
    ensures ReadThrough(Edge(cap, b), Fetch(uri, true).exchange)
    ensures Edge(cap, b).Sent(For(uri)) == For(Rewritten(b, uri))
    ensures EntryFor(Edge(cap, b), For(Rewritten(b, uri)), PUBLIC, 0) == Unit(Rewritten(b, uri))
  {
    hide IsCacheable, Lifetime, Rewritten;
    PublicIsCacheable(Rewritten(b, uri), PUBLIC.header);
    PublicHasNoLifetime(WithLength(PUBLIC.header, 1));
  }

  ghost predicate SaysPublic(header: HeaderView) {
    Get(header, "Cache-Control") == "public" && Get(header, "Set-Cookie") == "" && Get(header, "Authorization") == ""
  }

  lemma PublicIsCacheable(uri: string, header: HeaderView)
    requires SaysPublic(header)
    ensures IsCacheable(For(uri), 200, header)
  {
    PublicIsLower();
    ShorterHoldsNot("public", "private");
    ShorterHoldsNot("public", "no-store");
    ShorterHoldsNot("public", "no-cache");
    assert HasPrefix("public", "public");
  }

  lemma PublicHasNoLifetime(header: HeaderView)
    requires SaysPublic(header)
    ensures Lifetime(header, 1) == 1
  {
    hide ToLower, DirectiveSeconds;
    PublicIsLower();
    NoDirective("public", "s-maxage");
    NoDirective("public", "max-age");
  }

  lemma PublicIsLower()
    ensures ToLower("public") == "public"
  {
    LowerStays("public");
  }

  lemma {:induction false} LowerStays(s: string)
    requires forall c :: c in s ==> Lower(c) == c
    ensures ToLower(s) == s
  {
    if s != "" {
      assert s == [s[0]] + s[1..];
      LowerStays(s[1..]);
    }
  }

  lemma {:induction false} ShorterHoldsNot(s: string, part: string)
    requires |s| < |part|
    ensures !Contains(s, part)
  {
    if s != "" {
      ShorterHoldsNot(s[1..], part);
    }
  }

  lemma NoDirective(s: string, name: string)
    requires ',' !in s && '=' !in s && s != "" && !IsSpace(s[0]) && !IsSpace(s[|s| - 1])
    ensures DirectiveSeconds(s, name) == 0
  {
    BareTextIsTrimmed(s);
    assert PartValue(s, name) == None;
    assert Find(s, ',') == |s|;
    SinglePart(s, name);
  }

  // ---------------------------------------------------------------- single steps

  lemma KeyOfUnits(uris: seq<string>, uri: string)
    requires Plain(uris) && '\0' !in uri
    ensures uri !in uris ==> IndexOf(Keys(Units(uris)), CacheKey(For(uri))) == |uris|
    ensures forall i :: 0 <= i < |uris| && uris[i] == uri ==> IndexOf(Keys(Units(uris)), CacheKey(For(uri))) == i
  {
    forall i | 0 <= i < |uris|
      ensures Keys(Units(uris))[i] == CacheKey(For(uri)) <==> uris[i] == uri
    {
      assert uris[i] in uris;
      CacheKeyIsInjective(For(uris[i]), For(uri));
    }
  }

  lemma {:induction false} EvictUnits(uris: seq<string>, cap: nat)
    ensures Total(Units(uris)) == |uris|
    ensures Evict(Units(uris), cap) == Units(Kept(uris, cap))
    decreases |uris|
  {
    TotalOfUnits(uris);
    if |uris| > cap {
      var most := uris[..|uris| - 1];
      assert Units(uris)[..|uris| - 1] == Units(most);
      EvictUnits(most, cap);
      assert most[..cap] == uris[..cap];
      assert |most| == cap ==> most == uris[..cap];
    }
  }

  lemma {:induction false} TotalOfUnits(uris: seq<string>)
    ensures Total(Units(uris)) == |uris|
  {
    if uris != [] {
      assert Units(uris)[1..] == Units(uris[1..]);
      TotalOfUnits(uris[1..]);
    }
  }

  lemma AskNew(s: State, cap: nat, b: Backend, uris: seq<string>, id: nat, uri: string)
    requires cap >= 1 && s.cache == Units(uris) && Plain([uri] + uris) && id !in s.open
    ensures Next(s, Edge(cap, b), Ask(id, For(uri), 0)) == s.(open := s.open[id := Waiting(For(uri), 0, true)])
  {
    assert forall i :: 0 <= i < |uris| ==> uris[i] == ([uri] + uris)[i + 1];
    assert uri == ([uri] + uris)[0];
    KeyOfUnits(uris, uri);
  }

  lemma AskAgain(s: State, cap: nat, b: Backend, uris: seq<string>, id: nat, i: nat)
    requires cap >= 1 && s.cache == Units(uris) && Plain(uris) && i < |uris| && id !in s.open
    ensures Next(s, Edge(cap, b), Ask(id, For(uris[i]), 0)) ==
            s.(cache := Units([uris[i]] + WithoutAt(uris, i)), open := s.open[id := Waiting(For(uris[i]), 0, false)])
  {
    KeyOfUnits(uris, uris[i]);
    assert [Unit(uris[i])] + WithoutAt(Units(uris), i) == Units([uris[i]] + WithoutAt(uris, i));
  }

  /** The reply is stored under the URI that the origin was asked for. */
  lemma FinishNew(s: State, cap: nat, b: Backend, uris: seq<string>, id: nat, uri: string)
    requires cap >= 1 && s.cache == Units(uris) && Plain([Rewritten(b, uri)] + uris)
    requires id in s.open && s.open[id] == Waiting(For(uri), 0, true)
    ensures var all := [Rewritten(b, uri)] + uris;
            Next(s, Edge(cap, b), Finish(id, PUBLIC, 0)) ==
            State(Units(Kept(all, cap)), s.open - {id}, s.log + [Fetch(uri, true)])
  {
    var to := Rewritten(b, uri);
    assert forall i :: 0 <= i < |uris| ==> uris[i] == ([to] + uris)[i + 1];
    assert to == ([to] + uris)[0];
    KeyOfUnits(uris, to);
    PublicIsKept(cap, b, uri);
    StoreUnit(uris, to, cap);
    assert s.open[id].request == For(uri);
  }

  lemma StoreUnit(uris: seq<string>, uri: string, cap: nat)
    requires IndexOf(Keys(Units(uris)), CacheKey(For(uri))) == |uris|
    ensures var all := [uri] + uris;
            AfterStore(Units(uris), Unit(uri), cap) == Units(Kept(all, cap))
  {
    assert [Unit(uri)] + Units(uris) == Units([uri] + uris);
    EvictUnits([uri] + uris, cap);
  }

  /** One more step, with at most `k` requests in the handler. */
  lemma Extend(steps: seq<Step>, cap: nat, b: Backend, k: nat, step: Step)
    requires OpenAtMost(steps, Edge(cap, b), k) && |Next(Run(steps, Edge(cap, b)), Edge(cap, b), step).open| <= k
    ensures OpenAtMost(steps + [step], Edge(cap, b), k)
    ensures Run(steps + [step], Edge(cap, b)) == Next(Run(steps, Edge(cap, b)), Edge(cap, b), step)
  {
    var all := steps + [step];
    RunAppend(steps, Edge(cap, b), step);
    forall n | 0 <= n <= |all|
      ensures |Run(all[..n], Edge(cap, b)).open| <= k
    {
      assert all[..n] == if n <= |steps| then steps[..n] else all;
    }
  }

  // ---------------------------------------------------------------- where a run stands

  function Waits(uri: string, missed: bool): Waiting {
    Waiting(For(uri), 0, missed)
  }

  /** A run with at most `k` requests in the handler, and the state it has led to. */
  ghost predicate Stands(steps: seq<Step>, cap: nat, b: Backend, k: nat, uris: seq<string>, open: map<nat, Waiting>,
                         log: seq<Done>) {
    && cap >= 1 && Plain(uris) && OpenAtMost(steps, Edge(cap, b), k)
    && Run(steps, Edge(cap, b)) == State(Units(uris), open, log)
  }

  lemma KeptIsPlain(uris: seq<string>, cap: nat)
    requires Plain(uris)
    ensures Plain(Kept(uris, cap))
  {
  }

  /** Something new is asked for. */
  lemma AskNewStands(steps: seq<Step>, cap: nat, b: Backend, k: nat, uris: seq<string>, open: map<nat, Waiting>,
                     log: seq<Done>, id: nat, uri: string)
    requires Stands(steps, cap, b, k, uris, open, log) && Plain([uri] + uris) && id !in open && |open| < k
    ensures Stands(steps + [Ask(id, For(uri), 0)], cap, b, k, uris, open[id := Waits(uri, true)], log)
  {
    AskNew(State(Units(uris), open, log), cap, b, uris, id, uri);
    PutAndDrop(open, id, Waits(uri, true));
    Extend(steps, cap, b, k, Ask(id, For(uri), 0));
  }

  /** Something is asked for that is cached. */
  lemma AskAgainStands(steps: seq<Step>, cap: nat, b: Backend, k: nat, uris: seq<string>, open: map<nat, Waiting>,
                       log: seq<Done>, id: nat, i: nat)
    requires Stands(steps, cap, b, k, uris, open, log) && i < |uris| && id !in open && |open| < k
    ensures Stands(steps + [Ask(id, For(uris[i]), 0)], cap, b, k, [uris[i]] + WithoutAt(uris, i),
                   open[id := Waits(uris[i], false)], log)
  {
    AskAgain(State(Units(uris), open, log), cap, b, uris, id, i);
    PutAndDrop(open, id, Waits(uris[i], false));
    Extend(steps, cap, b, k, Ask(id, For(uris[i]), 0));
    DistinctWithoutAt(uris, i);
  }

  lemma FinishNewStands(steps: seq<Step>, cap: nat, b: Backend, k: nat, uris: seq<string>, open: map<nat, Waiting>,
                        log: seq<Done>, id: nat, uri: string)
    requires Stands(steps, cap, b, k, uris, open, log) && Plain([Rewritten(b, uri)] + uris) && |open| <= k
    requires id in open && open[id] == Waits(uri, true)
    ensures Stands(steps + [Finish(id, PUBLIC, 0)], cap, b, k, Kept([Rewritten(b, uri)] + uris, cap), open - {id},
                   log + [Fetch(uri, true)])
  {
    FinishNew(State(Units(uris), open, log), cap, b, uris, id, uri);
    assert |open.Keys - {id}| == |open| - 1 && (open - {id}).Keys == open.Keys - {id};
    Extend(steps, cap, b, k, Finish(id, PUBLIC, 0));
    KeptIsPlain([Rewritten(b, uri)] + uris, cap);
  }

  lemma FinishAgainStands(steps: seq<Step>, cap: nat, b: Backend, k: nat, uris: seq<string>, open: map<nat, Waiting>,
                          log: seq<Done>, id: nat, uri: string)
    requires Stands(steps, cap, b, k, uris, open, log) && |open| <= k
    requires id in open && open[id] == Waits(uri, false)
    ensures Stands(steps + [Finish(id, PUBLIC, 0)], cap, b, k, uris, open - {id}, log + [Fetch(uri, false)])
  {
    assert |open.Keys - {id}| == |open| - 1 && (open - {id}).Keys == open.Keys - {id};
    Extend(steps, cap, b, k, Finish(id, PUBLIC, 0));
  }

  function Load(uri: string): seq<Step> {
    [Ask(0, For(uri), 0), Finish(0, PUBLIC, 0)]
  }

  lemma LoadIsTwo(steps: seq<Step>, uri: string)
    ensures steps + [Ask(0, For(uri), 0)] + [Finish(0, PUBLIC, 0)] == steps + Load(uri)
  {
  }

  lemma PutAndDrop(open: map<nat, Waiting>, id: nat, w: Waiting)
    requires id !in open
    ensures open[id := w] - {id} == open && |open[id := w]| == |open| + 1
  {
    assert open[id := w].Keys == open.Keys + {id};
    assert |open[id := w]| == |open[id := w].Keys|;
  }

  /** A request for something new, from its lookup to its end. */
  lemma LoadNew(steps: seq<Step>, cap: nat, b: Backend, k: nat, uris: seq<string>, open: map<nat, Waiting>,
                log: seq<Done>, uri: string)
    requires Stands(steps, cap, b, k, uris, open, log) && 0 !in open && |open| < k
    requires Plain([uri] + uris) && Plain([Rewritten(b, uri)] + uris)
    ensures Stands(steps + Load(uri), cap, b, k, Kept([Rewritten(b, uri)] + uris, cap), open, log + [Fetch(uri, true)])
  {
    LoadIsTwo(steps, uri);
    PutAndDrop(open, 0, Waits(uri, true));
    AskNewStands(steps, cap, b, k, uris, open, log, 0, uri);
    FinishNewStands(steps + [Ask(0, For(uri), 0)], cap, b, k, uris, open[0 := Waits(uri, true)], log, 0, uri);
  }

  /** The same for something that is cached. */
  lemma LoadAgain(steps: seq<Step>, cap: nat, b: Backend, k: nat, uris: seq<string>, open: map<nat, Waiting>,
                  log: seq<Done>, i: nat)
    requires Stands(steps, cap, b, k, uris, open, log) && i < |uris| && 0 !in open && |open| < k
    ensures Stands(steps + Load(uris[i]), cap, b, k, [uris[i]] + WithoutAt(uris, i), open, log + [Fetch(uris[i], false)])
  {
    var uri := uris[i];
    LoadIsTwo(steps, uri);
    PutAndDrop(open, 0, Waits(uri, false));
    AskAgainStands(steps, cap, b, k, uris, open, log, 0, i);
    FinishAgainStands(steps + [Ask(0, For(uri), 0)], cap, b, k, [uri] + WithoutAt(uris, i),
                      open[0 := Waits(uri, false)], log, 0, uri);
  }

  lemma EmptyStands(cap: nat, b: Backend, k: nat)
    requires cap >= 1
    ensures Stands([], cap, b, k, [], map[], [])
  {
  }

  /** All requests of such a run are steady read-through requests. */
  lemma FetchesAreSteady(steps: seq<Step>, cap: nat, b: Backend)
    requires cap >= 1
    requires forall d :: d in Run(steps, Edge(cap, b)).log ==> exists u, m :: d == Fetch(u, m)
    ensures SteadyRun(steps, Edge(cap, b), _ => 1)
  {
    var log := Run(steps, Edge(cap, b)).log;
    var xs := Finished(log);
    forall n | 0 <= n < |xs|
      ensures ReadThrough(Edge(cap, b), xs[n])
      ensures exists u :: AsVisit(Edge(cap, b), xs[n]) == Visit(CacheKey(For(u)), 0, Unit(Rewritten(b, u)))
    {
      assert log[n] in log;
      var u, m :| log[n] == Fetch(u, m);
      PublicIsKept(cap, b, u);
      assert AsVisit(Edge(cap, b), xs[n]) == Visit(CacheKey(For(u)), 0, Unit(Rewritten(b, u)));
    }
  }
}
