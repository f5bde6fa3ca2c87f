/** What it costs that a request is looked up as it arrives and stored as it goes out.  Nothing, if the backend's URL has
    neither a path nor a query; otherwise the cache serves the wrong content, stores what it has, and loses hits. */
module Rewriting {
  import opened Options
  import opened Recency
  import opened Text
  import opened CachePolicy
  import opened Backends
  import opened LruStack
  import opened Exchanges
  import opened SmallWorld

  /** Requests as the server hands them on, and none whose Connection header lists the Accept-Encoding that it sets. */
  ghost predicate UsualAsked(steps: seq<Step>) {
    forall i :: 0 <= i < |steps| && steps[i].Ask? ==> IsOrdinary(steps[i].request) && KeepsEncoding(steps[i].request)
  }

  lemma UsualKeepKeys(steps: seq<Step>, cfg: Config)
    requires UsualAsked(steps) && cfg.backend.IsProper() && cfg.backend.IsNeutral()
    ensures KeysAreKept(steps, cfg)
  {
    forall i | 0 <= i < |steps| && steps[i].Ask?
      ensures KeepsKey(cfg.backend, steps[i].request)
    {
      KeepsKeyIff(cfg.backend, steps[i].request);
    }
  }

  const X := "/x"

  const Z := "/z"

  /** Two short URIs, and what becomes of them. */
  lemma Chain(e: Backend)
    requires e.IsProper() && !e.IsNeutral()
    ensures var to, too := Rewritten(e, X), Rewritten(e, Rewritten(e, X));
            && 2 < |to| < |too| < |Rewritten(e, too)| && |Rewritten(e, Z)| == |to| && Rewritten(e, Z) != to
            && IsOrdinary(For(to)) && IsOrdinary(For(too)) && IsOrdinary(For(Rewritten(e, too)))
            && IsOrdinary(For(Rewritten(e, Z)))
  {
    var to, too := Rewritten(e, X), Rewritten(e, Rewritten(e, X));
    RewrittenLength(e, X);
    RewrittenIsOrdinary(e, For(X));
    RewrittenIsOrdinary(e, For(Z));
    RewrittenLength(e, to);
    RewrittenIsOrdinary(e, For(to));
    RewrittenLength(e, too);
    RewrittenIsOrdinary(e, For(too));
    TellApart(e);
  }

  lemma TellApart(e: Backend)
    ensures |Rewritten(e, Z)| == |Rewritten(e, X)| && Rewritten(e, Z) != Rewritten(e, X)
  {
    var rest := if e.query == "" then "" else "?" + e.query;
    assert Find(X, '?') == 2 && Find(Z, '?') == 2 && X[..2] == X && Z[..2] == Z;
    var base := if HasSuffix(e.path, "/") then e.path else e.path + "/";
    assert "/x" == "/" + "x" && "/z" == "/" + "z";
    assert JoinPaths(e.path, X) == base + "x" && JoinPaths(e.path, Z) == base + "z";
    assert Rewritten(e, X) == (base + "x") + rest && Rewritten(e, Z) == (base + "z") + rest;
    assert Rewritten(e, X)[|base|] == 'x' && Rewritten(e, Z)[|base|] == 'z';
  }

  // ---------------------------------------------------------------- the content that is served

  /** What is served for `r` answered the very question that the origin would be asked for `r`. */
  ghost predicate ServesRight(steps: seq<Step>, cfg: Config, r: Request, now: int) {
    var log, answer := Run(steps, cfg).log, AnswerTo(Run(steps, cfg).cache, cfg, r, now);
    answer.Some? ==>
      exists n :: 0 <= n < |log| && Filled(cfg, log[n]) == answer
                  && SameAsk(cfg.Sent(log[n].exchange.request), cfg.Sent(r))
  }

  /** However requests interleave, the cache serves what the origin would be asked for, if and only if the backend's URL
      has neither a path nor a query. */
  lemma RightContentIff(e: Backend)
    requires e.IsProper()
    ensures (forall cfg: Config, steps, r, now ::
               (&& cfg.backend == e && cfg.policy == EdgePolicy()
                && UsualAsked(steps) && IsOrdinary(r) && KeepsEncoding(r)) ==>
                 ServesRight(steps, cfg, r, now))
            <==> e.IsNeutral()
  {
    hide ServesRight, Rewritten, Run;
    if e.IsNeutral() {
      forall cfg: Config, steps, r, now | cfg.backend == e && cfg.policy == EdgePolicy() && UsualAsked(steps)
                                          && IsOrdinary(r) && KeepsEncoding(r)
        ensures ServesRight(steps, cfg, r, now)
      {
        NeutralServesRight(steps, cfg, r, now);
      }
    } else {
      WrongContent(e);
      Chain(e);
      assert UsualAsked(Load(X));
      assert Edge(1, e).backend == e && !ServesRight(Load(X), Edge(1, e), For(Rewritten(e, X)), 0);
    }
  }

  lemma NeutralServesRight(steps: seq<Step>, cfg: Config, r: Request, now: int)
    requires cfg.backend.IsProper() && cfg.backend.IsNeutral() && cfg.policy == EdgePolicy()
    requires UsualAsked(steps) && IsOrdinary(r) && KeepsEncoding(r)
    ensures ServesRight(steps, cfg, r, now)
  {
    if AnswerTo(Run(steps, cfg).cache, cfg, r, now).Some? {
      var n := OnlySharedContentIsServed(steps, cfg, r, now);
      RewrittenLength(cfg.backend, r.uri);
      assert SameAsk(cfg.Sent(Run(steps, cfg).log[n].exchange.request), cfg.Sent(r));
    }
  }

  lemma LoadStands(e: Backend, cap: nat)
    requires cap >= 1 && e.IsProper()
    ensures Stands(Load(X), cap, e, 1, [Rewritten(e, X)], map[], [Fetch(X, true)])
  {
    hide Rewritten, Run;
    RewrittenIsOrdinary(e, For(X));
    EmptyStands(cap, e, 1);
    assert Plain([X] + []) && Plain([Rewritten(e, X)] + []);
    assert [Rewritten(e, X)] + [] == [Rewritten(e, X)];
    assert [] + Load(X) == Load(X) && [] + [Fetch(X, true)] == [Fetch(X, true)];
    LoadNew([], cap, e, 1, [], map[], [], X);
  }

  /** A visitor asks for a URI that begins with the backend's path: the reply is that to the URI without it. */
  lemma WrongContent(e: Backend)
    requires e.IsProper() && !e.IsNeutral()
    ensures !ServesRight(Load(X), Edge(1, e), For(Rewritten(e, X)), 0)
  {
    hide Rewritten, Run, OpenAtMost, IsOrdinary, CacheKey;
    var cfg, to := Edge(1, e), Rewritten(e, X);
    var s := Run(Load(X), cfg);
    Chain(e);
    LoadStands(e, 1);
    OneUnitIsFound(to, cfg);
    SentFor(1, e, X);
    SentFor(1, e, to);
    assert s.log == [Fetch(X, true)] && cfg.Sent(For(X)) == For(to) && cfg.Sent(For(to)).uri != to;
  }

  lemma SentFor(cap: int, e: Backend, uri: string)
    ensures Edge(cap, e).Sent(For(uri)) == For(Rewritten(e, uri))
  {
    hide Rewritten;
  }

  lemma OneUnitIsFound(uri: string, cfg: Config)
    requires '\0' !in uri && cfg.Enabled()
    ensures AnswerTo(Units([uri]), cfg, For(uri), 0) == Some(Unit(uri))
  {
    hide CacheKey;
    KeyOfUnits([uri], uri);
  }

  // ---------------------------------------------------------------- what is replaced

  /** Whatever the reply to a waiting request would replace was put into the cache after the request was looked up. */
  ghost predicate ReplacesYounger(steps: seq<Step>, cfg: Config) {
    forall id, e :: Replaces(Run(steps, cfg), cfg, id, e) ==> exists i, n :: IsYounger(steps, cfg, id, e, i, n)
  }

  /** Only overlapping misses replace what is cached, if and only if the backend's URL has neither a path nor a query. */
  lemma ReplacesYoungerIff(e: Backend)
    requires e.IsProper()
    ensures (forall cfg: Config, steps :: cfg.backend == e && UsualAsked(steps) ==> ReplacesYounger(steps, cfg))
            <==> e.IsNeutral()
  {
    if e.IsNeutral() {
      forall cfg: Config, steps | cfg.backend == e && UsualAsked(steps)
        ensures ReplacesYounger(steps, cfg)
      {
        NeutralReplacesYounger(steps, cfg);
      }
    } else {
      SecondMissReplaces(e);
      assert Edge(1, e).backend == e && UsualAsked(Load(X) + [Ask(1, For(X), 0)]);
    }
  }

  lemma NeutralReplacesYounger(steps: seq<Step>, cfg: Config)
    requires cfg.backend.IsProper() && cfg.backend.IsNeutral() && UsualAsked(steps)
    ensures ReplacesYounger(steps, cfg)
  {
    UsualKeepKeys(steps, cfg);
    forall id, e | Replaces(Run(steps, cfg), cfg, id, e)
      ensures exists i, n :: IsYounger(steps, cfg, id, e, i, n)
    {
      var i := OpenWasAsked(steps, cfg, id);
      var j, n := ReplacedEntryIsYounger(steps, cfg, id, e);
    }
  }

  /** The second of two requests for one URI, one after the other, misses and replaces what the first one stored. */
  lemma SecondMissReplaces(e: Backend)
    requires e.IsProper() && !e.IsNeutral()
    ensures !ReplacesYounger(Load(X) + [Ask(1, For(X), 0)], Edge(1, e))
  {
    hide Rewritten, Run, OpenAtMost, IsOrdinary, CacheKey, Filled;
    var cfg, to, steps := Edge(1, e), Rewritten(e, X), Load(X) + [Ask(1, For(X), 0)];
    Chain(e);
    LoadStands(e, 1);
    assert Plain([X] + [to]);
    AskNewStands(Load(X), 1, e, 1, [to], map[], [Fetch(X, true)], 1, X);
    SentFor(1, e, X);
    var s := Run(steps, cfg);
    assert s.cache[0] == Unit(to) && Replaces(s, cfg, 1, Unit(to));
    forall i, n
      ensures !IsYounger(steps, cfg, 1, Unit(to), i, n)
    {
      NothingLater(steps, cfg, Unit(to), i, n);
    }
  }

  /** Nothing was finished after the last request was looked up. */
  lemma NothingLater(steps: seq<Step>, cfg: Config, e: Entry, i: nat, n: nat)
    requires steps == Load(X) + [Ask(1, For(X), 0)] && |Run(steps, cfg).log| == |Run(Load(X), cfg).log|
    requires 1 in Run(steps, cfg).open && Run(steps, cfg).open[1] == Waits(X, true)
    ensures !IsYounger(steps, cfg, 1, e, i, n)
  {
    hide Run, Filled;
    if i < |steps| && steps[i] == Ask(1, For(X), 0) {
      assert i == 2 && steps[..2] == Load(X);
    }
  }

  // ---------------------------------------------------------------- a hit that a larger cache loses

  /** What the larger cache still has, it does not ask the origin for again, and so does not store under the next name. */
  function RewritingRun(e: Backend): seq<Step> {
    Load(X) + Load(Z) + Load(Rewritten(e, X)) + Load(Rewritten(e, Rewritten(e, X)))
  }

  lemma RewritingRunIsUsual(e: Backend)
    requires e.IsProper() && !e.IsNeutral()
    ensures UsualAsked(RewritingRun(e))
  {
    hide Rewritten;
    Chain(e);
    var to := Rewritten(e, X);
    var too := Rewritten(e, to);
    assert IsOrdinary(For(X)) && IsOrdinary(For(Z));
    forall i | 0 <= i < |RewritingRun(e)| && RewritingRun(e)[i].Ask?
      ensures RewritingRun(e)[i].request in {For(X), For(Z), For(to), For(too)}
    {
    }
  }

  function FourFetches(e: Backend, third: bool, last: bool): seq<Done> {
    [Fetch(X, true)] + [Fetch(Z, true)] + [Fetch(Rewritten(e, X), third)] + [Fetch(Rewritten(e, Rewritten(e, X)), last)]
  }

  lemma TwoStand(e: Backend, cap: nat)
    requires 1 <= cap <= 2 && e.IsProper() && !e.IsNeutral()
    ensures Stands(Load(X) + Load(Z), cap, e, 1, Kept([Rewritten(e, Z), Rewritten(e, X)], cap), map[],
                   [Fetch(X, true)] + [Fetch(Z, true)])
  {
    hide Rewritten, Run, OpenAtMost, Stands;
    Chain(e);
    LoadStands(e, cap);
    assert [Rewritten(e, Z)] + [Rewritten(e, X)] == [Rewritten(e, Z), Rewritten(e, X)];
    assert Plain([Z] + [Rewritten(e, X)]) && Plain([Rewritten(e, Z)] + [Rewritten(e, X)]);
    LoadNew(Load(X), cap, e, 1, [Rewritten(e, X)], map[], [Fetch(X, true)], Z);
  }

  lemma SmallFacts(e: Backend)
    requires e.IsProper() && !e.IsNeutral()
    ensures var to, too, z := Rewritten(e, X), Rewritten(e, Rewritten(e, X)), Rewritten(e, Z);
            && Kept([z, to], 1) == [z] && Plain([to] + [z]) && Plain([too] + [z]) && Kept([too] + [z], 1) == [too]
            && [too] + WithoutAt([too], 0) == [too]
  {
    hide Rewritten;
    Chain(e);
  }

  lemma LargeFacts(e: Backend)
    requires e.IsProper() && !e.IsNeutral()
    ensures var to, too, z := Rewritten(e, X), Rewritten(e, Rewritten(e, X)), Rewritten(e, Z);
            var last := Rewritten(e, too);
            && Kept([z, to], 2) == [z, to] && [z, to][1] == to && [to] + WithoutAt([z, to], 1) == [to, z]
            && Plain([too] + [to, z]) && Plain([last] + [to, z]) && Kept([last] + [to, z], 2) == [last, to]
  {
    hide Rewritten;
    Chain(e);
  }

  lemma SmallRewriting(e: Backend)
    requires e.IsProper() && !e.IsNeutral()
    ensures Stands(RewritingRun(e), 1, e, 1, [Rewritten(e, Rewritten(e, X))], map[], FourFetches(e, true, false))
  {
    hide Rewritten, Run, OpenAtMost, IsOrdinary, Stands;
    var to, too, z := Rewritten(e, X), Rewritten(e, Rewritten(e, X)), Rewritten(e, Z);
    TwoStand(e, 1);
    SmallFacts(e);
    LoadNew(Load(X) + Load(Z), 1, e, 1, [z], map[], [Fetch(X, true)] + [Fetch(Z, true)], to);
    LoadAgain(Load(X) + Load(Z) + Load(to), 1, e, 1, [too], map[],
              [Fetch(X, true)] + [Fetch(Z, true)] + [Fetch(to, true)], 0);
  }

  lemma LargeRewriting(e: Backend)
    requires e.IsProper() && !e.IsNeutral()
    ensures var to := Rewritten(e, X);
            Stands(RewritingRun(e), 2, e, 1, [Rewritten(e, Rewritten(e, to)), to], map[], FourFetches(e, false, true))
  {
    hide Rewritten, Run, OpenAtMost, IsOrdinary, Stands, Plain, Kept;
    var to, too, z := Rewritten(e, X), Rewritten(e, Rewritten(e, X)), Rewritten(e, Z);
    TwoStand(e, 2);
    LargeFacts(e);
    LoadAgain(Load(X) + Load(Z), 2, e, 1, [z, to], map[], [Fetch(X, true)] + [Fetch(Z, true)], 1);
    LoadNew(Load(X) + Load(Z) + Load(to), 2, e, 1, [to, z], map[],
            [Fetch(X, true)] + [Fetch(Z, true)] + [Fetch(to, false)], too);
  }

  /** One request at a time: what the smaller cache has at the end, the larger one misses. */
  lemma RewritingLosesHit(e: Backend)
    requires e.IsProper() && !e.IsNeutral()
    ensures var steps := RewritingRun(e);
            && OpenAtMost(steps, Edge(1, e), 1) && SteadyRun(steps, Edge(1, e), _ => 1)
            && !KeepsHits(steps, Edge(1, e), 2)
  {
    hide RewritingRun, OpenAtMost, SteadyRun, Rewritten;
    var steps := RewritingRun(e);
    SmallRewriting(e);
    LargeRewriting(e);
    FetchesAreSteady(steps, 1, e);
    assert Edge(1, e).(maxBytes := 2) == Edge(2, e);
    assert !Run(steps, Edge(1, e)).log[3].missed && Run(steps, Edge(2, e)).log[3].missed;
  }
}
