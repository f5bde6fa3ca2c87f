/** What overlapping requests cost, and what a rewriting backend costs: when a larger cache keeps every hit of a smaller
    one although nothing expires and no reply changes. */
module Overlaps {
  import opened Options
  import opened Recency
  import opened Text
  import opened CachePolicy
  import opened Backends
  import opened LruStack
  import opened Exchanges
  import opened SmallWorld
  import opened Rewriting

  // ---------------------------------------------------------------- a run that loses a hit

  function Opening(a: string, b: string): seq<Step> {
    Load(a) + Load(b) + [Ask(1, For(a), 0)]
  }

  /** `a` is asked for again when only the larger cache still has it.  There it is a hit, and has aged out when `c` and
      `d` have come and gone; the smaller cache stores it only then. */
  function Anomaly(a: string, b: string, c: string, d: string): seq<Step> {
    Opening(a, b) + Load(c) + Load(d) + [Finish(1, PUBLIC, 0)] + Load(a)
  }

  function Fetches(a: string, b: string, c: string, d: string, held: bool, last: bool): seq<Done> {
    [Fetch(a, true)] + [Fetch(b, true)] + [Fetch(c, true)] + [Fetch(d, true)] + [Fetch(a, held)] + [Fetch(a, last)]
  }

  /** A URI that reaches the backend unchanged. */
  predicate Stays(e: Backend, uri: string) {
    Rewritten(e, uri) == uri
  }

  lemma FirstStands(e: Backend, a: string, cap: nat)
    requires cap >= 1 && Plain([a]) && Stays(e, a)
    ensures Stands(Load(a), cap, e, 2, [a], map[], [Fetch(a, true)])
  {
    EmptyStands(cap, e, 2);
    assert [a] + [] == [a] && [] + Load(a) == Load(a) && [] + [Fetch(a, true)] == [Fetch(a, true)];
    LoadNew([], cap, e, 2, [], map[], [], a);
  }

  lemma FirstTwoStand(e: Backend, a: string, b: string, cap: nat)
    requires 1 <= cap <= 2 && Plain([a]) && Plain([b] + [a]) && Stays(e, a) && Stays(e, b)
    ensures Stands(Load(a) + Load(b), cap, e, 2, if cap == 1 then [b] else [b, a], map[],
                   [Fetch(a, true)] + [Fetch(b, true)])
  {
    FirstStands(e, a, cap);
    LoadNew(Load(a), cap, e, 2, [a], map[], [Fetch(a, true)], b);
    assert Kept([b] + [a], cap) == if cap == 1 then [b] else [b, a];
  }

  /** The first two requests, and the lookup of the third: it misses in the small cache and hits in the large one. */
  lemma OpeningSmall(e: Backend, a: string, b: string)
    requires Plain([a]) && Plain([b] + [a]) && Plain([a] + [b]) && Stays(e, a) && Stays(e, b)
    ensures Stands(Opening(a, b), 1, e, 2, [b], map[1 := Waits(a, true)], [Fetch(a, true)] + [Fetch(b, true)])
  {
    FirstTwoStand(e, a, b, 1);
    AskNewStands(Load(a) + Load(b), 1, e, 2, [b], map[], [Fetch(a, true)] + [Fetch(b, true)], 1, a);
  }

  lemma OpeningLarge(e: Backend, a: string, b: string)
    requires Plain([a]) && Plain([b] + [a]) && Stays(e, a) && Stays(e, b)
    ensures Stands(Opening(a, b), 2, e, 2, [a, b], map[1 := Waits(a, false)], [Fetch(a, true)] + [Fetch(b, true)])
  {
    FirstTwoStand(e, a, b, 2);
    AskAgainStands(Load(a) + Load(b), 2, e, 2, [b, a], map[], [Fetch(a, true)] + [Fetch(b, true)], 1, 1);
    assert [a] + WithoutAt([b, a], 1) == [a, b];
  }

  /** Two new objects push out everything else. */
  lemma TwoMore(e: Backend, steps: seq<Step>, cap: nat, uris: seq<string>, open: map<nat, Waiting>, log: seq<Done>,
                c: string, d: string)
    requires 1 <= cap <= 2 && |uris| == cap && Stands(steps, cap, e, 2, uris, open, log) && 0 !in open && |open| <= 1
    requires Plain([c] + uris) && Plain([d] + Kept([c] + uris, cap)) && Stays(e, c) && Stays(e, d)
    ensures Stands(steps + Load(c) + Load(d), cap, e, 2, if cap == 1 then [d] else [d, c], open,
                   log + [Fetch(c, true)] + [Fetch(d, true)])
  {
    hide Run, OpenAtMost, Rewritten, Stands;
    LoadNew(steps, cap, e, 2, uris, open, log, c);
    LoadNew(steps + Load(c), cap, e, 2, Kept([c] + uris, cap), open, log + [Fetch(c, true)], d);
    assert Kept([d] + Kept([c] + uris, cap), cap) == if cap == 1 then [d] else [d, c];
  }

  lemma SmallRun(e: Backend, a: string, b: string, c: string, d: string)
    requires Plain([d, c, b, a]) && Stays(e, a) && Stays(e, b) && Stays(e, c) && Stays(e, d)
    ensures Stands(Anomaly(a, b, c, d), 1, e, 2, [a], map[], Fetches(a, b, c, d, true, false))
  {
    var log, open := [Fetch(a, true)] + [Fetch(b, true)], map[1 := Waits(a, true)];
    FourArePlain(a, b, c, d);
    OpeningSmall(e, a, b);
    TwoMore(e, Opening(a, b), 1, [b], open, log, c, d);
    SmallEnd(e, Opening(a, b) + Load(c) + Load(d), log + [Fetch(c, true)] + [Fetch(d, true)], a, d);
  }

  lemma SmallEnd(e: Backend, steps: seq<Step>, log: seq<Done>, a: string, d: string)
    requires Stands(steps, 1, e, 2, [d], map[1 := Waits(a, true)], log) && Plain([a] + [d]) && Stays(e, a)
    ensures Stands(steps + [Finish(1, PUBLIC, 0)] + Load(a), 1, e, 2, [a], map[],
                   log + [Fetch(a, true)] + [Fetch(a, false)])
  {
    FinishNewStands(steps, 1, e, 2, [d], map[1 := Waits(a, true)], log, 1, a);
    assert map[1 := Waits(a, true)] - {1} == map[] && Kept([a] + [d], 1) == [a];
    LoadAgain(steps + [Finish(1, PUBLIC, 0)], 1, e, 2, [a], map[], log + [Fetch(a, true)], 0);
    assert [a] + WithoutAt([a], 0) == [a];
  }

  lemma LargeRun(e: Backend, a: string, b: string, c: string, d: string)
    requires Plain([d, c, b, a]) && Stays(e, a) && Stays(e, b) && Stays(e, c) && Stays(e, d)
    ensures Stands(Anomaly(a, b, c, d), 2, e, 2, [a, d], map[], Fetches(a, b, c, d, false, true))
  {
    var log, open := [Fetch(a, true)] + [Fetch(b, true)], map[1 := Waits(a, false)];
    FourArePlain(a, b, c, d);
    OpeningLarge(e, a, b);
    TwoMore(e, Opening(a, b), 2, [a, b], open, log, c, d);
    LargeEnd(e, Opening(a, b) + Load(c) + Load(d), log + [Fetch(c, true)] + [Fetch(d, true)], a, c, d);
  }

  lemma LargeEnd(e: Backend, steps: seq<Step>, log: seq<Done>, a: string, c: string, d: string)
    requires Stands(steps, 2, e, 2, [d, c], map[1 := Waits(a, false)], log) && Plain([a] + [d, c]) && Stays(e, a)
    ensures Stands(steps + [Finish(1, PUBLIC, 0)] + Load(a), 2, e, 2, [a, d], map[],
                   log + [Fetch(a, false)] + [Fetch(a, true)])
  {
    FinishAgainStands(steps, 2, e, 2, [d, c], map[1 := Waits(a, false)], log, 1, a);
    assert map[1 := Waits(a, false)] - {1} == map[];
    LoadNew(steps + [Finish(1, PUBLIC, 0)], 2, e, 2, [d, c], map[], log + [Fetch(a, false)], a);
    assert Kept([a] + [d, c], 2) == [a, d];
  }

  lemma FourArePlain(a: string, b: string, c: string, d: string)
    requires Plain([d, c, b, a])
    ensures Plain([a]) && Plain([b] + [a]) && Plain([a] + [b]) && Plain([a] + [d]) && Plain([a] + [d, c])
    ensures Plain([c] + [b]) && Kept([c] + [b], 1) == [c] && Plain([d] + [c])
    ensures Plain([c] + [a, b]) && Kept([c] + [a, b], 2) == [c, a] && Plain([d] + [c, a])
  {
    var all := [d, c, b, a];
    assert all[0] == d && all[1] == c && all[2] == b && all[3] == a;
    assert '\0' !in a && '\0' !in b && '\0' !in c && '\0' !in d;
  }

  // ---------------------------------------------------------------- exactly when hits are kept

  /** The same steps, the same replies: what the smaller cache has at the end, the larger one has lost. */
  lemma OverlapLosesHit(e: Backend, a: string, b: string, c: string, d: string)
    requires Plain([d, c, b, a]) && Stays(e, a) && Stays(e, b) && Stays(e, c) && Stays(e, d)
    ensures var steps := Anomaly(a, b, c, d);
            && OpenAtMost(steps, Edge(1, e), 2) && SteadyRun(steps, Edge(1, e), _ => 1)
            && !KeepsHits(steps, Edge(1, e), 2)
  {
    hide Anomaly, OpenAtMost, SteadyRun, Run;
    var steps := Anomaly(a, b, c, d);
    SmallRun(e, a, b, c, d);
    LargeRun(e, a, b, c, d);
    FetchesAreSteady(steps, 1, e);
    assert Edge(1, e).(maxBytes := 2) == Edge(2, e);
    assert !Run(steps, Edge(1, e)).log[5].missed && Run(steps, Edge(2, e)).log[5].missed;
  }

  ghost predicate LosesNoHit(cfg: Config, larger: int, steps: seq<Step>, size: string -> nat, k: nat) {
    cfg.policy == EdgePolicy() && cfg.Enabled() && cfg.maxBytes <= larger && OpenAtMost(steps, cfg, k)
    && SteadyRun(steps, cfg, size) && UsualAsked(steps) ==>
      KeepsHits(steps, cfg, larger)
  }

  /** Raising the byte bound keeps every hit of every steady read-through run with at most `k` requests in the handler,
      with backend `e`, if and only if there are none, or one at a time and the backend's URL has neither a path nor a
      query. */
  lemma HitsAreKeptIff(e: Backend, k: nat)
    requires e.IsProper()
    ensures (forall cfg: Config, larger: int, steps: seq<Step>, size: string -> nat ::
               cfg.backend == e ==> LosesNoHit(cfg, larger, steps, size, k))
            <==> k == 0 || (k == 1 && e.IsNeutral())
  {
    if k == 0 || (k == 1 && e.IsNeutral()) {
      forall cfg: Config, larger: int, steps: seq<Step>, size: string -> nat | cfg.backend == e
        ensures LosesNoHit(cfg, larger, steps, size, k)
      {
        OneLosesNoHit(cfg, larger, steps, size, k);
      }
    } else {
      var steps := TooManyLoseHit(e, k);
      assert Edge(1, e).backend == e;
    }
  }

  lemma OneLosesNoHit(cfg: Config, larger: int, steps: seq<Step>, size: string -> nat, k: nat)
    requires cfg.backend.IsProper() && (k == 0 || (k == 1 && cfg.backend.IsNeutral()))
    ensures LosesNoHit(cfg, larger, steps, size, k)
  {
    if cfg.Enabled() && cfg.maxBytes <= larger && OpenAtMost(steps, cfg, k) && SteadyRun(steps, cfg, size)
       && UsualAsked(steps) {
      if k == 0 {
        NobodyFinishes(steps, cfg);
        RunsAreSameBut(steps, cfg, larger);
      } else {
        UsualKeepKeys(steps, cfg);
        LargerHandlerKeepsHits(steps, cfg, larger, size);
      }
    }
  }

  lemma {:induction false} NobodyFinishes(steps: seq<Step>, cfg: Config)
    requires OpenAtMost(steps, cfg, 0)
    ensures Run(steps, cfg).log == [] && Finished(Run(steps, cfg).log) == []
  {
    if steps != [] {
      var before := steps[..|steps| - 1];
      OpenAtMostPrefix(steps, cfg, 0);
      NobodyFinishes(before, cfg);
      assert before[..|before|] == before;
      assert |Run(before, cfg).open| == 0;
    }
  }

  lemma TooManyLoseHit(e: Backend, k: nat) returns (steps: seq<Step>)
    requires e.IsProper() && k >= 1 && (k >= 2 || !e.IsNeutral())
    ensures !LosesNoHit(Edge(1, e), 2, steps, _ => 1, k)
  {
    if e.IsNeutral() {
      steps := TwoLoseHit(e, k);
    } else {
      steps := RewritingRun(e);
      RewritingLosesHit(e);
      RewritingRunIsUsual(e);
      AtMostMore(steps, Edge(1, e), 1, k);
    }
  }

  lemma TwoLoseHit(e: Backend, k: nat) returns (steps: seq<Step>)
    requires k >= 2 && e.IsNeutral()
    ensures !LosesNoHit(Edge(1, e), 2, steps, _ => 1, k)
  {
    hide Anomaly, OpenAtMost, SteadyRun, KeepsHits, UsualAsked, Stays;
    var a, b, c, d := "/", "/a", "/aa", "/aaa";
    ShortOnesStay(e);
    OverlapLosesHit(e, a, b, c, d);
    AtMostMore(Anomaly(a, b, c, d), Edge(1, e), 2, k);
    AnomalyIsUsual(a, b, c, d);
    steps := Anomaly(a, b, c, d);
  }

  lemma ShortOnesStay(e: Backend)
    requires e.IsNeutral()
    ensures Plain(["/aaa", "/aa", "/a", "/"])
    ensures Stays(e, "/") && Stays(e, "/a") && Stays(e, "/aa") && Stays(e, "/aaa")
  {
    hide Rewritten;
    RewrittenLength(e, "/");
    RewrittenLength(e, "/a");
    RewrittenLength(e, "/aa");
    RewrittenLength(e, "/aaa");
  }

  lemma AnomalyIsUsual(a: string, b: string, c: string, d: string)
    requires IsOrdinary(For(a)) && IsOrdinary(For(b)) && IsOrdinary(For(c)) && IsOrdinary(For(d))
    ensures UsualAsked(Anomaly(a, b, c, d))
  {
    var steps := Anomaly(a, b, c, d);
    forall i | 0 <= i < |steps| && steps[i].Ask?
      ensures steps[i].request in {For(a), For(b), For(c), For(d)}
    {
    }
  }

  lemma AtMostMore(steps: seq<Step>, cfg: Config, k: nat, n: nat)
    requires OpenAtMost(steps, cfg, k) && k <= n
    ensures OpenAtMost(steps, cfg, n)
  {
  }
}
