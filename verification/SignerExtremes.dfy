/** Runs that show how sharp two statements about the signer are: a denial caused by an older window does
    happen with requests one at a time, and sixty seconds can hold twice the bound of a minute. */
module SignerExtremes {
  import opened Options
  import opened Signing
  import opened SignerRuns
  import opened SignerLimits
  import opened SignerRecovery

  // ---------------------------------------------------------------- a denial caused by an older window

  /** The client has used up a minute that is over, nothing is pending, and requests `lo` to `hi` are authenticated. */
  ghost predicate UsedUp(s: State, c: string, lo: nat, hi: nat) {
    && c in s.clients && Pending(s, c) == {}
    && 0 < Limit(s.clients[c].cfg) <= s.clients[c].signs
    && s.clients[c].window.Some? && s.clients[c].window != Some(Minute(s.now))
    && forall r :: lo <= r < hi ==> PhaseOf(s, r) == Authenticated(c)
  }

  lemma DenyNext(s: State, c: string, lo: nat, hi: nat)
    requires UsedUp(s, c, lo, hi) && lo < hi
    ensures var t := Next(s, Allow(lo));
            && PhaseOf(t, lo) == Refused(c, true, s.now) && Pending(t, c) == {lo} && t.now == s.now && t.log == s.log
            && c in t.clients && t.clients[c].cfg == s.clients[c].cfg
            && t.clients[c].window != Some(Minute(s.now))
            && forall r :: lo < r < hi ==> PhaseOf(t, r) == Authenticated(c)
  {
    AllowingKeepsCounters(s.clients[c], Sign);
    DenyAuthenticated(s, c, lo);
    PendingMoves(s, Allow(lo), c);
  }

  lemma DenyAuthenticated(s: State, c: string, r: nat)
    requires c in s.clients && PhaseOf(s, r) == Authenticated(c) && !Allowing(s.clients[c], Sign).ok
    requires s.clients[c].window != Some(Minute(s.now))
    ensures var t, o := Next(s, Allow(r)), Allowing(s.clients[c], Sign);
            && PhaseOf(t, r) == Refused(c, true, s.now) && t.now == s.now && t.log == s.log
            && t.clients == s.clients[c := o.client]
            && forall q :: q != r ==> PhaseOf(t, q) == PhaseOf(s, q)
  {
  }

  /** Its record is the one that counts as caused by an older window ... */
  lemma DenialIsCounted(s: State, c: string, r: nat)
    requires c in s.clients && PhaseOf(s, r) == Refused(c, true, s.now)
    ensures var t, m := Next(s, Record(r)), Minute(s.now);
            Count(t.log, StaleIn(c, m)) == Count(s.log, StaleIn(c, m)) + 1
  {
    StepOnLog(s, Record(r));
    CountOfAppend(s.log, EventOf(s, Record(r)).value, StaleIn(c, Minute(s.now)));
  }

  /** ... and it starts a new minute. */
  lemma DenialMakesRoom(s: State, c: string, lo: nat, hi: nat)
    requires c in s.clients && PhaseOf(s, lo) == Refused(c, true, s.now) && Pending(s, c) == {lo}
    requires s.clients[c].window != Some(Minute(s.now))
    requires forall r :: lo < r < hi ==> PhaseOf(s, r) == Authenticated(c)
    ensures var t := Next(s, Record(lo));
            Waiting(t, c, 0, {}, lo + 1, hi) && t.clients[c].cfg == s.clients[c].cfg && t.now == s.now
  {
    PendingMoves(s, Record(lo), c);
    assert {lo} - {lo} == {};
    StepOnClient(s, Record(lo), c);
    RecordingCounts(s.clients[c], Sign, false, "", Minute(s.now));
    forall q | q != lo
      ensures PhaseOf(Next(s, Record(lo)), q) == PhaseOf(s, q)
    {
      RecordKeepsOthers(s, lo, q);
    }
  }

  lemma DenyInRun(s: State, before: seq<Step>, c: string, k: nat, lo: nat, hi: nat) returns (steps: seq<Step>)
    requires Within(s, before, c, k) && k >= 1 && UsedUp(After(s, before), c, lo, hi) && lo < hi
    ensures before <= steps && Within(s, steps, c, k)
    ensures var b, t := After(s, before), After(s, steps);
            && Waiting(t, c, 0, {}, lo + 1, hi) && t.clients[c].cfg == b.clients[c].cfg && t.now == b.now
            && Count(t.log, StaleIn(c, Minute(b.now))) == Count(b.log, StaleIn(c, Minute(b.now))) + 1
  {
    hide Next, Minute;
    var b := After(s, before);
    DenyNext(b, c, lo, hi);
    DenialIsCounted(Next(b, Allow(lo)), c, lo);
    DenialMakesRoom(Next(b, Allow(lo)), c, lo, hi);
    Extend(s, before, Allow(lo), c, k);
    Extend(s, before + [Allow(lo)], Record(lo), c, k);
    steps := before + [Allow(lo)] + [Record(lo)];
  }

  /** Use a minute up, and let it pass. */
  lemma UsedUpLater(s: State, before: seq<Step>, c: string, k: nat, n: nat, lo: nat, hi: nat, d: nat)
      returns (steps: seq<Step>)
    requires Within(s, before, c, k) && Waiting(After(s, before), c, n, {}, lo, hi)
    requires 0 < Limit(After(s, before).clients[c].cfg) <= n
    requires Minute(After(s, before).now + d) != Minute(After(s, before).now)
    ensures before <= steps && Within(s, steps, c, k)
    ensures var b, t := After(s, before), After(s, steps);
            UsedUp(t, c, lo, hi) && t.clients == b.clients && t.now == b.now + d
  {
    PendingMoves(After(s, before), Tick(d), c);
    Extend(s, before, Tick(d), c, k);
    steps := before + [Tick(d)];
    assert forall r :: PhaseOf(After(s, steps), r) == PhaseOf(After(s, before), r);
  }

  /** A client that uses up its limit, then waits a minute and asks again is denied although the new minute is empty. */
  lemma StaleRun(s: State, c: string) returns (steps: seq<Step>)
    requires Init(s) && Trusted(s, c) && Limit(s.clients[c].cfg) > 0
    ensures Within(s, steps, c, 1)
    ensures var t := After(s, steps); Count(t.log, StaleIn(c, Minute(t.now))) == 1
  {
    var n := Limit(s.clients[c].cfg);
    var ready := GetReady(s, c, 1, n + 1);
    var full := Sequential(s, ready, c, 1, n, 0, n + 1);
    var later := UsedUpLater(s, full, c, 1, n, n, n + 1, 60_000_000_000);
    steps := DenyInRun(s, later, c, 1, n, n + 1);
    OneStaleDenialPerMinute(s, steps, c);
  }

  lemma {:induction false} UnlimitedIsNeverDenied(s: State, steps: seq<Step>, c: string, m: int)
    requires Init(s) && c in s.clients && Limit(s.clients[c].cfg) == 0
    ensures var t := After(s, steps);
            && (forall r :: r in t.requests && t.requests[r].phase.Refused? ==> t.requests[r].phase.id != c)
            && Count(t.log, StaleIn(c, m)) == 0
  {
    if steps != [] {
      var before, step := steps[..|steps| - 1], steps[|steps| - 1];
      UnlimitedIsNeverDenied(s, before, c, m);
      ConfigIsFixed(s, before);
      UnlimitedStep(After(s, before), step, c, m);
    }
  }

  lemma UnlimitedStep(s: State, step: Step, c: string, m: int)
    requires c in s.clients && Limit(s.clients[c].cfg) == 0 && Count(s.log, StaleIn(c, m)) == 0
    requires forall r :: r in s.requests && s.requests[r].phase.Refused? ==> s.requests[r].phase.id != c
    ensures var t := Next(s, step);
            && (forall r :: r in t.requests && t.requests[r].phase.Refused? ==> t.requests[r].phase.id != c)
            && Count(t.log, StaleIn(c, m)) == 0
  {
    NobodyIsRefused(s, step, c);
    StepOnLog(s, step);
    match EventOf(s, step) {
      case Some(e) =>
        NoDenialToRecord(s, step, c);
        CountOfAppend(s.log, e, StaleIn(c, m));
      case None =>
    }
  }

  lemma NobodyIsRefused(s: State, step: Step, c: string)
    requires c in s.clients && Limit(s.clients[c].cfg) == 0
    requires forall r :: r in s.requests && s.requests[r].phase.Refused? ==> s.requests[r].phase.id != c
    ensures forall r :: r in Next(s, step).requests && Next(s, step).requests[r].phase.Refused? ==>
              Next(s, step).requests[r].phase.id != c
  {
    AllowingKeepsCounters(s.clients[c], Sign);
  }

  lemma NoDenialToRecord(s: State, step: Step, c: string)
    requires EventOf(s, step).Some?
    requires forall r :: r in s.requests && s.requests[r].phase.Refused? ==> s.requests[r].phase.id != c
    ensures EventOf(s, step).value.client == c ==> !EventOf(s, step).value.kind.Denied?
  {
  }

  /** With requests one at a time, a denial caused by an older window happens in some run if and only if the client has a
      limit at all. */
  lemma NeverStaleIff(c: string, cfg: ClientConfig)
    requires c != "" && !cfg.disabled
    ensures (forall s, steps, m: int :: Starts(s, c, cfg) && Within(s, steps, c, 1) ==>
               Count(After(s, steps).log, StaleIn(c, m)) == 0)
            <==> Limit(cfg) == 0
  {
    if Limit(cfg) == 0 {
      forall s, steps, m: int | Starts(s, c, cfg) && Within(s, steps, c, 1)
        ensures Count(After(s, steps).log, StaleIn(c, m)) == 0
      {
        UnlimitedIsNeverDenied(s, steps, c, m);
      }
    } else {
      var s := StartState(c, cfg);
      var steps := StaleRun(s, c);
      assert Starts(s, c, cfg) && Count(After(s, steps).log, StaleIn(c, Minute(After(s, steps).now))) == 1;
    }
  }

  // ---------------------------------------------------------------- sixty seconds with twice the bound

  lemma {:induction false} LogIsDuringRun(s: State, steps: seq<Step>)
    requires s.log == []
    ensures var t := After(s, steps); s.now <= t.now && forall e :: e in t.log ==> s.now <= e.at <= t.now
  {
    if steps != [] {
      LogIsDuringRun(s, steps[..|steps| - 1]);
      StepOnLog(After(s, steps[..|steps| - 1]), steps[|steps| - 1]);
      StepOnRest(After(s, steps[..|steps| - 1]), steps[|steps| - 1]);
    }
  }

  lemma {:induction false} CountNeverShrinks(s: State, before: seq<Step>, steps: seq<Step>, q: Query)
    requires before <= steps
    ensures Count(After(s, before).log, q) <= Count(After(s, steps).log, q)
  {
    if |before| < |steps| {
      var b, step := After(s, steps[..|steps| - 1]), steps[|steps| - 1];
      CountNeverShrinks(s, before, steps[..|steps| - 1], q);
      StepOnLog(b, step);
      match EventOf(b, step) {
        case Some(e) => CountOfAppend(b.log, e, q);
        case None =>
      }
    } else {
      assert before == steps;
    }
  }

  /** Everything of two neighbouring minutes lies within the sixty seconds from `t`. */
  lemma {:induction false} TwoMinutesInInterval(log: seq<Event>, c: string, t: nat)
    requires forall e :: e in log ==> t <= e.at < t + 60_000_000_000
    ensures Count(log, IssuedIn(c, Minute(t))) + Count(log, IssuedIn(c, Minute(t) + 1))
            <= Count(log, SixtySeconds(c, t))
  {
    if log != [] {
      TwoMinutesInInterval(log[..|log| - 1], c, t);
      assert log[|log| - 1] in log;
    }
  }

  const LAST_OF_MINUTE: nat := 59_999_999_999

  /** A full minute in its last nanosecond, and another in the first of the next: the denial in between makes room.
      All requests are authenticated before, so it does not matter whether a threshold revokes the client on the way. */
  lemma TwoFullMinutes(s: State, c: string, k: nat, n: nat) returns (first: seq<Step>, steps: seq<Step>)
    requires Init(s) && Trusted(s, c) && k >= 1 && s.now == LAST_OF_MINUTE
    requires Limit(s.clients[c].cfg) > 0 && n == Limit(s.clients[c].cfg) - 1 + k
    ensures first <= steps && Within(s, steps, c, k)
    ensures var u, t := After(s, first), After(s, steps);
            && c in u.clients && u.clients[c].signs == n && u.clients[c].window == Some(0)
            && c in t.clients && t.clients[c].signs == n && t.clients[c].window == Some(1) && t.now == LAST_OF_MINUTE + 1
  {
    hide Next;
    var ready := GetReady(s, c, k, 2 * n + 1);
    first := WorstFrom(s, ready, c, k, n, 0, 2 * n + 1);
    var later := UsedUpLater(s, first, c, k, n, n, 2 * n + 1, 1);
    var denied := DenyInRun(s, later, c, k, n, 2 * n + 1);
    steps := WorstFrom(s, denied, c, k, n, n + 1, 2 * n + 1);
  }

  /** The sliding bound is attained: for every client with a limit, whatever its two thresholds, and every k, some run
      with at most `k` requests in flight has exactly twice Limit - 1 + k signatures in sixty seconds. */
  lemma SlidingBoundIsAttained(c: string, cfg: ClientConfig, k: nat) returns (s: State, steps: seq<Step>)
    requires c != "" && k >= 1 && !cfg.disabled && Limit(cfg) > 0
    ensures Starts(s, c, cfg) && AtMost(s, steps, c, k)
    ensures Count(After(s, steps).log, SixtySeconds(c, s.now)) == 2 * (Limit(cfg) - 1 + k)
  {
    var n := Limit(cfg) - 1 + k;
    s := StartState(c, cfg).(now := LAST_OF_MINUTE);
    var first;
    first, steps := TwoFullMinutes(s, c, k, n);
    WithinIsAtMost(s, steps, c, k);
    BothMinutesCount(s, first, steps, c, n);
    SlidingBound(s, steps, c, k, s.now);
  }

  /** No run with at most `k` requests in flight records more than `bound` signatures in any sixty seconds. */
  ghost predicate SlidingBoundedBy(c: string, cfg: ClientConfig, k: nat, bound: nat) {
    forall s, steps, t: nat :: Starts(s, c, cfg) && AtMost(s, steps, c, k) ==>
      Count(After(s, steps).log, SixtySeconds(c, t)) <= bound
  }

  /** There is such a bound exactly if the client has a limit, and the least one is twice that of a minute. */
  lemma LeastSlidingBoundIff(c: string, cfg: ClientConfig, k: nat, bound: nat)
    requires c != "" && k >= 1 && !cfg.disabled
    ensures SlidingBoundedBy(c, cfg, k, bound) <==> 0 < Limit(cfg) && 2 * (Limit(cfg) - 1 + k) <= bound
  {
    if 0 < Limit(cfg) && 2 * (Limit(cfg) - 1 + k) <= bound {
      forall s, steps, t: nat | Starts(s, c, cfg) && AtMost(s, steps, c, k)
        ensures Count(After(s, steps).log, SixtySeconds(c, t)) <= bound
      {
        SlidingBound(s, steps, c, k, t);
      }
    } else if 0 < Limit(cfg) {
      var s, steps := SlidingBoundIsAttained(c, cfg, k);
      assert Starts(s, c, cfg) && AtMost(s, steps, c, k);
      assert Count(After(s, steps).log, SixtySeconds(c, s.now)) > bound;
    } else {
      UnlimitedSlides(c, cfg, k, bound);
    }
  }

  lemma UnlimitedSlides(c: string, cfg: ClientConfig, k: nat, bound: nat)
    requires c != "" && k >= 1 && !cfg.disabled && Limit(cfg) == 0
    ensures !SlidingBoundedBy(c, cfg, k, bound)
  {
    var s := StartState(c, cfg);
    var ready := GetReady(s, c, k, bound + 1);
    var steps := Sequential(s, ready, c, k, bound + 1, 0, bound + 1);
    WithinIsAtMost(s, steps, c, k);
    FullMinuteInLog(s, steps, c, 0);
    MinuteInInterval(After(s, steps).log, c);
    assert Starts(s, c, cfg) && AtMost(s, steps, c, k) && Count(After(s, steps).log, SixtySeconds(c, 0)) > bound;
  }

  lemma {:induction false} MinuteInInterval(log: seq<Event>, c: string)
    ensures Count(log, IssuedIn(c, 0)) <= Count(log, SixtySeconds(c, 0))
  {
    if log != [] {
      MinuteInInterval(log[..|log| - 1], c);
    }
  }

  lemma BothMinutesCount(s: State, first: seq<Step>, steps: seq<Step>, c: string, n: nat)
    requires Init(s) && c in s.clients && s.now == LAST_OF_MINUTE && first <= steps
    requires var u, t := After(s, first), After(s, steps);
             && c in u.clients && u.clients[c].signs == n && u.clients[c].window == Some(0)
             && c in t.clients && t.clients[c].signs == n && t.clients[c].window == Some(1) && t.now == LAST_OF_MINUTE + 1
    ensures Count(After(s, steps).log, SixtySeconds(c, s.now)) >= 2 * n
  {
    FullMinuteInLog(s, first, c, 0);
    FullMinuteInLog(s, steps, c, 1);
    CountNeverShrinks(s, first, steps, IssuedIn(c, 0));
    LogIsDuringRun(s, steps);
    TwoFullLogs(After(s, steps).log, c, n);
  }

  lemma TwoFullLogs(log: seq<Event>, c: string, n: nat)
    requires forall e :: e in log ==> LAST_OF_MINUTE <= e.at <= LAST_OF_MINUTE + 1
    requires Count(log, IssuedIn(c, 0)) >= n && Count(log, IssuedIn(c, 1)) >= n
    ensures Count(log, SixtySeconds(c, LAST_OF_MINUTE)) >= 2 * n
  {
    assert Minute(LAST_OF_MINUTE) == 0;
    TwoMinutesInInterval(log, c, LAST_OF_MINUTE);
  }

  lemma FullMinuteInLog(s: State, steps: seq<Step>, c: string, m: int)
    requires Init(s) && c in s.clients && c in After(s, steps).clients && After(s, steps).clients[c].window == Some(m)
    ensures Count(After(s, steps).log, IssuedIn(c, m)) == After(s, steps).clients[c].signs
  {
    CountersRefineLog(s, steps, c);
  }
}
