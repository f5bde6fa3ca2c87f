/** How tight the signer's limits are: the overshoot of the rate limit is attained, and with it the
    exact condition under which the sign threshold stays silent. */
module SignerLimits {
  import opened Options
  import opened Signing
  import opened SignerRuns

  // ---------------------------------------------------------------- building runs

  ghost predicate Trusted(s: State, c: string) {
    c in s.clients && !s.clients[c].cfg.disabled && !s.clients[c].autoDisabled && c !in s.revoked
  }

  predicate HasRoom(c: Client) {
    Limit(c.cfg) == 0 || c.signs < Limit(c.cfg)
  }

  /** A record that counts the n-th signature of a minute revokes the client. */
  predicate RevokesAt(cfg: ClientConfig, n: nat) {
    cfg.autoRevoke && 0 < cfg.autoDisableSigns < n
  }

  function Arrival(s: State, c: string, r: nat): Step
    requires c in s.clients
  {
    Arrive(r, s.clients[c].cfg.token)
  }

  /** Two steps authenticate one more request. */
  lemma ArriveNext(s: State, c: string, next: nat)
    requires Trusted(s, c) && c != "" && forall r :: r in s.requests ==> r < next
    ensures var t := Next(Next(s, Arrival(s, c, next)), Authenticate(next, c));
            && Pending(Next(s, Arrival(s, c, next)), c) == Pending(s, c) == Pending(t, c)
            && t == s.(requests := t.requests)
            && PhaseOf(t, next) == Authenticated(c)
            && (forall r :: r in t.requests <==> r in s.requests || r == next)
            && (forall r :: r in s.requests ==> t.requests[r] == s.requests[r])
  {
    var s1 := Next(s, Arrival(s, c, next));
    PendingMoves(s, Arrival(s, c, next), c);
    PendingMoves(s1, Authenticate(next, c), c);
    assert PhaseOf(s1, next) == Arrived;
    assert Identifies(s1.setup, s1.clients, s1.requests[next].token, c);
  }

  /** Client `c` has `n` signatures in the current minute; of its requests those in `held` are admitted and waiting, and
      those from `lo` to `hi` are past authentication, so that not even a revocation keeps them from going on. */
  ghost predicate Waiting(s: State, c: string, n: nat, held: set<nat>, lo: nat, hi: nat) {
    && c in s.clients && s.clients[c].signs == n
    && (n > 0 ==> s.clients[c].window == Some(Minute(s.now)))
    && Pending(s, c) == held
    && (forall r :: r in held ==> PhaseOf(s, r) == Admitted(c))
    && (forall r :: lo <= r < hi ==> PhaseOf(s, r) == Authenticated(c))
  }

  /** One step admits the next of them. */
  lemma AdmitNext(s: State, c: string, n: nat, held: set<nat>, lo: nat, hi: nat)
    requires Waiting(s, c, n, held, lo, hi) && lo < hi && HasRoom(s.clients[c])
    ensures var t := Next(s, Allow(lo));
            && Waiting(t, c, n, held + {lo}, lo + 1, hi) && lo !in held
            && t == s.(requests := t.requests)
  {
    PendingMoves(s, Allow(lo), c);
    AllowingKeepsCounters(s.clients[c], Sign);
    AdmittedNow(s, c, lo);
    forall q | q != lo
      ensures PhaseOf(Next(s, Allow(lo)), q) == PhaseOf(s, q)
    {
    }
  }

  lemma AdmittedNow(s: State, c: string, r: nat)
    requires c in s.clients && PhaseOf(s, r) == Authenticated(c) && Allowing(s.clients[c], Sign).ok
    ensures var t := Next(s, Allow(r));
            && t == s.(requests := t.requests) && t.requests == s.requests[r := s.requests[r].(phase := Admitted(c))]
  {
    AdmittedChangesNothing(s.clients[c]);
    assert s.clients[c := s.clients[c]] == s.clients;
  }

  lemma AdmittedChangesNothing(c: Client)
    requires Allowing(c, Sign).ok
    ensures Allowing(c, Sign).client == c && !Allowing(c, Sign).revokes
  {
  }

  /** Two steps finish and record a waiting request, with a signature or without. */
  lemma FinishOne(s: State, c: string, n: nat, held: set<nat>, lo: nat, hi: nat, r: nat, ok: bool)
    requires Waiting(s, c, n, held, lo, hi) && r in held
    ensures var s1 := Next(s, Work(r, ok));
            var s2 := Next(s1, Record(r));
            && Pending(s1, c) == held && s1 == s.(requests := s1.requests)
            && PhaseOf(s1, r) == (if ok then Signed(c) else Failed(c))
            && Waiting(s2, c, if ok then n + 1 else n, held - {r}, lo, hi) && s2.now == s.now
            && s2.clients[c] == Recording(s.clients[c], Sign, ok, "", Minute(s.now)).client
            && s2.clients[c].cfg == s.clients[c].cfg
  {
    var s1 := Next(s, Work(r, ok));
    PendingMoves(s, Work(r, ok), c);
    PendingMoves(s1, Record(r), c);
    assert PhaseOf(s1, r) == (if ok then Signed(c) else Failed(c)) && s1.clients == s.clients;
    StepOnClient(s1, Record(r), c);
    RecordingCounts(s.clients[c], Sign, ok, "", Minute(s.now));
    forall q | q != r
      ensures PhaseOf(Next(s1, Record(r)), q) == PhaseOf(s, q)
    {
      RecordKeepsOthers(s1, r, q);
    }
  }

  lemma RecordKeepsOthers(s: State, r: nat, q: nat)
    requires q != r
    ensures PhaseOf(Next(s, Record(r)), q) == PhaseOf(s, q)
  {
  }

  lemma RecordingRevokes(c: Client, minute: int)
    ensures RevokesAt(c.cfg, Counted(Rolled(c, minute), Sign, true).signs) ==>
              Recording(c, Sign, true, "", minute).revokes
  {
  }

  // ---------------------------------------------------------------- ... as parts of a run

  lemma Extend(s: State, steps: seq<Step>, x: Step, c: string, k: nat)
    requires Within(s, steps, c, k) && |Pending(Next(After(s, steps), x), c)| <= k
    ensures Within(s, steps + [x], c, k)
    ensures After(s, steps + [x]) == Next(After(s, steps), x)
  {
    var all := steps + [x];
    assert all[..|steps|] == steps;
    forall n | 0 <= n <= |all|
      ensures |Pending(After(s, all[..n]), c)| <= k
    {
      if n <= |steps| {
        assert all[..n] == steps[..n];
      } else {
        assert all[..n] == all;
      }
    }
  }

  lemma WithinNow(s: State, steps: seq<Step>, c: string, k: nat)
    requires Within(s, steps, c, k)
    ensures |Pending(After(s, steps), c)| <= k
  {
    assert steps[..|steps|] == steps;
  }

  lemma ReadyNext(s: State, c: string, m: nat)
    requires Trusted(s, c) && c != "" && Waiting(s, c, 0, {}, 0, m) && forall r :: r in s.requests ==> r < m
    ensures var t := Next(Next(s, Arrival(s, c, m)), Authenticate(m, c));
            Waiting(t, c, 0, {}, 0, m + 1) && t == s.(requests := t.requests) && forall r :: r in t.requests ==> r < m + 1
  {
    hide Next, Minute;
    ArriveNext(s, c, m);
    assert forall r :: 0 <= r < m ==> PhaseOf(s, r) == Authenticated(c) && r in s.requests;
  }

  /** `m` requests are authenticated before anything else happens. */
  lemma {:induction false} GetReady(s: State, c: string, k: nat, m: nat) returns (steps: seq<Step>)
    requires Init(s) && Trusted(s, c)
    ensures Within(s, steps, c, k)
    ensures var t := After(s, steps);
            && Waiting(t, c, 0, {}, 0, m) && t == s.(requests := t.requests)
            && forall r :: r in t.requests ==> r < m
  {
    if m == 0 {
      steps := [];
      assert Pending(s, c) == {};
    } else {
      hide Next, Waiting;
      var before := GetReady(s, c, k, m - 1);
      var b := After(s, before);
      ReadyNext(b, c, m - 1);
      ArriveNext(b, c, m - 1);
      Extend(s, before, Arrival(b, c, m - 1), c, k);
      Extend(s, before + [Arrival(b, c, m - 1)], Authenticate(m - 1, c), c, k);
      steps := before + [Arrival(b, c, m - 1)] + [Authenticate(m - 1, c)];
    }
  }

  lemma AdmitInRun(s: State, before: seq<Step>, c: string, k: nat, n: nat, held: set<nat>, lo: nat, hi: nat)
      returns (steps: seq<Step>)
    requires Within(s, before, c, k) && |held| < k
    requires var b := After(s, before); Waiting(b, c, n, held, lo, hi) && lo < hi && HasRoom(b.clients[c])
    ensures before <= steps && Within(s, steps, c, k)
    ensures var b, t := After(s, before), After(s, steps);
            Waiting(t, c, n, held + {lo}, lo + 1, hi) && t == b.(requests := t.requests)
    ensures |held + {lo}| == |held| + 1
  {
    AdmitNext(After(s, before), c, n, held, lo, hi);
    assert |held + {lo}| == |held| + 1;
    Extend(s, before, Allow(lo), c, k);
    steps := before + [Allow(lo)];
  }

  /** The last step of the run counts the n-th signature of its minute. */
  ghost predicate LastCounts(s: State, steps: seq<Step>, c: string, n: nat) {
    && steps != [] && steps[|steps| - 1].Record?
    && var b, r := After(s, steps[..|steps| - 1]), steps[|steps| - 1].r;
       && PhaseOf(b, r) == Signed(c) && c in b.clients
       && Counted(Rolled(b.clients[c], Minute(b.now)), Sign, true).signs == n
  }

  lemma FinishInRun(s: State, before: seq<Step>, c: string, k: nat, n: nat, held: set<nat>, lo: nat, hi: nat, r: nat)
      returns (steps: seq<Step>)
    requires Within(s, before, c, k) && Waiting(After(s, before), c, n, held, lo, hi) && r in held
    ensures before <= steps && Within(s, steps, c, k) && LastCounts(s, steps, c, n + 1)
    ensures var b, t := After(s, before), After(s, steps);
            Waiting(t, c, n + 1, held - {r}, lo, hi) && t.clients[c].cfg == b.clients[c].cfg && t.now == b.now
  {
    var b := After(s, before);
    FinishOne(b, c, n, held, lo, hi, r, true);
    WithinNow(s, before, c, k);
    assert |held - {r}| == |held| - 1;
    var x, y := Work(r, true), Record(r);
    Extend(s, before, x, c, k);
    Extend(s, before + [x], y, c, k);
    steps := before + [x] + [y];
    assert steps[..|steps| - 1] == before + [x];
  }

  /** `m` requests one after the other. */
  lemma {:induction false} Sequential(s: State, before: seq<Step>, c: string, k: nat, m: nat, lo: nat, hi: nat)
      returns (steps: seq<Step>)
    requires Within(s, before, c, k) && k >= 1 && lo + m <= hi
    requires var b := After(s, before);
             Waiting(b, c, 0, {}, lo, hi) && (Limit(b.clients[c].cfg) == 0 || m <= Limit(b.clients[c].cfg))
    ensures before <= steps && Within(s, steps, c, k)
    ensures var b, t := After(s, before), After(s, steps);
            Waiting(t, c, m, {}, lo + m, hi) && t.clients[c].cfg == b.clients[c].cfg && t.now == b.now
  {
    steps := before;
    if m > 0 {
      steps := Sequential(s, before, c, k, m - 1, lo, hi);
      var r := lo + m - 1;
      steps := AdmitInRun(s, steps, c, k, m - 1, {}, r, hi);
      assert {} + {r} == {r};
      steps := FinishInRun(s, steps, c, k, m - 1, {r}, lo + m, hi, r);
      assert {r} - {r} == {};
    }
  }

  /** `j` more requests admitted while none is recorded. */
  lemma {:induction false} Crowd(s: State, before: seq<Step>, c: string, k: nat, n: nat, lo: nat, hi: nat, j: nat)
      returns (steps: seq<Step>, held: set<nat>)
    requires Within(s, before, c, k) && j <= k && lo + j <= hi
    requires var b := After(s, before); Waiting(b, c, n, {}, lo, hi) && HasRoom(b.clients[c])
    ensures before <= steps && Within(s, steps, c, k) && |held| == j
    ensures var b, t := After(s, before), After(s, steps);
            Waiting(t, c, n, held, lo + j, hi) && t == b.(requests := t.requests)
  {
    if j == 0 {
      steps, held := before, {};
    } else {
      var some, waiting := Crowd(s, before, c, k, n, lo, hi, j - 1);
      var r := lo + (j - 1);
      steps := AdmitInRun(s, some, c, k, n, waiting, r, hi);
      held := waiting + {r};
    }
  }

  /** Every waiting request is signed and recorded. */
  lemma {:induction false} Drain(s: State, before: seq<Step>, c: string, k: nat, n: nat, held: set<nat>, lo: nat,
                                 hi: nat) returns (steps: seq<Step>)
    requires Within(s, before, c, k) && Waiting(After(s, before), c, n, held, lo, hi)
    requires held != {}
    ensures before <= steps && Within(s, steps, c, k) && LastCounts(s, steps, c, n + |held|)
    ensures var b, t := After(s, before), After(s, steps);
            && Waiting(t, c, n + |held|, {}, lo, hi) && t.clients[c].cfg == b.clients[c].cfg && t.now == b.now
    decreases |held|
  {
    var r :| r in held;
    var rest := held - {r};
    steps := FinishInRun(s, before, c, k, n, held, lo, hi, r);
    assert |rest| == |held| - 1;
    if rest != {} {
      steps := Drain(s, steps, c, k, n + 1, rest, lo, hi);
    } else {
      assert |held| == 1;
    }
  }

  /** From any moment at which the minute holds no signature yet: `n` of them, as many as the limit and `k` allow. */
  lemma WorstFrom(s: State, before: seq<Step>, c: string, k: nat, n: nat, lo: nat, hi: nat) returns (steps: seq<Step>)
    requires Within(s, before, c, k) && k >= 1 && lo + n <= hi
    requires var b := After(s, before);
             Waiting(b, c, 0, {}, lo, hi) && Limit(b.clients[c].cfg) > 0 && n == Limit(b.clients[c].cfg) - 1 + k
    ensures before <= steps && Within(s, steps, c, k) && LastCounts(s, steps, c, n)
    ensures var b, t := After(s, before), After(s, steps);
            Waiting(t, c, n, {}, lo + n, hi) && t.clients[c].cfg == b.clients[c].cfg && t.now == b.now
  {
    // one signature short of the limit, and then `k` requests at once
    var some := Sequential(s, before, c, k, n - k, lo, hi);
    var full, held := Crowd(s, some, c, k, n - k, lo + (n - k), hi, k);
    assert n - k + |held| == n;
    steps := Drain(s, full, c, k, n - k, held, lo + n, hi);
  }

  // ---------------------------------------------------------------- the worst run

  /** What the record of the n-th signature of a minute leaves behind. */
  lemma LastRecord(s: State, steps: seq<Step>, c: string, n: nat)
    requires LastCounts(s, steps, c, n)
    ensures var b, t := After(s, steps[..|steps| - 1]), After(s, steps);
            && (RevokesAt(b.clients[c].cfg, n) ==> c in t.revoked)
            && t.log != [] && t.log[|t.log| - 1].client == c && t.log[|t.log| - 1].kind == Issued
            && (0 < Limit(b.clients[c].cfg) < n ==> !t.log[|t.log| - 1].audited)
  {
    RecordSigned(After(s, steps[..|steps| - 1]), steps[|steps| - 1].r, c, n);
  }

  lemma RecordSigned(s: State, r: nat, c: string, n: nat)
    requires PhaseOf(s, r) == Signed(c) && c in s.clients
    requires Counted(Rolled(s.clients[c], Minute(s.now)), Sign, true).signs == n
    ensures var t := Next(s, Record(r));
            && (RevokesAt(s.clients[c].cfg, n) ==> c in t.revoked)
            && t.log != [] && t.log[|t.log| - 1].client == c && t.log[|t.log| - 1].kind == Issued
            && (0 < Limit(s.clients[c].cfg) < n ==> !t.log[|t.log| - 1].audited)
  {
    StepOnLog(s, Record(r));
    AuditedOkIff(s.clients[c], true, "", Minute(s.now));
    RecordingRevokes(s.clients[c], Minute(s.now));
  }

  /** The bound is attained: for every limit and every k, some run with at most `k` requests pending records exactly
      Limit - 1 + k signatures in one minute, the last of them audited as denied when k is at least two. */
  lemma WorstRun(s: State, c: string, k: nat) returns (steps: seq<Step>)
    requires Init(s) && Trusted(s, c) && k >= 1 && Limit(s.clients[c].cfg) > 0
    ensures Within(s, steps, c, k) && AtMost(s, steps, c, k)
    ensures LastCounts(s, steps, c, Limit(s.clients[c].cfg) - 1 + k)
    ensures var t, cfg := After(s, steps), s.clients[c].cfg;
            var n := Limit(cfg) - 1 + k;
            && Count(t.log, IssuedIn(c, Minute(t.now))) == n
            && (RevokesAt(cfg, n) ==> c in t.revoked)
            && t.log != [] && t.log[|t.log| - 1].client == c && t.log[|t.log| - 1].kind == Issued
            && (k >= 2 ==> !t.log[|t.log| - 1].audited)
  {
    var n := Limit(s.clients[c].cfg) - 1 + k;
    var ready := GetReady(s, c, k, n);
    steps := WorstFrom(s, ready, c, k, n, 0, n);
    WithinIsAtMost(s, steps, c, k);
    CountersRefineLog(s, steps, c);
    ConfigIsFixed(s, steps[..|steps| - 1]);
    LastRecord(s, steps, c, Limit(s.clients[c].cfg) - 1 + k);
  }

  // ---------------------------------------------------------------- limited and unlimited clients

  /** A client with a clean slate and configuration `cfg`. */
  ghost predicate Starts(s: State, c: string, cfg: ClientConfig) {
    Init(s) && c in s.clients && s.clients[c].cfg == cfg && c !in s.revoked
  }

  function StartState(c: string, cfg: ClientConfig): State {
    State(Setup("", true), map[c := Client(cfg, None, 0, 0, false)], {}, 0, map[], [])
  }

  /** No run with at most `k` requests in flight records more than `bound` signatures in any minute. */
  ghost predicate BoundedBy(c: string, cfg: ClientConfig, k: nat, bound: nat) {
    forall s, steps, m :: Starts(s, c, cfg) && AtMost(s, steps, c, k) ==>
      Count(After(s, steps).log, IssuedIn(c, m)) <= bound
  }

  /** There is a bound exactly if the client has a limit, and the least one is Limit - 1 + k. */
  lemma LeastBoundIff(c: string, cfg: ClientConfig, k: nat, bound: nat)
    requires c != "" && k >= 1 && !cfg.disabled
    ensures BoundedBy(c, cfg, k, bound) <==> 0 < Limit(cfg) && Limit(cfg) - 1 + k <= bound
  {
    var s := StartState(c, cfg);
    if 0 < Limit(cfg) && Limit(cfg) - 1 + k <= bound {
      forall s, steps, m | Starts(s, c, cfg) && AtMost(s, steps, c, k)
        ensures Count(After(s, steps).log, IssuedIn(c, m)) <= bound
      {
        MinuteBound(s, steps, c, k, m);
      }
    } else if 0 < Limit(cfg) {
      var steps := WorstRun(s, c, k);
      assert Starts(s, c, cfg) && Count(After(s, steps).log, IssuedIn(c, Minute(After(s, steps).now))) > bound;
    } else {
      var ready := GetReady(s, c, k, bound + 1);
      var steps := Sequential(s, ready, c, k, bound + 1, 0, bound + 1);
      WithinIsAtMost(s, steps, c, k);
      CountersRefineLog(s, steps, c);
      assert Starts(s, c, cfg) && Count(After(s, steps).log, IssuedIn(c, Minute(After(s, steps).now))) > bound;
    }
  }

  // ---------------------------------------------------------------- the sign threshold

  /** The sign threshold takes effect in a step, whether it revokes the client or only denies. */
  ghost predicate Fires(s: State, step: Step, c: string) {
    && c in s.clients && s.clients[c].cfg.autoDisableSigns > 0
    && match step
       case Allow(r) => PhaseOf(s, r) == Authenticated(c) && AllowFires(s.clients[c])
       case Record(r) =>
         (match RecordKind(PhaseOf(s, r))
          case Some((id, action, kind)) =>
            id == c && action == Sign
            && Counted(Rolled(s.clients[c], Minute(s.now)), Sign, kind.Issued?).signs > s.clients[c].cfg.autoDisableSigns
          case None => false)
       case _ => false
  }

  predicate AllowFires(c: Client) {
    !(0 < c.cfg.ratePerMinute <= c.signs) && c.signs >= c.cfg.autoDisableSigns
  }

  ghost predicate LastFires(s: State, steps: seq<Step>, c: string) {
    steps != [] && Fires(After(s, steps[..|steps| - 1]), steps[|steps| - 1], c)
  }

  lemma QuietStep(s: State, step: Step, c: string)
    requires c in s.clients && 0 < s.clients[c].cfg.ratePerMinute <= s.clients[c].cfg.autoDisableSigns
    requires Signs(Next(s, step), c) <= s.clients[c].cfg.autoDisableSigns
    ensures !Fires(s, step, c)
  {
    StepOnClient(s, step, c);
    if step.Record? && RecordKind(PhaseOf(s, step.r)).Some? {
      var (id, action, kind) := RecordKind(PhaseOf(s, step.r)).value;
      if id == c {
        RecordingCounts(s.clients[c], action, kind.Issued?, "", Minute(s.now));
      }
    }
  }

  lemma LastStepIsQuiet(s: State, steps: seq<Step>, c: string, k: nat)
    requires Init(s) && c in s.clients && AtMost(s, steps, c, k)
    requires var cfg := s.clients[c].cfg;
             0 < cfg.ratePerMinute <= cfg.autoDisableSigns && cfg.ratePerMinute - 1 + k <= cfg.autoDisableSigns
    ensures !LastFires(s, steps, c)
  {
    if steps != [] {
      ConfigIsFixed(s, steps[..|steps| - 1]);
      RateBound(s, steps, c, k);
      QuietStep(After(s, steps[..|steps| - 1]), steps[|steps| - 1], c);
    }
  }

  /** The rate limit shadows the sign threshold exactly as long as the overshoot stays below it: with the threshold not
      below the rate, no run with at most `k` requests in flight ever makes the threshold fire, in allowed or in record,
      if and only if ratePerMinute - 1 + k <= autoDisableSigns.  For sequential runs (k = 1) that is always so. */
  lemma SignThresholdIsSilentIff(c: string, cfg: ClientConfig, k: nat)
    requires c != "" && k >= 1 && !cfg.disabled && 0 < cfg.ratePerMinute <= cfg.autoDisableSigns
    ensures (forall s, steps :: Starts(s, c, cfg) && AtMost(s, steps, c, k) ==> !LastFires(s, steps, c))
            <==> cfg.ratePerMinute - 1 + k <= cfg.autoDisableSigns
  {
    if cfg.ratePerMinute - 1 + k <= cfg.autoDisableSigns {
      forall s, steps | Starts(s, c, cfg) && AtMost(s, steps, c, k)
        ensures !LastFires(s, steps, c)
      {
        LastStepIsQuiet(s, steps, c, k);
      }
    } else {
      var s := StartState(c, cfg);
      var steps := WorstRun(s, c, k);
      ConfigIsFixed(s, steps[..|steps| - 1]);
      assert Starts(s, c, cfg) && AtMost(s, steps, c, k) && LastFires(s, steps, c);
    }
  }

  lemma StepRevokesOnlyAboveThreshold(s: State, step: Step, c: string, k: nat)
    requires c in s.clients && c !in s.revoked
    requires s.clients[c].cfg.autoDisableErrors <= 0
    requires 0 < s.clients[c].cfg.ratePerMinute <= s.clients[c].cfg.autoDisableSigns
    requires Signs(Next(s, step), c) <= s.clients[c].cfg.autoDisableSigns
    ensures c !in Next(s, step).revoked
  {
    StepOnClient(s, step, c);
    if step.Record? && RecordKind(PhaseOf(s, step.r)).Some? {
      var (id, action, kind) := RecordKind(PhaseOf(s, step.r)).value;
      if id == c {
        RecordingCounts(s.clients[c], action, kind.Issued?, "", Minute(s.now));
        QuietRecord(s.clients[c], action, kind.Issued?, Minute(s.now));
      }
    }
  }

  lemma QuietRecord(c: Client, action: Action, ok: bool, minute: int)
    requires c.cfg.autoDisableErrors <= 0
    requires Counted(Rolled(c, minute), action, ok).signs <= c.cfg.autoDisableSigns
    ensures !Recording(c, action, ok, "", minute).revokes
  {
  }

  lemma {:induction false} QuietRun(s: State, steps: seq<Step>, c: string, k: nat)
    requires Init(s) && c in s.clients && c !in s.revoked && AtMost(s, steps, c, k)
    requires var cfg := s.clients[c].cfg;
             && cfg.autoDisableErrors <= 0 && 0 < cfg.ratePerMinute <= cfg.autoDisableSigns
             && cfg.ratePerMinute - 1 + k <= cfg.autoDisableSigns
    ensures c !in After(s, steps).revoked
  {
    if steps != [] {
      var before := steps[..|steps| - 1];
      AtMostPrefix(s, steps, c, k);
      QuietRun(s, before, c, k);
      ConfigIsFixed(s, before);
      RateBound(s, steps, c, k);
      StepRevokesOnlyAboveThreshold(After(s, before), steps[|steps| - 1], c, k);
    }
  }

  /** The same for a client that the threshold revokes, with the error threshold off: no such run revokes it under the
      same condition and no other. */
  lemma SignThresholdNeverRevokesIff(c: string, cfg: ClientConfig, k: nat)
    requires c != "" && k >= 1 && !cfg.disabled && cfg.autoRevoke
    requires cfg.autoDisableErrors <= 0 && 0 < cfg.ratePerMinute <= cfg.autoDisableSigns
    ensures (forall s, steps :: Starts(s, c, cfg) && AtMost(s, steps, c, k) ==> c !in After(s, steps).revoked)
            <==> cfg.ratePerMinute - 1 + k <= cfg.autoDisableSigns
  {
    if cfg.ratePerMinute - 1 + k <= cfg.autoDisableSigns {
      forall s, steps | Starts(s, c, cfg) && AtMost(s, steps, c, k)
        ensures c !in After(s, steps).revoked
      {
        QuietRun(s, steps, c, k);
      }
    } else {
      var s := StartState(c, cfg);
      var steps := WorstRun(s, c, k);
      assert Starts(s, c, cfg) && AtMost(s, steps, c, k) && c in After(s, steps).revoked;
    }
  }
}
