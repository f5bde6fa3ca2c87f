/** What the error threshold does.  It never denies anything by itself: allowed does not look at it.  A client over
    its limit is turned away by authenticate exactly if it is configured with autoRevoke, and even then only requests
    that have not been authenticated before. */
module SignerErrors {
  import opened Options
  import opened Signing
  import opened SignerRuns
  import opened SignerLimits
  import opened SignerRecovery
  import opened SignerRevocation

  /** The client has failed more often in its open minute than its limit allows. */
  predicate IsOver(c: Client) {
    0 < c.cfg.autoDisableErrors < c.errors
  }

  /** A threshold that is on revokes the client. */
  predicate CanRevoke(cfg: ClientConfig) {
    cfg.autoRevoke && (cfg.autoDisableSigns > 0 || cfg.autoDisableErrors > 0)
  }

  /** Only clients with autoRevoke and a threshold are disabled, and of these everyone who is over the error limit. */
  predicate DisabledRightly(c: Client) {
    (c.autoDisabled ==> CanRevoke(c.cfg)) && (IsOver(c) && c.cfg.autoRevoke ==> c.autoDisabled)
  }

  lemma AllowingDisablesRightly(c: Client)
    requires DisabledRightly(c)
    ensures DisabledRightly(Allowing(c, Sign).client)
  {
  }

  lemma RecordingDisablesRightly(c: Client, action: Action, ok: bool, minute: int)
    requires c.autoDisabled ==> CanRevoke(c.cfg)
    ensures DisabledRightly(Recording(c, action, ok, "", minute).client)
  {
    hide Counted, Rolled, CheckRate, CheckSigns;
    var o := CheckSigns(CheckRate(Outcome(Counted(Rolled(c, minute), action, ok), ok, "", false), action), action);
    SignsDisableRightly(c, action, ok, minute);
    assert o.client.cfg == c.cfg;
  }

  lemma SignsDisableRightly(c: Client, action: Action, ok: bool, minute: int)
    requires c.autoDisabled ==> CanRevoke(c.cfg)
    ensures var counted := Counted(Rolled(c, minute), action, ok);
            var o := CheckSigns(CheckRate(Outcome(counted, ok, "", false), action), action);
            o.client.cfg == c.cfg && (o.client.autoDisabled ==> CanRevoke(o.client.cfg))
  {
  }

  lemma StepDisablesRightly(s: State, step: Step, c: string)
    requires c in s.clients && DisabledRightly(s.clients[c])
    ensures DisabledRightly(ClientNext(s, step, c))
  {
    AllowingDisablesRightly(s.clients[c]);
    if step.Record? && RecordKind(PhaseOf(s, step.r)).Some? {
      var (id, action, kind) := RecordKind(PhaseOf(s, step.r)).value;
      RecordingDisablesRightly(s.clients[c], action, kind.Issued?, Minute(s.now));
    }
  }

  /** A client comes into the revoked set only together with being disabled. */
  lemma StepRevokesDisabled(s: State, step: Step, c: string)
    requires c in s.clients && c in Next(s, step).revoked && c !in s.revoked
    ensures ClientNext(s, step, c).autoDisabled
  {
    hide Allowing, Recording, Minute;
    AllowingKeepsCounters(s.clients[c], Sign);
    if step.Record? && RecordKind(PhaseOf(s, step.r)).Some? {
      var (id, action, kind) := RecordKind(PhaseOf(s, step.r)).value;
      RecordingCounts(s.clients[c], action, kind.Issued?, "", Minute(s.now));
    }
  }

  /** In every run: clients are disabled rightly, and revoked exactly if they were when the signer started or are
      disabled. */
  lemma {:induction false} RunDisablesRightly(s: State, steps: seq<Step>, c: string)
    requires Init(s) && c in s.clients
    ensures var t := After(s, steps);
            && c in t.clients && DisabledRightly(t.clients[c])
            && (c in t.revoked <==> c in s.revoked || t.clients[c].autoDisabled)
  {
    AutoDisabledIsRevoked(s, steps, c);
    if steps != [] {
      var before, step := steps[..|steps| - 1], steps[|steps| - 1];
      var b := After(s, before);
      RunDisablesRightly(s, before, c);
      StepOnClient(b, step, c);
      StepDisablesRightly(b, step, c);
      StepOnRevoked(b, step, c);
      if c in After(s, steps).revoked && c !in b.revoked {
        StepRevokesDisabled(b, step, c);
      }
    }
  }

  /** In every run, while a client is over its error limit: it is disabled if and only if it is configured with
      autoRevoke, and so the next authenticate refuses it if and only if it is, or was disabled or revoked from the
      start. */
  lemma OverLimitIsRefusedIff(s: State, steps: seq<Step>, c: string)
    requires Init(s) && c in s.clients && c in After(s, steps).clients && IsOver(After(s, steps).clients[c])
    ensures var t, cfg := After(s, steps), s.clients[c].cfg;
            && (t.clients[c].autoDisabled <==> cfg.autoRevoke)
            && (IsWelcome(t, c) <==> !cfg.autoRevoke && !cfg.disabled && c !in s.revoked)
  {
    RunDisablesRightly(s, steps, c);
    ConfigIsFixed(s, steps);
  }

  ghost predicate OverAfter(s: State, steps: seq<Step>, c: string) {
    c in After(s, steps).clients && IsOver(After(s, steps).clients[c])
  }

  /** That authenticate turns clients over the error threshold away holds of a client, in every run, if and only if it
      is configured with autoRevoke. */
  lemma AuthenticateRefusesIff(c: string, cfg: ClientConfig)
    requires c != "" && cfg.autoDisableErrors > 0 && !cfg.disabled
    ensures (forall s, steps :: Starts(s, c, cfg) && OverAfter(s, steps, c) ==> !IsWelcome(After(s, steps), c))
            <==> cfg.autoRevoke
  {
    if cfg.autoRevoke {
      forall s, steps | Starts(s, c, cfg) && OverAfter(s, steps, c)
        ensures !IsWelcome(After(s, steps), c)
      {
        OverLimitIsRefusedIff(s, steps, c);
      }
    } else {
      var s, before, _ := OverRun(c, cfg, false);
      OverLimitIsRefusedIff(s, before, c);
      assert Starts(s, c, cfg) && OverAfter(s, before, c) && IsWelcome(After(s, before), c);
    }
  }

  // ---------------------------------------------------------------- requests between authenticate and record

  predicate IsBusy(p: Phase, c: string) {
    (p.Authenticated? || p.Refused? || p.Admitted? || p.Signed? || p.Failed?) && p.id == c
  }

  /** Requests of `c` between authenticate and record. */
  function Busy(s: State, c: string): set<nat> {
    set r | r in s.requests && IsBusy(s.requests[r].phase, c)
  }

  /** What a step does to them. */
  lemma BusyMoves(s: State, step: Step, c: string)
    ensures var t := Next(s, step);
            match step
            case Authenticate(r, id) =>
              Busy(t, c) == if PhaseOf(t, r) == Authenticated(c) then Busy(s, c) + {r} else Busy(s, c)
            case Leave(r) => Busy(t, c) == if PhaseOf(s, r).Authenticated? then Busy(s, c) - {r} else Busy(s, c)
            case Record(r) => Busy(t, c) == if RecordKind(PhaseOf(s, r)).Some? then Busy(s, c) - {r} else Busy(s, c)
            case _ => Busy(t, c) == Busy(s, c)
  {
    hide Recording, Allowing, Identifies, Welcome;
  }

  ghost predicate BusyWithin(s: State, steps: seq<Step>, c: string, k: nat) {
    forall n :: 0 <= n <= |steps| ==> |Busy(After(s, steps[..n]), c)| <= k
  }

  /** At most `k` requests of `c` between authenticate and record, and at most one of them admitted, at every moment. */
  ghost predicate Calm(s: State, steps: seq<Step>, c: string, k: nat) {
    forall n :: 0 <= n <= |steps| ==> IsCalm(After(s, steps[..n]), c, k)
  }

  predicate IsCalm(s: State, c: string, k: nat) {
    |Busy(s, c)| <= k && |InFlight(s, c)| <= 1
  }

  lemma CalmGoesOn(s: State, steps: seq<Step>, x: Step, c: string, k: nat)
    requires Calm(s, steps, c, k) && IsCalm(Next(After(s, steps), x), c, k)
    ensures Calm(s, steps + [x], c, k)
    ensures After(s, steps + [x]) == Next(After(s, steps), x)
  {
    var all := steps + [x];
    assert all[..|steps|] == steps && all[..|all|] == all;
    forall n | 0 <= n <= |all|
      ensures IsCalm(After(s, all[..n]), c, k)
    {
      if n <= |steps| {
        assert all[..n] == steps[..n];
      }
    }
  }

  lemma CalmIsWithin(s: State, steps: seq<Step>, c: string, k: nat, bound: nat)
    requires Calm(s, steps, c, k)
    ensures k <= bound ==> BusyWithin(s, steps, c, bound)
    ensures 1 <= bound ==> AtMost(s, steps, c, bound)
  {
    forall n | 0 <= n <= |steps|
      ensures |Busy(After(s, steps[..n]), c)| <= k && |InFlight(After(s, steps[..n]), c)| <= 1
    {
      assert IsCalm(After(s, steps[..n]), c, k);
    }
  }

  // ---------------------------------------------------------------- one at a time, nobody over the limit is admitted

  lemma BusyPrefix(s: State, steps: seq<Step>, c: string, k: nat)
    requires steps != [] && BusyWithin(s, steps, c, k)
    ensures BusyWithin(s, steps[..|steps| - 1], c, k) && |Busy(After(s, steps[..|steps| - 1]), c)| <= k
  {
    var before := steps[..|steps| - 1];
    forall n | 0 <= n <= |before|
      ensures |Busy(After(s, before[..n]), c)| <= k
    {
      assert before[..n] == steps[..n];
    }
  }

  /** Whoever is past authentication is still welcome, and whoever was turned away still is not. */
  ghost predicate AnswersStand(s: State, c: string) {
    forall r :: r in s.requests ==>
      && (s.requests[r].phase == Authenticated(c) ==> IsWelcome(s, c))
      && (s.requests[r].phase == Unauthenticated(c) ==> !IsWelcome(s, c))
  }

  lemma StepKeepsAnswers(s: State, step: Step, c: string)
    requires c in s.clients && AnswersStand(s, c) && |Busy(s, c)| <= 1
    ensures AnswersStand(Next(s, step), c)
  {
    hide Welcome, Allowing, Recording, Identifies, Minute;
    var t := Next(s, step);
    if !IsWelcome(s, c) {
      WelcomeNeverReturns(s, step, c);
    }
    forall r | r in t.requests && t.requests[r].phase == Authenticated(c)
      ensures IsWelcome(t, c)
    {
      if r in s.requests && s.requests[r].phase == Authenticated(c) {
        OthersDoNotMatter(s, step, c, r);
      }
    }
  }

  /** While the only busy request waits after authenticate, nothing makes its client less welcome. */
  lemma OthersDoNotMatter(s: State, step: Step, c: string, r: nat)
    requires c in s.clients && AnswersStand(s, c) && |Busy(s, c)| <= 1
    requires PhaseOf(s, r) == Authenticated(c) && PhaseOf(Next(s, step), r) == Authenticated(c)
    ensures IsWelcome(Next(s, step), c)
  {
    assert r in Busy(s, c);
    forall q | q in Busy(s, c)
      ensures q == r
    {
      SubsetIsNotLarger({q, r}, Busy(s, c));
    }
    NobodyElseIsFor(s, step, c, r);
  }

  lemma NobodyElseIsFor(s: State, step: Step, c: string, r: nat)
    requires c in s.clients && AnswersStand(s, c) && IsWelcome(s, c)
    requires forall q :: q in Busy(s, c) ==> q == r
    requires PhaseOf(s, r) == Authenticated(c) && PhaseOf(Next(s, step), r) == Authenticated(c)
    ensures IsWelcome(Next(s, step), c)
  {
    hide Allowing, Recording, Identifies, Minute;
    if step.Record? {
      RecordIsFor(s, step.r, c);
    } else if step.Allow? {
      AllowMovesOn(s, step.r, c);
    }
  }

  lemma RecordIsFor(s: State, r: nat, c: string)
    ensures RecordKind(PhaseOf(s, r)).Some? && RecordKind(PhaseOf(s, r)).value.0 == c ==>
              || (r in Busy(s, c) && !PhaseOf(s, r).Authenticated?)
              || (r in s.requests && PhaseOf(s, r) == Unauthenticated(c))
  {
  }

  lemma AllowMovesOn(s: State, r: nat, c: string)
    ensures !PhaseOf(Next(s, Allow(r)), r).Authenticated?
    ensures PhaseOf(s, r) == Authenticated(c) ==> r in Busy(s, c)
  {
  }

  lemma {:induction false} AnswersStandAlone(s: State, steps: seq<Step>, c: string)
    requires Init(s) && c in s.clients && BusyWithin(s, steps, c, 1)
    ensures AnswersStand(After(s, steps), c)
  {
    if steps != [] {
      var before := steps[..|steps| - 1];
      BusyPrefix(s, steps, c, 1);
      AnswersStandAlone(s, before, c);
      ConfigIsFixed(s, before);
      StepKeepsAnswers(After(s, before), steps[|steps| - 1], c);
    }
  }

  // ---------------------------------------------------------------- a client that is over the limit and goes on

  /** `n` failures and no signature in the current minute; the client is trusted as long as that does not revoke it. */
  ghost predicate Tallied(s: State, c: string, n: nat) {
    && c in s.clients && c != ""
    && s.clients[c].signs == 0 && s.clients[c].errors == n
    && (n > 0 ==> s.clients[c].window == Some(Minute(s.now)))
    && (n <= s.clients[c].cfg.autoDisableErrors || !s.clients[c].cfg.autoRevoke ==> Trusted(s, c))
  }

  /** ... and of its requests exactly those in `held` are busy, all of them waiting after authenticate. */
  ghost predicate Failing(s: State, c: string, n: nat, held: set<nat>, next: nat) {
    && Tallied(s, c, n) && Busy(s, c) == held && InFlight(s, c) == {}
    && (forall r :: r in held ==> PhaseOf(s, r) == Authenticated(c))
    && (forall r :: r in s.requests ==> r < next)
  }

  /** ... and besides those one request is on its way. */
  ghost predicate Trying(s: State, c: string, n: nat, held: set<nat>, r: nat, phase: Phase) {
    && Tallied(s, c, n) && Busy(s, c) == held + {r} && r !in held
    && InFlight(s, c) == (if phase.Authenticated? then {} else {r})
    && (forall q :: q in held ==> PhaseOf(s, q) == Authenticated(c))
    && PhaseOf(s, r) == phase
  }

  lemma AuthenticateOne(s: State, c: string, n: nat, held: set<nat>, next: nat)
    requires Failing(s, c, n, held, next) && Trusted(s, c)
    ensures var s1 := Next(s, Arrival(s, c, next));
            var t := Next(s1, Authenticate(next, c));
            && Busy(s1, c) == held && InFlight(s1, c) == {}
            && Trying(t, c, n, held, next, Authenticated(c)) && t == s.(requests := t.requests)
            && forall r :: r in t.requests ==> r <= next
  {
    hide Minute, Next;
    var s1 := Next(s, Arrival(s, c, next));
    ArriveNext(s, c, next);
    BusyMoves(s, Arrival(s, c, next), c);
    BusyMoves(s1, Authenticate(next, c), c);
    InFlightMoves(s, Arrival(s, c, next), c);
    InFlightMoves(s1, Authenticate(next, c), c);
  }

  lemma AllowOne(s: State, c: string, n: nat, held: set<nat>, r: nat)
    requires Trying(s, c, n, held, r, Authenticated(c))
    ensures var t := Next(s, Allow(r));
            Trying(t, c, n, held, r, Admitted(c)) && t == s.(requests := t.requests)
            && t.requests.Keys == s.requests.Keys
  {
    hide Minute;
    AllowingKeepsCounters(s.clients[c], Sign);
    AdmittedNow(s, c, r);
    BusyMoves(s, Allow(r), c);
    InFlightMoves(s, Allow(r), c);
  }

  lemma WorkOne(s: State, c: string, n: nat, held: set<nat>, r: nat, ok: bool)
    requires Trying(s, c, n, held, r, Admitted(c))
    ensures var t := Next(s, Work(r, ok));
            && Trying(t, c, n, held, r, if ok then Signed(c) else Failed(c)) && t == s.(requests := t.requests)
            && t.requests.Keys == s.requests.Keys
            && (ok ==> t.requests[r].signedAs == Some(c))
  {
    hide Minute;
    BusyMoves(s, Work(r, ok), c);
    InFlightMoves(s, Work(r, ok), c);
  }

  lemma RecordOne(s: State, c: string, n: nat, held: set<nat>, r: nat)
    requires Trying(s, c, n, held, r, Failed(c)) && Trusted(s, c)
    ensures var t := Next(s, Record(r));
            && Tallied(t, c, n + 1) && Busy(t, c) == held && InFlight(t, c) == {}
            && (forall q :: q in held ==> PhaseOf(t, q) == Authenticated(c))
            && t.clients[c].cfg == s.clients[c].cfg && t.requests.Keys == s.requests.Keys
  {
    hide Minute, Recording;
    BusyMoves(s, Record(r), c);
    InFlightMoves(s, Record(r), c);
    StepOnClient(s, Record(r), c);
    RecordingCounts(s.clients[c], Sign, false, "", Minute(s.now));
    if n + 1 <= s.clients[c].cfg.autoDisableErrors || !s.clients[c].cfg.autoRevoke {
      FailureRevokes(s.clients[c], Minute(s.now));
    }
    RecordKeepsNumbers(s, r);
    forall q | q in held
      ensures PhaseOf(Next(s, Record(r)), q) == Authenticated(c)
    {
      RecordKeepsOthers(s, r, q);
    }
  }

  lemma FailureRevokes(c: Client, minute: int)
    requires c.signs == 0
    requires !c.cfg.autoRevoke || Counted(Rolled(c, minute), Sign, false).errors <= c.cfg.autoDisableErrors
    ensures !Recording(c, Sign, false, "", minute).revokes
  {
  }

  lemma AuthenticateInRun(s: State, before: seq<Step>, c: string, k: nat, n: nat, held: set<nat>, next: nat)
      returns (steps: seq<Step>)
    requires Calm(s, before, c, k) && |held| < k
    requires Failing(After(s, before), c, n, held, next) && Trusted(After(s, before), c)
    ensures before <= steps && Calm(s, steps, c, k)
    ensures var b, t := After(s, before), After(s, steps);
            && Trying(t, c, n, held, next, Authenticated(c)) && t == b.(requests := t.requests)
            && forall r :: r in t.requests ==> r <= next
  {
    hide Next, Minute;
    var b := After(s, before);
    AuthenticateOne(b, c, n, held, next);
    assert |held + {next}| == |held| + 1;
    CalmGoesOn(s, before, Arrival(b, c, next), c, k);
    CalmGoesOn(s, before + [Arrival(b, c, next)], Authenticate(next, c), c, k);
    steps := before + [Arrival(b, c, next)] + [Authenticate(next, c)];
  }

  /** One more request that fails. */
  lemma FailInRun(s: State, before: seq<Step>, c: string, k: nat, n: nat, held: set<nat>, next: nat)
      returns (steps: seq<Step>)
    requires Calm(s, before, c, k) && |held| < k
    requires Failing(After(s, before), c, n, held, next) && Trusted(After(s, before), c)
    ensures before <= steps && Calm(s, steps, c, k)
    ensures var b, t := After(s, before), After(s, steps);
            Failing(t, c, n + 1, held, next + 1) && t.clients[c].cfg == b.clients[c].cfg
  {
    hide Next, Minute, Busy, InFlight, Tallied;
    steps := AuthenticateInRun(s, before, c, k, n, held, next);
    assert |held + {next}| == |held| + 1;
    var x := After(s, steps);
    AllowOne(x, c, n, held, next);
    var y := Next(x, Allow(next));
    WorkOne(y, c, n, held, next, false);
    RecordOne(Next(y, Work(next, false)), c, n, held, next);
    CalmGoesOn(s, steps, Allow(next), c, k);
    CalmGoesOn(s, steps + [Allow(next)], Work(next, false), c, k);
    CalmGoesOn(s, steps + [Allow(next)] + [Work(next, false)], Record(next), c, k);
    steps := steps + [Allow(next)] + [Work(next, false)] + [Record(next)];
  }

  lemma {:induction false} FailingRun(s: State, before: seq<Step>, c: string, k: nat, n: nat, held: set<nat>, next: nat)
      returns (steps: seq<Step>)
    requires Calm(s, before, c, k) && |held| < k && Failing(After(s, before), c, 0, held, next)
    requires var cfg := After(s, before).clients[c].cfg; n <= cfg.autoDisableErrors + 1 || !cfg.autoRevoke
    requires n > 0 ==> Trusted(After(s, before), c)
    ensures before <= steps && Calm(s, steps, c, k)
    ensures var b, t := After(s, before), After(s, steps);
            Failing(t, c, n, held, next + n) && t.clients[c].cfg == b.clients[c].cfg
  {
    steps := before;
    if n > 0 {
      steps := FailingRun(s, before, c, k, n - 1, held, next);
      steps := FailInRun(s, steps, c, k, n - 1, held, next + (n - 1));
    }
  }

  /** A client just over its error limit, with one of its requests past authentication.  If the client is configured
      with autoRevoke, that request must have been authenticated before the failures. */
  lemma OverRun(c: string, cfg: ClientConfig, early: bool) returns (s: State, steps: seq<Step>, r: nat)
    requires c != "" && cfg.autoDisableErrors > 0 && !cfg.disabled && (early || !cfg.autoRevoke)
    ensures Starts(s, c, cfg) && Calm(s, steps, c, if early then 2 else 1)
    ensures Trying(After(s, steps), c, cfg.autoDisableErrors + 1, {}, r, Authenticated(c))
    ensures After(s, steps).clients[c].cfg == cfg
  {
    s := StartState(c, cfg);
    var k, n := if early then 2 else 1, cfg.autoDisableErrors + 1;
    assert Failing(s, c, 0, {}, 0) && Calm(s, [], c, k);
    if early {
      r := 0;
      var first := AuthenticateInRun(s, [], c, k, 0, {}, 0);
      assert {} + {0} == {0};
      steps := FailingRun(s, first, c, k, n, {0}, 1);
    } else {
      r := n;
      var first := FailingRun(s, [], c, k, n, {}, 0);
      steps := AuthenticateInRun(s, first, c, k, n, {}, n);
    }
  }

  /** A request of a client over its error limit that has been authenticated, and that allowed lets through. */
  ghost predicate AdmitsOver(s: State, r: nat, c: string) {
    && c in s.clients && IsOver(s.clients[c])
    && PhaseOf(s, r) == Authenticated(c) && PhaseOf(Next(s, Allow(r)), r) == Admitted(c)
  }

  /** A client that is over the limit in the current minute gets a signature, unless it is revoked for that and has no
      second request past authentication. */
  lemma OverLimitIsSigned(c: string, cfg: ClientConfig, k: nat) returns (s: State, steps: seq<Step>, r: nat)
    requires c != "" && cfg.autoDisableErrors > 0 && !cfg.disabled && k >= 1 && (cfg.autoRevoke ==> k >= 2)
    ensures Starts(s, c, cfg) && BusyWithin(s, steps + [Allow(r)] + [Work(r, true)], c, k)
    ensures BusyWithin(s, steps, c, k)
    ensures var b, t := After(s, steps), After(s, steps + [Allow(r)] + [Work(r, true)]);
            && AdmitsOver(b, r, c) && b.clients[c].window == Some(Minute(b.now))
            && (cfg.autoRevoke ==> c in b.revoked)
            && r in t.requests && t.requests[r].signedAs == Some(c)
  {
    var n := cfg.autoDisableErrors + 1;
    s, steps, r := OverRun(c, cfg, cfg.autoRevoke);
    var kept := if cfg.autoRevoke then 2 else 1;
    RunDisablesRightly(s, steps, c);
    SignInRun(s, steps, c, kept, n, r);
    CalmIsWithin(s, steps, c, kept, k);
    CalmIsWithin(s, steps + [Allow(r)] + [Work(r, true)], c, kept, k);
  }

  lemma SignInRun(s: State, before: seq<Step>, c: string, k: nat, n: nat, r: nat)
    requires Calm(s, before, c, k) && k >= 1 && Trying(After(s, before), c, n, {}, r, Authenticated(c))
    ensures PhaseOf(Next(After(s, before), Allow(r)), r) == Admitted(c)
    ensures var steps := before + [Allow(r)] + [Work(r, true)];
            && Calm(s, steps, c, k) && Trying(After(s, steps), c, n, {}, r, Signed(c))
            && After(s, steps).clients == After(s, before).clients
            && r in After(s, steps).requests && After(s, steps).requests[r].signedAs == Some(c)
  {
    hide Next, Minute;
    var b := After(s, before);
    AllowOne(b, c, n, {}, r);
    WorkOne(Next(b, Allow(r)), c, n, {}, r, true);
    assert {} + {r} == {r};
    CalmGoesOn(s, before, Allow(r), c, k);
    CalmGoesOn(s, before + [Allow(r)], Work(r, true), c, k);
  }

  /** That requests over the error threshold are denied holds in every run with at most `k` requests of the client
      between authenticate and record if and only if the client is configured with autoRevoke and k is at most one. */
  lemma ErrorThresholdDeniesIff(c: string, cfg: ClientConfig, k: nat)
    requires c != "" && cfg.autoDisableErrors > 0 && !cfg.disabled && k >= 1
    ensures (forall s, steps, r :: Starts(s, c, cfg) && BusyWithin(s, steps, c, k) ==> !AdmitsOver(After(s, steps), r, c))
            <==> cfg.autoRevoke && k <= 1
  {
    if cfg.autoRevoke && k <= 1 {
      forall s, steps, r | Starts(s, c, cfg) && BusyWithin(s, steps, c, k)
        ensures !AdmitsOver(After(s, steps), r, c)
      {
        NobodyOverIsAdmitted(s, steps, c, r);
      }
    } else {
      var s, steps, r := OverLimitIsSigned(c, cfg, k);
      assert Starts(s, c, cfg) && BusyWithin(s, steps, c, k) && AdmitsOver(After(s, steps), r, c);
    }
  }

  lemma NobodyOverIsAdmitted(s: State, steps: seq<Step>, c: string, r: nat)
    requires Init(s) && c in s.clients && s.clients[c].cfg.autoRevoke && BusyWithin(s, steps, c, 1)
    ensures !AdmitsOver(After(s, steps), r, c)
  {
    hide Next;
    var t := After(s, steps);
    ConfigIsFixed(s, steps);
    AnswersStandAlone(s, steps, c);
    if PhaseOf(t, r) == Authenticated(c) && IsOver(t.clients[c]) {
      assert IsWelcome(t, c);
      OverLimitIsRefusedIff(s, steps, c);
    }
  }

  // ---------------------------------------------------------------- audit lines

  ghost predicate Truthful(log: seq<Event>, c: string) {
    forall e :: e in log && e.client == c ==> (e.audited <==> e.kind.Issued?)
  }

  lemma {:induction false} AuditIsTruthful(s: State, steps: seq<Step>, c: string, k: nat)
    requires Init(s) && c in s.clients && AtMost(s, steps, c, k)
    requires s.clients[c].cfg.autoDisableErrors <= 0 && (Limit(s.clients[c].cfg) == 0 || k <= 1)
    ensures Truthful(After(s, steps).log, c)
  {
    if steps != [] {
      var before, step := steps[..|steps| - 1], steps[|steps| - 1];
      AtMostPrefix(s, steps, c, k);
      AuditIsTruthful(s, before, c, k);
      ConfigIsFixed(s, before);
      if Limit(s.clients[c].cfg) > 0 {
        RateBound(s, steps, c, k);
      }
      StepIsTruthful(After(s, before), step, c);
    }
  }

  lemma StepIsTruthful(s: State, step: Step, c: string)
    requires c in s.clients && Truthful(s.log, c) && s.clients[c].cfg.autoDisableErrors <= 0
    requires Limit(s.clients[c].cfg) == 0 || Signs(Next(s, step), c) <= Limit(s.clients[c].cfg)
    ensures Truthful(Next(s, step).log, c)
  {
    StepOnClient(s, step, c);
    StepOnLog(s, step);
    if step.Record? && RecordKind(PhaseOf(s, step.r)).Some? {
      var (id, action, kind) := RecordKind(PhaseOf(s, step.r)).value;
      if id == c {
        RecordingCounts(s.clients[c], action, kind.Issued?, "", Minute(s.now));
        TruthfulRecord(s.clients[c], action, kind.Issued?, Minute(s.now));
      }
    }
  }

  lemma TruthfulRecord(c: Client, action: Action, ok: bool, minute: int)
    requires c.cfg.autoDisableErrors <= 0
    requires Limit(c.cfg) == 0 || Counted(Rolled(c, minute), action, ok).signs <= Limit(c.cfg)
    ensures Recording(c, action, ok, "", minute).ok == ok
  {
  }

  /** Every sign attempt is audited "ok" exactly when a signature was issued, in every run with at most `k` requests in
      flight, if and only if the client has no limit on errors, and none on signatures or k is at most one.  Otherwise
      an issued signature is logged as denied in some run. */
  lemma AuditIsTruthfulIff(c: string, cfg: ClientConfig, k: nat)
    requires c != "" && k >= 1 && !cfg.disabled
    ensures (forall s, steps :: Starts(s, c, cfg) && AtMost(s, steps, c, k) ==> Truthful(After(s, steps).log, c))
            <==> cfg.autoDisableErrors <= 0 && (Limit(cfg) == 0 || k <= 1)
  {
    if cfg.autoDisableErrors > 0 {
      var s, steps := ErrorsHideSignature(c, cfg);
      CalmIsWithin(s, steps, c, 2, k);
      assert Starts(s, c, cfg) && AtMost(s, steps, c, k) && !Truthful(After(s, steps).log, c);
    } else if Limit(cfg) == 0 || k <= 1 {
      forall s, steps | Starts(s, c, cfg) && AtMost(s, steps, c, k)
        ensures Truthful(After(s, steps).log, c)
      {
        AuditIsTruthful(s, steps, c, k);
      }
    } else {
      var s := StartState(c, cfg);
      var steps := WorstRun(s, c, k);
      var log := After(s, steps).log;
      assert Starts(s, c, cfg) && AtMost(s, steps, c, k);
      assert log[|log| - 1] in log && !Truthful(log, c);
    }
  }

  /** Over its error limit a client gets a signature, and the audit line says that it was denied. */
  lemma ErrorsHideSignature(c: string, cfg: ClientConfig) returns (s: State, steps: seq<Step>)
    requires c != "" && cfg.autoDisableErrors > 0 && !cfg.disabled
    ensures Starts(s, c, cfg) && Calm(s, steps, c, 2) && !Truthful(After(s, steps).log, c)
  {
    var r, n := 0, cfg.autoDisableErrors + 1;
    s, steps, r := OverRun(c, cfg, true);
    SignInRun(s, steps, c, 2, n, r);
    steps := steps + [Allow(r)] + [Work(r, true)];
    RecordHides(After(s, steps), c, n, r);
    CalmGoesOn(s, steps, Record(r), c, 2);
    steps := steps + [Record(r)];
  }

  lemma RecordHides(s: State, c: string, n: nat, r: nat)
    requires Trying(s, c, n, {}, r, Signed(c)) && n > 0 && 0 < s.clients[c].cfg.autoDisableErrors < n
    ensures var t := Next(s, Record(r)); IsCalm(t, c, 2) && !Truthful(t.log, c)
  {
    hide Recording, Minute;
    BusyMoves(s, Record(r), c);
    InFlightMoves(s, Record(r), c);
    assert Busy(Next(s, Record(r)), c) == {} && InFlight(Next(s, Record(r)), c) == {};
    StepOnLog(s, Record(r));
    AuditedOkIff(s.clients[c], true, "", Minute(s.now));
    var log := Next(s, Record(r)).log;
    assert log[|log| - 1] == EventOf(s, Record(r)).value && log[|log| - 1] in log;
  }
}
