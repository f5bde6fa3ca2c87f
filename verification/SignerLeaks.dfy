/** What gets through after a revocation: as many signatures as requests were past authentication, and no fewer. */
module SignerLeaks {
  import opened Options
  import opened Signing
  import opened SignerRuns
  import opened SignerLimits
  import opened SignerRevocation
  import opened SignerErrors

  /** Exactly the requests in `past` are past authentication as `c`; those below `lo` have been admitted. */
  ghost predicate Passing(s: State, c: string, past: set<nat>, lo: nat) {
    && c in s.clients && PastAuthentication(s, c) == past
    && forall r :: r in past ==> PhaseOf(s, r) == if r < lo then Admitted(c) else Authenticated(c)
  }

  function Numbers(m: nat): (numbers: set<nat>)
    ensures |numbers| == m && forall r: nat :: r in numbers <==> r < m
  {
    if m == 0 then {}
    else
      var fewer := Numbers(m - 1);
      assert |fewer + {m - 1}| == |fewer| + 1;
      fewer + {m - 1}
  }

  lemma ReadyArePassing(s: State, c: string, m: nat)
    requires Waiting(s, c, 0, {}, 0, m) && forall r :: r in s.requests ==> r < m
    ensures Passing(s, c, Numbers(m), 0)
  {
    assert forall r :: r in Numbers(m) ==> PhaseOf(s, r) == Authenticated(c);
    assert PastAuthentication(s, c) == Numbers(m);
  }

  /** All of them are admitted while nothing is recorded yet. */
  lemma {:induction false} AdmitAll(s: State, c: string, past: set<nat>, j: nat) returns (steps: seq<Step>)
    requires Passing(s, c, past, 0) && s.clients[c].signs == 0 && forall r: nat :: r < j ==> r in past
    ensures var t := After(s, steps); Passing(t, c, past, j) && t == s.(requests := t.requests)
  {
    steps := [];
    if j > 0 {
      var before := AdmitAll(s, c, past, j - 1);
      AfterAppend(s, before, Allow(j - 1));
      AdmitPassing(After(s, before), c, past, j - 1);
      steps := before + [Allow(j - 1)];
    }
  }

  lemma AdmitPassing(s: State, c: string, past: set<nat>, r: nat)
    requires Passing(s, c, past, r) && r in past && s.clients[c].signs == 0
    ensures var t := Next(s, Allow(r)); Passing(t, c, past, r + 1) && t == s.(requests := t.requests)
  {
    AllowingKeepsCounters(s.clients[c], Sign);
    AdmittedNow(s, c, r);
  }

  /** All requests past authentication have been admitted, and `n` have been recorded in this minute, all with a
      signature or all without. */
  ghost predicate Recorded(s: State, c: string, past: set<nat>, n: nat, ok: bool) {
    && c in s.clients && PastAuthentication(s, c) == past
    && (forall r :: r in past ==> PhaseOf(s, r) == Admitted(c))
    && n == (if ok then s.clients[c].signs else s.clients[c].errors)
    && (n > 0 ==> s.clients[c].window == Some(Minute(s.now)))
  }

  /** `n` recorded requests of that kind revoke the client. */
  predicate TooMany(cfg: ClientConfig, n: nat, ok: bool) {
    cfg.autoRevoke && 0 < (if ok then cfg.autoDisableSigns else cfg.autoDisableErrors) < n
  }

  lemma RecordNext(s: State, c: string, past: set<nat>, n: nat, ok: bool, r: nat)
    requires Recorded(s, c, past, n, ok) && r in past
    ensures var t := Next(Next(s, Work(r, ok)), Record(r));
            && Recorded(t, c, past - {r}, n + 1, ok) && t.clients[c].cfg == s.clients[c].cfg
            && (TooMany(s.clients[c].cfg, n + 1, ok) ==> c in t.revoked)
  {
    hide Minute, Recording;
    var t := Next(s, Work(r, ok));
    WorkMovesOn(s, r, ok, c);
    StepOnClient(t, Record(r), c);
    RecordingCounts(s.clients[c], Sign, ok, "", Minute(s.now));
    TooManyRevoke(s.clients[c], ok, Minute(s.now));
    RecordKeepsPast(t, r, c);
  }

  lemma WorkMovesOn(s: State, r: nat, ok: bool, c: string)
    requires PhaseOf(s, r) == Admitted(c)
    ensures var t := Next(s, Work(r, ok));
            && t == s.(requests := t.requests) && PhaseOf(t, r) == (if ok then Signed(c) else Failed(c))
            && PastAuthentication(t, c) == PastAuthentication(s, c) - {r}
            && (forall q :: q != r ==> PhaseOf(t, q) == PhaseOf(s, q))
            && SignedFor(t, c) == if ok then SignedFor(s, c) + {r} else SignedFor(s, c)
  {
  }

  lemma TooManyRevoke(c: Client, ok: bool, minute: int)
    ensures var counted := Counted(Rolled(c, minute), Sign, ok);
            TooMany(c.cfg, if ok then counted.signs else counted.errors, ok) ==>
              Recording(c, Sign, ok, "", minute).revokes
  {
  }

  lemma RecordKeepsPast(s: State, r: nat, c: string)
    ensures PastAuthentication(Next(s, Record(r)), c) == PastAuthentication(s, c)
    ensures forall q :: q != r ==> PhaseOf(Next(s, Record(r)), q) == PhaseOf(s, q)
  {
    hide Recording;
  }

  /** `m` of them are finished and recorded. */
  lemma {:induction false} RecordSome(s: State, c: string, past: set<nat>, ok: bool, m: nat)
      returns (steps: seq<Step>, rest: set<nat>)
    requires Recorded(s, c, past, 0, ok) && m <= |past|
    ensures rest <= past && |rest| == |past| - m
    ensures var t := After(s, steps);
            && Recorded(t, c, rest, m, ok) && t.clients[c].cfg == s.clients[c].cfg
            && (m > 0 && TooMany(s.clients[c].cfg, m, ok) ==> c in t.revoked)
  {
    if m == 0 {
      steps, rest := [], past;
    } else {
      var before, more := RecordSome(s, c, past, ok, m - 1);
      assert more != {};
      var r :| r in more;
      RecordNext(After(s, before), c, more, m - 1, ok, r);
      AfterAppend(s, before, Work(r, ok));
      AfterAppend(s, before + [Work(r, ok)], Record(r));
      steps, rest := before + [Work(r, ok)] + [Record(r)], more - {r};
    }
  }

  /** Whoever has been admitted can still get a signature. */
  lemma {:induction false} SignAll(s: State, c: string, past: set<nat>) returns (steps: seq<Step>)
    requires PastAuthentication(s, c) >= past && forall r :: r in past ==> PhaseOf(s, r) == Admitted(c)
    ensures SignedFor(After(s, steps), c) == SignedFor(s, c) + past
    decreases |past|
  {
    steps := [];
    if past != {} {
      var r :| r in past;
      SmallerWithout(past, r);
      WorkMovesOn(s, r, true, c);
      var more := SignAll(Next(s, Work(r, true)), c, past - {r});
      AfterFirst(s, Work(r, true), more);
      steps := [Work(r, true)] + more;
    }
  }

  lemma SmallerWithout(a: set<nat>, r: nat)
    requires r in a
    ensures |a - {r}| == |a| - 1
  {
  }

  lemma {:induction false} AfterFirst(s: State, x: Step, more: seq<Step>)
    ensures After(s, [x] + more) == After(Next(s, x), more)
  {
    var all := [x] + more;
    if more == [] {
      assert all[..|all| - 1] == [] && all[0] == x;
      assert After(s, []) == s;
    } else {
      assert all[..|all| - 1] == [x] + more[..|more| - 1];
      AfterFirst(s, x, more[..|more| - 1]);
    }
  }

  /** A run that revokes the client while `k` of its admitted requests wait. */
  lemma RevokedRun(c: string, cfg: ClientConfig, k: nat) returns (s: State, steps: seq<Step>, past: set<nat>)
    requires c != "" && !cfg.disabled && CanRevoke(cfg)
    ensures Starts(s, c, cfg) && |past| == k && c in After(s, steps).revoked
    ensures var b := After(s, steps);
            PastAuthentication(b, c) == past && forall r :: r in past ==> PhaseOf(b, r) == Admitted(c)
  {
    hide Next, Waiting, Minute;
    s := StartState(c, cfg);
    var ok := cfg.autoDisableSigns > 0;
    var m := 1 + if ok then cfg.autoDisableSigns else cfg.autoDisableErrors;
    var all := Numbers(k + m);
    var ready := GetReady(s, c, 0, k + m);
    ReadyArePassing(After(s, ready), c, k + m);
    var admit := AdmitAll(After(s, ready), c, all, k + m);
    var u := After(After(s, ready), admit);
    assert Recorded(u, c, all, 0, ok);
    var last;
    last, past := RecordSome(u, c, all, ok, m);
    AfterTogether(s, ready, admit);
    AfterTogether(s, ready + admit, last);
    steps := ready + admit + last;
  }

  lemma {:induction false} AfterTogether(s: State, steps: seq<Step>, more: seq<Step>)
    ensures After(s, steps + more) == After(After(s, steps), more)
  {
    var all := steps + more;
    if more == [] {
      assert all == steps;
    } else {
      assert all[..|all| - 1] == steps + more[..|more| - 1];
      AfterTogether(s, steps, more[..|more| - 1]);
    }
  }

  lemma {:induction false} UnsignedUntilSigned(s: State, steps: seq<Step>, c: string)
    requires Init(s)
    ensures forall r :: r in After(s, steps).requests ==> Unsigned(After(s, steps).requests[r])
    ensures PastAuthentication(After(s, steps), c) !! SignedFor(After(s, steps), c)
  {
    if steps != [] {
      UnsignedUntilSigned(s, steps[..|steps| - 1], c);
      StepSignsOnce(After(s, steps[..|steps| - 1]), steps[|steps| - 1]);
    }
  }

  /** A request that still has its work before it has no signature. */
  predicate Unsigned(q: Request) {
    q.phase.Arrived? || q.phase.Authenticated? || q.phase.Admitted? ==> q.signedAs == None
  }

  lemma StepSignsOnce(s: State, step: Step)
    requires forall r :: r in s.requests ==> Unsigned(s.requests[r])
    ensures forall r :: r in Next(s, step).requests ==> Unsigned(Next(s, step).requests[r])
  {
    hide Recording, Allowing, Identifies, Welcome;
  }

  /** No more than `bound` signatures in the name of `c` between two moments. */
  ghost predicate LeaksAtMost(s: State, more: seq<Step>, c: string, bound: nat) {
    |SignedFor(After(s, more), c) - SignedFor(s, c)| <= bound
  }

  ghost predicate RevokedPast(s: State, c: string, k: nat) {
    c in s.revoked && |PastAuthentication(s, c)| <= k
  }

  /** When a client is revoked while `k` of its requests are past authentication, at most that many more get a signature,
      and no smaller number will do, for any client that is ever revoked. */
  lemma LeastLeakIff(c: string, cfg: ClientConfig, k: nat, bound: nat)
    requires c != "" && !cfg.disabled
    ensures (forall s, steps, more :: Starts(s, c, cfg) && RevokedPast(After(s, steps), c, k) ==>
               LeaksAtMost(After(s, steps), more, c, bound))
            <==> !CanRevoke(cfg) || k <= bound
  {
    if !CanRevoke(cfg) || k <= bound {
      forall s, steps, more | Starts(s, c, cfg) && RevokedPast(After(s, steps), c, k)
        ensures LeaksAtMost(After(s, steps), more, c, bound)
      {
        RunDisablesRightly(s, steps, c);
        ConfigIsFixed(s, steps);
        LeakIsBounded(After(s, steps), more, c);
      }
    } else {
      var s, steps, past := RevokedRun(c, cfg, k);
      var b := After(s, steps);
      var more := SignAll(b, c, past);
      UnsignedUntilSigned(s, steps, c);
      assert past !! SignedFor(b, c) && SignedFor(After(b, more), c) - SignedFor(b, c) == past;
      assert !LeaksAtMost(b, more, c, bound);
    }
  }
}
