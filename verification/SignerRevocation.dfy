/** Revocation: it is permanent while the signer runs, and what it lets through is bounded. */
module SignerRevocation {
  import opened Options
  import opened Signing
  import opened SignerRuns

  // ---------------------------------------------------------------- permanence

  lemma StepOnRevoked(s: State, step: Step, c: string)
    ensures s.revoked <= Next(s, step).revoked
    ensures c in s.clients && (s.clients[c].autoDisabled ==> c in s.revoked) ==>
              && (s.clients[c].autoDisabled ==> ClientNext(s, step, c).autoDisabled)
              && (ClientNext(s, step, c).autoDisabled ==> c in Next(s, step).revoked)
  {
    hide Allowing, Recording, Minute;
    if c in s.clients {
      AllowingKeepsCounters(s.clients[c], Sign);
      if step.Record? && RecordKind(PhaseOf(s, step.r)).Some? {
        var (id, action, kind) := RecordKind(PhaseOf(s, step.r)).value;
        RecordingCounts(s.clients[c], action, kind.Issued?, "", Minute(s.now));
      }
    }
  }

  lemma {:induction false} AutoDisabledIsRevoked(s: State, steps: seq<Step>, c: string)
    requires Init(s) && c in s.clients
    ensures var t := After(s, steps); c in t.clients && (t.clients[c].autoDisabled ==> c in t.revoked)
  {
    ConfigIsFixed(s, steps);
    if steps != [] {
      var before := steps[..|steps| - 1];
      AutoDisabledIsRevoked(s, before, c);
      StepOnClient(After(s, before), steps[|steps| - 1], c);
      StepOnRevoked(After(s, before), steps[|steps| - 1], c);
    }
  }

  /** In every run: a client that is auto-disabled is in the revoked set, and neither mark ever goes away. */
  lemma {:induction false} RevocationIsPermanent(s: State, steps: seq<Step>, more: seq<Step>, c: string)
    requires Init(s) && c in s.clients
    ensures var t, u := After(s, steps), After(s, steps + more);
            && t.revoked <= u.revoked && c in t.clients && c in u.clients
            && (t.clients[c].autoDisabled ==> c in t.revoked && u.clients[c].autoDisabled)
  {
    hide Next, ClientNext;
    AutoDisabledIsRevoked(s, steps, c);
    if more == [] {
      assert steps + more == steps;
    } else {
      var before := more[..|more| - 1];
      assert (steps + more)[..|steps + more| - 1] == steps + before;
      RevocationIsPermanent(s, steps, before, c);
      AutoDisabledIsRevoked(s, steps + before, c);
      ConfigIsFixed(s, steps + more);
      StepOnClient(After(s, steps + before), more[|more| - 1], c);
      StepOnRevoked(After(s, steps + before), more[|more| - 1], c);
    }
  }

  // ---------------------------------------------------------------- the leak

  predicate Passed(p: Phase, c: string) {
    (p.Authenticated? || p.Admitted?) && p.id == c
  }

  /** Requests that have been authenticated as `c` and may still get a signature. */
  function PastAuthentication(s: State, c: string): set<nat> {
    set r | r in s.requests && Passed(s.requests[r].phase, c)
  }

  /** Requests that got a signature in the name of `c`. */
  function SignedFor(s: State, c: string): set<nat> {
    set r | r in s.requests && s.requests[r].signedAs == Some(c)
  }

  lemma StepLeaksNothingNew(s: State, step: Step, c: string)
    requires c in s.clients && c in s.revoked
    ensures PastAuthentication(Next(s, step), c) <= PastAuthentication(s, c)
    ensures SignedFor(Next(s, step), c) <= SignedFor(s, c) + PastAuthentication(s, c)
  {
    hide Recording, Allowing, Identifies;
  }

  /** From any state in which a client is revoked, whatever happens next: only requests that were
      past authentication at that moment ever get a signature in its name. */
  lemma {:induction false} LeakIsBounded(s: State, steps: seq<Step>, c: string)
    requires c in s.clients && c in s.revoked
    ensures SignedFor(After(s, steps), c) <= SignedFor(s, c) + PastAuthentication(s, c)
    ensures PastAuthentication(After(s, steps), c) <= PastAuthentication(s, c)
    ensures c in After(s, steps).revoked
    ensures |SignedFor(After(s, steps), c) - SignedFor(s, c)| <= |PastAuthentication(s, c)|
  {
    ConfigIsFixed(s, steps);
    if steps != [] {
      var before := steps[..|steps| - 1];
      LeakIsBounded(s, before, c);
      ConfigIsFixed(s, before);
      StepLeaksNothingNew(After(s, before), steps[|steps| - 1], c);
      StepOnRevoked(After(s, before), steps[|steps| - 1], c);
    }
    SubsetIsNotLarger(SignedFor(After(s, steps), c) - SignedFor(s, c), PastAuthentication(s, c));
  }

  ghost predicate DistinctTokens(s: State) {
    forall a, b :: a in s.clients && b in s.clients && s.clients[a].cfg.token == s.clients[b].cfg.token ==> a == b
  }

  /** A request that has not been authenticated and will not be. */
  predicate Outside(s: State, r: nat) {
    r in s.requests ==>
      && s.requests[r].signedAs == None
      && (s.requests[r].phase.Arrived? || s.requests[r].phase.Unauthenticated? || s.requests[r].phase.Done?)
  }

  lemma StepKeepsOutside(s: State, step: Step, c: string, r: nat)
    requires c in s.clients && c in s.revoked && DistinctTokens(s) && Outside(s, r)
    requires r in s.requests ==> s.requests[r].token == s.clients[c].cfg.token
    ensures r in Next(s, step).requests && Next(s, step).requests[r].token == s.clients[c].cfg.token ==>
              Outside(Next(s, step), r)
    ensures r in s.requests ==> r in Next(s, step).requests && Next(s, step).requests[r].token == s.requests[r].token
  {
    hide Recording, Allowing;
  }

  /** With distinct tokens, a request that presents a client's token and authenticates only after the
      client was revoked never gets a signature, in anyone's name. */
  lemma {:induction false} NoSignatureAfterRevocation(s: State, steps: seq<Step>, c: string, r: nat)
    requires c in s.clients && c in s.revoked && DistinctTokens(s)
    requires r in s.requests ==> s.requests[r].phase.Arrived? && s.requests[r].signedAs == None
    requires r in After(s, steps).requests && After(s, steps).requests[r].token == s.clients[c].cfg.token
    ensures After(s, steps).requests[r].signedAs == None
  {
    StaysOutside(s, steps, c, r);
  }

  lemma {:induction false} StaysOutside(s: State, steps: seq<Step>, c: string, r: nat)
    requires c in s.clients && c in s.revoked && DistinctTokens(s)
    requires r in s.requests ==> s.requests[r].phase.Arrived? && s.requests[r].signedAs == None
    requires r in After(s, steps).requests ==> After(s, steps).requests[r].token == s.clients[c].cfg.token
    ensures Outside(After(s, steps), r)
  {
    if steps != [] {
      var before, step := steps[..|steps| - 1], steps[|steps| - 1];
      var t := After(s, before);
      TokenIsFixed(t, step, r);
      StaysOutside(s, before, c, r);
      ConfigIsFixed(s, before);
      LeakIsBounded(s, before, c);
      assert DistinctTokens(t);
      StepKeepsOutside(t, step, c, r);
    }
  }

  lemma TokenIsFixed(s: State, step: Step, r: nat)
    ensures r in s.requests ==> r in Next(s, step).requests && Next(s, step).requests[r].token == s.requests[r].token
  {
  }
}
