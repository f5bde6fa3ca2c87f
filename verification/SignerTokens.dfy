/** Who gets a signature, and that the log accounts for it: every request that gets past authentication presented the
    right token, and every signature is logged once. */
module SignerTokens {
  import opened Options
  import opened Signing
  import opened SignerRuns
  import opened SignerLimits
  import opened SignerRevocation

  // ---------------------------------------------------------------- the right token

  /** The signer has no clients file and no clients: everybody shares one token. */
  predicate IsOpenToAll(s: State) {
    !s.setup.clientsMode && |s.clients| == 0
  }

  /** `token` is what a caller has to present to act as `id`. */
  predicate IsTokenOf(s: State, token: string, id: string) {
    if IsOpenToAll(s) then id == "shared" && (s.setup.sharedToken == "" || token == s.setup.sharedToken)
    else id in s.clients && s.clients[id].cfg.token == token
  }

  /** In whose name a request has been let in. */
  predicate IsInAs(q: Request, id: string) {
    || q.signedAs == Some(id)
    || ((q.phase.Authenticated? || q.phase.Refused? || q.phase.Admitted? || q.phase.Signed? || q.phase.Failed?)
        && q.phase.id == id)
  }

  ghost predicate AllPresented(s: State, t: State) {
    forall r, id :: r in t.requests && IsInAs(t.requests[r], id) ==> IsTokenOf(s, t.requests[r].token, id)
  }

  lemma EmptyIsOpen(s: State)
    ensures s.clients == map[] <==> |s.clients| == 0
  {
  }

  lemma SameTokens(s: State, t: State, token: string, id: string)
    requires t.setup == s.setup && t.clients.Keys == s.clients.Keys
    requires forall c :: c in s.clients ==> t.clients[c].cfg == s.clients[c].cfg
    ensures IsTokenOf(t, token, id) <==> IsTokenOf(s, token, id)
  {
    assert |t.clients| == |t.clients.Keys| && |s.clients| == |s.clients.Keys|;
  }

  lemma AuthenticatePresented(s: State, r: nat, id: string)
    requires r in s.requests && s.requests[r].phase == Arrived && "" !in s.clients
    requires PhaseOf(Next(s, Authenticate(r, id)), r) == Authenticated(id)
    ensures IsTokenOf(s, s.requests[r].token, id)
  {
    EmptyIsOpen(s);
  }

  lemma StepPresented(s: State, step: Step)
    requires AllPresented(s, s) && "" !in s.clients
    ensures AllPresented(s, Next(s, step))
  {
    hide Allowing, Recording, Identifies, Welcome, IsTokenOf;
    var t := Next(s, step);
    forall r, id | r in t.requests && IsInAs(t.requests[r], id)
      ensures IsTokenOf(s, t.requests[r].token, id)
    {
      TokenIsFixed(s, step, r);
      if step.Authenticate? && step.r == r && r in s.requests && s.requests[r].phase == Arrived
         && t.requests[r].phase == Authenticated(id) && s.requests[r].signedAs != Some(id) {
        assert step.id == id;
        AuthenticatePresented(s, r, id);
      } else {
        assert r in s.requests && IsInAs(s.requests[r], id);
      }
    }
  }

  /** In every run, whatever the requests do and however they interleave: a request that has been authenticated as
      somebody, or has got a signature in somebody's name, presented the right token for it. */
  lemma {:induction false} OnlyRightTokens(s: State, steps: seq<Step>)
    requires Init(s)
    ensures AllPresented(s, After(s, steps))
  {
    if steps != [] {
      var before, step := steps[..|steps| - 1], steps[|steps| - 1];
      var b := After(s, before);
      OnlyRightTokens(s, before);
      ConfigIsFixed(s, before);
      forall token, id
        ensures IsTokenOf(b, token, id) <==> IsTokenOf(s, token, id)
      {
        SameTokens(s, b, token, id);
      }
      StepPresented(b, step);
    }
  }

  /** And whoever presents the right token is let in, unless the client is disabled or revoked; nobody else is. */
  lemma RightTokenIsLetInIff(s: State, r: nat, id: string)
    requires r in s.requests && s.requests[r].phase == Arrived && "" !in s.clients
    ensures PhaseOf(Next(s, Authenticate(r, id)), r) == Authenticated(id) <==>
              && IsTokenOf(s, s.requests[r].token, id)
              && (id in s.clients ==>
                    !s.clients[id].cfg.disabled && !s.clients[id].autoDisabled && id !in s.revoked)
  {
    EmptyIsOpen(s);
  }

  // ---------------------------------------------------------------- what a record does

  /** Whoever is recorded: an attempt that was turned away by authenticate counts as a failure and meets only the error
      threshold, and any other attempt meets the sign threshold as well, a denied one included. */
  lemma RecordIs(s: State, r: nat, id: string)
    requires RecordKind(PhaseOf(s, r)).Some? && PhaseOf(s, r).id == id && id in s.clients
    ensures var p, c, cfg := PhaseOf(s, r), s.clients[id], s.clients[id].cfg;
            var t, open := Next(s, Record(r)), c.window == Some(Minute(s.now));
            var signs := (if open then c.signs else 0) + if p.Signed? then 1 else 0;
            var errors := (if open then c.errors else 0) + if p.Signed? then 0 else 1;
            var full := !p.Unauthenticated? && 0 < cfg.autoDisableSigns < signs;
            var revokes := cfg.autoRevoke && (full || 0 < cfg.autoDisableErrors < errors);
            && PhaseOf(t, r) == Done && t.revoked == s.revoked + (if revokes then {id} else {})
            && t.clients == s.clients[id := Client(cfg, Some(Minute(s.now)), signs, errors, c.autoDisabled || revokes)]
            && |t.log| == |s.log| + 1 && t.log[..|s.log|] == s.log
            && t.log[|s.log|].client == id && t.log[|s.log|].at == s.now
            && (t.log[|s.log|].kind.Issued? <==> p.Signed?)
  {
    hide Recording, Minute;
    var (_, action, kind) := RecordKind(PhaseOf(s, r)).value;
    RecordingIs(s.clients[id], action, kind.Issued?, "", Minute(s.now));
  }

  // ---------------------------------------------------------------- every signature is logged

  /** Signed requests of `c` that are not recorded yet. */
  function Unlogged(s: State, c: string): set<nat> {
    set r | r in s.requests && s.requests[r].phase == Signed(c)
  }

  function IssuedTo(log: seq<Event>, c: string): nat {
    if log == [] then 0
    else
      var e := log[|log| - 1];
      IssuedTo(log[..|log| - 1], c) + if e.client == c && e.kind.Issued? then 1 else 0
  }

  /** Only signed requests carry a signature, before they are recorded and afterwards. */
  predicate SignedRightly(q: Request) {
    match q.phase
    case Signed(id) => q.signedAs == Some(id)
    case Done => true
    case _ => q.signedAs == None
  }

  lemma StepSignsRightly(s: State, step: Step)
    requires forall r :: r in s.requests ==> SignedRightly(s.requests[r])
    ensures forall r :: r in Next(s, step).requests ==> SignedRightly(Next(s, step).requests[r])
  {
    hide Recording, Allowing, Identifies, Welcome;
  }

  /** A step makes a signature and leaves it to be logged, or logs one, or does neither. */
  lemma StepAccounts(s: State, step: Step, c: string)
    requires forall r :: r in s.requests ==> SignedRightly(s.requests[r])
    ensures var t := Next(s, step);
            match step
            case Work(r, ok) =>
              if PhaseOf(s, r) == Admitted(c) && ok
              then SignedFor(t, c) == SignedFor(s, c) + {r} && Unlogged(t, c) == Unlogged(s, c) + {r}
              else SignedFor(t, c) == SignedFor(s, c) && Unlogged(t, c) == Unlogged(s, c)
            case Record(r) =>
              SignedFor(t, c) == SignedFor(s, c)
              && Unlogged(t, c) == if PhaseOf(s, r) == Signed(c) then Unlogged(s, c) - {r} else Unlogged(s, c)
            case _ => SignedFor(t, c) == SignedFor(s, c) && Unlogged(t, c) == Unlogged(s, c)
  {
    match step {
      case Work(r, ok) => WorkAccounts(s, r, ok, c);
      case Record(r) => RecordAccounts(s, r, c);
      case Arrive(_, _) =>
      case Authenticate(_, _) =>
        hide Recording, Allowing, Identifies, Welcome;
      case Leave(_) =>
      case Allow(r) => AllowAccounts(s, r, c);
      case Tick(_) =>
    }
  }

  lemma WorkAccounts(s: State, r: nat, ok: bool, c: string)
    requires forall q :: q in s.requests ==> SignedRightly(s.requests[q])
    ensures var t := Next(s, Work(r, ok));
            if PhaseOf(s, r) == Admitted(c) && ok
            then SignedFor(t, c) == SignedFor(s, c) + {r} && Unlogged(t, c) == Unlogged(s, c) + {r}
            else SignedFor(t, c) == SignedFor(s, c) && Unlogged(t, c) == Unlogged(s, c)
  {
  }

  lemma RecordAccounts(s: State, r: nat, c: string)
    ensures var t := Next(s, Record(r));
            && SignedFor(t, c) == SignedFor(s, c)
            && Unlogged(t, c) == if PhaseOf(s, r) == Signed(c) then Unlogged(s, c) - {r} else Unlogged(s, c)
  {
    hide Recording;
  }

  lemma AllowAccounts(s: State, r: nat, c: string)
    ensures var t := Next(s, Allow(r)); SignedFor(t, c) == SignedFor(s, c) && Unlogged(t, c) == Unlogged(s, c)
  {
    hide Allowing;
  }

  lemma StepOnIssued(s: State, step: Step, c: string)
    ensures IssuedTo(Next(s, step).log, c) ==
            IssuedTo(s.log, c) + if step.Record? && PhaseOf(s, step.r) == Signed(c) then 1 else 0
  {
    hide Recording, Allowing, Identifies, Welcome;
    StepOnLog(s, step);
    match EventOf(s, step) {
      case Some(e) => assert (s.log + [e])[..|s.log|] == s.log;
      case None =>
    }
  }

  /** Nothing is lost and nothing is counted twice: at every moment of every run, the signatures made in a client's name
      are those the log holds, each once, and those still to be recorded. */
  lemma {:induction false} EverySignatureIsLogged(s: State, steps: seq<Step>, c: string)
    requires Init(s)
    ensures var t := After(s, steps);
            && |SignedFor(t, c)| == IssuedTo(t.log, c) + |Unlogged(t, c)|
            && forall r :: r in t.requests ==> SignedRightly(t.requests[r])
  {
    if steps == [] {
      assert SignedFor(s, c) == {} && Unlogged(s, c) == {};
    } else {
      var before, step := steps[..|steps| - 1], steps[|steps| - 1];
      var b := After(s, before);
      EverySignatureIsLogged(s, before, c);
      StepSignsRightly(b, step);
      StepAccounts(b, step, c);
      StepOnIssued(b, step, c);
      OneMoreOrLess(b, step, c);
    }
  }

  lemma OneMoreOrLess(s: State, step: Step, c: string)
    requires forall r :: r in s.requests ==> SignedRightly(s.requests[r])
    ensures step.Work? && PhaseOf(s, step.r) == Admitted(c) ==>
              && |SignedFor(s, c) + {step.r}| == |SignedFor(s, c)| + 1
              && |Unlogged(s, c) + {step.r}| == |Unlogged(s, c)| + 1
    ensures step.Record? && PhaseOf(s, step.r) == Signed(c) ==> |Unlogged(s, c) - {step.r}| == |Unlogged(s, c)| - 1
  {
    if step.Work? && PhaseOf(s, step.r) == Admitted(c) {
      assert step.r !in SignedFor(s, c) && step.r !in Unlogged(s, c);
    }
    if step.Record? && PhaseOf(s, step.r) == Signed(c) {
      assert step.r in Unlogged(s, c);
    }
  }
}
