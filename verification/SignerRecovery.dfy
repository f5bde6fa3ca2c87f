/** What follows from allowed not rolling the window: a client that used up its minute and then fell
    silent is denied once in a later minute, although that minute is empty.  Its own denial rolls the
    window, so when requests come one at a time it costs one request per minute and no more. */
module SignerRecovery {
  import opened Options
  import opened Signing
  import opened SignerRuns
  import opened SignerLimits

  ghost predicate Alone(s: State, c: string) {
    forall a, b :: a in Pending(s, c) && b in Pending(s, c) ==> a == b
  }

  lemma OneIsAlone(s: State, c: string)
    requires |Pending(s, c)| <= 1
    ensures Alone(s, c)
  {
    forall a, b | a in Pending(s, c) && b in Pending(s, c)
      ensures a == b
    {
      SubsetIsNotLarger({a, b}, Pending(s, c));
    }
  }

  lemma WithinPrefix(s: State, steps: seq<Step>, c: string)
    requires steps != [] && Within(s, steps, c, 1)
    ensures Within(s, steps[..|steps| - 1], c, 1)
    ensures Alone(After(s, steps[..|steps| - 1]), c) && Alone(After(s, steps), c)
  {
    var before := steps[..|steps| - 1];
    assert steps[..|steps|] == steps;
    forall n | 0 <= n <= |before|
      ensures |Pending(After(s, before[..n]), c)| <= 1
    {
      assert before[..n] == steps[..n];
    }
    OneIsAlone(After(s, before), c);
    OneIsAlone(After(s, steps), c);
  }

  predicate IsWelcome(s: State, c: string) {
    Welcome(s.setup, s.clients, s.revoked, c)
  }

  /** Whoever is turned away once is turned away for good. */
  lemma WelcomeNeverReturns(s: State, step: Step, c: string)
    requires c in s.clients && !IsWelcome(s, c)
    ensures !IsWelcome(Next(s, step), c)
  {
    StepOnClient(s, step, c);
    StepOnRest(s, step);
    ConfigNeverChanges(s, step);
    AllowingKeepsCounters(s.clients[c], Sign);
    if step.Record? && RecordKind(PhaseOf(s, step.r)).Some? {
      var (id, action, kind) := RecordKind(PhaseOf(s, step.r)).value;
      RecordingCounts(s.clients[c], action, kind.Issued?, "", Minute(s.now));
    }
    RevokedGrows(s, step);
  }

  lemma RevokedGrows(s: State, step: Step)
    ensures s.revoked <= Next(s, step).revoked
  {
  }

  /** A request denied because of a window older than the minute it was decided in. */
  predicate StalelyRefused(p: Phase, c: string) {
    p.Refused? && p.id == c && p.stale
  }

  /** At most one stale denial is logged per minute, and none while one of that minute is pending. */
  ghost predicate Recovering(s: State, c: string)
    requires c in s.clients
  {
    && (forall m :: Count(s.log, StaleIn(c, m)) <= 1)
    && (forall m :: Count(s.log, StaleIn(c, m)) > 0 ==>
          s.clients[c].window.Some? && m <= s.clients[c].window.value)
    && (forall r :: r in s.requests && StalelyRefused(s.requests[r].phase, c) ==>
          RecoversFrom(s, c, s.requests[r].phase.decided))
    && (forall r :: r in s.requests && s.requests[r].phase == Unauthenticated(c) ==> !IsWelcome(s, c))
  }

  ghost predicate RecoversFrom(s: State, c: string, decided: nat)
    requires c in s.clients
  {
    && decided <= s.now
    && Count(s.log, StaleIn(c, Minute(decided))) == 0
    && s.clients[c].window.Some?
    && (s.clients[c].window.value < Minute(decided) || (s.clients[c].signs == 0 && !IsWelcome(s, c)))
  }

  lemma StillTurnedAway(s: State, step: Step, c: string)
    requires c in s.clients && Recovering(s, c)
    ensures c in Next(s, step).clients
    ensures forall r :: r in Next(s, step).requests && Next(s, step).requests[r].phase == Unauthenticated(c) ==>
              !IsWelcome(Next(s, step), c)
    ensures !IsWelcome(s, c) ==> !IsWelcome(Next(s, step), c)
  {
    hide ClientNext, Allowing, Recording;
    StepOnClient(s, step, c);
    if !IsWelcome(s, c) {
      WelcomeNeverReturns(s, step, c);
    }
  }

  lemma AllowRecovers(s: State, r: nat, c: string)
    requires c in s.clients && CountersMatchLog(s, c) && Recovering(s, c)
    ensures c in Next(s, Allow(r)).clients && Recovering(Next(s, Allow(r)), c)
  {
    hide Allowing, Recording, Minute;
    var t := Next(s, Allow(r));
    StepOnClient(s, Allow(r), c);
    StepOnLog(s, Allow(r));
    AllowingKeepsCounters(s.clients[c], Sign);
    StillTurnedAway(s, Allow(r), c);
    forall q | q in t.requests && StalelyRefused(t.requests[q].phase, c)
      ensures RecoversFrom(t, c, t.requests[q].phase.decided)
    {
      if q == r && PhaseOf(s, r) == Authenticated(c) {
        RefusalIsStale(s, r, c);
      }
    }
  }

  lemma RefusalIsStale(s: State, r: nat, c: string)
    requires c in s.clients && CountersMatchLog(s, c) && Recovering(s, c)
    requires PhaseOf(s, r) == Authenticated(c) && StalelyRefused(PhaseOf(Next(s, Allow(r)), r), c)
    ensures PhaseOf(Next(s, Allow(r)), r).decided == s.now && RecoversFrom(s, c, s.now)
  {
    AllowingKeepsCounters(s.clients[c], Sign);
  }

  lemma RecordRecovers(s: State, r: nat, c: string)
    requires c in s.clients && CountersMatchLog(s, c) && Recovering(s, c) && Alone(s, c)
    requires RecordKind(PhaseOf(s, r)).Some? && RecordKind(PhaseOf(s, r)).value.0 == c
    ensures c in Next(s, Record(r)).clients && Recovering(Next(s, Record(r)), c)
    ensures StalelyRefused(PhaseOf(s, r), c) ==> Next(s, Record(r)).clients[c].signs == 0
  {
    var t := Next(s, Record(r));
    RecordKeepsCounters(s, r, c);
    RecordRollsAway(s, r, c);
    StillTurnedAway(s, Record(r), c);
    forall m
      ensures Count(t.log, StaleIn(c, m)) <= 1
      ensures Count(t.log, StaleIn(c, m)) > 0 ==> m <= Minute(s.now)
    {
      RecordCountsStale(s, r, c, m);
    }
    forall q | q in t.requests && StalelyRefused(t.requests[q].phase, c)
      ensures RecoversFrom(t, c, t.requests[q].phase.decided)
    {
      OthersStillRecover(s, r, c, q);
    }
  }

  lemma RecordRollsAway(s: State, r: nat, c: string)
    requires c in s.clients && CountersMatchLog(s, c) && Recovering(s, c)
    requires RecordKind(PhaseOf(s, r)).Some? && RecordKind(PhaseOf(s, r)).value.0 == c
    ensures c in Next(s, Record(r)).clients
    ensures StalelyRefused(PhaseOf(s, r), c) ==> Next(s, Record(r)).clients[c].signs == 0
  {
    var (_, action, kind) := RecordKind(PhaseOf(s, r)).value;
    StepOnClient(s, Record(r), c);
    RecordingCounts(s.clients[c], action, kind.Issued?, "", Minute(s.now));
    if StalelyRefused(PhaseOf(s, r), c) {
      assert RecoversFrom(s, c, PhaseOf(s, r).decided);
      MinuteIsMonotone(PhaseOf(s, r).decided, s.now);
    }
  }

  lemma RecordCountsStale(s: State, r: nat, c: string, m: int)
    requires c in s.clients && Recovering(s, c)
    requires s.clients[c].window.Some? ==> s.clients[c].window.value <= Minute(s.now)
    requires RecordKind(PhaseOf(s, r)).Some? && RecordKind(PhaseOf(s, r)).value.0 == c
    ensures Count(Next(s, Record(r)).log, StaleIn(c, m)) <= 1
    ensures Count(Next(s, Record(r)).log, StaleIn(c, m)) > 0 ==> m <= Minute(s.now)
  {
    var e := EventOf(s, Record(r)).value;
    StepOnLog(s, Record(r));
    CountOfAppend(s.log, e, StaleIn(c, m));
    StaleEvent(s, r, c, m);
  }

  lemma StaleEvent(s: State, r: nat, c: string, m: int)
    requires c in s.clients && Recovering(s, c)
    requires RecordKind(PhaseOf(s, r)).Some? && RecordKind(PhaseOf(s, r)).value.0 == c
    ensures Matches(StaleIn(c, m), EventOf(s, Record(r)).value) ==>
              Count(s.log, StaleIn(c, m)) == 0 && m <= Minute(s.now)
  {
  }

  /** While a denial is pending, the only other record for the client is that of a request that was
      turned away, and it counts no signature. */
  lemma OthersStillRecover(s: State, r: nat, c: string, q: nat)
    requires c in s.clients && CountersMatchLog(s, c) && Recovering(s, c) && Alone(s, c)
    requires RecordKind(PhaseOf(s, r)).Some? && RecordKind(PhaseOf(s, r)).value.0 == c
    requires c in Next(s, Record(r)).clients
    requires q in Next(s, Record(r)).requests && StalelyRefused(Next(s, Record(r)).requests[q].phase, c)
    ensures RecoversFrom(Next(s, Record(r)), c, Next(s, Record(r)).requests[q].phase.decided)
  {
    assert q != r && q in s.requests && s.requests[q] == Next(s, Record(r)).requests[q];
    assert q in Pending(s, c) && RecoversFrom(s, c, s.requests[q].phase.decided);
    assert r !in Pending(s, c);
    TurnedAwayRecordRecovers(s, r, c, s.requests[q].phase.decided);
  }

  lemma TurnedAwayRecordRecovers(s: State, r: nat, c: string, decided: nat)
    requires c in s.clients && CountersMatchLog(s, c) && RecoversFrom(s, c, decided)
    requires PhaseOf(s, r) == Unauthenticated(c) && !IsWelcome(s, c)
    ensures c in Next(s, Record(r)).clients && RecoversFrom(Next(s, Record(r)), c, decided)
  {
    TurnedAwayIsNotStale(s, r, c, Minute(decided));
    TurnedAwayCountsNothing(s, r, c);
    WelcomeNeverReturns(s, Record(r), c);
  }

  lemma TurnedAwayIsNotStale(s: State, r: nat, c: string, m: int)
    requires PhaseOf(s, r) == Unauthenticated(c)
    ensures Count(Next(s, Record(r)).log, StaleIn(c, m)) == Count(s.log, StaleIn(c, m))
    ensures Next(s, Record(r)).now == s.now
  {
    StepOnLog(s, Record(r));
    CountOfAppend(s.log, EventOf(s, Record(r)).value, StaleIn(c, m));
  }

  lemma TurnedAwayCountsNothing(s: State, r: nat, c: string)
    requires c in s.clients && PhaseOf(s, r) == Unauthenticated(c)
    ensures c in Next(s, Record(r)).clients
    ensures var before, after := s.clients[c], Next(s, Record(r)).clients[c];
            && after.window == Some(Minute(s.now))
            && after.signs == if before.window == Some(Minute(s.now)) then before.signs else 0
  {
    StepOnClient(s, Record(r), c);
    RecordingCounts(s.clients[c], Auth, false, "", Minute(s.now));
  }

  lemma OtherStepRecovers(s: State, step: Step, c: string)
    requires c in s.clients && Recovering(s, c)
    requires !step.Allow?
    requires step.Record? && RecordKind(PhaseOf(s, step.r)).Some? ==> RecordKind(PhaseOf(s, step.r)).value.0 != c
    ensures c in Next(s, step).clients && Recovering(Next(s, step), c)
  {
    hide Recording, Allowing, Minute;
    var t := Next(s, step);
    StepOnClient(s, step, c);
    StepOnLog(s, step);
    StepOnRest(s, step);
    StillTurnedAway(s, step, c);
    match EventOf(s, step) {
      case Some(e) =>
        forall m
          ensures Count(t.log, StaleIn(c, m)) == Count(s.log, StaleIn(c, m))
        {
          CountOfAppend(s.log, e, StaleIn(c, m));
        }
      case None =>
    }
    forall q | q in t.requests && StalelyRefused(t.requests[q].phase, c)
      ensures RecoversFrom(t, c, t.requests[q].phase.decided)
    {
      assert q in s.requests && s.requests[q].phase == t.requests[q].phase;
      assert RecoversFrom(s, c, s.requests[q].phase.decided);
    }
  }

  /** One at a time, each minute sees at most one denial that an older window caused. */
  lemma {:induction false} OneStaleDenialPerMinute(s: State, steps: seq<Step>, c: string)
    requires Init(s) && c in s.clients && Within(s, steps, c, 1)
    ensures var t := After(s, steps);
            && c in t.clients && Recovering(t, c) && forall m :: Count(t.log, StaleIn(c, m)) <= 1
  {
    if steps != [] {
      var before, step := steps[..|steps| - 1], steps[|steps| - 1];
      var t := After(s, before);
      WithinPrefix(s, steps, c);
      OneStaleDenialPerMinute(s, before, c);
      CountersRefineLog(s, before, c);
      if step.Allow? {
        AllowRecovers(t, step.r, c);
      } else if step.Record? && RecordKind(PhaseOf(t, step.r)).Some? && RecordKind(PhaseOf(t, step.r)).value.0 == c {
        RecordRecovers(t, step.r, c);
      } else {
        OtherStepRecovers(t, step, c);
      }
    }
  }

  /** The first failure of a minute is below every error threshold. */
  lemma DenialDisablesNobody(c: Client, minute: int)
    requires c.window != Some(minute)
    ensures !Recording(c, Sign, false, "", minute).revokes
    ensures Recording(c, Sign, false, "", minute).client.autoDisabled == c.autoDisabled
  {
  }

  /** ... and as soon as that denial is recorded the client has a fresh minute: allowed lets it through, and it is
      welcome exactly if it was welcome before; the denial itself disables nobody. */
  lemma RecordedDenialGivesRoom(s: State, steps: seq<Step>, c: string, r: nat)
    requires Init(s) && c in s.clients && Within(s, steps + [Record(r)], c, 1)
    requires StalelyRefused(PhaseOf(After(s, steps), r), c)
    ensures var b, t := After(s, steps), After(s, steps + [Record(r)]);
            && t == Next(b, Record(r))
            && c in b.clients && c in t.clients && t.clients[c].signs == 0 && Allowing(t.clients[c], Sign).ok
            && (IsWelcome(t, c) <==> IsWelcome(b, c))
  {
    var b := After(s, steps);
    assert (steps + [Record(r)])[..|steps|] == steps;
    WithinPrefix(s, steps + [Record(r)], c);
    OneStaleDenialPerMinute(s, steps, c);
    CountersRefineLog(s, steps, c);
    RecordRecovers(b, r, c);
    AllowingKeepsCounters(Next(b, Record(r)).clients[c], Sign);
    StillTurnedAway(b, Record(r), c);
    if IsWelcome(b, c) {
      StaysWelcome(b, r, c);
    }
  }

  lemma StaysWelcome(s: State, r: nat, c: string)
    requires c in s.clients && Recovering(s, c) && StalelyRefused(PhaseOf(s, r), c) && IsWelcome(s, c)
    ensures IsWelcome(Next(s, Record(r)), c)
  {
    assert RecoversFrom(s, c, PhaseOf(s, r).decided);
    MinuteIsMonotone(PhaseOf(s, r).decided, s.now);
    DenialDisablesNobody(s.clients[c], Minute(s.now));
    StepOnClient(s, Record(r), c);
    ClientNextKeepsConfig(s, Record(r), c);
  }

  /** So the client's next request is admitted, if the client was welcome when it was denied. */
  lemma NextRequestIsAdmitted(s: State, steps: seq<Step>, c: string, r: nat, next: nat)
    requires Init(s) && c in s.clients && Within(s, steps + [Record(r)], c, 1)
    requires StalelyRefused(PhaseOf(After(s, steps), r), c) && IsWelcome(After(s, steps), c)
    requires forall q :: q in After(s, steps).requests ==> q < next
    ensures var t := After(s, steps + [Record(r)]);
            && c in t.clients
            && PhaseOf(Next(Next(Next(t, Arrival(t, c, next)), Authenticate(next, c)), Allow(next)), next) == Admitted(c)
  {
    RecordedDenialGivesRoom(s, steps, c, r);
    RecordKeepsNumbers(After(s, steps), r);
    FreshRequestIsAdmitted(After(s, steps + [Record(r)]), c, next);
  }

  lemma RecordKeepsNumbers(s: State, r: nat)
    ensures Next(s, Record(r)).requests.Keys == s.requests.Keys
  {
  }

  lemma FreshRequestIsAdmitted(s: State, c: string, next: nat)
    requires Trusted(s, c) && Allowing(s.clients[c], Sign).ok && c != ""
    requires forall q :: q in s.requests ==> q < next
    ensures PhaseOf(Next(Next(Next(s, Arrival(s, c, next)), Authenticate(next, c)), Allow(next)), next) == Admitted(c)
  {
    ArriveNext(s, c, next);
    AuthenticatedIsAdmitted(Next(Next(s, Arrival(s, c, next)), Authenticate(next, c)), c, next);
  }

  lemma AuthenticatedIsAdmitted(s: State, c: string, r: nat)
    requires c in s.clients && Allowing(s.clients[c], Sign).ok && PhaseOf(s, r) == Authenticated(c)
    ensures PhaseOf(Next(s, Allow(r)), r) == Admitted(c)
  {
  }
}
