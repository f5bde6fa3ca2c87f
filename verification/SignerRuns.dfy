/** The signer as a transition system.  A request passes through separate critical sections:
    authenticate, allowed, the signing itself, and record; any number of requests may be anywhere
    between them, and the clock may advance at any point. */
module SignerRuns {
  import opened Options
  import opened Signing

  datatype Phase =
    | Arrived
    | Unauthenticated(id: string)                        // turned away, not yet recorded
    | Authenticated(id: string)
    | Refused(id: string, stale: bool, decided: nat)     // denied by allowed, not yet recorded
    | Admitted(id: string)
    | Signed(id: string)                                 // signature made, not yet recorded
    | Failed(id: string)                                 // no signature, not yet recorded
    | Done

  /** `signedAs` is the client in whose name the request got a signature. */
  datatype Request = Request(token: string, phase: Phase, signedAs: Option<string>)

  datatype Kind = Issued | Denied(stale: bool, decided: nat) | Errored

  /** One call of record: what it was for, when, and whether the audit line says "ok". */
  datatype Event = Event(client: string, kind: Kind, at: nat, audited: bool)

  datatype State = State(setup: Setup, clients: map<string, Client>, revoked: set<string>, now: nat,
                         requests: map<nat, Request>, log: seq<Event>)

  datatype Step =
    | Tick(d: nat)
    | Arrive(r: nat, token: string)
    | Authenticate(r: nat, id: string)
    | Leave(r: nat)                      // a public-key request needs no more than authentication
    | Allow(r: nat)
    | Work(r: nat, ok: bool)
    | Record(r: nat)

  function PhaseOf(s: State, r: nat): Phase {
    if r in s.requests then s.requests[r].phase else Done
  }

  function Put(s: State, r: nat, phase: Phase): State
    requires r in s.requests
  {
    s.(requests := s.requests[r := s.requests[r].(phase := phase)])
  }

  function DoAllow(s: State, r: nat): State
    requires r in s.requests && s.requests[r].phase.Authenticated?
  {
    var id := s.requests[r].phase.id;
    if id !in s.clients then Put(s, r, Admitted(id))
    else
      var c := s.clients[id];
      var o := Allowing(c, Sign);
      var phase := if o.ok then Admitted(id) else Refused(id, c.window != Some(Minute(s.now)), s.now);
      Put(s.(clients := s.clients[id := o.client], revoked := if o.revokes then s.revoked + {id} else s.revoked),
          r, phase)
  }

  /** record for a client id; an id that is not a client's only leaves an audit line. */
  function DoRecord(s: State, id: string, action: Action, kind: Kind): State {
    if id !in s.clients then s.(log := s.log + [Event(id, kind, s.now, kind.Issued?)])
    else
      var o := Recording(s.clients[id], action, kind.Issued?, "", Minute(s.now));
      s.(clients := s.clients[id := o.client],
         revoked := if o.revokes then s.revoked + {id} else s.revoked,
         log := s.log + [Event(id, kind, s.now, o.ok)])
  }

  /** Whom a record step is for, and as what; None when the request has nothing to record. */
  function RecordKind(p: Phase): Option<(string, Action, Kind)> {
    match p
    case Unauthenticated(id) => Some((id, Auth, Errored))
    case Refused(id, stale, decided) => Some((id, Sign, Denied(stale, decided)))
    case Signed(id) => Some((id, Sign, Issued))
    case Failed(id) => Some((id, Sign, Errored))
    case _ => None
  }

  /** A step that is not possible in a state leaves the state as it is, so every sequence of steps is a run. */
  ghost function Next(s: State, step: Step): State {
    match step
    case Tick(d) => s.(now := s.now + d)
    case Arrive(r, token) =>
      if r in s.requests then s else s.(requests := s.requests[r := Request(token, Arrived, None)])
    case Authenticate(r, id) =>
      if PhaseOf(s, r) != Arrived || !Identifies(s.setup, s.clients, s.requests[r].token, id) then s
      else Put(s, r, if Welcome(s.setup, s.clients, s.revoked, id) then Authenticated(id) else Unauthenticated(id))
    case Leave(r) =>
      if PhaseOf(s, r).Authenticated? then Put(s, r, Done) else s
    case Allow(r) =>
      if PhaseOf(s, r).Authenticated? then DoAllow(s, r) else s
    case Work(r, ok) =>
      if !PhaseOf(s, r).Admitted? then s
      else
        var id := PhaseOf(s, r).id;
        if ok then
          Put(s, r, Signed(id)).(requests := s.requests[r := s.requests[r].(phase := Signed(id), signedAs := Some(id))])
        else Put(s, r, Failed(id))
    case Record(r) =>
      match RecordKind(PhaseOf(s, r))
      case Some((id, action, kind)) => DoRecord(Put(s, r, Done), id, action, kind)
      case None => s
  }

  ghost function After(s: State, steps: seq<Step>): State {
    if steps == [] then s else Next(After(s, steps[..|steps| - 1]), steps[|steps| - 1])
  }

  lemma AfterAppend(s: State, steps: seq<Step>, x: Step)
    ensures After(s, steps + [x]) == Next(After(s, steps), x)
  {
    assert (steps + [x])[..|steps|] == steps;
  }

  /** The state right after loading: no request yet, all counters at zero. */
  ghost predicate Init(s: State) {
    && s.requests == map[] && s.log == []
    && forall id :: id in s.clients ==>
         id != "" && s.clients[id].window == None && s.clients[id].signs == 0 && s.clients[id].errors == 0
         && !s.clients[id].autoDisabled
  }

  // ---------------------------------------------------------------- in flight

  predicate Holding(p: Phase, c: string) {
    (p.Admitted? || p.Signed? || p.Failed?) && p.id == c
  }

  /** Admitted requests of client `c` that have not been recorded yet. */
  function InFlight(s: State, c: string): set<nat> {
    set r | r in s.requests && Holding(s.requests[r].phase, c)
  }

  lemma {:induction false} SubsetIsNotLarger(a: set<nat>, b: set<nat>)
    requires a <= b
    ensures |a| <= |b|
  {
    if a != {} {
      var x :| x in a;
      SubsetIsNotLarger(a - {x}, b - {x});
    }
  }

  predicate IsPending(p: Phase, c: string) {
    (p.Refused? || p.Admitted? || p.Signed? || p.Failed?) && p.id == c
  }

  /** Requests of `c` between allowed and record, denied ones included. */
  function Pending(s: State, c: string): set<nat> {
    set r | r in s.requests && IsPending(s.requests[r].phase, c)
  }

  /** What a step does to the pending requests. */
  lemma PendingMoves(s: State, step: Step, c: string)
    ensures var t := Next(s, step);
            match step
            case Allow(r) =>
              Pending(t, c) == if IsPending(PhaseOf(t, r), c) then Pending(s, c) + {r} else Pending(s, c)
            case Record(r) =>
              Pending(t, c) == if RecordKind(PhaseOf(s, r)).Some? then Pending(s, c) - {r} else Pending(s, c)
            case _ => Pending(t, c) == Pending(s, c)
  {
    match step {
      case Allow(r) => AllowPends(s, r, c);
      case Record(r) => RecordUnpends(s, r, c);
      case _ =>
    }
  }

  lemma AllowPends(s: State, r: nat, c: string)
    ensures var t := Next(s, Allow(r));
            Pending(t, c) == if IsPending(PhaseOf(t, r), c) then Pending(s, c) + {r} else Pending(s, c)
  {
  }

  lemma RecordUnpends(s: State, r: nat, c: string)
    ensures Pending(Next(s, Record(r)), c) ==
            if RecordKind(PhaseOf(s, r)).Some? then Pending(s, c) - {r} else Pending(s, c)
  {
  }

  /** At most `k` requests of `c` are pending at any moment of the run. */
  ghost predicate Within(s: State, steps: seq<Step>, c: string, k: nat) {
    forall n :: 0 <= n <= |steps| ==> |Pending(After(s, steps[..n]), c)| <= k
  }

  lemma WithinIsAtMost(s: State, steps: seq<Step>, c: string, k: nat)
    requires Within(s, steps, c, k)
    ensures AtMost(s, steps, c, k)
  {
    forall n | 0 <= n <= |steps|
      ensures |InFlight(After(s, steps[..n]), c)| <= k
    {
      SubsetIsNotLarger(InFlight(After(s, steps[..n]), c), Pending(After(s, steps[..n]), c));
    }
  }

  /** At most `k` requests of `c` are in flight at any moment of the run. */
  ghost predicate AtMost(s: State, steps: seq<Step>, c: string, k: nat) {
    forall n :: 0 <= n <= |steps| ==> |InFlight(After(s, steps[..n]), c)| <= k
  }

  lemma AtMostPrefix(s: State, steps: seq<Step>, c: string, k: nat)
    requires steps != [] && AtMost(s, steps, c, k)
    ensures AtMost(s, steps[..|steps| - 1], c, k)
    ensures |InFlight(After(s, steps[..|steps| - 1]), c)| <= k && |InFlight(After(s, steps), c)| <= k
  {
    var before := steps[..|steps| - 1];
    assert steps[..|steps|] == steps;
    forall n | 0 <= n <= |before|
      ensures |InFlight(After(s, before[..n]), c)| <= k
    {
      assert before[..n] == steps[..n];
    }
  }

  /** What a step does to the requests in flight. */
  lemma InFlightMoves(s: State, step: Step, c: string)
    ensures var t := Next(s, step);
            match step
            case Allow(r) =>
              InFlight(t, c) == if Holding(PhaseOf(t, r), c) then InFlight(s, c) + {r} else InFlight(s, c)
            case Record(r) => InFlight(t, c) == if PhaseOf(s, r).Admitted? then InFlight(s, c) else InFlight(s, c) - {r}
            case _ => InFlight(t, c) == InFlight(s, c)
  {
    hide Recording, Allowing, Identifies, Welcome;
  }

  // ---------------------------------------------------------------- the rate bound

  function Signs(s: State, c: string): nat {
    if c in s.clients then s.clients[c].signs else 0
  }

  /** What a step does to one client: only its own allowed and record calls touch it. */
  function ClientNext(s: State, step: Step, c: string): Client
    requires c in s.clients
  {
    match step
    case Allow(r) =>
      if PhaseOf(s, r) == Authenticated(c) then Allowing(s.clients[c], Sign).client else s.clients[c]
    case Record(r) =>
      (match RecordKind(PhaseOf(s, r))
       case Some((id, action, kind)) =>
         if id == c then Recording(s.clients[c], action, kind.Issued?, "", Minute(s.now)).client else s.clients[c]
       case None => s.clients[c])
    case _ => s.clients[c]
  }

  lemma StepOnClient(s: State, step: Step, c: string)
    requires c in s.clients
    ensures c in Next(s, step).clients && Next(s, step).clients[c] == ClientNext(s, step, c)
  {
    match step {
      case Allow(r) => AllowOnClient(s, r, c);
      case Record(r) => RecordOnClient(s, r, c);
      case _ =>
    }
  }

  lemma AllowOnClient(s: State, r: nat, c: string)
    requires c in s.clients
    ensures c in Next(s, Allow(r)).clients && Next(s, Allow(r)).clients[c] == ClientNext(s, Allow(r), c)
  {
  }

  lemma RecordOnClient(s: State, r: nat, c: string)
    requires c in s.clients
    ensures c in Next(s, Record(r)).clients && Next(s, Record(r)).clients[c] == ClientNext(s, Record(r), c)
  {
  }

  lemma StepOnRest(s: State, step: Step)
    ensures var t := Next(s, step);
            t.setup == s.setup && t.clients.Keys == s.clients.Keys && s.now <= t.now
  {
  }

  lemma ClientNextKeepsConfig(s: State, step: Step, c: string)
    requires c in s.clients
    ensures ClientNext(s, step, c).cfg == s.clients[c].cfg
  {
    AllowingKeepsCounters(s.clients[c], Sign);
    if step.Record? {
      match RecordKind(PhaseOf(s, step.r)) {
        case Some((id, action, kind)) =>
          RecordingCounts(s.clients[c], action, kind.Issued?, "", Minute(s.now));
        case None =>
      }
    }
  }

  lemma ConfigNeverChanges(s: State, step: Step)
    ensures var t := Next(s, step);
            && t.setup == s.setup && t.clients.Keys == s.clients.Keys && s.now <= t.now
            && forall c :: c in s.clients ==> t.clients[c].cfg == s.clients[c].cfg
  {
    StepOnRest(s, step);
    forall c | c in s.clients
      ensures Next(s, step).clients[c].cfg == s.clients[c].cfg
    {
      StepOnClient(s, step, c);
      ClientNextKeepsConfig(s, step, c);
    }
  }

  lemma {:induction false} ConfigIsFixed(s: State, steps: seq<Step>)
    ensures var t := After(s, steps);
            && t.setup == s.setup && t.clients.Keys == s.clients.Keys && s.now <= t.now
            && forall c :: c in s.clients ==> t.clients[c].cfg == s.clients[c].cfg
  {
    if steps != [] {
      ConfigIsFixed(s, steps[..|steps| - 1]);
      ConfigNeverChanges(After(s, steps[..|steps| - 1]), steps[|steps| - 1]);
    }
  }

  /** One step keeps signs + in flight within the bound as long as the step leaves at most k in flight. */
  lemma StepKeepsRateBound(s: State, step: Step, c: string, k: nat)
    requires c in s.clients && Limit(s.clients[c].cfg) > 0
    requires Signs(s, c) + |InFlight(s, c)| <= Limit(s.clients[c].cfg) - 1 + k
    requires |InFlight(s, c)| <= k && |InFlight(Next(s, step), c)| <= k
    ensures Signs(Next(s, step), c) + |InFlight(Next(s, step), c)| <= Limit(s.clients[c].cfg) - 1 + k
  {
    InFlightMoves(s, step, c);
    StepOnClient(s, step, c);
    match step {
      case Allow(r) =>
        AllowingKeepsCounters(s.clients[c], Sign);
        if Holding(PhaseOf(Next(s, step), r), c) && r !in InFlight(s, c) {
          AdmissionNeedsRoom(s, r, c);
        }
      case Record(r) =>
        RecordReleases(s, r, c);
      case _ =>
    }
  }

  lemma AdmissionNeedsRoom(s: State, r: nat, c: string)
    requires c in s.clients && Limit(s.clients[c].cfg) > 0
    requires Holding(PhaseOf(Next(s, Allow(r)), r), c) && r !in InFlight(s, c)
    ensures Signs(s, c) < Limit(s.clients[c].cfg) && PhaseOf(s, r) == Authenticated(c)
  {
    AllowingKeepsCounters(s.clients[c], Sign);
  }

  /** A record that counts a signature takes its request out of flight. */
  lemma RecordReleases(s: State, r: nat, c: string)
    requires c in s.clients
    ensures var t := Next(s, Record(r));
            Signs(t, c) <= Signs(s, c) || (Signs(t, c) <= Signs(s, c) + 1 && |InFlight(t, c)| < |InFlight(s, c)|)
  {
    RecordCountsIssued(s, r, c);
    InFlightMoves(s, Record(r), c);
    if PhaseOf(s, r) == Signed(c) {
      assert r in InFlight(s, c);
      assert |InFlight(s, c) - {r}| == |InFlight(s, c)| - 1;
    }
  }

  lemma RecordCountsIssued(s: State, r: nat, c: string)
    requires c in s.clients
    ensures Signs(Next(s, Record(r)), c) <= Signs(s, c) + if PhaseOf(s, r) == Signed(c) then 1 else 0
  {
    StepOnClient(s, Record(r), c);
    match RecordKind(PhaseOf(s, r)) {
      case Some((id, action, kind)) =>
        RecordingCounts(s.clients[c], action, kind.Issued?, "", Minute(s.now));
      case None =>
    }
  }

  /** The concurrent rate bound: with at most `k` admitted requests of a client in flight at any
      moment, no interleaving brings its counter and its requests in flight together above
      Limit - 1 + k, and so not above ratePerMinute - 1 + k. */
  lemma {:induction false} RateBound(s: State, steps: seq<Step>, c: string, k: nat)
    requires Init(s) && c in s.clients && Limit(s.clients[c].cfg) > 0
    requires AtMost(s, steps, c, k)
    ensures Signs(After(s, steps), c) + |InFlight(After(s, steps), c)| <= Limit(s.clients[c].cfg) - 1 + k
  {
    if steps == [] {
      assert InFlight(s, c) == {};
    } else {
      var before := steps[..|steps| - 1];
      AtMostPrefix(s, steps, c, k);
      RateBound(s, before, c, k);
      ConfigIsFixed(s, before);
      StepKeepsRateBound(After(s, before), steps[|steps| - 1], c, k);
    }
  }

  // ---------------------------------------------------------------- counters and the event log

  /** Questions to the log about one client. */
  datatype Query =
    | IssuedIn(client: string, minute: int)
    | FailedIn(client: string, minute: int)
    | StaleIn(client: string, minute: int)              // denied in that minute because of an older window
    | IssuedBetween(client: string, from: nat, to: nat) // from inclusive, to exclusive

  /** The signatures of the sixty seconds that begin at `t`. */
  function SixtySeconds(client: string, t: nat): Query {
    IssuedBetween(client, t, t + 60_000_000_000)
  }

  predicate Matches(q: Query, e: Event) {
    && e.client == q.client
    && match q
       case IssuedIn(_, m) => e.kind.Issued? && Minute(e.at) == m
       case FailedIn(_, m) => !e.kind.Issued? && Minute(e.at) == m
       case StaleIn(_, m) => e.kind.Denied? && e.kind.stale && Minute(e.kind.decided) == m
       case IssuedBetween(_, from, to) => e.kind.Issued? && from <= e.at < to
  }

  function Count(log: seq<Event>, q: Query): nat {
    if log == [] then 0
    else Count(log[..|log| - 1], q) + if Matches(q, log[|log| - 1]) then 1 else 0
  }

  lemma CountOfAppend(log: seq<Event>, e: Event, q: Query)
    ensures Count(log + [e], q) == Count(log, q) + if Matches(q, e) then 1 else 0
  {
  }

  lemma {:induction false} CountIsZero(log: seq<Event>, q: Query)
    requires forall e :: e in log ==> !Matches(q, e)
    ensures Count(log, q) == 0
  {
    if log != [] {
      CountIsZero(log[..|log| - 1], q);
    }
  }

  /** The event a step logs, if any. */
  function EventOf(s: State, step: Step): Option<Event> {
    if !step.Record? then None
    else
      match RecordKind(PhaseOf(s, step.r))
      case Some((id, action, kind)) =>
        Some(Event(id, kind, s.now,
                   if id in s.clients
                   then Recording(s.clients[id], action, kind.Issued?, "", Minute(s.now)).ok
                   else kind.Issued?))
      case None => None
  }

  lemma StepOnLog(s: State, step: Step)
    ensures Next(s, step).log == match EventOf(s, step) case Some(e) => s.log + [e] case None => s.log
  {
  }

  /** The counters of a client are exactly the log's counts for the minute of its window. */
  ghost predicate CountersMatchLog(s: State, c: string)
    requires c in s.clients
  {
    var client := s.clients[c];
    match client.window
    case None =>
      client.signs == 0 && client.errors == 0 && forall e :: e in s.log ==> e.client != c
    case Some(m) =>
      && m <= Minute(s.now)
      && (forall e :: e in s.log && e.client == c ==> Minute(e.at) <= m)
      && client.signs == Count(s.log, IssuedIn(c, m))
      && client.errors == Count(s.log, FailedIn(c, m))
  }

  lemma MinuteIsMonotone(a: nat, b: nat)
    requires a <= b
    ensures Minute(a) <= Minute(b)
  {
  }

  lemma RecordKeepsCounters(s: State, r: nat, c: string)
    requires c in s.clients && CountersMatchLog(s, c)
    requires RecordKind(PhaseOf(s, r)).Some? && RecordKind(PhaseOf(s, r)).value.0 == c
    requires c in Next(s, Record(r)).clients
    ensures CountersMatchLog(Next(s, Record(r)), c)
    ensures Next(s, Record(r)).clients[c].window == Some(Minute(s.now))
  {
    hide Recording, Allowing, Minute;
    var (_, action, kind) := RecordKind(PhaseOf(s, r)).value;
    var m := Minute(s.now);
    var e := EventOf(s, Record(r)).value;
    StepOnClient(s, Record(r), c);
    StepOnLog(s, Record(r));
    RecordingCounts(s.clients[c], action, kind.Issued?, "", m);
    CountOfAppend(s.log, e, IssuedIn(c, m));
    CountOfAppend(s.log, e, FailedIn(c, m));
    if s.clients[c].window != Some(m) {
      CountIsZero(s.log, IssuedIn(c, m));
      CountIsZero(s.log, FailedIn(c, m));
    }
  }

  lemma StepKeepsCounters(s: State, step: Step, c: string)
    requires c in s.clients && CountersMatchLog(s, c)
    requires c in Next(s, step).clients
    ensures CountersMatchLog(Next(s, step), c)
  {
    hide Recording, Allowing, Minute;
    StepOnClient(s, step, c);
    StepOnLog(s, step);
    StepOnRest(s, step);
    MinuteIsMonotone(s.now, Next(s, step).now);
    AllowingKeepsCounters(s.clients[c], Sign);
    match EventOf(s, step) {
      case Some(e) =>
        if e.client == c {
          RecordKeepsCounters(s, step.r, c);
        } else if s.clients[c].window.Some? {
          CountOfAppend(s.log, e, IssuedIn(c, s.clients[c].window.value));
          CountOfAppend(s.log, e, FailedIn(c, s.clients[c].window.value));
        }
      case None =>
    }
  }

  /** Counter refinement: in every run, at every moment, a client's counters count the issued and
      the failed attempts that the whole log holds for the minute of its window. */
  lemma {:induction false} CountersRefineLog(s: State, steps: seq<Step>, c: string)
    requires Init(s) && c in s.clients
    ensures c in After(s, steps).clients && CountersMatchLog(After(s, steps), c)
  {
    ConfigIsFixed(s, steps);
    if steps != [] {
      var before := steps[..|steps| - 1];
      CountersRefineLog(s, before, c);
      StepKeepsCounters(After(s, before), steps[|steps| - 1], c);
    }
  }

  /** No minute of any run records more than Limit - 1 + k signatures of a client. */
  lemma {:induction false} MinuteBound(s: State, steps: seq<Step>, c: string, k: nat, m: int)
    requires Init(s) && c in s.clients && Limit(s.clients[c].cfg) > 0
    requires AtMost(s, steps, c, k)
    ensures Count(After(s, steps).log, IssuedIn(c, m)) <= Limit(s.clients[c].cfg) - 1 + k
  {
    if steps != [] {
      var before, step := steps[..|steps| - 1], steps[|steps| - 1];
      AtMostPrefix(s, steps, c, k);
      MinuteBound(s, before, c, k, m);
      RateBound(s, steps, c, k);
      CountersRefineLog(s, steps, c);
      CountersRefineLog(s, before, c);
      LogChangesInWindow(After(s, before), step, c, m);
    }
  }

  lemma LogChangesInWindow(s: State, step: Step, c: string, m: int)
    requires c in s.clients && CountersMatchLog(s, c) && c in Next(s, step).clients
    ensures || Count(Next(s, step).log, IssuedIn(c, m)) == Count(s.log, IssuedIn(c, m))
            || (Next(s, step).clients[c].window == Some(m))
  {
    StepOnLog(s, step);
    match EventOf(s, step) {
      case Some(e) =>
        CountOfAppend(s.log, e, IssuedIn(c, m));
        if e.client == c {
          RecordKeepsCounters(s, step.r, c);
        }
      case None =>
    }
  }

  lemma {:induction false} IntervalTouchesTwoMinutes(log: seq<Event>, c: string, t: nat)
    ensures var m := Minute(t);
            Count(log, SixtySeconds(c, t))
            <= Count(log, IssuedIn(c, m)) + Count(log, IssuedIn(c, m + 1))
  {
    if log != [] {
      IntervalTouchesTwoMinutes(log[..|log| - 1], c, t);
      var e := log[|log| - 1];
      if t <= e.at < t + 60_000_000_000 {
        assert Minute(e.at) == Minute(t) || Minute(e.at) == Minute(t) + 1;
      }
    }
  }

  /** Any sixty seconds, aligned to a minute or not, hold at most twice the bound of one minute. */
  lemma SlidingBound(s: State, steps: seq<Step>, c: string, k: nat, t: nat)
    requires Init(s) && c in s.clients && Limit(s.clients[c].cfg) > 0
    requires AtMost(s, steps, c, k)
    ensures Count(After(s, steps).log, SixtySeconds(c, t)) <= 2 * (Limit(s.clients[c].cfg) - 1 + k)
  {
    MinuteBound(s, steps, c, k, Minute(t));
    MinuteBound(s, steps, c, k, Minute(t) + 1);
    IntervalTouchesTwoMinutes(After(s, steps).log, c, t);
  }
}
