/** What outsiders may do on the console's open endpoints without costing an edge its token: what EdgeRuns calls
    honest, and nothing else. */
module OutsideCalls {
  import opened Options
  import opened ConsoleFiles
  import opened Enrollment
  import opened EdgeRuns
  import opened LostEdges

  /** Nobody does anything dishonest but this one call, any number of times. */
  ghost predicate AllHonestBut(steps: seq<Step>, edges: map<string, Edge>, call: Call) {
    forall i :: 0 <= i < |steps| ==> Honest(steps[i], edges) || steps[i] == ConsoleStep(call)
  }

  ghost predicate Harmless(s: State, call: Call) {
    forall steps :: AllHonestBut(steps, s.edges, call) ==> AllSafe(After(s, steps))
  }

  /** A call on one of the open endpoints that gets past the validation. */
  predicate IsOpenCall(call: Call) {
    || call.Deliver? || call.Verify?
    || (call.Register? && ValidClientId(call.id) && ValidInstallToken(call.token))
  }

  lemma HonestRun(steps: seq<Step>, edges: map<string, Edge>, call: Call)
    requires AllHonestBut(steps, edges, call) && Honest(ConsoleStep(call), edges)
    ensures AllHonest(steps, edges)
  {
  }

  // ---------------------------------------------------------------- a registration of a known id

  /** Registering an id that has a client already is refused. */
  predicate IsRefused(s: State, call: Call) {
    call.Register? && HasClient(s.server.disk.clients, call.id)
  }

  lemma RefusedChangesNothing(s: State, call: Call)
    requires IsRefused(s, call)
    ensures Next(s, ConsoleStep(call)) == s
  {
  }

  lemma ClientStays(s: State, step: Step, call: Call)
    requires Kept(s) && IsRefused(s, call)
    ensures IsRefused(Next(s, step), call)
  {
    hide Sound, Registering, Delivering, Verifying, Rejecting, Editing, Delivery, Deployed, AllOwned, Holds;
    match step {
      case ConsoleStep(c) => CallKeepsClient(s, c, call.id);
      case EdgeRegister(id, drawn, now) =>
        if id in s.edges {
          CallKeepsClient(s, Register(id, id, InstallOf(s.edges[id], drawn), now), call.id);
        }
      case EdgePoll(id, now) =>
        if id in s.edges && s.edges[id].phase.Polling? {
          CallKeepsClient(s, Deliver(s.edges[id].phase.install, true, now), call.id);
        }
      case ReportArrives(id, install, now) => CallKeepsClient(s, Verify(install, now), call.id);
      case _ =>
    }
  }

  lemma CallKeepsClient(s: State, call: Call, id: string)
    requires Kept(s) && HasClient(s.server.disk.clients, id)
    ensures HasClient(Handle(s.server, call).disk.clients, id)
  {
    HandleIsSound(s.server, call);
    ClientsStay(s.server.disk.clients, Handle(s.server, call).disk.clients, id);
  }

  /** ... at whatever moment of the run. */
  lemma {:induction false} RefusedIsHarmless(s: State, steps: seq<Step>, call: Call)
    requires Kept(s) && IsRefused(s, call) && AllHonestBut(steps, s.edges, call)
    ensures Kept(After(s, steps)) && IsRefused(After(s, steps), call)
  {
    hide Next, Kept;
    if steps != [] {
      var before, step := steps[..|steps| - 1], steps[|steps| - 1];
      var b := After(s, before);
      RefusedIsHarmless(s, before, call);
      RunKeepsEdges(s, before);
      ClientStays(b, step, call);
      if step == ConsoleStep(call) {
        RefusedChangesNothing(b, call);
      } else {
        StepIsHonest(steps, s.edges, b.edges, call);
        StepKeeps(b, step);
      }
    }
  }

  lemma StepIsHonest(steps: seq<Step>, a: map<string, Edge>, b: map<string, Edge>, call: Call)
    requires steps != [] && AllHonestBut(steps, a, call) && SameEdges(a, b) && steps[|steps| - 1] != ConsoleStep(call)
    ensures Honest(steps[|steps| - 1], b)
  {
    var last := steps[|steps| - 1];
    HonestForSame([last], a, b);
    assert [last][0] == last;
  }

  // ---------------------------------------------------------------- what a dishonest call can do

  /** Somebody registers an edge's id with a token of his own first: that token is approved, and the edge polls in
      vain. */
  lemma ForeignTokenHarms(s: State, call: Call) returns (steps: seq<Step>)
    requires Begin(s) && call.Register? && IsOpenCall(call)
    requires call.id in s.edges && s.edges[call.id].fixed != Some(call.token)
    ensures AllHonestBut(steps, s.edges, call) && !AllSafe(After(s, steps))
  {
    steps := ApproveOutsider(s, call, "token");
    var t := After(s, steps);
    var r := t.server.disk.regs[0];
    assert r in t.server.disk.regs && !Safe(t, r);
  }

  /** A registration, its approval, and nothing else. */
  lemma ApproveOutsider(s: State, call: Call, token: string) returns (steps: seq<Step>)
    requires Start(s.server) && call.Register? && IsOpenCall(call) && token != ""
    requires !HasClient(s.server.disk.clients, call.id)
    ensures AllHonestBut(steps, s.edges, call)
    ensures var t := After(s, steps);
            && t.edges == s.edges && t.server.mid == None
            && HasClient(t.server.disk.clients, call.id) && TokenOf(t.server.disk.clients, call.id) == token
            && |t.server.disk.regs| == 1
            && var r := t.server.disk.regs[0];
               r.id == call.id && r.status == Approved && r.installToken == call.token && r.usedAt == None
    ensures After(s, steps).server.disk.clients ==
            s.server.disk.clients + [Client(call.id, token, false, Limits(20000, 0, 0, false))]
  {
    var x, y, z := ConsoleStep(call), ConsoleStep(Approve(call.id, token, "", 0)), ConsoleStep(Finish);
    HalfApprovedState(s.server, call.id, call.edgeLabel, call.token, call.now, token);
    HandleAppend(s.server, [], call);
    HandleAppend(s.server, [] + [call], Approve(call.id, token, "", 0));
    AfterThree(s, [], x, y, z);
    steps := [] + [x] + [y] + [z];
  }

  /** Somebody registers another id with the token of edge `id` first: the edge's poll finds that registration. */
  lemma ForeignIdHarms(s: State, call: Call, id: string) returns (steps: seq<Step>)
    requires Begin(s) && call.Register? && IsOpenCall(call) && !HasClient(s.server.disk.clients, call.id)
    requires id in s.edges && s.edges[id].fixed == Some(call.token) && call.id != id
    ensures AllHonestBut(steps, s.edges, call) && !AllSafe(After(s, steps))
  {
    hide Next, AllSafe, ValidInstallToken, ValidClientId;
    var before := ApproveOutsider(s, call, "theirs");
    var x, y, z := EdgeRegister(id, "", 0), ConsoleStep(Approve(id, "mine", "", 0)), ConsoleStep(Finish);
    AfterThree(s, before, x, y, z);
    OneMoreClient(s.server.disk.clients, call.id, "theirs", id);
    SecondApproval(After(s, before), id, call.token, call.id);
    steps := before + [x] + [y] + [z];
  }

  lemma OneMoreClient(clients: seq<Client>, other: string, token: string, id: string)
    requires !HasClient(clients, id) && other != id
    ensures !HasClient(clients + [Client(other, token, false, Limits(20000, 0, 0, false))], id)
  {
  }

  lemma SecondApproval(s: State, id: string, install: string, other: string)
    requires ValidClientId(id) && ValidInstallToken(install) && other != id && id in s.edges
    requires s.edges[id].fixed == Some(install) && IsNew(s.edges[id]) && s.server.mid == None
    requires HasClient(s.server.disk.clients, other) && TokenOf(s.server.disk.clients, other) == "theirs"
    requires !HasClient(s.server.disk.clients, id) && |s.server.disk.regs| == 1
    requires var r := s.server.disk.regs[0];
             r.id == other && r.status == Approved && r.installToken == install && r.usedAt == None
    ensures var half := Next(Next(s, EdgeRegister(id, "", 0)), ConsoleStep(Approve(id, "mine", "", 0)));
            !AllSafe(Next(half, ConsoleStep(Finish)))
  {
    hide ValidClientId, ValidInstallToken, AllSafe;
    var d := s.server.disk;
    var regs := d.regs + [NewRegistration(id, id, install, 0)];
    var s1 := Next(s, EdgeRegister(id, "", 0));
    assert First(d.regs, PendingOf(id)) == 1;
    assert s1.server == s.server.(disk := Disk(d.clients, regs));
    assert First(regs, AnyOf(id)) == 1;
    SecondClient(d.clients, id, other);
    var t := Next(Next(s1, ConsoleStep(Approve(id, "mine", "", 0))), ConsoleStep(Finish));
    assert t.server.disk.clients == d.clients + [Client(id, "mine", false, Limits(20000, 0, 0, false))];
    assert First(t.server.disk.regs, ApprovedWith(install)) == 0;
    WrongDelivery(t, id, install, other);
  }

  lemma SecondClient(clients: seq<Client>, id: string, other: string)
    requires HasClient(clients, other) && TokenOf(clients, other) == "theirs" && !HasClient(clients, id)
    ensures var all := clients + [Client(id, "mine", false, Limits(20000, 0, 0, false))];
            && HasClient(all, id) && TokenOf(all, id) == "mine"
            && HasClient(all, other) && TokenOf(all, other) == "theirs"
  {
    var all := clients + [Client(id, "mine", false, Limits(20000, 0, 0, false))];
    NewClientIsFound(clients, id, "mine");
    ClientsStay(clients, all, other);
    FoundClient(all, |clients|);
  }

  /** The token that the edge's poll would get is not its own. */
  lemma WrongDelivery(t: State, id: string, install: string, other: string)
    requires id in t.edges && t.edges[id].fixed == Some(install)
    requires |t.server.disk.regs| == 2 && First(t.server.disk.regs, ApprovedWith(install)) == 0
    requires t.server.disk.regs[0].id == other && t.server.disk.regs[0].usedAt == None
    requires var r := t.server.disk.regs[1]; r.id == id && r.status == Approved && r.usedAt == None
    requires HasClient(t.server.disk.clients, other) && TokenOf(t.server.disk.clients, other) == "theirs"
    requires TokenOf(t.server.disk.clients, id) == "mine"
    ensures !AllSafe(t)
  {
    var r := t.server.disk.regs[1];
    assert r in t.server.disk.regs && !Safe(t, r);
  }

  /** Somebody uses an edge's token up, by the shell form or by a report, before the edge has fetched its own. */
  lemma UseHarms(s: State, call: Call, id: string) returns (steps: seq<Step>)
    requires Begin(s) && id in s.edges
    requires (call.Deliver? && s.edges[id].fixed == Some(call.token) && !call.json)
             || (call.Verify? && s.edges[id].fixed == Some(call.token))
    ensures AllHonestBut(steps, s.edges, call) && !AllSafe(After(s, steps))
  {
    hide ValidClientId, ValidInstallToken, AllSafe, Next;
    var before := ApprovedSteps(id, "", "token");
    BeginIsStarting(s, id);
    ApprovedRun(s, id, "", "token");
    ApprovedStepsAreHonest(id, "", "token", s.edges);
    AfterAppend(s, before, ConsoleStep(call));
    UsedUnsaved(After(s, before), s, id, call);
    steps := before + [ConsoleStep(call)];
  }

  lemma UsedUnsaved(t: State, s: State, id: string, call: Call)
    requires id in s.edges && s.edges[id].file == "" && s.edges[id].fixed.Some?
    requires JustApproved(t, s, id, s.edges[id].fixed.value, "token")
    requires (call.Deliver? && s.edges[id].fixed == Some(call.token) && !call.json)
             || (call.Verify? && s.edges[id].fixed == Some(call.token))
    ensures !AllSafe(Next(t, ConsoleStep(call)))
  {
    var u := Next(t, ConsoleStep(call));
    var r := u.server.disk.regs[0];
    assert r in u.server.disk.regs && r.usedAt.Some? && !Safe(u, r);
  }

  // ---------------------------------------------------------------- exactly what is harmless

  /** From every beginning, whatever edges and clients there are: a call by an outsider is harmless, in every run around
      it, if and only if it does not register an edge's id with another token or an edge's token under another id and
      does not use an edge's token up; or it registers an id that has a client already, which is refused anyway. */
  lemma HarmlessIff(s: State, call: Call)
    requires Begin(s) && IsOpenCall(call)
    ensures Harmless(s, call) <==> Honest(ConsoleStep(call), s.edges) || IsRefused(s, call)
  {
    hide AllSafe, Begin;
    if Honest(ConsoleStep(call), s.edges) {
      forall steps | AllHonestBut(steps, s.edges, call)
        ensures AllSafe(After(s, steps))
      {
        HonestRun(steps, s.edges, call);
        NoTokenIsLost(s, steps);
      }
    } else if IsRefused(s, call) {
      forall steps | AllHonestBut(steps, s.edges, call)
        ensures AllSafe(After(s, steps))
      {
        BeginIsKept(s);
        RefusedIsHarmless(s, steps, call);
        KeptIsAllSafe(After(s, steps));
      }
    } else {
      var steps := DishonestHarms(s, call);
    }
  }

  lemma DishonestHarms(s: State, call: Call) returns (steps: seq<Step>)
    requires Begin(s) && IsOpenCall(call) && !Honest(ConsoleStep(call), s.edges) && !IsRefused(s, call)
    ensures AllHonestBut(steps, s.edges, call) && !AllSafe(After(s, steps))
  {
    hide AllSafe, AllHonestBut;
    if call.Register? {
      var x :| x in s.edges && !(x == call.id <==> s.edges[x].fixed == Some(call.token));
      if x == call.id {
        steps := ForeignTokenHarms(s, call);
      } else {
        steps := ForeignIdHarms(s, call, x);
      }
    } else {
      var x :| x in s.edges && s.edges[x].fixed == Some(call.token);
      steps := UseHarms(s, call, x);
    }
  }
}
