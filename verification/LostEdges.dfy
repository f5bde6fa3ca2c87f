/** When an edge is lost: exactly when it can never get its signer token any more, and the runs that lead there. */
module LostEdges {
  import opened Options
  import opened ConsoleFiles
  import opened Enrollment
  import opened EdgeRuns

  /** The edge has nothing, and the console has nothing more to give it. */
  ghost predicate LeftOut(s: State, id: string) {
    && id in s.edges && s.edges[id].file == "" && !s.edges[id].phase.Fetched? && !s.edges[id].phase.Saved?
    && (Stranded(s.server, id) || (s.server.mid.Some? && StrandedBy(s.server, id)))
  }

  lemma PollKeepsLeftOut(s: State, other: string, now: nat, id: string)
    requires Kept(s) && LeftOut(s, id)
    ensures LeftOut(Next(s, EdgePoll(other, now)), id)
  {
    if other in s.edges && s.edges[other].phase.Polling? && s.server.mid.None? {
      var install := s.edges[other].phase.install;
      HandleKeepsStranded(s.server, Deliver(install, true, now), id);
      assert Holds(s.edges[other], other, s.server.disk.clients);
      if Delivery(s.server.disk, install).code == 200 {
        TokenIsOwn(s, other, First(s.server.disk.regs, ApprovedWith(install)));
        assert other != id;
      }
    }
  }

  lemma SameEdgeStaysLeftOut(s: State, server: Server, id: string)
    requires LeftOut(s, id) && (Stranded(server, id) || (server.mid.Some? && StrandedBy(server, id)))
    ensures LeftOut(s.(server := server), id)
  {
  }

  lemma StepKeepsLeftOut(s: State, step: Step, id: string)
    requires Kept(s) && LeftOut(s, id)
    ensures LeftOut(Next(s, step), id)
  {
    hide Stranded, StrandedBy, Handle, Delivery, Holds;
    match step {
      case ConsoleStep(call) => HandleKeepsStranded(s.server, call, id);
      case EdgeRegister(other, drawn, now) =>
        if other in s.edges {
          var call := Register(other, other, InstallOf(s.edges[other], drawn), now);
          HandleKeepsStranded(s.server, call, id);
          SameEdgeStaysLeftOut(s, Handle(s.server, call), id);
        }
      case EdgePoll(other, now) =>
        PollKeepsLeftOut(s, other, now, id);
      case EdgeSave(other) =>
      case EdgeReport(other, sent) =>
      case ReportArrives(other, install, now) =>
        HandleKeepsStranded(s.server, Verify(install, now), id);
        SameEdgeStaysLeftOut(s, Handle(s.server, Verify(install, now)), id);
      case EdgeCrash(other) =>
    }
  }

  lemma {:induction false} LeftOutForever(s: State, steps: seq<Step>, id: string)
    requires Kept(s) && AllHonest(steps, s.edges) && LeftOut(s, id)
    ensures LeftOut(After(s, steps), id)
  {
    if steps != [] {
      var before := steps[..|steps| - 1];
      LeftOutForever(s, before, id);
      RunKeeps(s, before);
      StepKeepsLeftOut(After(s, before), steps[|steps| - 1], id);
    }
  }

  ghost predicate CanObtain(s: State, id: string) {
    exists steps :: AllHonest(steps, s.edges) && HasToken(After(s, steps), id)
  }

  /** Steps of one's own first, and then whatever leads to the token from there. */
  lemma ObtainsAfter(s: State, first: seq<Step>, rest: seq<Step>, id: string)
    requires AllHonest(first, s.edges) && AllHonest(rest, s.edges)
    requires HasToken(After(After(s, first), rest), id)
    ensures CanObtain(s, id)
  {
    AfterConcat(s, first, rest);
    HonestConcat(first, rest, s.edges);
    assert HasToken(After(s, first + rest), id);
  }

  lemma RecoverAfter(s: State, first: seq<Step>, id: string)
    requires Kept(s) && id in s.edges && AllHonest(first, s.edges)
    requires HasApproved(After(s, first).server.disk.regs, id)
    ensures CanObtain(s, id)
  {
    RunKeeps(s, first);
    RunKeepsEdges(s, first);
    var more := RestartRecovers(After(s, first), id);
    HonestForSame(more, After(s, first).edges, s.edges);
    ObtainsAfter(s, first, more, id);
  }

  /** A newcomer: register, be approved. */
  lemma NewcomerIsApproved(s: State, id: string) returns (steps: seq<Step>)
    requires Kept(s) && id in s.edges && s.edges[id].file == "" && !HasClient(s.server.disk.clients, id)
    ensures AllHonest(steps, s.edges) && HasApproved(After(s, steps).server.disk.regs, id)
  {
    OwnStepsAreHonest(id, s.edges);
    Restarted(s, id);
    RunKeeps(s, RestartSteps(id));
    var more := NewcomerRun(After(s, RestartSteps(id)), id);
    AfterConcat(s, RestartSteps(id), more);
    HonestConcat(RestartSteps(id), more, s.edges);
    steps := RestartSteps(id) + more;
  }

  lemma NewcomerRun(s: State, id: string) returns (steps: seq<Step>)
    requires Kept(s) && id in s.edges && s.edges[id].file == "" && s.edges[id].phase == Off && s.server.mid == None
    requires !HasClient(s.server.disk.clients, id)
    ensures forall edges :: AllHonest(steps, edges)
    ensures HasApproved(After(s, steps).server.disk.regs, id)
  {
    hide Next, Kept;
    var x, y, z := EdgeRegister(id, "", 0), ConsoleStep(Approve(id, "token", "", 0)), ConsoleStep(Finish);
    ApproveNewcomer(s, id);
    AfterThree(s, [], x, y, z);
    steps := [] + [x] + [y] + [z];
  }

  lemma ApproveNewcomer(s: State, id: string)
    requires Kept(s) && id in s.edges && s.edges[id].file == "" && s.edges[id].phase == Off && s.server.mid == None
    requires !HasClient(s.server.disk.clients, id)
    ensures var half := Next(Next(s, EdgeRegister(id, "", 0)), ConsoleStep(Approve(id, "token", "", 0)));
            HasApproved(Next(half, ConsoleStep(Finish)).server.disk.regs, id)
  {
    var install := s.edges[id].fixed.value;
    var t := Next(s, EdgeRegister(id, "", 0));
    assert t.server == s.server.(disk := Registering(s.server.disk, id, id, install, 0));
    RegisteredIsFound(s.server.disk, id, install);
    ApproveAndFinish(t.server, id);
  }

  lemma RegisteredIsFound(d: Disk, id: string, install: string)
    requires !HasClient(d.clients, id)
    ensures var e := Registering(d, id, id, install, 0);
            First(e.regs, AnyOf(id)) < |e.regs| && e.clients == d.clients
  {
    var e, i := Registering(d, id, id, install, 0), First(d.regs, PendingOf(id));
    assert e.regs[i].id == id;
    FoundFirst(e.regs, AnyOf(id), i);
  }

  lemma ApproveAndFinish(s: Server, id: string)
    requires s.mid == None && First(s.disk.regs, AnyOf(id)) < |s.disk.regs| && !HasClient(s.disk.clients, id)
    ensures HasApproved(Handle(Handle(s, Approve(id, "token", "", 0)), Finish).disk.regs, id)
  {
    var i, regs := First(s.disk.regs, AnyOf(id)), ApprovedRegs(s.disk, id, "", 0);
    assert Handle(Handle(s, Approve(id, "token", "", 0)), Finish).disk.regs == regs;
    assert regs[i].id == id && regs[i].status == Approved;
  }

  lemma NotLeftOutObtains(s: State, id: string)
    requires Kept(s) && id in s.edges && !LeftOut(s, id)
    ensures CanObtain(s, id)
  {
    assert Holds(s.edges[id], id, s.server.disk.clients);
    if s.edges[id].file != "" {
      assert HasToken(After(s, []), id);
    } else if s.edges[id].phase.Fetched? {
      AfterAppend(s, [], EdgeSave(id));
      assert HasToken(After(s, [] + [EdgeSave(id)]), id);
    } else if !HasClient(s.server.disk.clients, id) {
      var steps := NewcomerIsApproved(s, id);
      RecoverAfter(s, steps, id);
    } else if HasApproved(s.server.disk.regs, id) {
      RecoverAfter(s, [], id);
    } else {
      AfterAppend(s, [], ConsoleStep(Finish));
      RecoverAfter(s, [] + [ConsoleStep(Finish)], id);
    }
  }

  /** Exactly when an edge is lost: at any moment of any run, an edge has or can still get its token unless it
      holds nothing, its client exists already, and no approved registration of its id is on disk or about to be
      written.  In the latter case nothing anybody does ever gives it its token. */
  lemma ObtainableIff(s: State, steps: seq<Step>, id: string)
    requires Begin(s) && AllHonest(steps, s.edges) && id in s.edges
    ensures CanObtain(After(s, steps), id) <==> !LeftOut(After(s, steps), id)
  {
    BeginIsKept(s);
    RunKeeps(s, steps);
    RunKeepsEdges(s, steps);
    var t := After(s, steps);
    if LeftOut(t, id) {
      forall more | AllHonest(more, t.edges)
        ensures !HasToken(After(t, more), id)
      {
        LeftOutForever(t, more, id);
      }
    } else {
      NotLeftOutObtains(t, id);
    }
  }

  // ---------------------------------------------------------------- an edge that registers and is approved

  /** A console without registrations, and an edge that is about to enroll. */
  ghost predicate Starting(s: State, id: string, drawn: string) {
    && Start(s.server) && id in s.edges && IsNew(s.edges[id]) && !HasClient(s.server.disk.clients, id)
    && ValidClientId(id) && ValidInstallToken(InstallOf(s.edges[id], drawn))
  }

  lemma BeginIsStarting(s: State, id: string)
    requires Begin(s) && id in s.edges
    ensures Starting(s, id, "") && s.edges[id].fixed == Some(InstallOf(s.edges[id], ""))
  {
  }

  /** The edge of state `s` has registered and been approved, and is waiting for its next poll. */
  ghost predicate JustApproved(t: State, s: State, id: string, install: string, token: string) {
    && id in s.edges && t.edges == s.edges[id := s.edges[id].(phase := Polling(install))]
    && t.server.mid == None && |t.server.disk.regs| == 1
    && HasClient(t.server.disk.clients, id) && TokenOf(t.server.disk.clients, id) == token
    && var r := t.server.disk.regs[0];
       r.id == id && r.status == Approved && r.installToken == install && r.usedAt == None
  }

  /** An edge registers, and the console writes the client of its approval. */
  function HalfApprovedSteps(id: string, drawn: string, token: string): seq<Step> {
    [] + [EdgeRegister(id, drawn, 0)] + [ConsoleStep(Approve(id, token, "", 0))]
  }

  function ApprovedSteps(id: string, drawn: string, token: string): seq<Step> {
    HalfApprovedSteps(id, drawn, token) + [ConsoleStep(Finish)]
  }

  lemma ApprovedStepsAreHonest(id: string, drawn: string, token: string, edges: map<string, Edge>)
    ensures AllHonest(HalfApprovedSteps(id, drawn, token), edges) && AllHonest(ApprovedSteps(id, drawn, token), edges)
  {
  }

  lemma HalfApprovedRun(s: State, id: string, drawn: string, token: string)
    requires Starting(s, id, drawn) && token != ""
    ensures var t, install := After(s, HalfApprovedSteps(id, drawn, token)), InstallOf(s.edges[id], drawn);
            && t.edges == s.edges[id := s.edges[id].(phase := Polling(install))]
            && t.server == HandleAll(s.server, HalfApproved(id, id, install, 0, token))
  {
    hide Next, Handle, InstallOf;
    var install := InstallOf(s.edges[id], drawn);
    FirstRegistration(s, id, drawn);
    HandleAppend(s.server, [], Register(id, id, install, 0));
    HandleAppend(s.server, [] + [Register(id, id, install, 0)], Approve(id, token, "", 0));
    AfterAppend(s, [], EdgeRegister(id, drawn, 0));
    AfterAppend(s, [] + [EdgeRegister(id, drawn, 0)], ConsoleStep(Approve(id, token, "", 0)));
    ConsoleStepHandles(After(s, [] + [EdgeRegister(id, drawn, 0)]), Approve(id, token, "", 0));
  }

  lemma FirstRegistration(s: State, id: string, drawn: string)
    requires Starting(s, id, drawn)
    ensures var t, install := Next(s, EdgeRegister(id, drawn, 0)), InstallOf(s.edges[id], drawn);
            && t.edges == s.edges[id := s.edges[id].(phase := Polling(install))]
            && t.server == Handle(s.server, Register(id, id, install, 0))
  {
    hide Handle, ValidClientId, ValidInstallToken;
  }

  lemma ConsoleStepHandles(s: State, call: Call)
    ensures Next(s, ConsoleStep(call)) == s.(server := Handle(s.server, call))
  {
    hide Handle;
  }

  lemma ApprovedRun(s: State, id: string, drawn: string, token: string)
    requires Starting(s, id, drawn) && token != ""
    ensures JustApproved(After(s, ApprovedSteps(id, drawn, token)), s, id, InstallOf(s.edges[id], drawn), token)
  {
    hide Next, Handle;
    var half, install := HalfApprovedSteps(id, drawn, token), InstallOf(s.edges[id], drawn);
    HalfApprovedRun(s, id, drawn, token);
    HalfApprovedState(s.server, id, id, install, 0, token);
    AfterAppend(s, half, ConsoleStep(Finish));
    FinishApproves(After(s, half), s, id, install, token);
  }

  lemma FinishApproves(t: State, s: State, id: string, install: string, token: string)
    requires id in s.edges && t.edges == s.edges[id := s.edges[id].(phase := Polling(install))]
    requires HasClient(t.server.disk.clients, id) && TokenOf(t.server.disk.clients, id) == token
    requires t.server.mid.Some? && |t.server.mid.value| == 1
    requires var r := t.server.mid.value[0];
             r.id == id && r.status == Approved && r.installToken == install && r.usedAt == None
    ensures JustApproved(Next(t, ConsoleStep(Finish)), s, id, install, token)
  {
  }

  // ---------------------------------------------------------------- how an edge is lost

  /** From every beginning, the console dies between the two writes of an edge's approval. */
  lemma DeadApprovalLosesEdge(s: State, id: string, token: string) returns (steps: seq<Step>)
    requires Begin(s) && id in s.edges && token != ""
    ensures AllHonest(steps, s.edges)
    ensures var t := After(s, steps); LeftOut(t, id) && !CanObtain(t, id)
  {
    hide Next, Handle, CanObtain;
    var half, install := HalfApprovedSteps(id, "", token), InstallOf(s.edges[id], "");
    BeginIsStarting(s, id);
    HalfApprovedRun(s, id, "", token);
    DeadApprovalStrands(s.server, id, id, install, token);
    HandleAppend(s.server, HalfApproved(id, id, install, 0, token), Crash);
    AfterAppend(s, half, ConsoleStep(Crash));
    ConsoleStepHandles(After(s, half), Crash);
    ApprovedStepsAreHonest(id, "", token, s.edges);
    steps := half + [ConsoleStep(Crash)];
    ObtainableIff(s, steps, id);
  }

  /** ... or the administrator approves and then rejects, before the edge has fetched its token. */
  lemma LateRejectionLosesEdge(s: State, id: string, token: string) returns (steps: seq<Step>)
    requires Begin(s) && id in s.edges && token != ""
    ensures AllHonest(steps, s.edges)
    ensures var t := After(s, steps); LeftOut(t, id) && !CanObtain(t, id)
  {
    hide Next, Handle, CanObtain;
    BeginIsStarting(s, id);
    ApprovedRun(s, id, "", token);
    RejectStrands(After(s, ApprovedSteps(id, "", token)), s, id, InstallOf(s.edges[id], ""), token);
    AfterAppend(s, ApprovedSteps(id, "", token), ConsoleStep(Reject(id, 0)));
    ApprovedStepsAreHonest(id, "", token, s.edges);
    steps := ApprovedSteps(id, "", token) + [ConsoleStep(Reject(id, 0))];
    ObtainableIff(s, steps, id);
  }

  lemma RejectStrands(t: State, s: State, id: string, install: string, token: string)
    requires JustApproved(t, s, id, install, token) && s.edges[id].file == ""
    ensures LeftOut(Next(t, ConsoleStep(Reject(id, 0))), id)
  {
    assert First(t.server.disk.regs, AnyOf(id)) == 0;
  }

  // ---------------------------------------------------------------- the deployment matters

  function FetchSteps(id: string, install: string): seq<Step> {
    [] + [EdgePoll(id, 0)] + [EdgeSave(id)] + [EdgeReport(id, true)] + [ReportArrives(id, install, 0)]
  }

  lemma FetchStepsAreHonest(id: string, install: string, edges: map<string, Edge>)
    ensures AllHonest(FetchSteps(id, install), edges)
  {
  }

  /** A poll and a save without a token file: the token is gone when the edge stops. */
  lemma FetchAndDrop(t: State, s: State, id: string, install: string, token: string)
    requires JustApproved(t, s, id, install, token) && token != "" && !s.edges[id].hasFile && s.edges[id].file == ""
    ensures var u := Next(Next(t, EdgePoll(id, 0)), EdgeSave(id));
            && id in u.edges && u.edges[id].file == "" && u.edges[id].phase == Saved(install)
            && u.server.mid == None && |u.server.disk.regs| == 1
            && u.server.disk.regs[0].status == Approved && u.server.disk.regs[0].installToken == install
  {
    hide ValidClientId, ValidInstallToken, Rejecting, Registering, Editing, Verifying;
    assert Delivery(t.server.disk, install) == Reply(200, token);
  }

  /** A report that is sent and arrives. */
  lemma ReportAnyway(u: State, id: string, install: string)
    requires id in u.edges && u.edges[id].file == "" && u.edges[id].phase == Saved(install)
    requires u.server.mid == None && |u.server.disk.regs| == 1
    requires u.server.disk.regs[0].status == Approved && u.server.disk.regs[0].installToken == install
    ensures var v := Next(Next(u, EdgeReport(id, true)), ReportArrives(id, install, 0));
            && id in v.edges && v.edges[id].file == ""
            && |v.server.disk.regs| == 1 && v.server.disk.regs[0].verifiedAt.Some?
            && Delivery(v.server.disk, install) == Reply(GONE, "")
  {
    hide ValidClientId, ValidInstallToken, Rejecting, Registering, Editing, Delivering;
    assert First(u.server.disk.regs, ApprovedWith(install)) == 0;
  }

  lemma FetchSaveReport(t: State, s: State, id: string, install: string, token: string)
    requires JustApproved(t, s, id, install, token) && token != "" && !s.edges[id].hasFile && s.edges[id].file == ""
    ensures var u := After(t, FetchSteps(id, install));
            && id in u.edges && u.edges[id].file == ""
            && |u.server.disk.regs| == 1 && u.server.disk.regs[0].verifiedAt.Some?
            && Delivery(u.server.disk, install) == Reply(GONE, "")
  {
    hide Next, Delivery;
    FetchAndDrop(t, s, id, install, token);
    AfterThree(t, [], EdgePoll(id, 0), EdgeSave(id), EdgeReport(id, true));
    AfterAppend(t, [] + [EdgePoll(id, 0)] + [EdgeSave(id)] + [EdgeReport(id, true)], ReportArrives(id, install, 0));
    ReportAnyway(Next(Next(t, EdgePoll(id, 0)), EdgeSave(id)), id, install);
  }

  /** Without a token file the install is reported as verified although nothing was saved, and after a crash
      the console refuses to hand the token out again. */
  lemma NoTokenFileLosesToken(s: State, id: string, token: string) returns (steps: seq<Step>)
    requires Starting(s, id, "") && s.edges[id].fixed.Some? && !s.edges[id].hasFile && token != ""
    ensures AllHonest(steps, s.edges)
    ensures var t := After(s, steps);
            && id in t.edges && t.edges[id].phase == Off && t.edges[id].file == ""
            && |t.server.disk.regs| == 1 && t.server.disk.regs[0].verifiedAt.Some?
            && Delivery(t.server.disk, s.edges[id].fixed.value) == Reply(GONE, "")
  {
    var install, before := s.edges[id].fixed.value, ApprovedSteps(id, "", token);
    ApprovedRun(s, id, "", token);
    FetchSaveReport(After(s, before), s, id, install, token);
    AfterConcat(s, before, FetchSteps(id, install));
    AfterAppend(s, before + FetchSteps(id, install), EdgeCrash(id));
    ApprovedStepsAreHonest(id, "", token, s.edges);
    FetchStepsAreHonest(id, install, s.edges);
    HonestConcat(before, FetchSteps(id, install), s.edges);
    steps := before + FetchSteps(id, install) + [EdgeCrash(id)];
  }

  lemma RestartWithOtherToken(t: State, s: State, id: string, install: string, other: string, token: string)
    requires JustApproved(t, s, id, install, token) && s.edges[id].fixed == None && s.edges[id].file == ""
    requires ValidClientId(id) && ValidInstallToken(other) && other != install
    ensures var u := Next(Next(t, EdgeCrash(id)), EdgeRegister(id, other, 0));
            && id in u.edges && u.edges[id].phase == Polling(other) && u.edges[id].file == ""
            && u.server == t.server && Delivery(u.server.disk, other) == Reply(NOT_FOUND, "")
  {
  }

  /** An edge that draws a new install token at each start loses its signer token if it restarts after the approval:
      the new token matches no registration, and registering it is refused. */
  lemma DrawnInstallTokenLosesToken(s: State, id: string, install: string, other: string, token: string)
      returns (steps: seq<Step>)
    requires Starting(s, id, install) && s.edges[id].fixed == None
    requires ValidInstallToken(other) && install != other && token != ""
    ensures AllHonest(steps, s.edges)
    ensures var t := After(s, steps);
            && id in t.edges && t.edges[id].phase == Polling(other) && t.edges[id].file == ""
            && |t.server.disk.regs| == 1
            && t.server.disk.regs[0].status == Approved && t.server.disk.regs[0].usedAt == None
            && Delivery(t.server.disk, other) == Reply(NOT_FOUND, "")
  {
    var before := ApprovedSteps(id, install, token);
    ApprovedRun(s, id, install, token);
    RestartWithOtherToken(After(s, before), s, id, install, other, token);
    AfterAppend(s, before, EdgeCrash(id));
    AfterAppend(s, before + [EdgeCrash(id)], EdgeRegister(id, other, 0));
    ApprovedStepsAreHonest(id, install, token, s.edges);
    steps := before + [EdgeCrash(id)] + [EdgeRegister(id, other, 0)];
  }
}
