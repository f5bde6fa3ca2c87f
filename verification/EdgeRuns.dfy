/** Enrolling edges together with the console: each edge registers, polls for its signer token, saves it
    to its token file, and reports the install as verified.  Edge and console may crash and restart
    between any two steps, and a report may reach the console at any time after it was sent, or never. */
module EdgeRuns {
  import opened Options
  import opened ConsoleFiles
  import opened Enrollment

  datatype Phase =
    | Off
    | Polling(install: string)
    | Fetched(install: string, token: string)
    | Saved(install: string)
    | Running

  /** `fixed` is the configured install token, None when the edge draws one at each start; `file` is the
      content of the token file, empty when there is none or none is configured.  `reports` are the install tokens that
      the edge has reported and the console has not heard of yet. */
  datatype Edge = Edge(fixed: Option<string>, hasFile: bool, file: string, phase: Phase, reports: set<string>)

  datatype State = State(server: Server, edges: map<string, Edge>)

  datatype Step =
    | ConsoleStep(call: Call)
    | EdgeRegister(id: string, drawn: string, now: nat)
    | EdgePoll(id: string, now: nat)
    | EdgeSave(id: string)
    | EdgeReport(id: string, sent: bool)               // an unsent report only leaves a warning behind
    | ReportArrives(id: string, install: string, now: nat)
    | EdgeCrash(id: string)

  function Moved(s: State, id: string, phase: Phase): State
    requires id in s.edges
  {
    s.(edges := s.edges[id := s.edges[id].(phase := phase)])
  }

  /** The install token an edge uses for this start. */
  function InstallOf(e: Edge, drawn: string): string {
    match e.fixed case Some(t) => t case None => drawn
  }

  function Next(s: State, step: Step): State {
    match step
    case ConsoleStep(call) => s.(server := Handle(s.server, call))
    case EdgeRegister(id, drawn, now) =>
      if id !in s.edges || s.edges[id].phase != Off || s.server.mid.Some? then s
      else if s.edges[id].file != "" then Moved(s, id, Running)          // the token file spares the enrollment
      else
        var install := InstallOf(s.edges[id], drawn);
        var t := s.(server := Handle(s.server, Register(id, id, install, now)));
        if ValidClientId(id) && ValidInstallToken(install) then Moved(t, id, Polling(install)) else t
    case EdgePoll(id, now) =>
      if id !in s.edges || !s.edges[id].phase.Polling? || s.server.mid.Some? then s
      else
        var install := s.edges[id].phase.install;
        var reply := Delivery(s.server.disk, install);
        var t := s.(server := Handle(s.server, Deliver(install, true, now)));
        if reply.code == 200 then Moved(t, id, Fetched(install, reply.token))
        else if reply.code == NOT_FOUND then t
        else Moved(t, id, Off)
    case EdgeSave(id) =>
      if id !in s.edges || !s.edges[id].phase.Fetched? then s
      else
        var e := s.edges[id];
        var file := if e.hasFile then e.phase.token else e.file;
        s.(edges := s.edges[id := e.(file := file, phase := Saved(e.phase.install))])
    case EdgeReport(id, sent) =>
      if id !in s.edges || !s.edges[id].phase.Saved? then s
      else
        var e := s.edges[id];
        var reports := if sent then e.reports + {e.phase.install} else e.reports;
        s.(edges := s.edges[id := e.(reports := reports, phase := Running)])
    case ReportArrives(id, install, now) =>
      if id !in s.edges || install !in s.edges[id].reports || s.server.mid.Some? then s
      else
        var e := s.edges[id];
        State(Handle(s.server, Verify(install, now)), s.edges[id := e.(reports := e.reports - {install})])
    case EdgeCrash(id) => if id in s.edges then Moved(s, id, Off) else s
  }

  function After(s: State, steps: seq<Step>): State {
    if steps == [] then s else Next(After(s, steps[..|steps| - 1]), steps[|steps| - 1])
  }

  /** The id and the install token are both edge `x`'s, or neither is, for every edge. */
  ghost predicate Pairs(edges: map<string, Edge>, id: string, token: string) {
    forall x :: x in edges ==> (x == id <==> edges[x].fixed == Some(token))
  }

  ghost predicate IsFixed(edges: map<string, Edge>, token: string) {
    exists x :: x in edges && edges[x].fixed == Some(token)
  }

  /** What outsiders may do on the open endpoints: register any id that is not an edge's, fetch and report with any token
      that is not an edge's, and even with those what the edges themselves do.  What they may not do is register an
      edge's id with another token or an edge's token under another id, or use an edge's token up. */
  ghost predicate Honest(step: Step, edges: map<string, Edge>) {
    step.ConsoleStep? ==>
      match step.call
      case Register(id, _, token, _) => Pairs(edges, id, token)
      case Deliver(token, json, _) => json || !IsFixed(edges, token)
      case Verify(token, _) => !IsFixed(edges, token)
      case _ => true
  }

  ghost predicate AllHonest(steps: seq<Step>, edges: map<string, Edge>) {
    forall i :: 0 <= i < |steps| ==> Honest(steps[i], edges)
  }

  /** The edges are the same, configured in the same way. */
  ghost predicate SameEdges(a: map<string, Edge>, b: map<string, Edge>) {
    a.Keys == b.Keys && forall id :: id in a ==> a[id].fixed == b[id].fixed && a[id].hasFile == b[id].hasFile
  }

  lemma HonestForSame(steps: seq<Step>, a: map<string, Edge>, b: map<string, Edge>)
    requires AllHonest(steps, a) && SameEdges(a, b)
    ensures AllHonest(steps, b)
  {
    forall i | 0 <= i < |steps|
      ensures Honest(steps[i], b)
    {
      assert Honest(steps[i], a);
      assert forall token :: IsFixed(b, token) ==> IsFixed(a, token);
    }
  }

  lemma StepKeepsEdges(s: State, step: Step)
    ensures SameEdges(s.edges, Next(s, step).edges)
  {
    hide Handle, Delivery;
  }

  lemma {:induction false} RunKeepsEdges(s: State, steps: seq<Step>)
    ensures SameEdges(s.edges, After(s, steps).edges)
  {
    if steps != [] {
      RunKeepsEdges(s, steps[..|steps| - 1]);
      StepKeepsEdges(After(s, steps[..|steps| - 1]), steps[|steps| - 1]);
    }
  }

  /** Every edge has a token file and an install token of its own that stays the same. */
  ghost predicate Deployed(edges: map<string, Edge>) {
    && (forall id :: id in edges ==>
          ValidClientId(id) && edges[id].hasFile && edges[id].fixed.Some? && ValidInstallToken(edges[id].fixed.value))
    && (forall a, b :: a in edges && b in edges && edges[a].fixed == edges[b].fixed ==> a == b)
  }

  predicate IsNew(e: Edge) {
    e.file == "" && e.phase == Off && e.reports == {}
  }

  ghost predicate Begin(s: State) {
    && Start(s.server) && Deployed(s.edges)
    && forall id :: id in s.edges ==>
         IsNew(s.edges[id]) && !HasClient(s.server.disk.clients, id)
  }

  // ---------------------------------------------------------------- the invariant

  /** A registration has an edge's id exactly if it has its install token, and then it is used only when that edge has
      its token on file. */
  ghost predicate Owned(r: Registration, edges: map<string, Edge>) {
    Pairs(edges, r.id, r.installToken) && (r.id in edges && r.usedAt.Some? ==> edges[r.id].file != "")
  }

  ghost predicate AllOwned(regs: seq<Registration>, edges: map<string, Edge>) {
    forall i :: 0 <= i < |regs| ==> Owned(regs[i], edges)
  }

  /** An edge holds the token of its own client wherever it holds one. */
  predicate Holds(e: Edge, id: string, clients: seq<Client>) {
    && (e.file != "" ==> HasClient(clients, id) && e.file == TokenOf(clients, id))
    && (forall install :: install in e.reports ==> e.fixed == Some(install) && e.file != "")
    && match e.phase
       case Polling(install) => e.fixed == Some(install)
       case Fetched(install, token) =>
         e.fixed == Some(install) && HasClient(clients, id) && token == TokenOf(clients, id) && token != ""
       case Saved(install) => e.fixed == Some(install) && e.file != ""
       case _ => true
  }

  ghost predicate Kept(s: State) {
    && Sound(s.server) && Deployed(s.edges)
    && AllOwned(s.server.disk.regs, s.edges)
    && (s.server.mid.Some? ==> AllOwned(s.server.mid.value, s.edges))
    && forall id :: id in s.edges ==> Holds(s.edges[id], id, s.server.disk.clients)
  }

  lemma HoldsLater(e: Edge, id: string, a: seq<Client>, b: seq<Client>)
    requires Holds(e, id, a) && LaterClients(a, b)
    ensures Holds(e, id, b)
  {
  }

  /** A registration with an edge's install token is that edge's own. */
  lemma TokenIsOwn(s: State, id: string, i: nat)
    requires Kept(s) && id in s.edges && i < |s.server.disk.regs|
    requires s.edges[id].fixed == Some(s.server.disk.regs[i].installToken)
    ensures s.server.disk.regs[i].id == id
  {
    assert Owned(s.server.disk.regs[i], s.edges);
  }

  // ---------------------------------------------------------------- every honest call keeps ownership

  lemma OneChangeKeepsOwned(regs: seq<Registration>, edges: map<string, Edge>, i: nat, r: Registration)
    requires AllOwned(regs, edges) && i < |regs| && Owned(r, edges)
    ensures AllOwned(regs[i := r], edges)
  {
  }

  lemma RegisterKeepsOwned(d: Disk, edges: map<string, Edge>, id: string, edgeLabel: string, token: string, now: nat)
    requires AllOwned(d.regs, edges) && Pairs(edges, id, token)
    ensures AllOwned(Registering(d, id, edgeLabel, token, now).regs, edges)
  {
    var i := First(d.regs, PendingOf(id));
    if i < |d.regs| {
      assert Owned(d.regs[i], edges);
      OneChangeKeepsOwned(d.regs, edges, i,
        d.regs[i].(edgeLabel := edgeLabel, requestedAt := now, installToken := token, issuedAt := now));
    } else {
      assert Owned(NewRegistration(id, edgeLabel, token, now), edges);
    }
  }

  lemma DeliverKeepsOwned(d: Disk, edges: map<string, Edge>, token: string, json: bool, now: nat)
    requires AllOwned(d.regs, edges) && (json || !IsFixed(edges, token))
    ensures AllOwned(Delivering(d, token, json, now).regs, edges)
  {
    var i := First(d.regs, ApprovedWith(token));
    if Delivery(d, token).code == 200 {
      assert Owned(d.regs[i], edges);
      OneChangeKeepsOwned(d.regs, edges, i, Delivering(d, token, json, now).regs[i]);
    }
  }

  lemma VerifyKeepsOwned(d: Disk, edges: map<string, Edge>, token: string, now: nat)
    requires AllOwned(d.regs, edges)
    requires forall x :: x in edges && edges[x].fixed == Some(token) ==> edges[x].file != ""
    ensures AllOwned(Verifying(d, token, now).regs, edges)
  {
    var i := First(d.regs, ApprovedWith(token));
    if i < |d.regs| {
      assert Owned(d.regs[i], edges);
      OneChangeKeepsOwned(d.regs, edges, i, Verifying(d, token, now).regs[i]);
    }
  }

  lemma RejectKeepsOwned(d: Disk, edges: map<string, Edge>, id: string, now: nat)
    requires AllOwned(d.regs, edges)
    ensures AllOwned(Rejecting(d, id, now).regs, edges)
  {
    var i := First(d.regs, AnyOf(id));
    if i < |d.regs| {
      assert Owned(d.regs[i], edges);
      OneChangeKeepsOwned(d.regs, edges, i, Rejecting(d, id, now).regs[i]);
    }
  }

  lemma ApproveKeepsOwned(d: Disk, edges: map<string, Edge>, id: string, install: string, now: nat)
    requires AllOwned(d.regs, edges) && First(d.regs, AnyOf(id)) < |d.regs|
    requires d.regs[First(d.regs, AnyOf(id))].installToken != ""
    ensures AllOwned(ApprovedRegs(d, id, install, now), edges)
  {
    var i := First(d.regs, AnyOf(id));
    assert Owned(d.regs[i], edges);
    OneChangeKeepsOwned(d.regs, edges, i, ApprovedRegs(d, id, install, now)[i]);
  }

  lemma CallKeepsOwned(s: State, call: Call)
    requires Kept(s) && Honest(ConsoleStep(call), s.edges)
    ensures var t := Handle(s.server, call);
            AllOwned(t.disk.regs, s.edges) && (t.mid.Some? ==> AllOwned(t.mid.value, s.edges))
  {
    var d := s.server.disk;
    if s.server.mid.None? {
      match call {
        case Register(id, edgeLabel, token, now) => RegisterKeepsOwned(d, s.edges, id, edgeLabel, token, now);
        case Deliver(token, json, now) => DeliverKeepsOwned(d, s.edges, token, json, now);
        case Verify(token, now) => VerifyKeepsOwned(d, s.edges, token, now);
        case Reject(id, now) => RejectKeepsOwned(d, s.edges, id, now);
        case Approve(id, token, install, now) =>
          if Approvable(d, id) {
            assert RegSound(d.regs[First(d.regs, AnyOf(id))], d.clients);
            ApproveKeepsOwned(d, s.edges, id, install, now);
          }
        case _ =>
      }
    }
  }

  lemma ServerKeeps(s: State, call: Call)
    requires Kept(s)
    requires var t := Handle(s.server, call);
             AllOwned(t.disk.regs, s.edges) && (t.mid.Some? ==> AllOwned(t.mid.value, s.edges))
    ensures Kept(s.(server := Handle(s.server, call)))
  {
    HandleIsSound(s.server, call);
    forall id | id in s.edges
      ensures Holds(s.edges[id], id, Handle(s.server, call).disk.clients)
    {
      HoldsLater(s.edges[id], id, s.server.disk.clients, Handle(s.server, call).disk.clients);
    }
  }

  /** Whoever makes the call, if it is an honest one. */
  lemma CallKeeps(s: State, call: Call)
    requires Kept(s) && Honest(ConsoleStep(call), s.edges)
    ensures Kept(s.(server := Handle(s.server, call)))
  {
    CallKeepsOwned(s, call);
    ServerKeeps(s, call);
  }

  /** An edge's own report, whenever it arrives: its token is on file. */
  lemma ReportKeeps(s: State, id: string, now: nat)
    requires Kept(s) && id in s.edges && s.edges[id].file != "" && s.edges[id].fixed.Some?
    ensures Kept(s.(server := Handle(s.server, Verify(s.edges[id].fixed.value, now))))
  {
    var call := Verify(s.edges[id].fixed.value, now);
    VerifyKeepsOwned(s.server.disk, s.edges, call.token, now);
    ServerKeeps(s, call);
  }

  // ---------------------------------------------------------------- every step keeps the invariant

  /** Replacing one edge's state by one with the same configuration and no smaller file. */
  lemma MoveKeeps(s: State, id: string, e: Edge)
    requires Kept(s) && id in s.edges
    requires e.fixed == s.edges[id].fixed && e.hasFile == s.edges[id].hasFile
    requires s.edges[id].file != "" ==> e.file != ""
    requires Holds(e, id, s.server.disk.clients)
    ensures Kept(s.(edges := s.edges[id := e]))
  {
    hide Sound;
    var edges := s.edges[id := e];
    assert Deployed(edges);
    forall r: Registration | Owned(r, s.edges)
      ensures Owned(r, edges)
    {
    }
  }

  lemma RegisterStepKeeps(s: State, id: string, drawn: string, now: nat)
    requires Kept(s)
    ensures Kept(Next(s, EdgeRegister(id, drawn, now)))
  {
    if id in s.edges && s.edges[id].phase == Off && s.server.mid.None? {
      assert Holds(s.edges[id], id, s.server.disk.clients);
      if s.edges[id].file != "" {
        MoveKeeps(s, id, s.edges[id].(phase := Running));
      } else {
        var install := s.edges[id].fixed.value;
        assert Pairs(s.edges, id, install);
        CallKeeps(s, Register(id, id, install, now));
        var t := s.(server := Handle(s.server, Register(id, id, install, now)));
        MoveKeeps(t, id, t.edges[id].(phase := Polling(install)));
      }
    }
  }

  lemma PollKeeps(s: State, id: string, now: nat)
    requires Kept(s)
    ensures Kept(Next(s, EdgePoll(id, now)))
  {
    if id in s.edges && s.edges[id].phase.Polling? && s.server.mid.None? {
      var install := s.edges[id].phase.install;
      assert Holds(s.edges[id], id, s.server.disk.clients);
      var reply := Delivery(s.server.disk, install);
      var t := s.(server := Handle(s.server, Deliver(install, true, now)));
      CallKeeps(s, Deliver(install, true, now));
      assert t.server.disk.clients == s.server.disk.clients;
      if reply.code == 200 {
        TokenIsOwn(s, id, First(s.server.disk.regs, ApprovedWith(install)));
        MoveKeeps(t, id, t.edges[id].(phase := Fetched(install, reply.token)));
      } else if reply.code != NOT_FOUND {
        MoveKeeps(t, id, t.edges[id].(phase := Off));
      }
    }
  }

  lemma ReportStepKeeps(s: State, id: string, sent: bool)
    requires Kept(s)
    ensures Kept(Next(s, EdgeReport(id, sent)))
  {
    if id in s.edges && s.edges[id].phase.Saved? {
      var e := s.edges[id];
      var reports := if sent then e.reports + {e.phase.install} else e.reports;
      assert Holds(e, id, s.server.disk.clients);
      MoveKeeps(s, id, e.(reports := reports, phase := Running));
    }
  }

  lemma ArrivalKeeps(s: State, id: string, install: string, now: nat)
    requires Kept(s)
    ensures Kept(Next(s, ReportArrives(id, install, now)))
  {
    if id in s.edges && install in s.edges[id].reports && s.server.mid.None? {
      assert Holds(s.edges[id], id, s.server.disk.clients);
      ReportKeeps(s, id, now);
      var t, e := s.(server := Handle(s.server, Verify(install, now))), s.edges[id];
      assert Holds(e, id, t.server.disk.clients);
      MoveKeeps(t, id, e.(reports := e.reports - {install}));
    }
  }

  lemma StepKeeps(s: State, step: Step)
    requires Kept(s) && Honest(step, s.edges)
    ensures Kept(Next(s, step))
  {
    match step {
      case ConsoleStep(call) => CallKeeps(s, call);
      case EdgeRegister(id, drawn, now) => RegisterStepKeeps(s, id, drawn, now);
      case EdgePoll(id, now) => PollKeeps(s, id, now);
      case EdgeSave(id) =>
        if id in s.edges && s.edges[id].phase.Fetched? {
          var e := s.edges[id];
          assert Holds(e, id, s.server.disk.clients);
          MoveKeeps(s, id, e.(file := e.phase.token, phase := Saved(e.phase.install)));
        }
      case EdgeReport(id, sent) => ReportStepKeeps(s, id, sent);
      case ReportArrives(id, install, now) => ArrivalKeeps(s, id, install, now);
      case EdgeCrash(id) =>
        if id in s.edges {
          assert Holds(s.edges[id], id, s.server.disk.clients);
          MoveKeeps(s, id, s.edges[id].(phase := Off));
        }
    }
  }

  lemma {:induction false} RunKeeps(s: State, steps: seq<Step>)
    requires Kept(s) && AllHonest(steps, s.edges)
    ensures Kept(After(s, steps))
  {
    if steps != [] {
      var before := steps[..|steps| - 1];
      RunKeeps(s, before);
      RunKeepsEdges(s, before);
      HonestForSame(steps, s.edges, After(s, before).edges);
      StepKeeps(After(s, before), steps[|steps| - 1]);
    }
  }

  lemma BeginIsKept(s: State)
    requires Begin(s)
    ensures Kept(s)
  {
  }

  // ---------------------------------------------------------------- no lost token

  /** The edge of registration `r` either has its signer token on file, or can still fetch it. */
  ghost predicate Safe(s: State, r: Registration) {
    r.id in s.edges ==>
      var token := TokenOf(s.server.disk.clients, r.id);
      && s.edges[r.id].fixed.Some?
      && (r.usedAt.Some? || r.verifiedAt.Some? ==> token != "" && s.edges[r.id].file == token)
      && (r.status == Approved && r.usedAt.None? ==>
            token != "" && Delivery(s.server.disk, s.edges[r.id].fixed.value) == Reply(200, token))
  }

  ghost predicate AllSafe(s: State) {
    forall r :: r in s.server.disk.regs ==> Safe(s, r)
  }

  lemma ApprovedIsFound(s: State, i: nat)
    requires Kept(s) && i < |s.server.disk.regs| && s.server.disk.regs[i].status == Approved
    requires s.server.disk.regs[i].id in s.edges
    ensures var r := s.server.disk.regs[i];
            s.edges[r.id].fixed.Some? && First(s.server.disk.regs, ApprovedWith(s.edges[r.id].fixed.value)) == i
  {
    var regs, r := s.server.disk.regs, s.server.disk.regs[i];
    assert Owned(r, s.edges);
    var f := First(regs, ApprovedWith(r.installToken));
    FoundFirst(regs, ApprovedWith(r.installToken), i);
    TokenIsOwn(s, r.id, f);
  }

  lemma KeptIsSafe(s: State, i: nat)
    requires Kept(s) && i < |s.server.disk.regs|
    ensures Safe(s, s.server.disk.regs[i])
  {
    var r := s.server.disk.regs[i];
    if r.id in s.edges {
      assert Owned(r, s.edges) && RegSound(r, s.server.disk.clients);
      assert Holds(s.edges[r.id], r.id, s.server.disk.clients);
      if r.status == Approved {
        ApprovedIsFound(s, i);
      }
    }
  }

  lemma KeptIsAllSafe(s: State)
    requires Kept(s)
    ensures AllSafe(s)
  {
    forall r | r in s.server.disk.regs
      ensures Safe(s, r)
    {
      var i :| 0 <= i < |s.server.disk.regs| && s.server.disk.regs[i] == r;
      KeptIsSafe(s, i);
    }
  }

  /** No token is lost.  With a token file and an install token of its own for every edge, in every run, whatever
      crashes and restarts at whatever step, and whatever else is registered, approved and fetched beside the edges: a
      used or verified registration of an edge means that its token file holds exactly that client's token,
      and an approved unused one is still handed out to the edge. */
  lemma NoTokenIsLost(s: State, steps: seq<Step>)
    requires Begin(s) && AllHonest(steps, s.edges)
    ensures AllSafe(After(s, steps))
  {
    BeginIsKept(s);
    RunKeeps(s, steps);
    KeptIsAllSafe(After(s, steps));
  }

  /** An edge polls, or holds a token it has not saved yet, only while its token file is empty. */
  ghost predicate AskOnce(s: State) {
    forall id :: id in s.edges && (s.edges[id].phase.Polling? || s.edges[id].phase.Fetched?) ==> s.edges[id].file == ""
  }

  /** Once an edge has its token on file it never asks for it again, and nothing changes the file: in every run, whatever
      anybody does and whatever crashes. */
  lemma {:induction false} TokenStaysOnFile(s: State, steps: seq<Step>, more: seq<Step>, id: string)
    requires Begin(s) && id in s.edges
    ensures AskOnce(After(s, steps))
    ensures var t, u := After(s, steps), After(s, steps + more);
            id in t.edges && id in u.edges && (t.edges[id].file != "" ==> u.edges[id].file == t.edges[id].file)
  {
    RunKeepsEdges(s, steps);
    RunAsksOnce(s, steps);
    if more == [] {
      assert steps + more == steps;
    } else {
      var before := more[..|more| - 1];
      assert (steps + more)[..|steps + more| - 1] == steps + before;
      TokenStaysOnFile(s, steps, before, id);
      RunAsksOnce(s, steps + before);
      StepAsksOnce(After(s, steps + before), more[|more| - 1], id);
    }
  }

  lemma {:induction false} RunAsksOnce(s: State, steps: seq<Step>)
    requires Begin(s)
    ensures AskOnce(After(s, steps))
  {
    if steps != [] {
      RunAsksOnce(s, steps[..|steps| - 1]);
      StepAsksOnce(After(s, steps[..|steps| - 1]), steps[|steps| - 1], "");
    }
  }

  lemma StepAsksOnce(s: State, step: Step, id: string)
    requires AskOnce(s)
    ensures AskOnce(Next(s, step))
    ensures id in s.edges ==>
              id in Next(s, step).edges
              && (s.edges[id].file != "" ==> Next(s, step).edges[id].file == s.edges[id].file)
  {
    hide Handle, Delivery;
  }

  /** How an edge starts: with a token on file it has nothing to ask for; otherwise it registers its own id and install
      token, which are pending then unless the id has a client already, and polls with that very token. */
  lemma StartIs(s: State, id: string, drawn: string, now: nat)
    requires id in s.edges && s.edges[id].phase == Off && s.server.mid == None
    ensures var e, install, t := s.edges[id], InstallOf(s.edges[id], drawn), Next(s, EdgeRegister(id, drawn, now));
            if e.file != "" then t == s.(edges := s.edges[id := e.(phase := Running)])
            else if !ValidClientId(id) || !ValidInstallToken(install) then t == s
            else
              && t.edges == s.edges[id := e.(phase := Polling(install))] && t.server.mid == None
              && (if IsClient(s.server.disk.clients, id) then t.server == s.server
                  else
                    && t.server.disk.clients == s.server.disk.clients
                    && IsPending(t.server.disk.regs, id, id, install, now)
                    && OnlyPendingChanged(s.server.disk.regs, t.server.disk.regs, id))
  {
    hide ValidClientId, ValidInstallToken, IsPending, OnlyPendingChanged, HasClient, IsClient, Registering;
    HasClientIff(s.server.disk.clients, id);
    RegisteredAs(s.server.disk, id, id, InstallOf(s.edges[id], drawn), now);
  }

  /** What a poll brings: the edge waits on while no approved registration has its install token, takes the token of that
      registration's client if it is unused, and gives up if it is used. */
  lemma PollIs(s: State, id: string, now: nat)
    requires Kept(s) && id in s.edges && s.edges[id].phase.Polling? && s.server.mid == None
    ensures var regs, install := s.server.disk.regs, s.edges[id].phase.install;
            var e := Next(s, EdgePoll(id, now)).edges[id];
            && ((forall i: nat :: !IsFirstWith(regs, install, i)) ==> e == s.edges[id])
            && forall i: nat :: IsFirstWith(regs, install, i) ==>
                 if regs[i].usedAt.Some? then e == s.edges[id].(phase := Off)
                 else e == s.edges[id].(phase := Fetched(install, TokenOf(s.server.disk.clients, id)))
  {
    hide Handle, Deployed, AllOwned;
    var regs, install := s.server.disk.regs, s.edges[id].phase.install;
    var i := First(regs, ApprovedWith(install));
    FirstsAre(regs, "", install, i);
    forall j: nat
      ensures IsFirstWith(regs, install, j) <==> j == i < |regs|
    {
      FirstsAre(regs, "", install, j);
    }
    assert Holds(s.edges[id], id, s.server.disk.clients);
    if i < |regs| {
      TokenIsOwn(s, id, i);
      assert RegSound(regs[i], s.server.disk.clients);
    }
  }

  // ---------------------------------------------------------------- recovery

  lemma AfterAppend(s: State, steps: seq<Step>, x: Step)
    ensures After(s, steps + [x]) == Next(After(s, steps), x)
  {
    assert (steps + [x])[..|steps|] == steps;
  }

  lemma AfterThree(s: State, steps: seq<Step>, x: Step, y: Step, z: Step)
    ensures After(s, steps + [x] + [y] + [z]) == Next(Next(Next(After(s, steps), x), y), z)
  {
    AfterAppend(s, steps, x);
    AfterAppend(s, steps + [x], y);
    AfterAppend(s, steps + [x] + [y], z);
  }

  lemma {:induction false} AfterConcat(s: State, a: seq<Step>, b: seq<Step>)
    ensures After(s, a + b) == After(After(s, a), b)
  {
    if b == [] {
      assert a + b == a;
    } else {
      assert (a + b)[..|a + b| - 1] == a + b[..|b| - 1];
      AfterConcat(s, a, b[..|b| - 1]);
    }
  }

  lemma HonestConcat(a: seq<Step>, b: seq<Step>, edges: map<string, Edge>)
    requires AllHonest(a, edges) && AllHonest(b, edges)
    ensures AllHonest(a + b, edges)
  {
  }

  ghost predicate HasApproved(regs: seq<Registration>, id: string) {
    exists i :: 0 <= i < |regs| && regs[i].id == id && regs[i].status == Approved
  }

  /** Restarting the console, and restarting and enrolling the edge `id`. */
  predicate Reenrolls(step: Step, id: string) {
    || step == ConsoleStep(Crash) || step == EdgeCrash(id) || step == EdgePoll(id, 0) || step == EdgeSave(id)
    || (step.EdgeRegister? && step.id == id)
  }

  ghost predicate OnlyReenrolls(steps: seq<Step>, id: string) {
    forall i :: 0 <= i < |steps| ==> Reenrolls(steps[i], id)
  }

  /** The edge's token file holds its client's token. */
  predicate HasToken(s: State, id: string) {
    id in s.edges && s.edges[id].file != "" && s.edges[id].file == TokenOf(s.server.disk.clients, id)
  }

  function RestartSteps(id: string): seq<Step> {
    [ConsoleStep(Crash)] + [EdgeCrash(id)]
  }

  function EnrollSteps(id: string): seq<Step> {
    [EdgeRegister(id, "", 0)] + [EdgePoll(id, 0)] + [EdgeSave(id)]
  }

  lemma OwnStepsAreHonest(id: string, edges: map<string, Edge>)
    ensures OnlyReenrolls(RestartSteps(id), id) && OnlyReenrolls(EnrollSteps(id), id)
    ensures AllHonest(RestartSteps(id), edges) && AllHonest(EnrollSteps(id), edges)
    ensures OnlyReenrolls(RestartSteps(id) + EnrollSteps(id), id)
  {
  }

  /** From wherever the crashes have left things, restarting both sides and enrolling again, and nothing else, ends
      with the token on file, as long as the registration is approved. */
  lemma RestartRecovers(s: State, id: string) returns (steps: seq<Step>)
    requires Kept(s) && id in s.edges && HasApproved(s.server.disk.regs, id)
    ensures OnlyReenrolls(steps, id) && AllHonest(steps, s.edges)
    ensures HasToken(After(s, steps), id)
  {
    hide Next;
    OwnStepsAreHonest(id, s.edges);
    Restarted(s, id);
    RunKeeps(s, RestartSteps(id));
    steps := RestartSteps(id);
    if s.edges[id].file == "" {
      EnrollRun(After(s, RestartSteps(id)), id);
      AfterConcat(s, RestartSteps(id), EnrollSteps(id));
      HonestConcat(RestartSteps(id), EnrollSteps(id), s.edges);
      steps := RestartSteps(id) + EnrollSteps(id);
    } else {
      assert Holds(s.edges[id], id, s.server.disk.clients);
    }
  }

  lemma EnrollRun(s: State, id: string)
    requires Kept(s) && id in s.edges && HasApproved(s.server.disk.regs, id)
    requires s.server.mid == None && s.edges[id].phase == Off && s.edges[id].file == ""
    ensures HasToken(After(s, EnrollSteps(id)), id)
  {
    hide Next, Kept, HasApproved, HasToken;
    EnrollAgain(s, id);
    AfterThree(s, [], EdgeRegister(id, "", 0), EdgePoll(id, 0), EdgeSave(id));
    assert [] + [EdgeRegister(id, "", 0)] + [EdgePoll(id, 0)] + [EdgeSave(id)] == EnrollSteps(id);
  }

  lemma Restarted(s: State, id: string)
    requires id in s.edges
    ensures var t := After(s, RestartSteps(id));
            t.server == s.server.(mid := None) && t.edges == s.edges[id := s.edges[id].(phase := Off)]
  {
    AfterTwo(s, ConsoleStep(Crash), EdgeCrash(id));
    assert Next(s, ConsoleStep(Crash)) == s.(server := s.server.(mid := None));
  }

  lemma AfterTwo(s: State, x: Step, y: Step)
    ensures After(s, [x] + [y]) == Next(Next(s, x), y)
  {
    AfterAppend(s, [], x);
    AfterAppend(s, [x], y);
    assert [] + [x] == [x];
  }

  lemma EnrollAgain(s: State, id: string)
    requires Kept(s) && id in s.edges && HasApproved(s.server.disk.regs, id)
    requires s.server.mid == None && s.edges[id].phase == Off && s.edges[id].file == ""
    ensures HasToken(Next(Next(Next(s, EdgeRegister(id, "", 0)), EdgePoll(id, 0)), EdgeSave(id)), id)
  {
    hide ValidClientId, ValidInstallToken;
    var regs := s.server.disk.regs;
    var i :| 0 <= i < |regs| && regs[i].id == id && regs[i].status == Approved;
    assert RegSound(regs[i], s.server.disk.clients) && Owned(regs[i], s.edges);
    KeptIsSafe(s, i);
  }
}
