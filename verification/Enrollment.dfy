/** Runs of the console.  Anyone may call any handler with anything, an administrator approves and
    rejects, and the process may die or fail to write between the two writes of an approval. */
module Enrollment {
  import opened Options
  import opened ConsoleFiles

  /** A signer token handed out: for which registration, and in which form. */
  datatype Handout = Handout(reg: nat, json: bool)

  /** `mid` holds the registrations an approval is about to write after it has written the clients. */
  datatype Server = Server(disk: Disk, mid: Option<seq<Registration>>, approvals: seq<string>,
                           handouts: seq<Handout>)

  datatype Call =
    | Nothing
    | Register(id: string, edgeLabel: string, token: string, now: nat)
    | Deliver(token: string, json: bool, now: nat)
    | Verify(token: string, now: nat)
    | Reject(id: string, now: nat)
    | Edit(id: string, edit: ClientEdit)
    | Approve(id: string, token: string, install: string, now: nat)   // up to the write of the clients
    | Finish                                                           // the write of the registrations
    | Crash                                                            // ... or its failure

  function Handle(s: Server, call: Call): Server {
    match call
    case Nothing => s
    case Crash => s.(mid := None)
    case Finish => if s.mid.Some? then s.(disk := s.disk.(regs := s.mid.value), mid := None) else s
    case _ => if s.mid.Some? then s else HandleIdle(s, call)
  }

  /** Handlers run one at a time: only while no approval is between its writes. */
  function HandleIdle(s: Server, call: Call): Server
    requires s.mid.None?
  {
    match call
    case Register(id, edgeLabel, token, now) =>
      if ValidClientId(id) && ValidInstallToken(token)
      then s.(disk := Registering(s.disk, id, edgeLabel, token, now)) else s
    case Deliver(token, json, now) =>
      if Delivery(s.disk, token).code == 200
      then s.(disk := Delivering(s.disk, token, json, now),
              handouts := s.handouts + [Handout(First(s.disk.regs, ApprovedWith(token)), json)])
      else s
    case Verify(token, now) => s.(disk := Verifying(s.disk, token, now))
    case Reject(id, now) => s.(disk := Rejecting(s.disk, id, now))
    case Edit(id, edit) =>
      if EditAccepted(s.disk.clients, id, edit)
      then s.(disk := s.disk.(clients := Editing(s.disk.clients, id, edit))) else s
    case Approve(id, token, install, now) =>
      if Approvable(s.disk, id) && token != "" then
        Server(s.disk.(clients := ApprovedClients(s.disk, id, token)), Some(ApprovedRegs(s.disk, id, install, now)),
               s.approvals + [id], s.handouts)
      else s
    case _ => s
  }

  function HandleAll(s: Server, calls: seq<Call>): Server {
    if calls == [] then s else Handle(HandleAll(s, calls[..|calls| - 1]), calls[|calls| - 1])
  }

  // ---------------------------------------------------------------- the invariant

  ghost predicate ClientsSound(clients: seq<Client>) {
    && (forall i, j :: 0 <= i < j < |clients| ==> clients[i].id != clients[j].id)
    && (forall i :: 0 <= i < |clients| ==> clients[i].token != "")
  }

  ghost predicate RegsSound(regs: seq<Registration>, clients: seq<Client>) {
    && (forall i, j :: 0 <= i < j < |regs| && regs[i].id == regs[j].id ==>
          (regs[i].status == Pending ==> regs[j].status != Pending) &&
          (regs[i].status == Approved ==> regs[j].status != Approved))
    && (forall i :: 0 <= i < |regs| ==> RegSound(regs[i], clients))
  }

  predicate RegSound(r: Registration, clients: seq<Client>) {
    && r.installToken != ""
    && (r.status == Approved || r.usedAt.Some? ==> HasClient(clients, r.id))
    && (r.verifiedAt.Some? ==> r.usedAt.Some?)
  }

  /** What later registration files keep of earlier ones. */
  ghost predicate Later(a: seq<Registration>, b: seq<Registration>) {
    && |a| <= |b|
    && forall i :: 0 <= i < |a| ==> LaterReg(a[i], b[i])
  }

  predicate LaterReg(a: Registration, b: Registration) {
    && a.id == b.id
    && (a.usedAt.Some? ==> b.usedAt.Some?)
    && (a.verifiedAt.Some? ==> b.verifiedAt.Some?)
    && (a.status != Pending ==> b.status != Pending && a.installToken == b.installToken)
  }

  ghost predicate LaterClients(a: seq<Client>, b: seq<Client>) {
    |a| <= |b| && forall i :: 0 <= i < |a| ==> a[i].id == b[i].id && a[i].token == b[i].token
  }

  ghost predicate LogsSound(s: Server) {
    && (forall i, j :: 0 <= i < j < |s.approvals| ==> s.approvals[i] != s.approvals[j])
    && (forall i :: 0 <= i < |s.approvals| ==> HasClient(s.disk.clients, s.approvals[i]))
    && (forall i :: 0 <= i < |s.handouts| ==> s.handouts[i].reg < |s.disk.regs|)
    && (forall i :: 0 <= i < |s.handouts| && !s.handouts[i].json ==> s.disk.regs[s.handouts[i].reg].usedAt.Some?)
    && (forall i, j :: 0 <= i < j < |s.handouts| && !s.handouts[i].json ==> s.handouts[i].reg != s.handouts[j].reg)
  }

  ghost predicate Sound(s: Server) {
    && ClientsSound(s.disk.clients)
    && RegsSound(s.disk.regs, s.disk.clients)
    && LogsSound(s)
    && (s.mid.Some? ==> RegsSound(s.mid.value, s.disk.clients) && Later(s.disk.regs, s.mid.value))
  }

  /** The console starts with clients of distinct ids and no registrations. */
  ghost predicate Start(s: Server) {
    ClientsSound(s.disk.clients) && s.disk.regs == [] && s.mid == None && s.approvals == [] && s.handouts == []
  }

  // ---------------------------------------------------------------- lookups under change

  lemma FoundClient(clients: seq<Client>, i: nat)
    requires i < |clients|
    ensures HasClient(clients, clients[i].id)
  {
  }

  lemma FoundFirst(regs: seq<Registration>, q: Sought, i: nat)
    requires i < |regs| && Fits(q, regs[i])
    ensures First(regs, q) <= i
  {
  }

  /** Clients keep their ids and tokens, so a client that can be found stays, with its token. */
  lemma ClientsStay(a: seq<Client>, b: seq<Client>, id: string)
    requires LaterClients(a, b) && HasClient(a, id)
    ensures HasClient(b, id) && TokenOf(b, id) == TokenOf(a, id)
  {
  }

  lemma RegsSoundWithMoreClients(regs: seq<Registration>, a: seq<Client>, b: seq<Client>)
    requires RegsSound(regs, a) && LaterClients(a, b)
    ensures RegsSound(regs, b)
  {
  }

  // ---------------------------------------------------------------- one registration changes

  /** Replace one registration by one that may stand in its place. */
  lemma ReplaceKeepsSound(regs: seq<Registration>, clients: seq<Client>, i: nat, r: Registration)
    requires RegsSound(regs, clients) && i < |regs|
    requires RegSound(r, clients) && LaterReg(regs[i], r)
    requires r.status == Pending ==> regs[i].status == Pending
    requires r.status == Approved ==>
               || regs[i].status == Approved
               || forall j :: 0 <= j < |regs| && regs[j].id == r.id ==> regs[j].status != Approved
    ensures RegsSound(regs[i := r], clients) && Later(regs, regs[i := r])
  {
  }

  lemma RegisterKeepsSound(s: Server, id: string, edgeLabel: string, token: string, now: nat)
    requires Sound(s) && s.mid == None && token != ""
    ensures var d := Registering(s.disk, id, edgeLabel, token, now);
            && d.clients == s.disk.clients && RegsSound(d.regs, d.clients) && Later(s.disk.regs, d.regs)
  {
    var i := First(s.disk.regs, PendingOf(id));
    if !HasClient(s.disk.clients, id) {
      if i < |s.disk.regs| {
        var r := s.disk.regs[i].(edgeLabel := edgeLabel, requestedAt := now, installToken := token, issuedAt := now);
        ReplaceKeepsSound(s.disk.regs, s.disk.clients, i, r);
      } else {
        assert forall j :: 0 <= j < |s.disk.regs| && s.disk.regs[j].id == id ==> s.disk.regs[j].status != Pending;
      }
    }
  }

  lemma DeliverKeepsSound(s: Server, token: string, json: bool, now: nat)
    requires Sound(s) && s.mid == None && Delivery(s.disk, token).code == 200
    ensures var d := Delivering(s.disk, token, json, now);
            && d.clients == s.disk.clients && RegsSound(d.regs, d.clients) && Later(s.disk.regs, d.regs)
            && |d.regs| == |s.disk.regs|
            && (!json ==> d.regs[First(s.disk.regs, ApprovedWith(token))].usedAt.Some?)
            && s.disk.regs[First(s.disk.regs, ApprovedWith(token))].usedAt.None?
  {
    var i := First(s.disk.regs, ApprovedWith(token));
    var r := Delivering(s.disk, token, json, now).regs[i];
    assert RegSound(s.disk.regs[i], s.disk.clients);
    ReplaceKeepsSound(s.disk.regs, s.disk.clients, i, r);
  }

  lemma VerifyKeepsSound(s: Server, token: string, now: nat)
    requires Sound(s) && s.mid == None
    ensures var d := Verifying(s.disk, token, now);
            && d.clients == s.disk.clients && RegsSound(d.regs, d.clients) && Later(s.disk.regs, d.regs)
  {
    var i := First(s.disk.regs, ApprovedWith(token));
    if i < |s.disk.regs| {
      assert RegSound(s.disk.regs[i], s.disk.clients);
      ReplaceKeepsSound(s.disk.regs, s.disk.clients, i, Verifying(s.disk, token, now).regs[i]);
    }
  }

  lemma RejectKeepsSound(s: Server, id: string, now: nat)
    requires Sound(s) && s.mid == None
    ensures var d := Rejecting(s.disk, id, now);
            && d.clients == s.disk.clients && RegsSound(d.regs, d.clients) && Later(s.disk.regs, d.regs)
  {
    var i := First(s.disk.regs, AnyOf(id));
    if i < |s.disk.regs| {
      assert RegSound(s.disk.regs[i], s.disk.clients);
      ReplaceKeepsSound(s.disk.regs, s.disk.clients, i, Rejecting(s.disk, id, now).regs[i]);
    }
  }

  /** Approval: the reset of usedAt never clears a value, because a used registration has a client. */
  lemma ApproveKeepsSound(s: Server, id: string, token: string, install: string, now: nat)
    requires Sound(s) && s.mid == None && Approvable(s.disk, id) && token != ""
    ensures var clients, regs := ApprovedClients(s.disk, id, token), ApprovedRegs(s.disk, id, install, now);
            && ClientsSound(clients) && LaterClients(s.disk.clients, clients) && HasClient(clients, id)
            && RegsSound(s.disk.regs, clients) && RegsSound(regs, clients) && Later(s.disk.regs, regs)
    ensures s.disk.regs[First(s.disk.regs, AnyOf(id))].usedAt == None
  {
    var clients := ApprovedClients(s.disk, id, token);
    var i := First(s.disk.regs, AnyOf(id));
    var r := s.disk.regs[i];
    assert RegSound(r, s.disk.clients) && r.usedAt == None;
    FoundClient(clients, |s.disk.clients|);
    RegsSoundWithMoreClients(s.disk.regs, s.disk.clients, clients);
    forall j | 0 <= j < |s.disk.regs| && s.disk.regs[j].id == id
      ensures s.disk.regs[j].status != Approved
    {
      assert RegSound(s.disk.regs[j], s.disk.clients);
    }
    ReplaceKeepsSound(s.disk.regs, clients, i, ApprovedRegs(s.disk, id, install, now)[i]);
  }

  lemma EditKeepsSound(clients: seq<Client>, id: string, edit: ClientEdit)
    requires ClientsSound(clients)
    ensures ClientsSound(Editing(clients, id, edit)) && LaterClients(clients, Editing(clients, id, edit))
  {
  }

  // ---------------------------------------------------------------- every call keeps the invariant

  /** What a call may do to the server, whichever call it is. */
  ghost predicate Evolves(s: Server, t: Server) {
    && Later(s.disk.regs, t.disk.regs)
    && LaterClients(s.disk.clients, t.disk.clients)
    && s.approvals <= t.approvals && s.handouts <= t.handouts
  }

  lemma SameLogs(s: Server, t: Server)
    requires LogsSound(s) && Evolves(s, t) && t.approvals == s.approvals && t.handouts == s.handouts
    ensures LogsSound(t)
  {
  }

  lemma DeliverIsSound(s: Server, token: string, json: bool, now: nat)
    requires Sound(s) && s.mid == None
    ensures Sound(HandleIdle(s, Deliver(token, json, now))) && Evolves(s, HandleIdle(s, Deliver(token, json, now)))
  {
    if Delivery(s.disk, token).code == 200 {
      DeliverKeepsSound(s, token, json, now);
      var t := HandleIdle(s, Deliver(token, json, now));
      SameLogs(s, t.(handouts := s.handouts));
      OneMoreHandout(s, t, Handout(First(s.disk.regs, ApprovedWith(token)), json));
    }
  }

  lemma OneMoreHandout(s: Server, t: Server, h: Handout)
    requires LogsSound(s) && LogsSound(t.(handouts := s.handouts)) && t.handouts == s.handouts + [h]
    requires h.reg < |s.disk.regs| == |t.disk.regs| && s.disk.regs[h.reg].usedAt.None?
    requires !h.json ==> t.disk.regs[h.reg].usedAt.Some?
    ensures LogsSound(t)
  {
  }

  lemma ApproveIsSound(s: Server, id: string, token: string, install: string, now: nat)
    requires Sound(s) && s.mid == None
    ensures var t := HandleIdle(s, Approve(id, token, install, now)); Sound(t) && Evolves(s, t)
  {
    hide RegsSound, ClientsSound, ApprovedRegs, ApprovedClients;
    if Approvable(s.disk, id) && token != "" {
      ApproveKeepsSound(s, id, token, install, now);
      var t := HandleIdle(s, Approve(id, token, install, now));
      SameLogs(s, t.(approvals := s.approvals));
      assert id !in s.approvals;
    }
  }

  lemma QuietCallIsSound(s: Server, t: Server)
    requires Sound(s) && s.mid == None && t == s.(disk := t.disk)
    requires ClientsSound(t.disk.clients) && RegsSound(t.disk.regs, t.disk.clients) && Evolves(s, t)
    ensures Sound(t)
  {
  }

  lemma HandleIsSound(s: Server, call: Call)
    requires Sound(s)
    ensures Sound(Handle(s, call)) && Evolves(s, Handle(s, call))
  {
    hide RegSound, Registering, Delivering, Verifying, Rejecting, Editing, EditAccepted, Approvable;
    var t := Handle(s, call);
    if call.Finish? && s.mid.Some? {
      SameLogs(s, t);
    } else if s.mid.None? {
      match call {
        case Register(id, edgeLabel, token, now) =>
          if ValidClientId(id) && ValidInstallToken(token) {
            RegisterKeepsSound(s, id, edgeLabel, token, now);
            QuietCallIsSound(s, t);
          }
        case Deliver(token, json, now) => DeliverIsSound(s, token, json, now);
        case Verify(token, now) => VerifyKeepsSound(s, token, now); QuietCallIsSound(s, t);
        case Reject(id, now) => RejectKeepsSound(s, id, now); QuietCallIsSound(s, t);
        case Edit(id, edit) =>
          if EditAccepted(s.disk.clients, id, edit) {
            EditKeepsSound(s.disk.clients, id, edit);
            RegsSoundWithMoreClients(s.disk.regs, s.disk.clients, t.disk.clients);
            QuietCallIsSound(s, t);
          }
        case Approve(id, token, install, now) => ApproveIsSound(s, id, token, install, now);
        case _ =>
      }
    }
  }

  lemma EvolvesTransitive(a: Server, b: Server, c: Server)
    requires Evolves(a, b) && Evolves(b, c)
    ensures Evolves(a, c)
  {
  }

  /** Every run, crashes and failed writes included, keeps the files sound and only moves forward: ids
      and tokens of clients never change, no use or verification is undone, and the install token of
      a registration that is no longer pending is frozen. */
  lemma {:induction false} RunsAreSound(s: Server, calls: seq<Call>)
    requires Sound(s)
    ensures Sound(HandleAll(s, calls)) && Evolves(s, HandleAll(s, calls))
  {
    if calls != [] {
      var before := calls[..|calls| - 1];
      RunsAreSound(s, before);
      HandleIsSound(HandleAll(s, before), calls[|calls| - 1]);
      EvolvesTransitive(s, HandleAll(s, before), HandleAll(s, calls));
    }
  }

  lemma StartIsSound(s: Server)
    requires Start(s)
    ensures Sound(s)
  {
  }

  // ---------------------------------------------------------------- what follows for every run

  /** Each id is approved at most once in a run, and has at most one pending and one approved registration. */
  lemma ApprovedAtMostOnce(s: Server, calls: seq<Call>, i: nat, j: nat)
    requires Start(s)
    ensures var t := HandleAll(s, calls);
            && (i < j < |t.approvals| ==> t.approvals[i] != t.approvals[j])
            && (i < j < |t.disk.regs| && t.disk.regs[i].id == t.disk.regs[j].id ==>
                  !(t.disk.regs[i].status == t.disk.regs[j].status == Pending)
                  && !(t.disk.regs[i].status == t.disk.regs[j].status == Approved))
  {
    StartIsSound(s);
    RunsAreSound(s, calls);
  }

  /** installEdge never answers "client not found": whoever asks with the token of an approved, unused
      registration is handed the signer token of the client with that registration's id. */
  lemma ApprovedIsDeliverable(s: Server, calls: seq<Call>, token: string)
    requires Start(s)
    ensures var d := HandleAll(s, calls).disk;
            var i := First(d.regs, ApprovedWith(token));
            && Delivery(d, token) != Reply(NOT_FOUND, "client not found")
            && (i < |d.regs| && d.regs[i].usedAt.None? ==>
                  Delivery(d, token) == Reply(200, TokenOf(d.clients, d.regs[i].id)) && Delivery(d, token).token != "")
  {
    StartIsSound(s);
    RunsAreSound(s, calls);
    var d := HandleAll(s, calls).disk;
    var i := First(d.regs, ApprovedWith(token));
    if i < |d.regs| {
      assert RegSound(d.regs[i], d.clients);
    }
  }

  ghost predicate NotHandedOut(handouts: seq<Handout>, from: nat, i: nat) {
    forall h :: from <= h < |handouts| ==> handouts[h].reg != i
  }

  /** Once a registration is used, by the shell form or by verification, it is never handed out again in
      either form; in particular the shell form is handed out at most once. */
  lemma {:induction false} UsedIsNeverHandedOut(s: Server, calls: seq<Call>, i: nat)
    requires Sound(s) && i < |s.disk.regs| && s.disk.regs[i].usedAt.Some?
    ensures NotHandedOut(HandleAll(s, calls).handouts, |s.handouts|, i)
  {
    if calls != [] {
      var before := calls[..|calls| - 1];
      UsedIsNeverHandedOut(s, before, i);
      RunsAreSound(s, before);
      var t := HandleAll(s, before);
      assert LaterReg(s.disk.regs[i], t.disk.regs[i]);
      NewHandoutIsUnused(t, calls[|calls| - 1]);
    }
  }

  lemma NewHandoutIsUnused(s: Server, call: Call)
    ensures var t := Handle(s, call);
            && |t.handouts| <= |s.handouts| + 1 && s.handouts <= t.handouts
            && (|t.handouts| == |s.handouts| + 1 ==>
                  var k := t.handouts[|s.handouts|].reg; k < |s.disk.regs| && s.disk.regs[k].usedAt == None)
  {
  }

  // ---------------------------------------------------------------- stranded edges

  ghost predicate NoApproved(regs: seq<Registration>, id: string) {
    forall i :: 0 <= i < |regs| && regs[i].id == id ==> regs[i].status != Approved
  }

  /** `id` has a client but no approved registration, and no approval is under way. */
  ghost predicate Stranded(s: Server, id: string) {
    s.mid == None && HasClient(s.disk.clients, id) && NoApproved(s.disk.regs, id)
  }

  /** The same while some other id's approval is between its writes. */
  ghost predicate StrandedBy(s: Server, id: string)
    requires s.mid.Some?
  {
    HasClient(s.disk.clients, id) && NoApproved(s.disk.regs, id) && NoApproved(s.mid.value, id)
  }

  lemma OneChangeApprovesNot(regs: seq<Registration>, i: nat, r: Registration, id: string)
    requires NoApproved(regs, id) && i < |regs| && (r.id == id ==> r.status != Approved)
    ensures NoApproved(regs[i := r], id)
  {
  }

  lemma RegisterApprovesNot(d: Disk, other: string, edgeLabel: string, token: string, now: nat, id: string)
    requires NoApproved(d.regs, id)
    ensures NoApproved(Registering(d, other, edgeLabel, token, now).regs, id)
  {
    var i := First(d.regs, PendingOf(other));
    if !HasClient(d.clients, other) && i < |d.regs| {
      OneChangeApprovesNot(d.regs, i, Registering(d, other, edgeLabel, token, now).regs[i], id);
    }
  }

  lemma UseApprovesNot(d: Disk, token: string, json: bool, now: nat, id: string)
    requires NoApproved(d.regs, id)
    ensures NoApproved(Delivering(d, token, json, now).regs, id) && NoApproved(Verifying(d, token, now).regs, id)
  {
    var i := First(d.regs, ApprovedWith(token));
    if i < |d.regs| {
      assert d.regs[i].id != id;
      OneChangeApprovesNot(d.regs, i, Verifying(d, token, now).regs[i], id);
      if Delivery(d, token).code == 200 {
        OneChangeApprovesNot(d.regs, i, Delivering(d, token, json, now).regs[i], id);
      }
    }
  }

  lemma RejectApprovesNot(d: Disk, other: string, now: nat, id: string)
    requires NoApproved(d.regs, id)
    ensures NoApproved(Rejecting(d, other, now).regs, id)
  {
    var i := First(d.regs, AnyOf(other));
    if i < |d.regs| {
      OneChangeApprovesNot(d.regs, i, Rejecting(d, other, now).regs[i], id);
    }
  }

  /** An approval is of another id, since `id` has a client already. */
  lemma OtherApprovalApprovesNot(d: Disk, other: string, install: string, now: nat, id: string)
    requires NoApproved(d.regs, id) && HasClient(d.clients, id) && Approvable(d, other)
    ensures NoApproved(ApprovedRegs(d, other, install, now), id)
  {
    var i := First(d.regs, AnyOf(other));
    OneChangeApprovesNot(d.regs, i, ApprovedRegs(d, other, install, now)[i], id);
  }

  lemma HandleKeepsStranded(s: Server, call: Call, id: string)
    requires Sound(s) && (Stranded(s, id) || (s.mid.Some? && StrandedBy(s, id)))
    ensures Stranded(Handle(s, call), id) || (Handle(s, call).mid.Some? && StrandedBy(Handle(s, call), id))
  {
    HandleIsSound(s, call);
    ClientsStay(s.disk.clients, Handle(s, call).disk.clients, id);
    hide NoApproved, HasClient, Sound, Evolves, Registering, Delivering, Verifying, Rejecting, ApprovedRegs;
    if s.mid.None? {
      match call {
        case Register(other, edgeLabel, token, now) => RegisterApprovesNot(s.disk, other, edgeLabel, token, now, id);
        case Deliver(token, json, now) => UseApprovesNot(s.disk, token, json, now, id);
        case Verify(token, now) => UseApprovesNot(s.disk, token, true, now, id);
        case Reject(other, now) => RejectApprovesNot(s.disk, other, now, id);
        case Approve(other, token, install, now) =>
          if Approvable(s.disk, other) {
            OtherApprovalApprovesNot(s.disk, other, install, now, id);
          }
        case _ =>
      }
    }
  }

  /** A client without an approved registration is stranded for good: registering again is refused, approving
      again is refused, and no run ever hands its token out.  An approval that dies between its writes,
      or a rejection after an approval, leads there. */
  lemma {:induction false} StrandedForever(s: Server, calls: seq<Call>, id: string)
    requires Sound(s) && Stranded(s, id)
    ensures var t := HandleAll(s, calls);
            && HasClient(t.disk.clients, id) && NoApproved(t.disk.regs, id)
            && (Stranded(t, id) || (t.mid.Some? && StrandedBy(t, id)))
            && forall h :: |s.handouts| <= h < |t.handouts| && t.handouts[h].reg < |t.disk.regs| ==>
                 t.disk.regs[t.handouts[h].reg].id != id
  {
    if calls != [] {
      var before := calls[..|calls| - 1];
      StrandedForever(s, before, id);
      RunsAreSound(s, before);
      var t := HandleAll(s, before);
      HandleKeepsStranded(t, calls[|calls| - 1], id);
      HandleIsSound(t, calls[|calls| - 1]);
      StrandedHandouts(t, calls[|calls| - 1], id, |s.handouts|);
    }
  }

  lemma StrandedHandouts(t: Server, call: Call, id: string, from: nat)
    requires Sound(t) && (Stranded(t, id) || (t.mid.Some? && StrandedBy(t, id))) && from <= |t.handouts|
    requires forall h :: from <= h < |t.handouts| ==> t.disk.regs[t.handouts[h].reg].id != id
    ensures var u := Handle(t, call);
            forall h :: from <= h < |u.handouts| && u.handouts[h].reg < |u.disk.regs| ==>
              u.disk.regs[u.handouts[h].reg].id != id
  {
    hide Verifying, Rejecting, Registering, Editing;
    HandleIsSound(t, call);
  }

  lemma HandleAppend(s: Server, calls: seq<Call>, call: Call)
    ensures HandleAll(s, calls + [call]) == Handle(HandleAll(s, calls), call)
  {
    assert (calls + [call])[..|calls|] == calls;
  }

  /** A registration of `id`, and the first write of its approval. */
  function HalfApproved(id: string, edgeLabel: string, install: string, now: nat, token: string): seq<Call> {
    [] + [Register(id, edgeLabel, install, now)] + [Approve(id, token, "", 0)]
  }

  lemma HalfApprovedState(s: Server, id: string, edgeLabel: string, install: string, now: nat, token: string)
    requires Start(s) && !HasClient(s.disk.clients, id) && token != ""
    requires ValidClientId(id) && ValidInstallToken(install)
    ensures var t := HandleAll(s, HalfApproved(id, edgeLabel, install, now, token));
            && HasClient(t.disk.clients, id) && TokenOf(t.disk.clients, id) == token
            && t.disk.regs == [NewRegistration(id, edgeLabel, install, now)]
            && t.mid.Some? && |t.mid.value| == 1
            && var r := t.mid.value[0];
               r.id == id && r.status == Approved && r.installToken == install && r.usedAt == None
  {
    var regs := [NewRegistration(id, edgeLabel, install, now)];
    HandleAppend(s, [], Register(id, edgeLabel, install, now));
    HandleAppend(s, [] + [Register(id, edgeLabel, install, now)], Approve(id, token, "", 0));
    var t := Handle(s, Register(id, edgeLabel, install, now));
    assert t == s.(disk := s.disk.(regs := regs)) && First(regs, AnyOf(id)) == 0;
    NewClientIsFound(s.disk.clients, id, token);
  }

  lemma {:induction false} NewClientIsFound(clients: seq<Client>, id: string, token: string)
    requires !HasClient(clients, id)
    ensures var all := clients + [Client(id, token, false, Limits(20000, 0, 0, false))];
            FindClient(all, id) == |clients| && TokenOf(all, id) == token
  {
    var all := clients + [Client(id, token, false, Limits(20000, 0, 0, false))];
    assert forall j :: 0 <= j < |clients| ==> all[j].id != id;
    assert all[|clients|].id == id;
    FoundClient(all, |clients|);
  }

  /** How an edge gets there: the console dies after it has written the clients. */
  lemma DeadApprovalStrands(s: Server, id: string, edgeLabel: string, install: string, token: string)
    requires Start(s) && !HasClient(s.disk.clients, id) && token != ""
    requires ValidClientId(id) && ValidInstallToken(install)
    ensures Stranded(HandleAll(s, HalfApproved(id, edgeLabel, install, 0, token) + [Crash]), id)
  {
    HalfApprovedState(s, id, edgeLabel, install, 0, token);
    HandleAppend(s, HalfApproved(id, edgeLabel, install, 0, token), Crash);
  }

  /** ... or the approval goes through, and the registration is rejected afterwards. */
  lemma LateRejectionStrands(s: Server, id: string, edgeLabel: string, install: string, token: string)
    requires Start(s) && !HasClient(s.disk.clients, id) && token != ""
    requires ValidClientId(id) && ValidInstallToken(install)
    ensures Stranded(HandleAll(s, HalfApproved(id, edgeLabel, install, 0, token) + [Finish] + [Reject(id, 0)]), id)
  {
    var calls := HalfApproved(id, edgeLabel, install, 0, token);
    HalfApprovedState(s, id, edgeLabel, install, 0, token);
    HandleAppend(s, calls, Finish);
    HandleAppend(s, calls + [Finish], Reject(id, 0));
    assert First(HandleAll(s, calls + [Finish]).disk.regs, AnyOf(id)) == 0;
  }
}
