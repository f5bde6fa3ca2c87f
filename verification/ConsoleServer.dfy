/** The console itself.  Handlers keep nothing in memory: they read both files, change what they read, and write it
    back.  Each of them is proved to be one call of the runs of Enrollment, and so to keep what these keep. */
module ConsoleServing {
  import opened Options
  import opened Text
  import opened ConsoleFiles
  import opened Enrollment

  /** The console: the handlers' loops over the contents of the two files.  Every write may fail.  `server` is the run of
      calls so far, as Enrollment sees it. */
  class Console {
    var clients: seq<Client>
    var regs: seq<Registration>
    ghost var server: Server

    /** The files are those of the run, and no approval is between its writes: everything that is proved of runs in
        Enrollment holds of the files. */
    ghost predicate Valid()
      reads this
    {
      server.disk == OnDisk() && server.mid == None && Sound(server)
    }

    /** A console starts from the files an earlier run has left. */
    constructor (d: Disk, ghost past: Server)
      requires past.disk == d && past.mid == None && Sound(past)
      ensures Valid() && OnDisk() == d && server == past
    {
      clients, regs, server := d.clients, d.regs, past;
    }

    /** The handler has done what `call` does. */
    ghost method Log(call: Call)
      requires Sound(server) && Handle(server, call).mid == None
      requires OnDisk() == Handle(server, call).disk
      modifies this`server
      ensures Valid() && server == Handle(old(server), call) && Evolves(old(server), server)
    {
      HandleIsSound(server, call);
      server := Handle(server, call);
    }

    function OnDisk(): Disk
      reads this
    {
      Disk(clients, regs)
    }

    /** The first registration that fits, as the handlers search for it. */
    method Search(q: Sought) returns (i: nat)
      ensures i == First(regs, q)
    {
      i := 0;
      while i < |regs| && !Fits(q, regs[i])
        invariant i <= |regs|
        invariant forall j :: 0 <= j < i ==> !Fits(q, regs[j])
      {
        i := i + 1;
      }
      FirstIsUnique(regs, q, i);
    }

    method SearchClient(id: string) returns (i: nat)
      ensures i == FindClient(clients, id)
    {
      i := 0;
      while i < |clients| && clients[i].id != id
        invariant i <= |clients|
        invariant forall j :: 0 <= j < i ==> clients[j].id != id
      {
        i := i + 1;
      }
    }

    /** registerEdge; `random` is the token the console would draw if the edge sent none.  A valid token is registered as
        it was sent, and only a blank one is replaced. */
    method RegisterEdge(id: string, edgeLabel: string, token: string, random: string, now: nat, writes: bool)
        returns (code: int)
      requires Valid()
      modifies this
      ensures Valid() && Evolves(old(server), server) && clients == old(clients)
      ensures var t := if Trim(token) == "" then random else Trim(token);
              server == if writes then Handle(old(server), Call.Register(Trim(id), Trim(edgeLabel), t, now))
                        else old(server)
      ensures ValidInstallToken(token) && writes ==>
                server == Handle(old(server), Call.Register(Trim(id), Trim(edgeLabel), token, now))
      ensures var t := if Trim(token) == "" then random else Trim(token);
              code == (if !ValidClientId(Trim(id)) || !ValidInstallToken(t) then 400
                       else if IsClient(old(clients), Trim(id)) then 409
                       else if writes then 202 else 500)
      ensures code == 202 && ValidInstallToken(token) ==> IsPending(regs, Trim(id), Trim(edgeLabel), token, now)
      ensures code == 202 && Trim(token) == "" ==> IsPending(regs, Trim(id), Trim(edgeLabel), random, now)
      ensures code == 202 ==> OnlyPendingChanged(old(regs), regs, Trim(id))
      ensures code != 202 ==> regs == old(regs)
    {
      hide Trim, ValidClientId, ValidInstallToken, TokenSent, Sound, Evolves, Registering, HasClient, IsClient;
      EvolvesSelf(server);
      ValidTokenIsSent(token, random);
      HasClientIff(clients, Trim(id));
      RegisteredAs(OnDisk(), Trim(id), Trim(edgeLabel), TokenSent(token, random), now);
      code := Validate(Trim(id), Trim(edgeLabel), TokenSent(token, random), now, writes);
      if writes {
        Log(Call.Register(Trim(id), Trim(edgeLabel), TokenSent(token, random), now));
      }
    }

    static function TokenSent(token: string, random: string): string {
      if Trim(token) == "" then random else Trim(token)
    }

    static lemma ValidTokenIsSent(token: string, random: string)
      ensures ValidInstallToken(token) ==> TokenSent(token, random) == token
      ensures TokenSent(token, random) == if Trim(token) == "" then random else Trim(token)
    {
      hide Trim;
      if ValidInstallToken(token) {
        ValidTextIsTrimmed(token);
        assert token != "";
      }
    }

    method Validate(id: string, edgeLabel: string, token: string, now: nat, writes: bool) returns (code: int)
      modifies this`regs
      ensures if !ValidClientId(id) || !ValidInstallToken(token) then code == 400 && OnDisk() == old(OnDisk())
              else if HasClient(old(clients), id) then code == CONFLICT && OnDisk() == old(OnDisk())
              else if !writes then code == SERVER_ERROR && OnDisk() == old(OnDisk())
              else code == ACCEPTED && OnDisk() == Registering(old(OnDisk()), id, edgeLabel, token, now)
    {
      if !ValidClientId(id) {
        return 400;
      }
      if !ValidInstallToken(token) {
        return 400;
      }
      code := Enlist(id, edgeLabel, token, now, writes);
    }

    /** The part of registerEdge that runs under the lock: refresh the pending registration, or add one. */
    method Enlist(id: string, edgeLabel: string, token: string, now: nat, writes: bool) returns (code: int)
      modifies this`regs
      ensures if HasClient(old(clients), id) then code == CONFLICT && OnDisk() == old(OnDisk())
              else if !writes then code == SERVER_ERROR && OnDisk() == old(OnDisk())
              else code == ACCEPTED && OnDisk() == Registering(old(OnDisk()), id, edgeLabel, token, now)
    {
      var c := SearchClient(id);
      if c < |clients| {
        return CONFLICT;
      }
      if !writes {
        return SERVER_ERROR;
      }
      var i := Search(PendingOf(id));
      if i < |regs| {
        regs := regs[i := regs[i].(edgeLabel := edgeLabel, requestedAt := now, installToken := token, issuedAt := now)];
      } else {
        regs := regs + [NewRegistration(id, edgeLabel, token, now)];
      }
      return ACCEPTED;
    }

    /** approve.  Whatever fails, the files stay sound; a failure of the second write leaves the client without an
        approved registration. */
    method Approve(id: string, token: string, install: string, now: nat, writesClients: bool, writesRegs: bool)
        returns (code: int)
      requires Valid() && token != ""
      modifies this
      ensures Valid() && Evolves(old(server), server)
      ensures server == if Approvable(old(OnDisk()), id) && writesClients
                        then Approval(old(server), id, token, install, now, writesRegs) else old(server)
      ensures if !(First(old(regs), AnyOf(id)) < |old(regs)|) then code == NOT_FOUND && OnDisk() == old(OnDisk())
              else if HasClient(old(clients), id) then code == CONFLICT && OnDisk() == old(OnDisk())
              else if !writesClients then code == SERVER_ERROR && OnDisk() == old(OnDisk())
              else
                && code == (if writesRegs then 200 else SERVER_ERROR)
                && clients == ApprovedClients(old(OnDisk()), id, token)
                && regs == if writesRegs then ApprovedRegs(old(OnDisk()), id, install, now) else old(regs)
      ensures code == 404 <==> forall i :: 0 <= i < |old(regs)| ==> old(regs)[i].id != id
      ensures code == 409 <==> code != 404 && IsClient(old(clients), id)
      ensures code == 200 <==> code != 404 && code != 409 && writesClients && writesRegs
      ensures code == 404 || code == 409 || code == 200 || code == 500
      ensures code == 200 ==> forall i: nat :: IsFirstOf(old(regs), id, i) ==>
                var r := old(regs)[i];
                regs == old(regs)[i := r.(status := Approved, approvedAt := Some(now), usedAt := None,
                                          installToken := if r.installToken == "" then install else r.installToken,
                                          issuedAt := if r.installToken == "" then now else r.issuedAt,
                                          installStatus := "approved")]
      ensures code == 200 || (code == 500 && writesClients) ==>
                clients == old(clients) + [Client(id, token, false, Limits(20000, 0, 0, false))]
    {
      hide First, IsFirstOf, ApprovedRegs, ApprovedClients, HasClient, IsClient, Sound, Evolves;
      EvolvesSelf(server);
      FirstOrNone(regs, id);
      HasClientIff(clients, id);
      ApprovedAs(OnDisk(), id, token, install, now);
      ghost var before := server;
      code := WriteBoth(id, token, install, now, writesClients, writesRegs);
      if Approvable(before.disk, id) && writesClients {
        ApprovalIsSound(before, id, token, install, now, writesRegs);
        server := Approval(before, id, token, install, now, writesRegs);
      }
    }

    /** The two writes of an approval, clients first and registrations second. */
    method WriteBoth(id: string, token: string, install: string, now: nat, writesClients: bool, writesRegs: bool)
        returns (code: int)
      modifies this`clients, this`regs
      ensures if !(First(old(regs), AnyOf(id)) < |old(regs)|) then code == NOT_FOUND && OnDisk() == old(OnDisk())
              else if HasClient(old(clients), id) then code == CONFLICT && OnDisk() == old(OnDisk())
              else if !writesClients then code == SERVER_ERROR && OnDisk() == old(OnDisk())
              else
                && code == (if writesRegs then 200 else SERVER_ERROR)
                && clients == ApprovedClients(old(OnDisk()), id, token)
                && regs == if writesRegs then ApprovedRegs(old(OnDisk()), id, install, now) else old(regs)
    {
      var i := Search(AnyOf(id));
      if i == |regs| {
        return NOT_FOUND;
      }
      var c := SearchClient(id);
      if c < |clients| {
        return CONFLICT;
      }
      var r := regs[i].(status := Approved, approvedAt := Some(now));
      if r.installToken == "" {
        r := r.(installToken := install, issuedAt := now);
      }
      r := r.(usedAt := None, installStatus := "approved");
      if !writesClients {
        return SERVER_ERROR;
      }
      clients := clients + [Client(id, token, false, Limits(20000, 0, 0, false))];
      if !writesRegs {
        return SERVER_ERROR;
      }
      regs := regs[i := r];
      return 200;
    }

    method Reject(id: string, now: nat, writes: bool) returns (code: int)
      requires Valid()
      modifies this
      ensures Valid() && Evolves(old(server), server)
      ensures server == if writes then Handle(old(server), Call.Reject(id, now)) else old(server)
      ensures OnDisk() == if writes then Rejecting(old(OnDisk()), id, now) else old(OnDisk())
      ensures code == if First(old(regs), AnyOf(id)) == |old(regs)| then NOT_FOUND
                      else if writes then 200 else SERVER_ERROR
      ensures code == 404 <==> forall i :: 0 <= i < |old(regs)| ==> old(regs)[i].id != id
      ensures code == 404 || code == if writes then 200 else 500
      ensures clients == old(clients)
      ensures code == 200 ==> forall i: nat :: IsFirstOf(old(regs), id, i) ==>
                regs == old(regs)[i := old(regs)[i].(status := Rejected, rejectedAt := Some(now))]
    {
      hide IsFirstOf, Sound, Evolves;
      EvolvesSelf(server);
      FirstOrNone(regs, id);
      var i := Search(AnyOf(id));
      if i == |regs| {
        return NOT_FOUND;
      }
      if !writes {
        return SERVER_ERROR;
      }
      regs := regs[i := regs[i].(status := Rejected, rejectedAt := Some(now))];
      Log(Call.Reject(id, now));
      return 200;
    }

    /** installEdge.  It never answers "client not found", because every approved registration has a client. */
    method InstallEdge(token: string, json: bool, now: nat, writes: bool) returns (reply: Reply)
      requires Valid()
      modifies this
      ensures Valid() && Evolves(old(server), server)
      ensures server == if writes then Handle(old(server), Deliver(token, json, now)) else old(server)
      ensures reply == if Delivery(old(OnDisk()), token).code == 200 && !writes then Reply(SERVER_ERROR, "")
                       else Delivery(old(OnDisk()), token)
      ensures OnDisk() == if writes then Delivering(old(OnDisk()), token, json, now) else old(OnDisk())
      ensures reply != Reply(NOT_FOUND, "client not found")
      ensures clients == old(clients)
      ensures (forall i: nat :: !IsFirstWith(old(regs), token, i)) ==> reply == Reply(404, "") && regs == old(regs)
      ensures forall i: nat :: IsFirstWith(old(regs), token, i) ==>
                var r := old(regs)[i];
                if r.usedAt.Some? then reply == Reply(410, "") && regs == old(regs)
                else if !writes then reply == Reply(500, "") && regs == old(regs)
                else
                  && reply.code == 200 && OwnsToken(clients, r.id, reply.token)
                  && regs == old(regs)[i := r.(usedAt := if json then None else Some(now), installStatus := "delivered")]
    {
      hide IsFirstWith, Sound, Evolves, OwnsToken, Delivery, Delivering, Registering, Verifying, Rejecting;
      EvolvesSelf(server);
      DeliveredAs(server, token, json, now);
      reply := HandOut(token, json, now, writes);
      ApprovedHasClient(server, token);
      if writes {
        Log(Deliver(token, json, now));
      }
    }

    /** The search and the write of installEdge. */
    method HandOut(token: string, json: bool, now: nat, writes: bool) returns (reply: Reply)
      modifies this`regs
      ensures reply == if Delivery(old(OnDisk()), token).code == 200 && !writes then Reply(SERVER_ERROR, "")
                       else Delivery(old(OnDisk()), token)
      ensures OnDisk() == if writes then Delivering(old(OnDisk()), token, json, now) else old(OnDisk())
    {
      var i := Search(ApprovedWith(token));
      if i == |regs| {
        return Reply(NOT_FOUND, "");
      }
      var r := regs[i];
      if r.usedAt.Some? {
        return Reply(GONE, "");
      }
      var c := SearchClient(r.id);
      if c == |clients| || clients[c].token == "" {
        return Reply(NOT_FOUND, "client not found");
      }
      if !writes {
        return Reply(SERVER_ERROR, "");
      }
      if !json {
        r := r.(usedAt := Some(now));
      }
      regs := regs[i := r.(installStatus := "delivered")];
      return Reply(200, clients[c].token);
    }

    method VerifyInstall(token: string, now: nat, writes: bool) returns (code: int)
      requires Valid()
      modifies this
      ensures Valid() && Evolves(old(server), server)
      ensures server == if writes then Handle(old(server), Verify(token, now)) else old(server)
      ensures OnDisk() == if writes then Verifying(old(OnDisk()), token, now) else old(OnDisk())
      ensures code == if First(old(regs), ApprovedWith(token)) == |old(regs)| then NOT_FOUND
                      else if writes then 200 else SERVER_ERROR
      ensures clients == old(clients)
      ensures (forall i: nat :: !IsFirstWith(old(regs), token, i)) ==> code == 404 && regs == old(regs)
      ensures forall i: nat :: IsFirstWith(old(regs), token, i) ==>
                && code == (if writes then 200 else 500)
                && regs == if !writes then old(regs)
                           else old(regs)[i := old(regs)[i].(usedAt := Some(now), verifiedAt := Some(now),
                                                             installStatus := "verified")]
    {
      hide IsFirstWith, Sound, Evolves;
      EvolvesSelf(server);
      FirstWithOrNone(regs, token);
      var i := Search(ApprovedWith(token));
      if i == |regs| {
        return NOT_FOUND;
      }
      if !writes {
        return SERVER_ERROR;
      }
      regs := regs[i := regs[i].(usedAt := Some(now), verifiedAt := Some(now), installStatus := "verified")];
      Log(Verify(token, now));
      return 200;
    }

    method EditClient(id: string, edit: ClientEdit, writes: bool) returns (code: int)
      requires Valid()
      modifies this
      ensures Valid() && Evolves(old(server), server)
      ensures server == if writes then Handle(old(server), Edit(id, edit)) else old(server)
      ensures regs == old(regs)
      ensures clients == if writes && EditAccepted(old(clients), id, edit) then Editing(old(clients), id, edit)
                         else old(clients)
      ensures code == if !HasClient(old(clients), id) then NOT_FOUND
                      else if !EditAccepted(old(clients), id, edit) then 400
                      else if writes then 200 else SERVER_ERROR
      ensures code == 404 <==> !IsClient(old(clients), id)
      ensures code == 400 <==> IsClient(old(clients), id) && edit.SetLimits? && !InRange(edit.limits)
      ensures code == 404 || code == 400 || code == if writes then 200 else 500
      ensures code == 200 ==> IsEdited(old(clients), clients, id, edit)
      ensures code != 200 ==> clients == old(clients)
    {
      hide Sound, Evolves, Editing, EditAccepted;
      EvolvesSelf(server);
      HasClientIff(clients, id);
      EditedAs(clients, id, edit);
      code := EditAll(id, edit, writes);
      if writes {
        Log(Edit(id, edit));
      }
    }

    method EditAll(id: string, edit: ClientEdit, writes: bool) returns (code: int)
      modifies this`clients
      ensures clients == if writes && EditAccepted(old(clients), id, edit) then Editing(old(clients), id, edit)
                         else old(clients)
      ensures code == if !HasClient(old(clients), id) then NOT_FOUND
                      else if !EditAccepted(old(clients), id, edit) then 400
                      else if writes then 200 else SERVER_ERROR
    {
      var next := clients;
      var found := false;
      for i := 0 to |clients|
        invariant |next| == |clients|
        invariant forall j :: 0 <= j < |clients| ==>
                    next[j] == if j < i && clients[j].id == id then Edited(clients[j], edit) else clients[j]
        invariant found <==> FindClient(clients, id) < i
        invariant found && edit.SetLimits? ==> ValidLimits(edit.limits)
      {
        if clients[i].id == id {
          found := true;
          if edit.SetLimits? && !ValidLimits(edit.limits) {
            return 400;
          }
          next := next[i := Edited(clients[i], edit)];
        }
      }
      if !found {
        return NOT_FOUND;
      }
      assert next == Editing(clients, id, edit);
      if !writes {
        return SERVER_ERROR;
      }
      clients := next;
      return 200;
    }
  }

  lemma FirstOrNone(regs: seq<Registration>, id: string)
    ensures forall i: nat :: IsFirstOf(regs, id, i) <==> i == First(regs, AnyOf(id)) < |regs|
    ensures First(regs, AnyOf(id)) == |regs| <==> forall i :: 0 <= i < |regs| ==> regs[i].id != id
  {
    forall i: nat
      ensures IsFirstOf(regs, id, i) <==> i == First(regs, AnyOf(id)) < |regs|
    {
      FirstsAre(regs, id, "", i);
    }
    FirstFits(regs, AnyOf(id));
  }

  lemma FirstWithOrNone(regs: seq<Registration>, token: string)
    ensures forall i: nat :: IsFirstWith(regs, token, i) <==> i == First(regs, ApprovedWith(token)) < |regs|
    ensures First(regs, ApprovedWith(token)) == |regs| <==> forall i: nat :: !IsFirstWith(regs, token, i)
  {
    forall i: nat
      ensures IsFirstWith(regs, token, i) <==> i == First(regs, ApprovedWith(token)) < |regs|
    {
      FirstsAre(regs, "", token, i);
    }
    assert First(regs, ApprovedWith(token)) < |regs| ==> IsFirstWith(regs, token, First(regs, ApprovedWith(token)));
  }

  lemma ApprovedAs(d: Disk, id: string, token: string, install: string, now: nat)
    ensures ApprovedClients(d, id, token) == d.clients + [Client(id, token, false, Limits(20000, 0, 0, false))]
    ensures First(d.regs, AnyOf(id)) < |d.regs| ==>
              var i := First(d.regs, AnyOf(id));
              var r := d.regs[i];
              ApprovedRegs(d, id, install, now) ==
              d.regs[i := r.(status := Approved, approvedAt := Some(now), usedAt := None,
                             installToken := if r.installToken == "" then install else r.installToken,
                             issuedAt := if r.installToken == "" then now else r.issuedAt,
                             installStatus := "approved")]
  {
  }

  ghost predicate OwnsToken(clients: seq<Client>, id: string, token: string) {
    exists i :: 0 <= i < |clients| && clients[i].id == id && clients[i].token == token
  }

  /** What a fetch answers, and what it leaves behind. */
  lemma DeliveredAs(s: Server, token: string, json: bool, now: nat)
    requires Sound(s) && s.mid == None
    ensures var d := s.disk;
            var reply, e := Delivery(d, token), Delivering(d, token, json, now);
            && e.clients == d.clients
            && ((forall i: nat :: !IsFirstWith(d.regs, token, i)) ==> reply == Reply(404, "") && e == d)
            && forall i: nat :: IsFirstWith(d.regs, token, i) ==>
                 var r := d.regs[i];
                 if r.usedAt.Some? then reply == Reply(410, "") && e == d
                 else
                   && reply.code == 200 && OwnsToken(d.clients, r.id, reply.token)
                   && e.regs == d.regs[i := r.(usedAt := if json then None else Some(now), installStatus := "delivered")]
  {
    var d := s.disk;
    var i := First(d.regs, ApprovedWith(token));
    FirstWithOrNone(d.regs, token);
    if i < |d.regs| {
      var r := d.regs[i];
      assert IsFirstWith(d.regs, token, i) && RegSound(r, d.clients);
      var c := FindClient(d.clients, r.id);
      assert d.clients[c].id == r.id && d.clients[c].token == TokenOf(d.clients, r.id);
    }
  }

  predicate InRange(l: Limits) {
    0 <= l.ratePerMinute <= 1000000 && 0 <= l.autoDisableSigns <= 1000000 && 0 <= l.autoDisableErrors <= 1000000
  }

  /** Exactly the clients with the id have changed: disabled, enabled, or given the limits. */
  ghost predicate IsEdited(before: seq<Client>, after: seq<Client>, id: string, edit: ClientEdit) {
    && |after| == |before|
    && forall i :: 0 <= i < |before| ==>
         var c := before[i];
         after[i] == if c.id != id then c
                     else
                       Client(id, c.token, edit.Disable? || (c.disabled && !edit.Enable?),
                              if edit.SetLimits? then edit.limits else c.limits)
  }

  lemma EditedAs(clients: seq<Client>, id: string, edit: ClientEdit)
    ensures IsEdited(clients, Editing(clients, id, edit), id, edit)
    ensures EditAccepted(clients, id, edit) <==> HasClient(clients, id) && (edit.SetLimits? ==> InRange(edit.limits))
  {
  }

  /** Both writes of an approval, or the first one and a failure of the second. */
  function Approval(s: Server, id: string, token: string, install: string, now: nat, finishes: bool): Server {
    Handle(Handle(s, Approve(id, token, install, now)), if finishes then Finish else Crash)
  }

  lemma ApprovalIsSound(s: Server, id: string, token: string, install: string, now: nat, finishes: bool)
    requires Sound(s) && s.mid == None && Approvable(s.disk, id) && token != ""
    ensures var t := Approval(s, id, token, install, now, finishes);
            && Sound(t) && Evolves(s, t) && t.mid == None
            && t.disk == Disk(ApprovedClients(s.disk, id, token),
                              if finishes then ApprovedRegs(s.disk, id, install, now) else s.disk.regs)
  {
    hide Sound, Evolves, ApprovedClients, ApprovedRegs, Approvable;
    var half := Handle(s, Approve(id, token, install, now));
    HandleIsSound(s, Approve(id, token, install, now));
    HandleIsSound(half, if finishes then Finish else Crash);
    EvolvesTransitive(s, half, Approval(s, id, token, install, now, finishes));
  }

  lemma EvolvesSelf(s: Server)
    ensures Evolves(s, s)
  {
  }

  lemma ApprovedHasClient(s: Server, token: string)
    requires Sound(s) && s.mid == None
    ensures Delivery(s.disk, token) != Reply(NOT_FOUND, "client not found")
  {
    var i := First(s.disk.regs, ApprovedWith(token));
    if i < |s.disk.regs| {
      assert RegSound(s.disk.regs[i], s.disk.clients);
    }
  }
}
