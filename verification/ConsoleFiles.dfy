/** The console's two files, clients.json and edge-registrations.json, and what each request handler
    answers and writes, as functions of their contents. */
module ConsoleFiles {
  import opened Options
  import opened Text

  datatype Status = Pending | Approved | Rejected

  datatype Limits = Limits(ratePerMinute: int, autoDisableSigns: int, autoDisableErrors: int, autoRevoke: bool)

  datatype Client = Client(id: string, token: string, disabled: bool, limits: Limits)

  datatype Registration = Registration(
    id: string, edgeLabel: string, status: Status, requestedAt: nat, installToken: string, issuedAt: nat,
    approvedAt: Option<nat>, rejectedAt: Option<nat>, usedAt: Option<nat>, verifiedAt: Option<nat>,
    installStatus: string)

  datatype Disk = Disk(clients: seq<Client>, regs: seq<Registration>)

  /** An HTTP status, and the signer token when one is handed out. */
  datatype Reply = Reply(code: int, token: string)

  const ACCEPTED := 202
  const CONFLICT := 409
  const NOT_FOUND := 404
  const GONE := 410
  const SERVER_ERROR := 500

  // ---------------------------------------------------------------- validation

  predicate IsTokenChar(c: char) {
    'a' <= c <= 'z' || 'A' <= c <= 'Z' || '0' <= c <= '9' || c == '-' || c == '_'
  }

  predicate ValidClientId(id: string) {
    3 <= |id| <= 64 && forall c :: c in id ==> IsTokenChar(c) || c == '.'
  }

  predicate ValidInstallToken(token: string) {
    32 <= |token| <= 128 && forall c :: c in token ==> IsTokenChar(c)
  }

  /** Valid ids and tokens pass the handler's trimming unchanged, so an edge polls with the very token that was stored. */
  lemma ValidTextIsTrimmed(s: string)
    requires ValidClientId(s) || ValidInstallToken(s)
    ensures Trim(s) == s
  {
    assert s[0] in s && s[|s| - 1] in s;
    NoTokenCharIsBlank(s[0]);
    NoTokenCharIsBlank(s[|s| - 1]);
    BareTextIsTrimmed(s);
  }

  lemma NoTokenCharIsBlank(c: char)
    requires IsTokenChar(c) || c == '.'
    ensures !IsSpace(c)
  {
  }

  /** Digits, letters, hyphen and underscore, by their ASCII codes. */
  predicate IsCode(n: int) {
    48 <= n <= 57 || 65 <= n <= 90 || 97 <= n <= 122 || n == 45 || n == 95
  }

  /** Which ids and install tokens are valid, by length and ASCII code. */
  lemma ValidTextIs(s: string)
    ensures ValidClientId(s) <==> 3 <= |s| <= 64 && forall i :: 0 <= i < |s| ==> IsCode(s[i] as int) || s[i] as int == 46
    ensures ValidInstallToken(s) <==> 32 <= |s| <= 128 && forall i :: 0 <= i < |s| ==> IsCode(s[i] as int)
  {
    assert forall i :: 0 <= i < |s| ==> s[i] in s;
  }

  // ---------------------------------------------------------------- lookups

  /** What the handlers' loops look for. */
  datatype Sought = AnyOf(id: string) | PendingOf(id: string) | ApprovedWith(token: string)

  predicate Fits(q: Sought, r: Registration) {
    match q
    case AnyOf(id) => r.id == id
    case PendingOf(id) => r.id == id && r.status == Pending
    case ApprovedWith(token) => r.installToken == token && r.status == Approved
  }

  /** The first registration that fits, or the length of the list. */
  function First(regs: seq<Registration>, q: Sought): (i: nat)
    ensures i <= |regs|
    ensures i < |regs| ==> Fits(q, regs[i])
    ensures forall j :: 0 <= j < i ==> !Fits(q, regs[j])
  {
    if regs == [] then 0 else if Fits(q, regs[0]) then 0 else First(regs[1..], q) + 1
  }

  /** The first registration of an id, whatever its status. */
  ghost predicate IsFirstOf(regs: seq<Registration>, id: string, i: nat) {
    i < |regs| && regs[i].id == id && forall j :: 0 <= j < i ==> regs[j].id != id
  }

  /** The first approved registration with an install token. */
  ghost predicate IsFirstWith(regs: seq<Registration>, token: string, i: nat) {
    && i < |regs| && regs[i].installToken == token && regs[i].status == Approved
    && forall j :: 0 <= j < i ==> !(regs[j].installToken == token && regs[j].status == Approved)
  }

  lemma FirstsAre(regs: seq<Registration>, id: string, token: string, i: nat)
    ensures IsFirstOf(regs, id, i) <==> i == First(regs, AnyOf(id)) < |regs|
    ensures IsFirstWith(regs, token, i) <==> i == First(regs, ApprovedWith(token)) < |regs|
  {
    if IsFirstOf(regs, id, i) {
      FirstIsUnique(regs, AnyOf(id), i);
    }
    if IsFirstWith(regs, token, i) {
      FirstIsUnique(regs, ApprovedWith(token), i);
    }
    FirstFits(regs, AnyOf(id));
    FirstFits(regs, ApprovedWith(token));
  }

  lemma FirstFits(regs: seq<Registration>, q: Sought)
    ensures var i := First(regs, q);
            (i < |regs| ==> Fits(q, regs[i])) && forall j :: 0 <= j < i ==> !Fits(q, regs[j])
  {
  }

  function FindClient(clients: seq<Client>, id: string): (i: nat)
    ensures i <= |clients|
    ensures i < |clients| ==> clients[i].id == id
    ensures forall j :: 0 <= j < i ==> clients[j].id != id
  {
    if clients == [] then 0 else if clients[0].id == id then 0 else FindClient(clients[1..], id) + 1
  }

  predicate HasClient(clients: seq<Client>, id: string) {
    FindClient(clients, id) < |clients|
  }

  function TokenOf(clients: seq<Client>, id: string): string {
    if HasClient(clients, id) then clients[FindClient(clients, id)].token else ""
  }

  // ---------------------------------------------------------------- the handlers

  function NewRegistration(id: string, edgeLabel: string, token: string, now: nat): Registration {
    Registration(id, edgeLabel, Pending, now, token, now, None, None, None, None, "")
  }

  /** registerEdge, once the request has been validated. */
  function Registering(d: Disk, id: string, edgeLabel: string, token: string, now: nat): Disk {
    if HasClient(d.clients, id) then d
    else
      var i := First(d.regs, PendingOf(id));
      d.(regs := if i < |d.regs|
                 then d.regs[i := d.regs[i].(edgeLabel := edgeLabel, requestedAt := now,
                                             installToken := token, issuedAt := now)]
                 else d.regs + [NewRegistration(id, edgeLabel, token, now)])
  }

  ghost predicate IsClient(clients: seq<Client>, id: string) {
    exists i :: 0 <= i < |clients| && clients[i].id == id
  }

  lemma HasClientIff(clients: seq<Client>, id: string)
    ensures HasClient(clients, id) <==> IsClient(clients, id)
  {
    var i := FindClient(clients, id);
    assert i < |clients| ==> clients[i].id == id;
  }

  /** A pending registration of the id, with this label and token, as of now. */
  ghost predicate IsPending(regs: seq<Registration>, id: string, edgeLabel: string, token: string, now: nat) {
    exists i :: 0 <= i < |regs| && regs[i].id == id && regs[i].status == Pending && regs[i].edgeLabel == edgeLabel
                && regs[i].installToken == token && regs[i].requestedAt == now && regs[i].issuedAt == now
  }

  /** At most one registration more, and of the others only the pending one of `id` has changed. */
  ghost predicate OnlyPendingChanged(before: seq<Registration>, after: seq<Registration>, id: string) {
    && |before| <= |after| <= |before| + 1
    && (forall i :: 0 <= i < |before| ==> after[i] == before[i] || (before[i].id == id && before[i].status == Pending))
    && (|after| > |before| ==> after[..|before|] == before)
  }

  /** What a registration leaves behind: nothing, if the id has a client already. */
  lemma RegisteredAs(d: Disk, id: string, edgeLabel: string, token: string, now: nat)
    ensures var e := Registering(d, id, edgeLabel, token, now);
            if HasClient(d.clients, id) then e == d
            else
              && e.clients == d.clients && IsPending(e.regs, id, edgeLabel, token, now)
              && OnlyPendingChanged(d.regs, e.regs, id)
  {
    if HasClient(d.clients, id) {
      return;
    }
    var e, i := Registering(d, id, edgeLabel, token, now), First(d.regs, PendingOf(id));
    FirstFits(d.regs, PendingOf(id));
    assert e.regs[i].id == id && e.regs[i].status == Pending && e.regs[i].installToken == token;
  }

  /** Whether approve goes ahead, and the contents of both files it then writes, clients first. */
  predicate Approvable(d: Disk, id: string) {
    First(d.regs, AnyOf(id)) < |d.regs| && !HasClient(d.clients, id)
  }

  function ApprovedClients(d: Disk, id: string, token: string): seq<Client> {
    d.clients + [Client(id, token, false, Limits(20000, 0, 0, false))]
  }

  function ApprovedRegs(d: Disk, id: string, install: string, now: nat): seq<Registration>
    requires First(d.regs, AnyOf(id)) < |d.regs|
  {
    var i := First(d.regs, AnyOf(id));
    var r := d.regs[i];
    d.regs[i := r.(status := Approved, approvedAt := Some(now),
                   installToken := if r.installToken == "" then install else r.installToken,
                   issuedAt := if r.installToken == "" then now else r.issuedAt,
                   usedAt := None, installStatus := "approved")]
  }

  function Rejecting(d: Disk, id: string, now: nat): Disk {
    var i := First(d.regs, AnyOf(id));
    if i == |d.regs| then d else d.(regs := d.regs[i := d.regs[i].(status := Rejected, rejectedAt := Some(now))])
  }

  /** installEdge's answer. */
  function Delivery(d: Disk, token: string): Reply {
    var i := First(d.regs, ApprovedWith(token));
    if i == |d.regs| then Reply(NOT_FOUND, "")
    else if d.regs[i].usedAt.Some? then Reply(GONE, "")
    else if TokenOf(d.clients, d.regs[i].id) == "" then Reply(NOT_FOUND, "client not found")
    else Reply(200, TokenOf(d.clients, d.regs[i].id))
  }

  /** What installEdge writes: the JSON form leaves the token usable, the shell form uses it up. */
  function Delivering(d: Disk, token: string, json: bool, now: nat): Disk {
    if Delivery(d, token).code != 200 then d
    else
      var i := First(d.regs, ApprovedWith(token));
      d.(regs := d.regs[i := d.regs[i].(usedAt := if json then d.regs[i].usedAt else Some(now),
                                        installStatus := "delivered")])
  }

  function Verifying(d: Disk, token: string, now: nat): Disk {
    var i := First(d.regs, ApprovedWith(token));
    if i == |d.regs| then d
    else d.(regs := d.regs[i := d.regs[i].(usedAt := Some(now), verifiedAt := Some(now), installStatus := "verified")])
  }

  datatype ClientEdit = Disable | Enable | SetLimits(limits: Limits)

  predicate ValidLimits(l: Limits) {
    0 <= l.ratePerMinute <= 1000000 && 0 <= l.autoDisableSigns <= 1000000 && 0 <= l.autoDisableErrors <= 1000000
  }

  function Edited(c: Client, edit: ClientEdit): Client {
    match edit
    case Disable => c.(disabled := true)
    case Enable => c.(disabled := false)
    case SetLimits(limits) => c.(limits := limits)
  }

  /** clientAction on the clients file: every client with the id is edited. */
  function Editing(clients: seq<Client>, id: string, edit: ClientEdit): (edited: seq<Client>)
    ensures |edited| == |clients|
    ensures forall i :: 0 <= i < |clients| ==>
              edited[i] == if clients[i].id == id then Edited(clients[i], edit) else clients[i]
  {
    if clients == [] then []
    else [if clients[0].id == id then Edited(clients[0], edit) else clients[0]] + Editing(clients[1..], id, edit)
  }

  predicate EditAccepted(clients: seq<Client>, id: string, edit: ClientEdit) {
    HasClient(clients, id) && (edit.SetLimits? ==> ValidLimits(edit.limits))
  }

  lemma {:induction false} FirstIsUnique(regs: seq<Registration>, q: Sought, i: nat)
    requires i <= |regs| && (i < |regs| ==> Fits(q, regs[i]))
    requires forall j :: 0 <= j < i ==> !Fits(q, regs[j])
    ensures i == First(regs, q)
  {
  }
}
