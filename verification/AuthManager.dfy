/** The signer's authManager: per-client state updated in place under one lock.  Each method here is
    one critical section, proved to do to the stored state what Signing says. */
module AuthManagement {
  import opened Options
  import opened Signing
  import opened RevokedFiles
  import opened Text

  // ---------------------------------------------------------------- loading the clients

  /** An entry of the clients file. */
  datatype ClientEntry = ClientEntry(id: string, cfg: ClientConfig)

  predicate IsComplete(e: ClientEntry) {
    Trim(e.id) != "" && e.cfg.token != ""
  }

  /** loadClients: the clients by their trimmed ids, a later entry in place of an earlier one; None, which keeps the
      signer from starting, as soon as an entry lacks its id or its token. */
  method LoadClients(entries: seq<ClientEntry>) returns (configs: Option<map<string, ClientConfig>>)
    ensures configs.Some? <==> forall i :: 0 <= i < |entries| ==> Trim(entries[i].id) != "" && entries[i].cfg.token != ""
    ensures configs.Some? ==> forall id ::
              if id in configs.value then exists i :: IsLastOf(entries, id, i) && entries[i].cfg == configs.value[id]
              else forall i :: 0 <= i < |entries| ==> Trim(entries[i].id) != id
    ensures configs.Some? ==> IsLoaded(configs.value, entries)
  {
    hide Trim;
    var loaded: map<string, ClientConfig> := map[];
    for i := 0 to |entries|
      invariant forall j :: 0 <= j < i ==> IsComplete(entries[j])
      invariant IsLoaded(loaded, entries[..i])
    {
      var id := Trim(entries[i].id);
      if id == "" || entries[i].cfg.token == "" {
        assert !IsComplete(entries[i]) && entries[i] in entries;
        return None;
      }
      OneMoreEntry(loaded, entries, i);
      loaded := loaded[id := entries[i].cfg];
    }
    assert entries[..|entries|] == entries;
    forall id
      ensures if id in loaded then exists i :: IsLastOf(entries, id, i) && entries[i].cfg == loaded[id]
              else forall i :: 0 <= i < |entries| ==> Trim(entries[i].id) != id
    {
      LastEntryIs(entries, id);
    }
    return Some(loaded);
  }

  /** Entry `i` is the last one with this id, blanks around it not counting. */
  ghost predicate IsLastOf(entries: seq<ClientEntry>, id: string, i: int) {
    0 <= i < |entries| && Trim(entries[i].id) == id && forall j :: i < j < |entries| ==> Trim(entries[j].id) != id
  }

  lemma {:induction false} LastEntryIs(entries: seq<ClientEntry>, id: string)
    ensures var last := LastEntry(entries, id);
            if last.Some? then exists i :: IsLastOf(entries, id, i) && entries[i].cfg == last.value
            else forall i :: 0 <= i < |entries| ==> Trim(entries[i].id) != id
  {
    hide Trim;
    if entries != [] {
      var most, n := entries[..|entries| - 1], |entries| - 1;
      LastEntryIs(most, id);
      if Trim(entries[n].id) == id {
        assert IsLastOf(entries, id, n);
      } else if LastEntry(most, id).Some? {
        var i :| IsLastOf(most, id, i) && most[i].cfg == LastEntry(most, id).value;
        assert IsLastOf(entries, id, i) && entries[i].cfg == most[i].cfg;
      }
    }
  }

  /** The configuration of the last entry with this id, if there is one. */
  function LastEntry(entries: seq<ClientEntry>, id: string): Option<ClientConfig> {
    if entries == [] then None
    else
      var last := entries[|entries| - 1];
      if Trim(last.id) == id then Some(last.cfg) else LastEntry(entries[..|entries| - 1], id)
  }

  /** Exactly the ids of the file, each with the configuration of its last entry. */
  ghost predicate IsLoaded(configs: map<string, ClientConfig>, entries: seq<ClientEntry>) {
    forall id :: LastEntry(entries, id) == if id in configs then Some(configs[id]) else None
  }

  lemma OneMoreEntry(configs: map<string, ClientConfig>, entries: seq<ClientEntry>, i: nat)
    requires i < |entries| && IsLoaded(configs, entries[..i])
    ensures IsLoaded(configs[Trim(entries[i].id) := entries[i].cfg], entries[..i + 1])
  {
    hide Trim;
    assert entries[..i + 1][..i] == entries[..i] && entries[..i + 1][i] == entries[i];
  }

  /** So the signer's clients have ids and tokens that are not empty: an empty id never names a client. */
  lemma LoadedClientsAreNamed(configs: map<string, ClientConfig>, entries: seq<ClientEntry>)
    requires IsLoaded(configs, entries) && forall e :: e in entries ==> IsComplete(e)
    ensures "" !in configs && forall id :: id in configs ==> configs[id].token != ""
  {
    forall id
      ensures id in configs ==> id != "" && configs[id].token != ""
    {
      LastEntryIsComplete(entries, id);
    }
  }

  lemma {:induction false} LastEntryIsComplete(entries: seq<ClientEntry>, id: string)
    requires forall e :: e in entries ==> IsComplete(e)
    ensures LastEntry(entries, id).Some? ==> id != "" && LastEntry(entries, id).value.token != ""
  {
    hide Trim;
    if entries != [] {
      assert IsComplete(entries[|entries| - 1]);
      LastEntryIsComplete(entries[..|entries| - 1], id);
    }
  }

  // ---------------------------------------------------------------- the manager

  class ClientState {
    const cfg: ClientConfig
    var window: Option<int>
    var signs: nat
    var errors: nat
    var autoDisabled: bool

    constructor (cfg: ClientConfig)
      ensures Value() == Client(cfg, None, 0, 0, false)
    {
      this.cfg := cfg;
      window, signs, errors, autoDisabled := None, 0, 0, false;
    }

    ghost function Value(): Client
      reads this
    {
      Client(cfg, window, signs, errors, autoDisabled)
    }
  }

  datatype AuditRecord = AuditRecord(client: string, action: Action, ok: bool, reason: string)

  class AuthManager {
    const setup: Setup
    const clients: map<string, ClientState>
    const revokedPath: string
    var revoked: set<string>
    var revokedFile: RevokedFile
    var writable: bool                 // whether the disk takes appends at the moment
    var audit: seq<AuditRecord>

    ghost predicate Valid()
      reads this
    {
      forall a, b :: a in clients && b in clients && clients[a] == clients[b] ==> a == b
    }

    ghost function View(): map<string, Client>
      reads this, clients.Values
    {
      map id | id in clients :: clients[id].Value()
    }

    /** Start from a revoked file, as loadRevoked does. */
    constructor (setup: Setup, configs: map<string, ClientConfig>, revokedPath: string, file: RevokedFile)
      ensures Valid() && fresh(clients.Values)
      ensures this.setup == setup && this.revokedPath == revokedPath && revokedFile == file && audit == []
      ensures revoked == if revokedPath == "" then {} else Ids(file.text)
      ensures View() == map id | id in configs :: Client(configs[id], None, 0, 0, false)
    {
      var loaded: map<string, ClientState> := map[];
      var todo := configs.Keys;
      while todo != {}
        invariant todo <= configs.Keys && loaded.Keys == configs.Keys - todo
        invariant forall id :: id in loaded ==>
                    fresh(loaded[id]) && loaded[id].Value() == Client(configs[id], None, 0, 0, false)
        invariant forall a, b :: a in loaded && b in loaded && loaded[a] == loaded[b] ==> a == b
        decreases |todo|
      {
        var id :| id in todo;
        var state := new ClientState(configs[id]);
        loaded := loaded[id := state];
        todo := todo - {id};
      }
      var ids := [];
      if revokedPath != "" {
        ids := file.Read();
      }
      this.setup, this.clients, this.revokedPath := setup, loaded, revokedPath;
      revoked, revokedFile, writable, audit := SetOf(ids), file, true, [];
    }

    /** Go's map iteration has no fixed order, so the order of the search is left open. */
    method Authenticate(token: string) returns (id: string, ok: bool, reason: string)
      requires Valid() && "" !in clients
      ensures Identifies(setup, View(), token, id)
      ensures ok == Welcome(setup, View(), revoked, id) && reason == Refusal(setup, View(), revoked, id)
      ensures !setup.clientsMode && clients == map[] ==>
                && (ok <==> setup.sharedToken == "" || token == setup.sharedToken)
                && id == (if ok then "shared" else "") && reason == if ok then "" else "bad token"
      ensures setup.clientsMode || clients != map[] ==>
                if forall other :: other in clients ==> clients[other].cfg.token != token
                then id == "" && !ok && reason == "bad token"
                else
                  && id in clients && clients[id].cfg.token == token
                  && (ok <==> !clients[id].cfg.disabled && !clients[id].autoDisabled && id !in revoked)
                  && reason == if ok then "" else if clients[id].cfg.disabled then "client disabled"
                               else if clients[id].autoDisabled then "client auto-disabled" else "client revoked"
    {
      if !setup.clientsMode && clients == map[] {
        assert View() == map[];
        if setup.sharedToken == "" || token == setup.sharedToken {
          return "shared", true, "";
        }
        return "", false, "bad token";
      }
      assert View().Keys == clients.Keys;
      assert View() != map[] || setup.clientsMode by {
        if clients != map[] {
          var x :| x in clients;
          assert x in View();
        }
      }
      var todo := clients.Keys;
      while todo != {}
        invariant todo <= clients.Keys
        invariant forall other :: other in clients.Keys - todo ==> clients[other].cfg.token != token
        decreases |todo|
      {
        id :| id in todo;
        var state := clients[id];
        if token == state.cfg.token {
          if state.cfg.disabled {
            return id, false, "client disabled";
          }
          if state.autoDisabled {
            return id, false, "client auto-disabled";
          }
          if id in revoked {
            return id, false, "client revoked";
          }
          return id, true, "";
        }
        todo := todo - {id};
      }
      return "", false, "bad token";
    }

    /** What a critical section does to the revoked set and its file.  A failing disk goes unnoticed. */
    twostate predicate Persisted(id: string, revokes: bool)
      reads this, revokedFile
    {
      && revokedFile == old(revokedFile)
      && revoked == old(revoked) + (if revokes then {id} else {})
      && revokedFile.text ==
         if revokes && id !in old(revoked) && revokedPath != "" && writable
         then old(revokedFile.text) + id + "\n" else old(revokedFile.text)
    }

    /** While the disk works, set and file move together as the ledger of RevokedFiles does. */
    twostate lemma PersistedIsRevoke(id: string, revokes: bool)
      requires Persisted(id, revokes) && revokedPath != "" && writable
      ensures Ledger(revoked, revokedFile.text) ==
              var l := Ledger(old(revoked), old(revokedFile.text)); if revokes then Revoke(l, id) else l
    {
    }

    /** Remember a revocation and append it to the file. */
    method AppendRevoked(id: string)
      modifies this`revoked, revokedFile
      ensures Persisted(id, true)
      ensures revoked == old(revoked) + {id} && revokedFile == old(revokedFile)
      ensures revokedFile.text == old(revokedFile.text) ||
              (writable && id !in old(revoked) && revokedFile.text == old(revokedFile.text) + id + "\n")
    {
      if id in revoked {
        return;
      }
      revoked := revoked + {id};
      if revokedPath == "" || !writable {
        return;
      }
      revokedFile.text := revokedFile.text + id + "\n";
    }

    method Allowed(id: string, action: Action) returns (ok: bool, reason: string)
      requires Valid()
      modifies this`revoked, revokedFile, clients.Values
      ensures Valid()
      ensures id !in clients ==> ok && reason == "" && View() == old(View()) && Persisted(id, false)
      ensures id in clients ==>
                var o := Allowing(old(View())[id], action);
                && ok == o.ok && reason == o.reason && View() == old(View())[id := o.client]
                && Persisted(id, o.revokes) && revoked == old(revoked) + if o.revokes then {id} else {}
    {
      if id !in clients {
        return true, "";
      }
      var state := clients[id];
      if state.cfg.ratePerMinute > 0 && action == Sign && state.signs >= state.cfg.ratePerMinute {
        assert View() == old(View());
        return false, "rate limit exceeded";
      }
      if state.cfg.autoDisableSigns > 0 && action == Sign && state.signs >= state.cfg.autoDisableSigns {
        if state.cfg.autoRevoke {
          state.autoDisabled := true;
          AppendRevoked(id);
          return false, "auto-revoked: sign threshold exceeded";
        }
        assert View() == old(View());
        return false, "auto limit exceeded: sign threshold";
      }
      assert View() == old(View());
      return true, "";
    }

    method Record(id: string, action: Action, ok: bool, reason: string, now: nat)
      requires Valid()
      modifies this`revoked, this`audit, revokedFile, clients.Values
      ensures Valid()
      ensures id !in clients ==>
                && View() == old(View()) && Persisted(id, false)
                && audit == old(audit) + [AuditRecord(id, action, ok, reason)]
      ensures id in clients ==>
                var o := Recording(old(View())[id], action, ok, reason, Minute(now));
                && View() == old(View())[id := o.client]
                && Persisted(id, o.revokes) && revoked == old(revoked) + (if o.revokes then {id} else {})
                && audit == old(audit) + [AuditRecord(id, action, o.ok, o.reason)]
    {
      hide Counted, Rolled, CheckErrors, CheckSigns, CheckRate;
      var ok', reason' := ok, reason;
      if id in clients {
        var state := clients[id];
        Count(state, action, ok, Minute(now));
        ok', reason' := Check(id, state, action, ok, reason);
        assert View() == old(View())[id := state.Value()];
      }
      audit := audit + [AuditRecord(id, action, ok', reason')];
      assert id !in clients ==> View() == old(View());
    }

    /** First half of record: roll the window if its minute is over, then count the attempt. */
    method Count(state: ClientState, action: Action, ok: bool, minute: int)
      modifies state
      ensures state.Value() == Counted(Rolled(old(state.Value()), minute), action, ok)
    {
      if state.window == None || state.window != Some(minute) {
        state.window := Some(minute);
        state.signs := 0;
        state.errors := 0;
      }
      if ok && action == Sign {
        state.signs := state.signs + 1;
      }
      if !ok {
        state.errors := state.errors + 1;
      }
    }

    /** Second half of record: the three limits, in order; the last one exceeded gives the reason. */
    method Check(id: string, state: ClientState, action: Action, ok: bool, reason: string)
        returns (ok': bool, reason': string)
      modifies this`revoked, revokedFile, state
      ensures var o := CheckErrors(CheckSigns(CheckRate(Outcome(old(state.Value()), ok, reason, false), action), action));
              && state.Value() == o.client && ok' == o.ok && reason' == o.reason
              && Persisted(id, o.revokes)
    {
      ok', reason' := ok, reason;
      if state.cfg.ratePerMinute > 0 && action == Sign && state.signs > state.cfg.ratePerMinute {
        reason', ok' := "rate limit exceeded", false;
      }
      ghost var o := CheckSigns(Outcome(state.Value(), ok', reason', false), action);
      ok', reason' := LimitSigns(id, state, action, ok', reason');
      ok', reason' := LimitErrors(id, state, ok', reason', o.revokes);
    }

    method LimitSigns(id: string, state: ClientState, action: Action, ok: bool, reason: string)
        returns (ok': bool, reason': string)
      modifies this`revoked, revokedFile, state
      ensures var o := CheckSigns(Outcome(old(state.Value()), ok, reason, false), action);
              o == Outcome(state.Value(), ok', reason', o.revokes) && Persisted(id, o.revokes)
    {
      ok', reason' := ok, reason;
      if state.cfg.autoDisableSigns > 0 && action == Sign && state.signs > state.cfg.autoDisableSigns {
        ok' := false;
        reason' := Exceed(id, state, "auto limit exceeded: sign threshold", "auto-revoked: sign threshold exceeded");
      }
    }

    method LimitErrors(id: string, state: ClientState, ok: bool, reason: string, ghost revokes: bool)
        returns (ok': bool, reason': string)
      requires revokes ==> id in revoked
      modifies this`revoked, revokedFile, state
      ensures var o := CheckErrors(Outcome(old(state.Value()), ok, reason, revokes));
              o == Outcome(state.Value(), ok', reason', o.revokes) && Persisted(id, o.revokes)
    {
      ok', reason' := ok, reason;
      if state.cfg.autoDisableErrors > 0 && state.errors > state.cfg.autoDisableErrors {
        ok' := false;
        reason' := Exceed(id, state, "auto limit exceeded: error threshold", "auto-revoked: error threshold exceeded");
      }
    }

    /** A threshold is exceeded: say so, and revoke the client if it is configured that way. */
    method Exceed(id: string, state: ClientState, limited: string, disabled: string) returns (reason: string)
      modifies this`revoked, revokedFile, state
      ensures reason == if state.cfg.autoRevoke then disabled else limited
      ensures var c := old(state.Value());
              state.Value() == if state.cfg.autoRevoke then c.(autoDisabled := true) else c
      ensures Persisted(id, state.cfg.autoRevoke)
    {
      reason := limited;
      if state.cfg.autoRevoke {
        state.autoDisabled := true;
        reason := disabled;
        AppendRevoked(id);
      }
    }
  }
}
