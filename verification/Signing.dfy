/** The signer's per-client bookkeeping: what one call of authenticate, allowed and record decides
    and does to the client's counters. */
module Signing {
  import opened Options

  datatype ClientConfig = ClientConfig(token: string, disabled: bool, ratePerMinute: int,
                                       autoDisableSigns: int, autoDisableErrors: int, autoRevoke: bool)

  /** `window` is the minute the counters belong to; None before the first record. */
  datatype Client = Client(cfg: ClientConfig, window: Option<int>, signs: nat, errors: nat, autoDisabled: bool)

  datatype Action = Auth | Sign

  /** Times are nanoseconds; windows are minutes. */
  function Minute(now: nat): nat {
    now / 60_000_000_000
  }

  // ---------------------------------------------------------------- authenticate

  datatype Setup = Setup(sharedToken: string, clientsMode: bool)

  predicate IsShared(setup: Setup, clients: map<string, Client>) {
    !setup.clientsMode && clients == map[]
  }

  /** `id` is an answer authenticate may give for `token`: clients are searched in any order. */
  ghost predicate Identifies(setup: Setup, clients: map<string, Client>, token: string, id: string) {
    if IsShared(setup, clients) then
      id == if setup.sharedToken == "" || token == setup.sharedToken then "shared" else ""
    else
      || (id in clients && clients[id].cfg.token == token)
      || (id == "" && forall other :: other in clients ==> clients[other].cfg.token != token)
  }

  predicate Welcome(setup: Setup, clients: map<string, Client>, revoked: set<string>, id: string) {
    if IsShared(setup, clients) then id == "shared"
    else id in clients && !clients[id].cfg.disabled && !clients[id].autoDisabled && id !in revoked
  }

  /** Why authenticate turns a caller away; empty when it does not. */
  function Refusal(setup: Setup, clients: map<string, Client>, revoked: set<string>, id: string): string {
    if Welcome(setup, clients, revoked, id) then ""
    else if id !in clients then "bad token"
    else if clients[id].cfg.disabled then "client disabled"
    else if clients[id].autoDisabled then "client auto-disabled"
    else "client revoked"
  }

  // ---------------------------------------------------------------- allowed and record

  /** The outcome of a critical section for one client. */
  datatype Outcome = Outcome(client: Client, ok: bool, reason: string, revokes: bool)

  function Allowing(c: Client, action: Action): Outcome {
    if c.cfg.ratePerMinute > 0 && action == Sign && c.signs >= c.cfg.ratePerMinute then
      Outcome(c, false, "rate limit exceeded", false)
    else if c.cfg.autoDisableSigns > 0 && action == Sign && c.signs >= c.cfg.autoDisableSigns then
      if c.cfg.autoRevoke then
        Outcome(c.(autoDisabled := true), false, "auto-revoked: sign threshold exceeded", true)
      else
        Outcome(c, false, "auto limit exceeded: sign threshold", false)
    else Outcome(c, true, "", false)
  }

  /** The number of signatures in the open window at which allowed starts to deny; 0 when it never does. */
  function Limit(cfg: ClientConfig): (limit: nat)
    ensures limit == 0 <==> cfg.ratePerMinute <= 0 && cfg.autoDisableSigns <= 0
    ensures cfg.ratePerMinute > 0 ==> limit <= cfg.ratePerMinute
    ensures cfg.autoDisableSigns > 0 ==> limit <= cfg.autoDisableSigns
  {
    if cfg.ratePerMinute <= 0 then if cfg.autoDisableSigns <= 0 then 0 else cfg.autoDisableSigns
    else if cfg.autoDisableSigns <= 0 || cfg.ratePerMinute <= cfg.autoDisableSigns then cfg.ratePerMinute
    else cfg.autoDisableSigns
  }

  function Rolled(c: Client, minute: int): Client {
    if c.window == Some(minute) then c else c.(window := Some(minute), signs := 0, errors := 0)
  }

  function Counted(c: Client, action: Action, ok: bool): Client {
    c.(signs := if ok && action == Sign then c.signs + 1 else c.signs,
       errors := if ok then c.errors else c.errors + 1)
  }

  function CheckRate(o: Outcome, action: Action): Outcome {
    var limit := o.client.cfg.ratePerMinute;
    if limit > 0 && action == Sign && o.client.signs > limit
    then o.(ok := false, reason := "rate limit exceeded") else o
  }

  function CheckSigns(o: Outcome, action: Action): Outcome {
    var limit := o.client.cfg.autoDisableSigns;
    if limit > 0 && action == Sign && o.client.signs > limit then
      if o.client.cfg.autoRevoke
      then Outcome(o.client.(autoDisabled := true), false, "auto-revoked: sign threshold exceeded", true)
      else o.(ok := false, reason := "auto limit exceeded: sign threshold")
    else o
  }

  function CheckErrors(o: Outcome): Outcome {
    var limit := o.client.cfg.autoDisableErrors;
    if limit > 0 && o.client.errors > limit then
      if o.client.cfg.autoRevoke
      then Outcome(o.client.(autoDisabled := true), false, "auto-revoked: error threshold exceeded", true)
      else o.(ok := false, reason := "auto limit exceeded: error threshold")
    else o
  }

  function Recording(c: Client, action: Action, ok: bool, reason: string, minute: int): Outcome {
    var counted := Counted(Rolled(c, minute), action, ok);
    CheckErrors(CheckSigns(CheckRate(Outcome(counted, ok, reason, false), action), action))
  }

  lemma AllowingKeepsCounters(c: Client, action: Action)
    ensures var o := Allowing(c, action);
            && o.client == c.(autoDisabled := o.client.autoDisabled)
            && o.client.autoDisabled == (c.autoDisabled || o.revokes)
            && (action == Sign ==> (o.ok <==> Limit(c.cfg) == 0 || c.signs < Limit(c.cfg)))
  {
  }

  lemma RecordingCounts(c: Client, action: Action, ok: bool, reason: string, minute: int)
    ensures var o := Recording(c, action, ok, reason, minute);
            && o.client == Counted(Rolled(c, minute), action, ok).(autoDisabled := o.client.autoDisabled)
            && o.client.autoDisabled == (c.autoDisabled || o.revokes)
  {
    var o := CheckRate(Outcome(Counted(Rolled(c, minute), action, ok), ok, reason, false), action);
    assert o.client == Counted(Rolled(c, minute), action, ok) && !o.revokes;
    ChecksKeepCounters(o, action);
  }

  lemma ChecksKeepCounters(o: Outcome, action: Action)
    requires !o.revokes
    ensures var p := CheckErrors(CheckSigns(o, action));
            && p.client == o.client.(autoDisabled := p.client.autoDisabled)
            && p.client.autoDisabled == (o.client.autoDisabled || p.revokes)
  {
  }

  /** allowed in one formula: the rate limit comes first, and only signing is limited. */
  lemma AllowingIs(c: Client, action: Action)
    ensures var o := Allowing(c, action);
            var rated := action == Sign && 0 < c.cfg.ratePerMinute <= c.signs;
            var full := action == Sign && 0 < c.cfg.autoDisableSigns <= c.signs;
            && o.ok == (!rated && !full) && o.revokes == (!rated && full && c.cfg.autoRevoke)
            && o.client == c.(autoDisabled := c.autoDisabled || o.revokes)
            && o.reason == if rated then "rate limit exceeded"
                           else if !full then ""
                           else SignsReason(c.cfg)
  {
  }

  /** record in one formula: whatever limit is exceeded by the counters, this attempt included, makes the result a
      failure, the last of them gives the reason, and either threshold revokes. */
  lemma RecordingIs(c: Client, action: Action, ok: bool, reason: string, minute: int)
    ensures var o, open := Recording(c, action, ok, reason, minute), c.window == Some(minute);
            var signs := (if open then c.signs else 0) + if ok && action == Sign then 1 else 0;
            var errors := (if open then c.errors else 0) + if ok then 0 else 1;
            var rated := action == Sign && 0 < c.cfg.ratePerMinute < signs;
            var full := action == Sign && 0 < c.cfg.autoDisableSigns < signs;
            var failing := 0 < c.cfg.autoDisableErrors < errors;
            && o.ok == (ok && !rated && !full && !failing)
            && o.revokes == (c.cfg.autoRevoke && (full || failing))
            && o.client == Client(c.cfg, Some(minute), signs, errors, c.autoDisabled || o.revokes)
            && o.reason == if failing then ErrorsReason(c.cfg) else if full then SignsReason(c.cfg)
                           else if rated then "rate limit exceeded" else reason
  {
    hide CheckErrors, CheckSigns, CheckRate, Counted, Rolled;
    var counted := Counted(Rolled(c, minute), action, ok);
    CountedIs(c, action, ok, minute);
    var a := CheckRate(Outcome(counted, ok, reason, false), action);
    RateIs(Outcome(counted, ok, reason, false), action);
    SignsAre(a, action);
    ErrorsAre(CheckSigns(a, action));
  }

  function SignsReason(cfg: ClientConfig): string {
    if cfg.autoRevoke then "auto-revoked: sign threshold exceeded" else "auto limit exceeded: sign threshold"
  }

  function ErrorsReason(cfg: ClientConfig): string {
    if cfg.autoRevoke then "auto-revoked: error threshold exceeded" else "auto limit exceeded: error threshold"
  }

  lemma CountedIs(c: Client, action: Action, ok: bool, minute: int)
    ensures var open := c.window == Some(minute);
            Counted(Rolled(c, minute), action, ok) ==
            Client(c.cfg, Some(minute), (if open then c.signs else 0) + (if ok && action == Sign then 1 else 0),
                   (if open then c.errors else 0) + (if ok then 0 else 1), c.autoDisabled)
  {
  }

  lemma RateIs(o: Outcome, action: Action)
    ensures CheckRate(o, action) ==
            if action == Sign && 0 < o.client.cfg.ratePerMinute < o.client.signs
            then o.(ok := false, reason := "rate limit exceeded") else o
  {
  }

  lemma SignsAre(o: Outcome, action: Action)
    ensures CheckSigns(o, action) ==
            if action == Sign && 0 < o.client.cfg.autoDisableSigns < o.client.signs
            then Outcome(o.client.(autoDisabled := o.client.autoDisabled || o.client.cfg.autoRevoke), false,
                         SignsReason(o.client.cfg), o.revokes || o.client.cfg.autoRevoke)
            else o
  {
  }

  lemma ErrorsAre(o: Outcome)
    ensures CheckErrors(o) ==
            if 0 < o.client.cfg.autoDisableErrors < o.client.errors
            then Outcome(o.client.(autoDisabled := o.client.autoDisabled || o.client.cfg.autoRevoke), false,
                         ErrorsReason(o.client.cfg), o.revokes || o.client.cfg.autoRevoke)
            else o
  {
  }

  // ---------------------------------------------------------------- what the code does and does not do

  /** The error counter never denies anything by itself: allowed gives the same answer whatever it
      is and whatever its limit. */
  lemma AllowedIgnoresErrors(c: Client, errors: nat, limit: int, action: Action)
    ensures var d := c.(errors := errors, cfg := c.cfg.(autoDisableErrors := limit));
            && Allowing(d, action).ok == Allowing(c, action).ok
            && Allowing(d, action).revokes == Allowing(c, action).revokes
  {
  }

  /** allowed never rolls the window.  It denies although the current minute holds no signature exactly when an
      earlier, still open window was used up. */
  lemma StaleDenialIff(c: Client, now: nat)
    ensures !Allowing(c, Sign).ok && Allowing(Rolled(c, Minute(now)), Sign).ok
            <==> c.window != Some(Minute(now)) && 0 < Limit(c.cfg) <= c.signs
  {
    AllowingKeepsCounters(c, Sign);
    AllowingKeepsCounters(Rolled(c, Minute(now)), Sign);
  }

  /** The sign threshold never revokes anybody in allowed: it is off, or does not revoke, or the rate limit denies
      first. */
  predicate IsShadowed(cfg: ClientConfig) {
    !cfg.autoRevoke || cfg.autoDisableSigns <= 0 || 0 < cfg.ratePerMinute <= cfg.autoDisableSigns
  }

  lemma ShadowedIff(c: Client)
    ensures IsShadowed(c.cfg) <==> forall signs: nat :: !Allowing(c.(signs := signs), Sign).revokes
  {
    if !IsShadowed(c.cfg) {
      assert Allowing(c.(signs := c.cfg.autoDisableSigns), Sign).revokes;
    }
  }

  /** Once a sign attempt is over, its audit line says "ok" exactly when a signature was issued and
      no limit is exceeded by the counters, this attempt included. */
  lemma AuditedOkIff(c: Client, ok: bool, reason: string, minute: int)
    ensures var after := Counted(Rolled(c, minute), Sign, ok);
            Recording(c, Sign, ok, reason, minute).ok <==>
              && ok
              && (c.cfg.ratePerMinute <= 0 || after.signs <= c.cfg.ratePerMinute)
              && (c.cfg.autoDisableSigns <= 0 || after.signs <= c.cfg.autoDisableSigns)
              && (c.cfg.autoDisableErrors <= 0 || after.errors <= c.cfg.autoDisableErrors)
  {
  }
}
