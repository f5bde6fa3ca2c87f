/** The edge's request handler around the cache.  A request passes through two critical sections: it is
    looked up, and if that misses, the origin's reply is offered to the cache later, under the request that
    went out to the origin.  Any number of requests may be between the two. */
module Exchanges {
  import opened Options
  import opened Recency
  import opened Text
  import opened CachePolicy
  import opened Backends
  import opened LruStack

  datatype Config = Config(ttl: int, maxBytes: int, maxObjectBytes: int, policy: Policy, backend: Backend) {
    predicate Enabled() {
      ttl > 0 && maxBytes > 0 && maxObjectBytes > 0
    }

    /** The request that the origin gets for a visitor's request. */
    function Sent(r: Request): Request {
      Outgoing(backend, r)
    }
  }

  /** The origin's reply.  A broken reply ends in a read error instead of an end of file. */
  datatype Reply = Reply(status: int, header: HeaderView, body: Option<seq<Byte>>, broken: bool)

  /** What is read of a body: all of it, or the first bytes up to one more than an object may have. */
  function Taken(cfg: Config, body: seq<Byte>): (taken: seq<Byte>)
    requires cfg.Enabled()
    ensures taken <= body
    ensures taken == body <==> |body| <= cfg.maxObjectBytes + 1
    ensures taken != body ==> |taken| == cfg.maxObjectBytes + 1
  {
    if |body| <= cfg.maxObjectBytes + 1 then body else body[..cfg.maxObjectBytes + 1]
  }

  /** The read error of a broken reply is seen only if the read gets that far. */
  predicate ReadFails(cfg: Config, reply: Reply)
    requires cfg.Enabled() && reply.body.Some?
  {
    reply.broken && |reply.body.value| <= cfg.maxObjectBytes
  }

  /** Reading a limited body byte by byte: it ends at the limit, at the end of the body, or with the error that a broken
      body ends in. */
  function ReadLimited(body: seq<Byte>, broken: bool, limit: nat): (seq<Byte>, bool) {
    if limit == 0 then ([], false)
    else if body == [] then ([], broken)
    else
      var (rest, failed) := ReadLimited(body[1..], broken, limit - 1);
      ([body[0]] + rest, failed)
  }

  lemma {:induction false} LimitedReadTakes(body: seq<Byte>, broken: bool, limit: nat)
    ensures ReadLimited(body, broken, limit) ==
            (if |body| <= limit then body else body[..limit], broken && |body| < limit)
  {
    if limit > 0 && body != [] {
      LimitedReadTakes(body[1..], broken, limit - 1);
      assert body == [body[0]] + body[1..];
      if |body| > limit {
        assert body[..limit] == [body[0]] + body[1..][..limit - 1];
      }
    }
  }

  /** What is taken of a body, and whether it fails, is what such a read brings. */
  lemma TakenIsRead(cfg: Config, reply: Reply)
    requires cfg.Enabled() && reply.body.Some?
    ensures ReadLimited(reply.body.value, reply.broken, cfg.maxObjectBytes + 1) ==
            (Taken(cfg, reply.body.value), ReadFails(cfg, reply))
  {
    LimitedReadTakes(reply.body.value, reply.broken, cfg.maxObjectBytes + 1);
  }

  predicate Accepts(cfg: Config, reply: Reply) {
    cfg.Enabled() && reply.body.Some? && !reply.broken && |reply.body.value| <= cfg.maxObjectBytes
  }

  function WithLength(header: HeaderView, n: nat): HeaderView {
    header["Content-Length" := [Decimal(n)]]
  }

  /** The entry for a reply to the outgoing request `r`. */
  function EntryFor(cfg: Config, r: Request, reply: Reply, now: int): Entry
    requires Accepts(cfg, reply)
  {
    var header := WithLength(reply.header, |reply.body.value|);
    Entry(CacheKey(r), reply.status, header, reply.body.value, now, now + cfg.policy.lifetime(header, cfg.ttl))
  }

  function AfterOffer(s: seq<Entry>, cfg: Config, r: Request, reply: Reply, now: int): seq<Entry> {
    if Accepts(cfg, reply) then AfterStore(s, EntryFor(cfg, r, reply, now), cfg.maxBytes) else s
  }

  predicate Consults(cfg: Config, r: Request) {
    cfg.Enabled() && (r.verb == "GET" || r.verb == "HEAD")
  }

  function AnswerTo(s: seq<Entry>, cfg: Config, r: Request, now: int): Option<Entry> {
    if Consults(cfg, r) then Answer(s, CacheKey(r), now) else None
  }

  function AfterLookup(s: seq<Entry>, cfg: Config, r: Request, now: int): seq<Entry> {
    if Consults(cfg, r) then AfterGet(s, CacheKey(r), now) else s
  }

  predicate Offered(cfg: Config, r: Request, reply: Reply) {
    cfg.Enabled() && cfg.policy.cacheable(r, reply.status, reply.header)
  }

  /** A reply that is offered and cannot be read: the visitor gets an error instead. */
  predicate Fails(cfg: Config, r: Request, reply: Reply) {
    Offered(cfg, r, reply) && reply.body.Some? && ReadFails(cfg, reply)
  }

  /** The visitor gets the body that the origin sent. */
  predicate PassesWhole(cfg: Config, r: Request, reply: Reply) {
    || !Offered(cfg, r, reply) || reply.body.None?
    || (|reply.body.value| <= cfg.maxObjectBytes + 1 && !ReadFails(cfg, reply))
  }

  /** What is left of the body of a reply that was offered. */
  function Passed(cfg: Config, body: Option<seq<Byte>>): Option<seq<Byte>>
    requires cfg.Enabled()
  {
    match body case None => None case Some(bytes) => Some(Taken(cfg, bytes))
  }

  lemma PassedWholeIff(cfg: Config, r: Request, reply: Reply)
    requires Offered(cfg, r, reply)
    ensures !Fails(cfg, r, reply) && Passed(cfg, reply.body) == reply.body <==> PassesWhole(cfg, r, reply)
    ensures !Fails(cfg, r, reply) && !PassesWhole(cfg, r, reply) ==>
              cfg.maxObjectBytes + 1 < |reply.body.value|
              && Passed(cfg, reply.body) == Some(reply.body.value[..cfg.maxObjectBytes + 1])
  {
  }

  /** What a reply to the outgoing request `r` leaves behind. */
  function AfterReply(s: seq<Entry>, cfg: Config, r: Request, reply: Reply, now: int): seq<Entry> {
    if Offered(cfg, r, reply) then AfterOffer(s, cfg, r, reply, now) else s
  }

  // ---------------------------------------------------------------- runs of the handler

  /** A request, when it was looked up, and the reply the origin had for it at the end. */
  datatype Exchange = Exchange(request: Request, reply: Reply, asked: int, answered: int)

  /** A request that has been looked up and is not finished. */
  datatype Waiting = Waiting(request: Request, asked: int, missed: bool)

  datatype Done = Done(exchange: Exchange, missed: bool)

  /** `log` holds the finished requests in the order in which they finished. */
  datatype State = State(cache: seq<Entry>, open: map<nat, Waiting>, log: seq<Done>)

  /** A finish brings the reply the origin would give; a request that hit does not ask for it. */
  datatype Step =
    | Ask(id: nat, request: Request, now: int)
    | Finish(id: nat, reply: Reply, now: int)

  function Next(s: State, cfg: Config, step: Step): State {
    match step
    case Ask(id, r, now) =>
      if id in s.open then s
      else
        State(AfterLookup(s.cache, cfg, r, now),
              s.open[id := Waiting(r, now, AnswerTo(s.cache, cfg, r, now).None?)], s.log)
    case Finish(id, reply, now) =>
      if id !in s.open then s
      else
        var w := s.open[id];
        State(if w.missed then AfterReply(s.cache, cfg, cfg.Sent(w.request), reply, now) else s.cache,
              s.open - {id}, s.log + [Done(Exchange(w.request, reply, w.asked, now), w.missed)])
  }

  /** The handler after a run that began with an empty cache. */
  function Run(steps: seq<Step>, cfg: Config): State {
    if steps == [] then State([], map[], [])
    else Next(Run(steps[..|steps| - 1], cfg), cfg, steps[|steps| - 1])
  }

  predicate Cacheable(cfg: Config, x: Exchange) {
    cfg.policy.cacheable(cfg.Sent(x.request), x.reply.status, x.reply.header)
  }

  /** The entry a finished request put into the cache, if it put one there. */
  function Filled(cfg: Config, d: Done): Option<Entry> {
    var x := d.exchange;
    if d.missed && Cacheable(cfg, x) && Accepts(cfg, x.reply)
    then Some(EntryFor(cfg, cfg.Sent(x.request), x.reply, x.answered)) else None
  }

  // ---------------------------------------------------------------- the byte bound

  lemma StepIsBounded(s: State, cfg: Config, step: Step)
    requires cfg.Enabled() && Bounded(s.cache, cfg.maxBytes)
    ensures Bounded(Next(s, cfg, step).cache, cfg.maxBytes)
  {
    match step {
      case Ask(id, r, now) => GetKeepsBounded(s.cache, CacheKey(r), now, cfg.maxBytes);
      case Finish(id, reply, now) =>
        if id in s.open && Accepts(cfg, reply) {
          StoreKeepsBounded(s.cache, EntryFor(cfg, cfg.Sent(s.open[id].request), reply, now), cfg.maxBytes);
        }
    }
  }

  /** The cache never holds two entries of one key and never exceeds its bound, however lookups and
      stores of different requests interleave. */
  lemma {:induction false} CacheIsBounded(steps: seq<Step>, cfg: Config)
    requires cfg.Enabled()
    ensures Bounded(Run(steps, cfg).cache, cfg.maxBytes)
  {
    if steps == [] {
      assert Keys([]) == [];
    } else {
      CacheIsBounded(steps[..|steps| - 1], cfg);
      StepIsBounded(Run(steps[..|steps| - 1], cfg), cfg, steps[|steps| - 1]);
    }
  }

  // ---------------------------------------------------------------- when a request is answered from the cache

  ghost predicate HoldsLive(s: seq<Entry>, k: string, now: int) {
    exists i :: 0 <= i < |s| && s[i].key == k && now <= s[i].expiresAt
  }

  lemma AnswerIffLive(s: seq<Entry>, cfg: Config, r: Request, now: int)
    requires Distinct(Keys(s))
    ensures AnswerTo(s, cfg, r, now).Some? <==>
              && cfg.ttl > 0 && cfg.maxBytes > 0 && cfg.maxObjectBytes > 0
              && (r.verb == "GET" || r.verb == "HEAD") && HoldsLive(s, CacheKey(r), now)
    ensures var answer := AnswerTo(s, cfg, r, now);
            answer.Some? ==> answer.value in s && answer.value.key == CacheKey(r) && now <= answer.value.expiresAt
  {
    hide CacheKey;
    var k := IndexOf(Keys(s), CacheKey(r));
    forall i | 0 <= i < |s| && s[i].key == CacheKey(r)
      ensures i == k
    {
      assert Keys(s)[i] == Keys(s)[k];
    }
  }

  /** At every moment of every run, a request is answered from the cache if and only if the cache is on, the request is a
      GET or a HEAD, and the cache holds an entry for it that has not expired; that entry is the answer, for a HEAD as for
      a GET.  Any other request leaves the cache alone. */
  lemma AnsweredIff(steps: seq<Step>, cfg: Config, r: Request, now: int)
    ensures var s := Run(steps, cfg).cache;
            var answer := AnswerTo(s, cfg, r, now);
            && (answer.Some? <==>
                  && cfg.ttl > 0 && cfg.maxBytes > 0 && cfg.maxObjectBytes > 0
                  && (r.verb == "GET" || r.verb == "HEAD") && HoldsLive(s, CacheKey(r), now))
            && (answer.Some? ==> answer.value in s && answer.value.key == CacheKey(r) && now <= answer.value.expiresAt)
            && AnswerTo(s, cfg, r.(verb := "HEAD"), now) == AnswerTo(s, cfg, r.(verb := "GET"), now)
            && (r.verb != "GET" && r.verb != "HEAD" ==> AfterLookup(s, cfg, r, now) == s)
  {
    if cfg.Enabled() {
      CacheIsBounded(steps, cfg);
      AnswerIffLive(Run(steps, cfg).cache, cfg, r, now);
    }
  }

  // ---------------------------------------------------------------- where a served entry comes from

  /** `e` was put there by the `n`-th finished request, and none that finished later filled the same key. */
  ghost predicate LastFill(log: seq<Done>, cfg: Config, n: nat, e: Entry) {
    && n < |log| && Filled(cfg, log[n]) == Some(e)
    && forall m :: n < m < |log| && Filled(cfg, log[m]).Some? ==> Filled(cfg, log[m]).value.key != e.key
  }

  ghost predicate WasFilled(log: seq<Done>, cfg: Config, e: Entry) {
    exists n: nat :: LastFill(log, cfg, n, e)
  }

  lemma LogGrows(log: seq<Done>, cfg: Config, d: Done, e: Entry)
    requires var last := Filled(cfg, d);
             last == Some(e) || (WasFilled(log, cfg, e) && (last.Some? ==> last.value.key != e.key))
    ensures WasFilled(log + [d], cfg, e)
  {
    if Filled(cfg, d) == Some(e) {
      assert LastFill(log + [d], cfg, |log|, e);
    } else {
      var n: nat :| LastFill(log, cfg, n, e);
      assert LastFill(log + [d], cfg, n, e);
    }
  }

  lemma LookupKeeps(s: seq<Entry>, cfg: Config, r: Request, now: int)
    ensures forall e :: e in AfterLookup(s, cfg, r, now) ==> e in s
  {
  }

  /** After a finish every cached entry was there before, under another key than the new one, or is the new one. */
  lemma FinishKeepsOrFills(s: State, cfg: Config, id: nat, reply: Reply, now: int)
    requires cfg.Enabled() && Bounded(s.cache, cfg.maxBytes) && id in s.open
    ensures var t := Next(s, cfg, Finish(id, reply, now));
            && t.log == s.log + [t.log[|s.log|]]
            && var last := Filled(cfg, t.log[|s.log|]);
               forall e :: e in t.cache ==> last == Some(e) || (e in s.cache && (last.Some? ==> last.value.key != e.key))
  {
    var w := s.open[id];
    var d := Done(Exchange(w.request, reply, w.asked, now), w.missed);
    if Filled(cfg, d).Some? {
      var filled := Filled(cfg, d).value;
      EvictionIsMinimal([filled] + Replacing(s.cache, filled.key), cfg.maxBytes);
      ReplacingDropsKey(s.cache, filled.key);
    }
  }

  /** In every interleaving, at every moment: each cached entry is the one put there by the request that was
      the last to fill its key. */
  lemma {:induction false} EveryEntryWasFilled(steps: seq<Step>, cfg: Config)
    requires cfg.Enabled()
    ensures forall e :: e in Run(steps, cfg).cache ==> WasFilled(Run(steps, cfg).log, cfg, e)
  {
    if steps != [] {
      var before, step := steps[..|steps| - 1], steps[|steps| - 1];
      var s := Run(before, cfg);
      EveryEntryWasFilled(before, cfg);
      CacheIsBounded(before, cfg);
      match step {
        case Ask(id, r, now) => LookupKeeps(s.cache, cfg, r, now);
        case Finish(id, reply, now) =>
          if id in s.open {
            FinishKeepsOrFills(s, cfg, id, reply, now);
            forall e | e in Run(steps, cfg).cache
              ensures WasFilled(Run(steps, cfg).log, cfg, e)
            {
              LogGrows(s.log, cfg, Run(steps, cfg).log[|s.log|], e);
            }
          }
      }
    }
  }

  /** Step `i` opened a request under a number that was free, and it missed exactly if the cache had no answer then. */
  ghost predicate OpenedAt(steps: seq<Step>, cfg: Config, i: nat, id: nat, r: Request, asked: int, missed: bool) {
    && i < |steps| && steps[i] == Ask(id, r, asked) && id !in Run(steps[..i], cfg).open
    && missed == AnswerTo(Run(steps[..i], cfg).cache, cfg, r, asked).None?
  }

  lemma OpenedLater(steps: seq<Step>, cfg: Config, i: nat, id: nat, r: Request, asked: int, missed: bool)
    requires steps != [] && OpenedAt(steps[..|steps| - 1], cfg, i, id, r, asked, missed)
    ensures OpenedAt(steps, cfg, i, id, r, asked, missed)
  {
    assert steps[..|steps| - 1][..i] == steps[..i];
  }

  lemma {:induction false} OpenWasAsked(steps: seq<Step>, cfg: Config, id: nat) returns (i: nat)
    requires id in Run(steps, cfg).open
    ensures var w := Run(steps, cfg).open[id]; OpenedAt(steps, cfg, i, id, w.request, w.asked, w.missed)
  {
    hide AfterLookup, AfterReply, Outgoing;
    var before, step := steps[..|steps| - 1], steps[|steps| - 1];
    var w := Run(steps, cfg).open[id];
    if id in Run(before, cfg).open {
      assert w == Run(before, cfg).open[id];
      i := OpenWasAsked(before, cfg, id);
      OpenedLater(steps, cfg, i, id, w.request, w.asked, w.missed);
    } else {
      i := |before|;
      assert steps[..i] == before;
    }
  }

  /** Every finished request was looked up earlier, under the same number, and its log entry says truly
      whether the cache had an answer at that moment. */
  lemma {:induction false} DoneWasAsked(steps: seq<Step>, cfg: Config, n: nat) returns (i: nat, j: nat, id: nat)
    requires n < |Run(steps, cfg).log|
    ensures var d := Run(steps, cfg).log[n];
            var x := d.exchange;
            && i < j < |steps| && OpenedAt(steps, cfg, i, id, x.request, x.asked, d.missed)
            && steps[j] == Finish(id, x.reply, x.answered)
  {
    hide AnswerTo, AfterLookup, AfterReply, OpenedAt, Outgoing;
    var before, step := steps[..|steps| - 1], steps[|steps| - 1];
    var d := Run(steps, cfg).log[n];
    var x := d.exchange;
    if n < |Run(before, cfg).log| {
      assert d == Run(before, cfg).log[n];
      i, j, id := DoneWasAsked(before, cfg, n);
    } else {
      id, j := step.id, |before|;
      i := OpenWasAsked(before, cfg, id);
    }
    OpenedLater(steps, cfg, i, id, x.request, x.asked, d.missed);
  }

  /** What fills the cache: a request that found nothing when it was looked up, answered later with a reply
      that the rules let the cache keep, and that was read to its end. */
  lemma OnlyCacheableRepliesFill(steps: seq<Step>, cfg: Config, n: nat) returns (i: nat, j: nat)
    requires n < |Run(steps, cfg).log| && Filled(cfg, Run(steps, cfg).log[n]).Some?
    ensures var x := Run(steps, cfg).log[n].exchange;
            && i < j < |steps| && steps[i].Ask? && steps[j] == Finish(steps[i].id, x.reply, x.answered)
            && steps[i].request == x.request && AnswerTo(Run(steps[..i], cfg).cache, cfg, x.request, steps[i].now).None?
            && Cacheable(cfg, x) && Accepts(cfg, x.reply)
            && Filled(cfg, Run(steps, cfg).log[n]) == Some(EntryFor(cfg, cfg.Sent(x.request), x.reply, x.answered))
  {
    var id;
    i, j, id := DoneWasAsked(steps, cfg, n);
  }

  /** Exactly what fills the cache: of the finished requests those that found nothing, whose reply the rules let the cache
      keep and was read to its end without an error; the entry is the reply, with its length, from now on. */
  lemma FilledIff(cfg: Config, d: Done)
    ensures var x := d.exchange;
            Filled(cfg, d).Some? <==>
              && d.missed && cfg.ttl > 0 && cfg.maxBytes > 0 && cfg.maxObjectBytes > 0
              && cfg.policy.cacheable(cfg.Sent(x.request), x.reply.status, x.reply.header)
              && x.reply.body.Some? && !x.reply.broken && |x.reply.body.value| <= cfg.maxObjectBytes
    ensures Filled(cfg, d).Some? ==> IsReply(Filled(cfg, d).value, cfg, d.exchange)
  {
  }

  /** The entry is the reply to the outgoing request, with its length, stored when it came. */
  predicate IsReply(e: Entry, cfg: Config, x: Exchange) {
    && e.key == CacheKey(cfg.Sent(x.request)) && e.status == x.reply.status && Some(e.body) == x.reply.body
    && e.header == x.reply.header["Content-Length" := [Decimal(|e.body|)]]
    && e.storedAt == x.answered && e.expiresAt == x.answered + cfg.policy.lifetime(e.header, cfg.ttl)
  }

  /** However requests interleave: a hit answers with the reply of the request that was the last to fill that
      key, within its lifetime, and the rules allowed that reply to be cached. */
  lemma HitsComeFromCacheableReplies(steps: seq<Step>, cfg: Config, r: Request, now: int) returns (n: nat)
    requires AnswerTo(Run(steps, cfg).cache, cfg, r, now).Some?
    ensures var e, log := AnswerTo(Run(steps, cfg).cache, cfg, r, now).value, Run(steps, cfg).log;
            && now <= e.expiresAt && LastFill(log, cfg, n, e)
            && var x := log[n].exchange;
               && CacheKey(cfg.Sent(x.request)) == CacheKey(r) && Cacheable(cfg, x) && Accepts(cfg, x.reply)
               && e == EntryFor(cfg, cfg.Sent(x.request), x.reply, x.answered)
  {
    EveryEntryWasFilled(steps, cfg);
    var s := Run(steps, cfg);
    var e := AnswerTo(s.cache, cfg, r, now).value;
    assert e in s.cache && WasFilled(s.log, cfg, e);
    n :| LastFill(s.log, cfg, n, e);
    assert Keys(s.cache)[IndexOf(Keys(s.cache), CacheKey(r))] == CacheKey(r);
  }

  /** With the edge's own rules: whatever is served from the cache, in any interleaving, is the origin's complete answer to
      an outgoing GET without Authorization, with status 200 and no cookie, and with a Cache-Control that does not forbid
      shared caching and says public or gives a lifetime; and that GET asked for the host, URI and encodings of the
      request that is served now. */
  lemma OnlySharedContentIsServed(steps: seq<Step>, cfg: Config, r: Request, now: int) returns (n: nat)
    requires cfg.policy == EdgePolicy() && cfg.backend.IsProper()
    requires IsOrdinary(r) && OrdinaryAsked(steps)
    requires AnswerTo(Run(steps, cfg).cache, cfg, r, now).Some?
    ensures n < |Run(steps, cfg).log|
    ensures var x := Run(steps, cfg).log[n].exchange;
            && x.request.verb == "GET" && cfg.Sent(x.request).authorization == "" && x.reply.status == 200
            && (x.request.authorization == "" || "Authorization" in x.request.dropped)
            && SaysShared(x.reply.header)
    ensures SameAsk(cfg.Sent(Run(steps, cfg).log[n].exchange.request), r)
    ensures var e, x := AnswerTo(Run(steps, cfg).cache, cfg, r, now).value, Run(steps, cfg).log[n].exchange;
            && IsReply(e, cfg, x) && !x.reply.broken && |e.body| <= cfg.maxObjectBytes && now <= e.expiresAt
            && Filled(cfg, Run(steps, cfg).log[n]) == Some(e)
  {
    n := HitsComeFromCacheableReplies(steps, cfg, r, now);
    var x := Run(steps, cfg).log[n].exchange;
    var i, _, _ := DoneWasAsked(steps, cfg, n);
    RewrittenIsOrdinary(cfg.backend, x.request);
    CacheKeyIsInjective(cfg.Sent(x.request), r);
    CacheableIff(cfg.Sent(x.request), x.reply.status, x.reply.header);
    OutgoingIs(cfg.backend, x.request);
    FilledIff(cfg, Run(steps, cfg).log[n]);
  }

  /** What the header of a reply has to say, and what it must not say. */
  ghost predicate SaysShared(header: HeaderView) {
    var text := ToLower(if HasNone(header, "Cache-Control") then "" else header["Cache-Control"][0]);
    && HasNone(header, "Set-Cookie") && HasNone(header, "Authorization")
    && !Mentions(text, "private") && !Mentions(text, "no-store") && !Mentions(text, "no-cache")
    && (Mentions(text, "public") || NamesLifetime(text))
  }

  ghost predicate OrdinaryAsked(steps: seq<Step>) {
    forall i :: 0 <= i < |steps| && steps[i].Ask? ==> IsOrdinary(steps[i].request)
  }

  predicate SameAsk(a: Request, b: Request) {
    a.host == b.host && a.uri == b.uri && a.acceptEncoding == b.acceptEncoding
  }

  // ---------------------------------------------------------------- overlapping misses

  lemma MissLeavesNone(s: seq<Entry>, k: string, now: int)
    requires Distinct(Keys(s)) && Answer(s, k, now).None?
    ensures k !in Keys(AfterGet(s, k, now))
  {
    var i := IndexOf(Keys(s), k);
    if i < |s| {
      KeysWithoutAt(s, i);
      DistinctWithoutAt(Keys(s), i);
    }
  }

  lemma EntriesHaveKeys(s: seq<Entry>)
    ensures forall e :: e in s ==> e.key in Keys(s)
  {
    forall e | e in s
      ensures e.key in Keys(s)
    {
      var j :| 0 <= j < |s| && s[j] == e;
      assert Keys(s)[j] == e.key;
    }
  }

  lemma {:induction false} NewEntryWasFilled(steps: seq<Step>, cfg: Config, i: nat, e: Entry) returns (n: nat)
    requires cfg.Enabled() && i <= |steps|
    requires e in Run(steps, cfg).cache && e !in Run(steps[..i], cfg).cache
    ensures |Run(steps[..i], cfg).log| <= n < |Run(steps, cfg).log| && Filled(cfg, Run(steps, cfg).log[n]) == Some(e)
  {
    hide AfterLookup, AfterReply, Filled, AnswerTo;
    assert steps[..|steps|] == steps;
    var before, step := steps[..|steps| - 1], steps[|steps| - 1];
    var s := Run(before, cfg);
    assert before[..i] == steps[..i];
    if e in s.cache {
      n := NewEntryWasFilled(before, cfg, i, e);
    } else {
      CacheIsBounded(before, cfg);
      n := |s.log|;
      LogNeverShrinks(before, cfg, i);
      match step {
        case Ask(id, r, now) => LookupKeeps(s.cache, cfg, r, now);
        case Finish(id, reply, now) => FinishKeepsOrFills(s, cfg, id, reply, now);
      }
    }
  }

  lemma {:induction false} LogNeverShrinks(steps: seq<Step>, cfg: Config, i: nat)
    requires i <= |steps|
    ensures |Run(steps[..i], cfg).log| <= |Run(steps, cfg).log|
  {
    if i < |steps| {
      assert steps[..|steps| - 1][..i] == steps[..i];
      LogNeverShrinks(steps[..|steps| - 1], cfg, i);
    } else {
      assert steps[..i] == steps;
    }
  }

  /** If the reply to a waiting request finds its key occupied by `e`, then `e` is younger than the request: it was put
      there after the request had been looked up.  So only overlapping misses replace what is cached, as long as a
      request is stored under the key it was looked up with. */
  lemma ReplacedEntryIsYounger(steps: seq<Step>, cfg: Config, id: nat, e: Entry) returns (i: nat, n: nat)
    requires Replaces(Run(steps, cfg), cfg, id, e) && KeepsKey(cfg.backend, Run(steps, cfg).open[id].request)
    ensures IsYounger(steps, cfg, id, e, i, n)
  {
    hide Run, AnswerTo, Filled, CacheKey, Outgoing;
    var w := Run(steps, cfg).open[id];
    i := OpenWasAsked(steps, cfg, id);
    MissFreesKey(steps, cfg, i, id, w.request, w.asked);
    EntriesHaveKeys(Run(steps[..i + 1], cfg).cache);
    n := NewEntryWasFilled(steps, cfg, i + 1, e);
  }

  /** Right after a lookup that missed, nothing is cached under its key. */
  lemma MissFreesKey(steps: seq<Step>, cfg: Config, i: nat, id: nat, r: Request, asked: int)
    requires OpenedAt(steps, cfg, i, id, r, asked, true) && Consults(cfg, r)
    ensures CacheKey(r) !in Keys(Run(steps[..i + 1], cfg).cache)
    ensures Run(steps[..i + 1], cfg).log == Run(steps[..i], cfg).log
  {
    assert steps[..i + 1][..i] == steps[..i];
    CacheIsBounded(steps[..i], cfg);
    MissLeavesNone(Run(steps[..i], cfg).cache, CacheKey(r), asked);
  }

  /** The reply to request `id`, which found nothing, would take the place of `e`. */
  ghost predicate Replaces(s: State, cfg: Config, id: nat, e: Entry) {
    && id in s.open && s.open[id].missed && Consults(cfg, s.open[id].request)
    && e in s.cache && e.key == CacheKey(cfg.Sent(s.open[id].request))
  }

  /** Step `i` opened the request that is now in the handler as `id`, and `e` was put into the cache after it. */
  ghost predicate IsYounger(steps: seq<Step>, cfg: Config, id: nat, e: Entry, i: nat, n: nat) {
    var s := Run(steps, cfg);
    && id in s.open && i < |steps| && steps[i] == Ask(id, s.open[id].request, s.open[id].asked)
    && |Run(steps[..i], cfg).log| <= n < |s.log| && Filled(cfg, s.log[n]) == Some(e)
  }

  /** Such misses do happen: two requests for one key that are both looked up before either is finished both fill
      it, and the one that finishes last wins, whichever was asked first. */
  lemma LastFinishWins(cfg: Config, r: Request, a: Reply, b: Reply, now: int)
    requires Consults(cfg, r) && Accepts(cfg, a) && Accepts(cfg, b)
    requires cfg.policy.cacheable(cfg.Sent(r), a.status, a.header)
    requires cfg.policy.cacheable(cfg.Sent(r), b.status, b.header)
    requires |a.body.value| <= cfg.maxBytes && |b.body.value| <= cfg.maxBytes
    ensures var t := Run([Ask(0, r, now), Ask(1, r, now), Finish(1, b, now), Finish(0, a, now)], cfg);
            && |t.log| == 2 && Filled(cfg, t.log[0]).Some? && Filled(cfg, t.log[1]).Some?
            && t.cache == [EntryFor(cfg, cfg.Sent(r), a, now)]
  {
    hide Next, Filled;
    var w := Waiting(r, now, true);
    var x, y := Done(Exchange(r, b, now, now), true), Done(Exchange(r, a, now, now), true);
    var two := [Ask(0, r, now), Ask(1, r, now)];
    TwoAsks(cfg, r, now);
    FinishStores(State([], map[0 := w, 1 := w], []), cfg, 1, b);
    RunAppend(two, cfg, Finish(1, b, now));
    assert map[0 := w, 1 := w] - {1} == map[0 := w] && [] + [x] == [x];
    FinishStores(State([EntryFor(cfg, cfg.Sent(r), b, now)], map[0 := w], [x]), cfg, 0, a);
    RunAppend(two + [Finish(1, b, now)], cfg, Finish(0, a, now));
    assert two + [Finish(1, b, now)] + [Finish(0, a, now)] ==
           [Ask(0, r, now), Ask(1, r, now), Finish(1, b, now), Finish(0, a, now)];
  }

  /** A cacheable reply that fits is all that is cached, if nothing else than its key was. */
  lemma FinishStores(s: State, cfg: Config, id: nat, reply: Reply)
    requires id in s.open && s.open[id].missed && Accepts(cfg, reply) && |reply.body.value| <= cfg.maxBytes
    requires cfg.policy.cacheable(cfg.Sent(s.open[id].request), reply.status, reply.header)
    requires s.cache == [] || (|s.cache| == 1 && s.cache[0].key == CacheKey(cfg.Sent(s.open[id].request)))
    ensures var w := s.open[id];
            var d := Done(Exchange(w.request, reply, w.asked, w.asked), true);
            && Next(s, cfg, Finish(id, reply, w.asked)) ==
               State([EntryFor(cfg, cfg.Sent(w.request), reply, w.asked)], s.open - {id}, s.log + [d])
            && Filled(cfg, d).Some?
  {
    StoreAlone(s.cache, EntryFor(cfg, cfg.Sent(s.open[id].request), reply, s.open[id].asked), cfg.maxBytes);
  }

  lemma TwoAsks(cfg: Config, r: Request, now: int)
    requires Consults(cfg, r)
    ensures var w := Waiting(r, now, true);
            Run([Ask(0, r, now), Ask(1, r, now)], cfg) == State([], map[0 := w, 1 := w], [])
  {
    RunAppend([], cfg, Ask(0, r, now));
    RunAppend([Ask(0, r, now)], cfg, Ask(1, r, now));
    assert [] + [Ask(0, r, now)] == [Ask(0, r, now)];
    assert [Ask(0, r, now)] + [Ask(1, r, now)] == [Ask(0, r, now), Ask(1, r, now)];
  }

  lemma RunAppend(steps: seq<Step>, cfg: Config, step: Step)
    ensures Run(steps + [step], cfg) == Next(Run(steps, cfg), cfg, step)
  {
    assert (steps + [step])[..|steps|] == steps;
  }

  lemma StoreAlone(s: seq<Entry>, e: Entry, cap: nat)
    requires |e.body| <= cap && (s == [] || (|s| == 1 && s[0].key == e.key))
    ensures AfterStore(s, e, cap) == [e]
  {
    assert IndexOf(Keys(s), e.key) == 0;
    assert [e] + Replacing(s, e.key) == [e];
    assert Total([e]) == |e.body| + Total([]);
  }

  // ---------------------------------------------------------------- what interleaved requests do to the cache

  /** What a step does to the cache: a lookup, a store, or nothing. */
  function ActionOf(s: State, cfg: Config, step: Step): seq<Action> {
    match step
    case Ask(id, r, now) => if id !in s.open && Consults(cfg, r) then [Lookup(CacheKey(r), now)] else []
    case Finish(id, reply, now) =>
      if id !in s.open then []
      else
        var w := s.open[id];
        var filled := Filled(cfg, Done(Exchange(w.request, reply, w.asked, now), w.missed));
        if filled.Some? then [Keep(filled.value)] else []
  }

  function Actions(steps: seq<Step>, cfg: Config): seq<Action> {
    if steps == [] then []
    else
      var before := steps[..|steps| - 1];
      Actions(before, cfg) + ActionOf(Run(before, cfg), cfg, steps[|steps| - 1])
  }

  lemma {:induction false} RunDoesActions(steps: seq<Step>, cfg: Config)
    ensures Run(steps, cfg).cache == DoAll(Actions(steps, cfg), cfg.maxBytes)
  {
    if steps != [] {
      var before, step := steps[..|steps| - 1], steps[|steps| - 1];
      var actions, last := Actions(before, cfg), ActionOf(Run(before, cfg), cfg, step);
      RunDoesActions(before, cfg);
      if last == [] {
        assert actions + last == actions;
      } else {
        assert (actions + last)[..|actions|] == actions;
      }
      StepDoesAction(Run(before, cfg), cfg, step);
    }
  }

  lemma StepDoesAction(s: State, cfg: Config, step: Step)
    ensures var t, last := Next(s, cfg, step), ActionOf(s, cfg, step);
            t.cache == if last == [] then s.cache else Do(s.cache, last[0], cfg.maxBytes)
  {
  }

  /** The stack theorem for the handler: however its requests overlap, as long as sizes are fixed and nothing expires,
      the cache holds exactly the longest fitting prefix of the stack of the keys that hit or were filled. */
  lemma HandlerStackTheorem(steps: seq<Step>, cfg: Config, size: string -> nat)
    requires cfg.Enabled() && Calm(Actions(steps, cfg), size)
    ensures Keys(Run(steps, cfg).cache) == Fitting(Stack(Touches(Actions(steps, cfg), cfg.maxBytes)), size, cfg.maxBytes)
  {
    RunDoesActions(steps, cfg);
    TouchedStackTheorem(Actions(steps, cfg), size, cfg.maxBytes);
  }

  // ---------------------------------------------------------------- one request at a time

  /** One request from its lookup to the end, with nobody in between. */
  function AfterExchange(s: seq<Entry>, cfg: Config, x: Exchange): seq<Entry> {
    var t := AfterLookup(s, cfg, x.request, x.asked);
    if AnswerTo(s, cfg, x.request, x.asked).None? then AfterReply(t, cfg, cfg.Sent(x.request), x.reply, x.answered) else t
  }

  lemma ExchangeIs(s: seq<Entry>, cfg: Config, r: Request, reply: Reply, asked: int, answered: int)
    ensures AfterExchange(s, cfg, Exchange(r, reply, asked, answered)) ==
            if AnswerTo(s, cfg, r, asked).Some? then AfterLookup(s, cfg, r, asked)
            else AfterReply(AfterLookup(s, cfg, r, asked), cfg, cfg.Sent(r), reply, answered)
  {
  }

  function ServeAll(xs: seq<Exchange>, cfg: Config): seq<Entry> {
    if xs == [] then []
    else AfterExchange(ServeAll(xs[..|xs| - 1], cfg), cfg, xs[|xs| - 1])
  }

  function Finished(log: seq<Done>): (xs: seq<Exchange>)
    ensures |xs| == |log|
    ensures forall n :: 0 <= n < |log| ==> xs[n] == log[n].exchange
  {
    seq(|log|, n requires 0 <= n < |log| => log[n].exchange)
  }

  /** Never more than `k` requests are in the handler. */
  ghost predicate OpenAtMost(steps: seq<Step>, cfg: Config, k: nat) {
    forall n :: 0 <= n <= |steps| ==> |Run(steps[..n], cfg).open| <= k
  }

  lemma OpenAtMostPrefix(steps: seq<Step>, cfg: Config, k: nat)
    requires steps != [] && OpenAtMost(steps, cfg, k)
    ensures OpenAtMost(steps[..|steps| - 1], cfg, k) && |Run(steps, cfg).open| <= k
  {
    hide Run;
    var before := steps[..|steps| - 1];
    assert steps[..|steps|] == steps;
    forall n | 0 <= n <= |before|
      ensures |Run(before[..n], cfg).open| <= k
    {
      assert before[..n] == steps[..n];
    }
  }

  /** The cache as the finished requests have left it, one after the other, and then perhaps one more lookup. */
  ghost predicate InTurn(s: State, cfg: Config) {
    var served := ServeAll(Finished(s.log), cfg);
    && (s.open == map[] ==> s.cache == served)
    && (forall id :: id in s.open ==> LookedUp(s.cache, served, cfg, s.open[id]))
    && LogInTurn(s.log, cfg)
  }

  predicate LookedUp(cache: seq<Entry>, served: seq<Entry>, cfg: Config, w: Waiting) {
    && cache == AfterLookup(served, cfg, w.request, w.asked)
    && w.missed == AnswerTo(served, cfg, w.request, w.asked).None?
  }

  ghost predicate LogInTurn(log: seq<Done>, cfg: Config) {
    forall n :: 0 <= n < |log| ==> log[n].missed == MissedInTurn(Finished(log), cfg, n)
  }

  ghost predicate MissedInTurn(xs: seq<Exchange>, cfg: Config, n: nat)
    requires n < |xs|
  {
    AnswerTo(ServeAll(xs[..n], cfg), cfg, xs[n].request, xs[n].asked).None?
  }

  lemma OneMoreInTurn(xs: seq<Exchange>, x: Exchange, cfg: Config)
    ensures ServeAll(xs + [x], cfg) == AfterExchange(ServeAll(xs, cfg), cfg, x)
    ensures MissedInTurn(xs + [x], cfg, |xs|) == AnswerTo(ServeAll(xs, cfg), cfg, x.request, x.asked).None?
    ensures forall n :: 0 <= n < |xs| ==> MissedInTurn(xs + [x], cfg, n) == MissedInTurn(xs, cfg, n)
  {
    assert (xs + [x])[..|xs|] == xs;
    forall n | 0 <= n < |xs|
      ensures MissedInTurn(xs + [x], cfg, n) == MissedInTurn(xs, cfg, n)
    {
      assert (xs + [x])[..n] == xs[..n];
    }
  }

  lemma LogStaysInTurn(log: seq<Done>, d: Done, cfg: Config)
    requires LogInTurn(log, cfg) && d.missed == MissedInTurn(Finished(log) + [d.exchange], cfg, |log|)
    ensures LogInTurn(log + [d], cfg)
  {
    var xs, x := Finished(log), d.exchange;
    assert Finished(log + [d]) == xs + [x];
    OneMoreInTurn(xs, x, cfg);
    forall n | 0 <= n < |log|
      ensures (log + [d])[n].missed == MissedInTurn(xs + [x], cfg, n)
    {
      assert (log + [d])[n] == log[n];
    }
  }

  lemma FinishInTurn(s: State, cfg: Config, id: nat, reply: Reply, now: int)
    requires InTurn(s, cfg) && id in s.open && |s.open| == 1
    ensures InTurn(Next(s, cfg, Finish(id, reply, now)), cfg)
  {
    var w := s.open[id];
    var x := Exchange(w.request, reply, w.asked, now);
    OnlyOne(s.open, id);
    FinishServes(s.cache, ServeAll(Finished(s.log), cfg), cfg, w, reply, now);
    OneMoreIsInTurn(s.log, Done(x, w.missed), cfg);
  }

  lemma OneMoreIsInTurn(log: seq<Done>, d: Done, cfg: Config)
    requires LogInTurn(log, cfg)
    requires d.missed == AnswerTo(ServeAll(Finished(log), cfg), cfg, d.exchange.request, d.exchange.asked).None?
    ensures InTurn(State(AfterExchange(ServeAll(Finished(log), cfg), cfg, d.exchange), map[], log + [d]), cfg)
  {
    OneMoreInTurn(Finished(log), d.exchange, cfg);
    assert Finished(log + [d]) == Finished(log) + [d.exchange];
    LogStaysInTurn(log, d, cfg);
  }

  lemma FinishServes(cache: seq<Entry>, served: seq<Entry>, cfg: Config, w: Waiting, reply: Reply, now: int)
    requires LookedUp(cache, served, cfg, w)
    ensures AfterExchange(served, cfg, Exchange(w.request, reply, w.asked, now)) ==
            if w.missed then AfterReply(cache, cfg, cfg.Sent(w.request), reply, now) else cache
  {
  }

  lemma OnlyOne(open: map<nat, Waiting>, id: nat)
    requires id in open && |open| == 1
    ensures open - {id} == map[]
  {
    assert |open.Keys - {id}| == 0;
  }

  /** With one request at a time, a run does to the cache what its finished requests do one after the other. */
  lemma {:induction false} OneAtATimeIsInTurn(steps: seq<Step>, cfg: Config)
    requires OpenAtMost(steps, cfg, 1)
    ensures InTurn(Run(steps, cfg), cfg)
  {
    if steps != [] {
      var before, step := steps[..|steps| - 1], steps[|steps| - 1];
      var s := Run(before, cfg);
      OpenAtMostPrefix(steps, cfg, 1);
      OneAtATimeIsInTurn(before, cfg);
      match step {
        case Ask(id, r, now) =>
          if id !in s.open {
            assert s.open == map[] by {
              assert Run(steps, cfg).open.Keys == s.open.Keys + {id};
            }
          }
        case Finish(id, reply, now) =>
          if id in s.open {
            assert |s.open.Keys - {id}| == |s.open| - 1;
            assert |s.open| == 1 by {
              assert steps[..|before|] == before;
            }
            FinishInTurn(s, cfg, id, reply, now);
          }
      }
    }
  }

  // ---------------------------------------------------------------- read-through runs

  /** A GET whose reply the cache takes if asked to. */
  predicate ReadThrough(cfg: Config, x: Exchange) {
    x.request.verb == "GET" && Cacheable(cfg, x) && Accepts(cfg, x.reply)
  }

  function AsVisit(cfg: Config, x: Exchange): Visit
    requires ReadThrough(cfg, x)
  {
    Visit(CacheKey(x.request), x.asked, EntryFor(cfg, cfg.Sent(x.request), x.reply, x.answered))
  }

  ghost predicate AllReadThrough(cfg: Config, xs: seq<Exchange>) {
    forall i :: 0 <= i < |xs| ==> ReadThrough(cfg, xs[i])
  }

  function AsVisits(cfg: Config, xs: seq<Exchange>): (vs: seq<Visit>)
    requires AllReadThrough(cfg, xs)
    ensures |vs| == |xs|
    ensures forall i :: 0 <= i < |xs| ==> vs[i] == AsVisit(cfg, xs[i])
  {
    seq(|xs|, i requires 0 <= i < |xs| => AsVisit(cfg, xs[i]))
  }

  lemma {:induction false} ServingIsBrowsing(xs: seq<Exchange>, cfg: Config)
    requires AllReadThrough(cfg, xs)
    ensures ServeAll(xs, cfg) == Browse(AsVisits(cfg, xs), cfg.maxBytes)
  {
    if xs != [] {
      ServingIsBrowsing(xs[..|xs| - 1], cfg);
      assert AsVisits(cfg, xs)[..|xs| - 1] == AsVisits(cfg, xs[..|xs| - 1]);
      VisitOfExchange(ServeAll(xs[..|xs| - 1], cfg), cfg, xs[|xs| - 1]);
    }
  }

  lemma VisitOfExchange(s: seq<Entry>, cfg: Config, x: Exchange)
    requires ReadThrough(cfg, x)
    ensures AfterExchange(s, cfg, x) == AfterVisit(s, AsVisit(cfg, x), cfg.maxBytes)
    ensures AnswerTo(s, cfg, x.request, x.asked) == Answer(s, AsVisit(cfg, x).key, AsVisit(cfg, x).now)
  {
  }

  lemma MissIsNoHit(xs: seq<Exchange>, cfg: Config, n: nat)
    requires n < |xs| && AllReadThrough(cfg, xs) && cfg.maxBytes >= 0
    ensures MissedInTurn(xs, cfg, n) <==> !Hit(AsVisits(cfg, xs)[..n + 1], cfg.maxBytes)
  {
    var vs := AsVisits(cfg, xs);
    ServingIsBrowsing(xs[..n], cfg);
    assert vs[..n + 1][..n] == vs[..n] == AsVisits(cfg, xs[..n]);
    VisitOfExchange(ServeAll(xs[..n], cfg), cfg, xs[n]);
  }

  lemma SameVisits(xs: seq<Exchange>, cfg: Config, maxBytes: int)
    requires maxBytes > 0 && AllReadThrough(cfg, xs)
    ensures AllReadThrough(cfg.(maxBytes := maxBytes), xs)
    ensures AsVisits(cfg.(maxBytes := maxBytes), xs) == AsVisits(cfg, xs)
  {
  }

  lemma SteadyPart(vs: seq<Visit>, size: string -> nat, n: nat)
    requires Steady(vs, size) && n <= |vs|
    ensures Steady(vs[..n], size)
  {
  }

  // ---------------------------------------------------------------- a larger cache

  /** Whoever is in the handler, and with what, does not depend on the byte bound. */
  ghost predicate SameBut(s: State, t: State) {
    && s.open.Keys == t.open.Keys && Finished(s.log) == Finished(t.log)
    && forall id :: id in s.open ==> s.open[id].request == t.open[id].request && s.open[id].asked == t.open[id].asked
  }

  lemma {:induction false} RunsAreSameBut(steps: seq<Step>, cfg: Config, larger: int)
    ensures SameBut(Run(steps, cfg), Run(steps, cfg.(maxBytes := larger)))
  {
    if steps != [] {
      RunsAreSameBut(steps[..|steps| - 1], cfg, larger);
      var s, t := Run(steps[..|steps| - 1], cfg), Run(steps[..|steps| - 1], cfg.(maxBytes := larger));
      StepIsSameBut(s, t, cfg, larger, steps[|steps| - 1]);
    }
  }

  lemma StepIsSameBut(s: State, t: State, cfg: Config, larger: int, step: Step)
    requires SameBut(s, t)
    ensures SameBut(Next(s, cfg, step), Next(t, cfg.(maxBytes := larger), step))
  {
    var u, v := Next(s, cfg, step), Next(t, cfg.(maxBytes := larger), step);
    assert Finished(u.log) == Finished(v.log) by {
      assert forall n :: 0 <= n < |s.log| ==> Finished(s.log)[n] == Finished(t.log)[n];
    }
  }

  lemma SameOpen(steps: seq<Step>, cfg: Config, larger: int, k: nat)
    requires OpenAtMost(steps, cfg, k)
    ensures OpenAtMost(steps, cfg.(maxBytes := larger), k)
  {
    forall n | 0 <= n <= |steps|
      ensures |Run(steps[..n], cfg.(maxBytes := larger)).open| <= k
    {
      RunsAreSameBut(steps[..n], cfg, larger);
      SameCount(Run(steps[..n], cfg).open, Run(steps[..n], cfg.(maxBytes := larger)).open);
    }
  }

  lemma SameCount(a: map<nat, Waiting>, b: map<nat, Waiting>)
    requires a.Keys == b.Keys
    ensures |a| == |b|
  {
    assert |a| == |a.Keys| && |b| == |b.Keys|;
  }

  /** Every finished request was a read-through one, what is stored under a key always has the same size, and nothing
      expires while the run lasts. */
  ghost predicate SteadyRun(steps: seq<Step>, cfg: Config, size: string -> nat) {
    var xs := Finished(Run(steps, cfg).log);
    AllReadThrough(cfg, xs) && Unchanging(AsVisits(cfg, xs), size)
  }

  ghost predicate Unchanging(vs: seq<Visit>, size: string -> nat) {
    && (forall v :: v in vs ==> |v.fetched.body| == size(v.fetched.key))
    && (forall i, j :: 0 <= i < j < |vs| ==> vs[j].now <= vs[i].fetched.expiresAt)
  }

  /** Every request of the run is stored under the key it is looked up with. */
  ghost predicate KeysAreKept(steps: seq<Step>, cfg: Config) {
    forall i :: 0 <= i < |steps| && steps[i].Ask? ==> KeepsKey(cfg.backend, steps[i].request)
  }

  lemma KeptKeysAreSteady(steps: seq<Step>, cfg: Config, size: string -> nat)
    requires SteadyRun(steps, cfg, size) && KeysAreKept(steps, cfg)
    ensures Steady(AsVisits(cfg, Finished(Run(steps, cfg).log)), size)
  {
    var xs := Finished(Run(steps, cfg).log);
    forall v | v in AsVisits(cfg, xs)
      ensures v.fetched.key == v.key
    {
      var n :| 0 <= n < |xs| && AsVisits(cfg, xs)[n] == v;
      var i, _, _ := DoneWasAsked(steps, cfg, n);
      assert KeepsKey(cfg.backend, xs[n].request);
    }
  }

  ghost predicate KeepsHits(steps: seq<Step>, cfg: Config, larger: int) {
    var log, log' := Run(steps, cfg).log, Run(steps, cfg.(maxBytes := larger)).log;
    |log| == |log'| && forall n :: 0 <= n < |log| ==> (!log[n].missed ==> !log'[n].missed)
  }

  lemma HitIsKept(xs: seq<Exchange>, cfg: Config, larger: int, size: string -> nat, n: nat)
    requires 0 <= cfg.maxBytes <= larger && n < |xs| && larger > 0
    requires AllReadThrough(cfg, xs) && Steady(AsVisits(cfg, xs), size)
    requires !MissedInTurn(xs, cfg, n)
    ensures !MissedInTurn(xs, cfg.(maxBytes := larger), n)
  {
    hide Hit, MissedInTurn;
    SameVisits(xs, cfg, larger);
    MissIsNoHit(xs, cfg, n);
    MissIsNoHit(xs, cfg.(maxBytes := larger), n);
    SteadyPart(AsVisits(cfg, xs), size, n + 1);
    LargerCacheKeepsHits(AsVisits(cfg, xs)[..n + 1], size, cfg.maxBytes, larger);
  }

  /** Raising the byte bound never turns a hit of the handler into a miss, in any steady read-through run with
      one request at a time that is stored under the key it was looked up with, whatever the rules of caching are. */
  lemma LargerHandlerKeepsHits(steps: seq<Step>, cfg: Config, larger: int, size: string -> nat)
    requires cfg.Enabled() && cfg.maxBytes <= larger
    requires OpenAtMost(steps, cfg, 1) && SteadyRun(steps, cfg, size) && KeysAreKept(steps, cfg)
    ensures KeepsHits(steps, cfg, larger)
  {
    var s, t := Run(steps, cfg), Run(steps, cfg.(maxBytes := larger));
    var xs := Finished(s.log);
    SameOpen(steps, cfg, larger, 1);
    OneAtATimeIsInTurn(steps, cfg);
    OneAtATimeIsInTurn(steps, cfg.(maxBytes := larger));
    RunsAreSameBut(steps, cfg, larger);
    assert |s.log| == |xs| == |t.log|;
    KeptKeysAreSteady(steps, cfg, size);
    forall n | 0 <= n < |xs| && !s.log[n].missed
      ensures !t.log[n].missed
    {
      HitIsKept(xs, cfg, larger, size, n);
    }
  }
}
