/** What is handed to the cache and what it hands out is never shared with it. */
module CacheIsolation {
  import opened Options
  import opened Recency
  import opened CachePolicy
  import opened Exchanges
  import opened CacheHeap
  import opened ResponseCaching

  /** Store a reply, then write whatever one likes into it, its body and its header. */
  method StoreAndOverwrite(cache: ResponseCache, r: Request, reply: Response, now: int) returns (failed: bool)
    requires cache.Valid() && reply !in cache.Repr && reply.Arrays() !! cache.Repr
    modifies cache.Repr, reply, reply.Arrays()
    ensures cache.Valid() && fresh(cache.Repr - old(cache.Repr))
    ensures cache.contents == AfterOffer(old(cache.contents), cache.cfg, r, old(reply.AsReply()), now)
  {
    failed := cache.Store(r, reply, now);
    modify reply, reply.Arrays();
  }

  /** Look a request up, then write whatever one likes into the entry that was handed out; `seen` is what it was
      before. */
  method LookAndOverwrite(cache: ResponseCache, r: Request, now: int) returns (ghost seen: Option<Entry>)
    requires cache.Valid()
    modifies cache.Repr
    ensures cache.Valid() && cache.Repr == old(cache.Repr)
    ensures cache.contents == AfterLookup(old(cache.contents), cache.cfg, r, now)
    ensures seen == Handed(AnswerTo(old(cache.contents), cache.cfg, r, now))
  {
    var hit := cache.Get(r, now);
    if hit != null {
      seen := Some(hit.Value());
      modify hit.Footprint();
    } else {
      seen := None;
    }
  }

  /** An answer as it is handed out: the copy carries no key. */
  function Handed(answer: Option<Entry>): Option<Entry> {
    match answer case None => None case Some(e) => Some(e.(key := ""))
  }

  /** A client that stores a reply, looks a request up and looks it up again, and overwrites both what it stored and
      what it was handed.  All answers, and the cache afterwards, are as if nothing had been overwritten; the second
      lookup answers as the first did while the entry is alive. */
  method WriteAndLookAgain(cache: ResponseCache, r: Request, reply: Response, stored: int, q: Request, first: int,
                           second: int)
      returns (failed: bool, ghost seen: Option<Entry>, ghost again: Option<Entry>)
    requires cache.Valid() && reply !in cache.Repr && reply.Arrays() !! cache.Repr
    modifies cache.Repr, reply, reply.Arrays()
    ensures cache.Valid()
    ensures var s := AfterOffer(old(cache.contents), cache.cfg, r, old(reply.AsReply()), stored);
            var t := AfterLookup(s, cache.cfg, q, first);
            && seen == Handed(AnswerTo(s, cache.cfg, q, first))
            && again == Handed(AnswerTo(t, cache.cfg, q, second))
            && cache.contents == AfterLookup(t, cache.cfg, q, second)
    ensures seen.Some? && second <= seen.value.expiresAt ==> again == seen
  {
    failed := StoreAndOverwrite(cache, r, reply, stored);
    ghost var s := cache.contents;
    seen := LookAndOverwrite(cache, q, first);
    again := LookAndOverwrite(cache, q, second);
    if seen.Some? && second <= seen.value.expiresAt {
      SameAnswerAgain(s, cache.cfg, q, first, second);
    }
  }

  /** While the entry is alive, both lookups give the same answer. */
  lemma SameAnswerAgain(s: seq<Entry>, cfg: Config, q: Request, first: int, second: int)
    requires AnswerTo(s, cfg, q, first).Some? && second <= AnswerTo(s, cfg, q, first).value.expiresAt
    ensures AnswerTo(AfterLookup(s, cfg, q, first), cfg, q, second) == AnswerTo(s, cfg, q, first)
  {
    var i := IndexOf(Keys(s), CacheKey(q));
    assert Keys(AfterLookup(s, cfg, q, first))[0] == CacheKey(q);
  }
}
