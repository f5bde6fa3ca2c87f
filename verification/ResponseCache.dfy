/** The in-memory response cache itself: a recency list, an index from keys to list elements
    and a running byte count, all updated together. */
module ResponseCaching {
  import opened Options
  import opened Recency
  import opened Text
  import opened CachePolicy
  import opened Exchanges
  import opened CacheHeap

  /** A reply on its way from the origin to the visitor. */
  class Response {
    const status: int
    var header: Header
    var body: array?<Byte>
    const broken: bool
    var contentLength: int

    constructor (status: int, header: Header, body: array?<Byte>, broken: bool)
      ensures this.status == status && this.header == header && this.body == body && this.broken == broken
    {
      this.status, this.header, this.body, this.broken := status, header, body, broken;
      contentLength := -1;
    }

    ghost function Arrays(): set<object>
      reads this
    {
      ArraysOf(header) + if body == null then {} else {body}
    }

    ghost function AsReply(): Reply
      reads this, Arrays()
    {
      Reply(status, View(header), Bytes(), broken)
    }

    ghost function Bytes(): Option<seq<Byte>>
      reads this, Arrays()
    {
      if body == null then None else Some(body[..])
    }

    /** Header.Set with one value, in an array of its own. */
    method SetHeader(name: string, value: string)
      modifies this`header
      ensures View(header) == old(View(header))[name := [value]]
      ensures name in header && header[name][..] == [value]
      ensures forall a :: a in ArraysOf(header) ==> a in old(ArraysOf(header)) || fresh(a)
    {
      var values := new string[1](_ => value);
      assert values[..] == [value];
      header := header[name := values];
    }

    /** Read the body, but at most one byte more than an object may have, and put what was read in
        its place. */
    method Drain(cfg: Config) returns (failed: bool)
      requires cfg.Enabled() && body != null
      modifies this
      ensures body != null && fresh(body) && body[..] == Taken(cfg, old(body[..]))
      ensures contentLength == body.Length
      ensures View(header) == WithLength(old(View(header)), body.Length)
      ensures forall a :: a in ArraysOf(header) ==> a in old(ArraysOf(header)) || fresh(a)
      ensures failed == ReadFails(cfg, old(AsReply()))
    {
      failed := broken && body.Length <= cfg.maxObjectBytes;
      var taken := TakeBody(cfg);
      body, contentLength := taken, taken.Length;
      SetHeader("Content-Length", Decimal(taken.Length));
    }

    /** io.ReadAll of the limited body. */
    method TakeBody(cfg: Config) returns (taken: array<Byte>)
      requires cfg.Enabled() && body != null
      ensures fresh(taken) && taken[..] == Taken(cfg, body[..])
    {
      var source := body;
      var n := if source.Length <= cfg.maxObjectBytes + 1 then source.Length else cfg.maxObjectBytes + 1;
      taken := new Byte[n](i requires 0 <= i < n reads source => source[i]);
      assert taken[..] == source[..n];
    }

    /** An entry with copies of this reply's header and body. */
    method MakeEntry(key: string, cfg: Config, now: int) returns (entry: CacheEntry)
      requires body != null
      ensures fresh(entry) && fresh(entry.Footprint())
      ensures entry.Value() ==
              Entry(key, status, View(header), body[..], now, now + cfg.policy.lifetime(View(header), cfg.ttl))
      ensures entry.size == body.Length
    {
      ghost var view, bytes := View(header), body[..];
      var lifetime := cfg.policy.lifetime(View(header), cfg.ttl);
      var h := CloneHeader(header);
      var b := CopyOf(body);
      entry := new CacheEntry(key, status, h, b, now, now + lifetime, b.Length);
      assert View(header) == view == View(h) && body[..] == bytes == b[..];
    }
  }

  predicate Says(header: HeaderView, name: string, value: string) {
    name in header && header[name] == [value]
  }

  /** The header of a reply that was offered: its length is that of the body, and unless it failed it is a miss. */
  function Marked(header: HeaderView, body: Option<seq<Byte>>, failed: bool): HeaderView {
    var sized := if body.Some? then WithLength(header, |body.value|) else header;
    if failed then sized else sized["X-Memecdn-Cache" := ["MISS"]]
  }

  /** The index maps the keys of the list, all different, to its elements, and nothing else. */
  ghost predicate Indexes(items: map<string, Element>, nodes: seq<Element>, keys: seq<string>) {
    && |nodes| == |keys|
    && if keys == [] then items == map[]
       else
         && keys[0] in items && items[keys[0]] == nodes[0]
         && Indexes(items - {keys[0]}, nodes[1..], keys[1..])
  }

  lemma {:induction false} IndexesAt(items: map<string, Element>, nodes: seq<Element>, keys: seq<string>, i: nat)
    requires Indexes(items, nodes, keys) && i < |keys|
    ensures keys[i] in items && items[keys[i]] == nodes[i]
    ensures Indexes(items - {keys[i]}, WithoutAt(nodes, i), WithoutAt(keys, i))
  {
    var n, k := WithoutAt(nodes, i), WithoutAt(keys, i);
    if i == 0 {
      assert n == nodes[1..] && k == keys[1..];
    } else {
      var rest := items - {keys[0]};
      IndexesAt(rest, nodes[1..], keys[1..], i - 1);
      assert keys[1..][i - 1] == keys[i] && nodes[1..][i - 1] == nodes[i];
      assert n[1..] == WithoutAt(nodes[1..], i - 1) && k[1..] == WithoutAt(keys[1..], i - 1);
      assert n[0] == nodes[0] && k[0] == keys[0];
      assert rest - {keys[i]} == items - {keys[i]} - {keys[0]};
    }
  }

  lemma IndexesWithFront(items: map<string, Element>, nodes: seq<Element>, keys: seq<string>, k: string, e: Element)
    requires Indexes(items, nodes, keys) && k !in items
    ensures Indexes(items[k := e], [e] + nodes, [k] + keys)
  {
    assert items[k := e] - {k} == items;
    assert ([e] + nodes)[1..] == nodes && ([k] + keys)[1..] == keys;
  }

  lemma IndexesMoved(items: map<string, Element>, nodes: seq<Element>, s: seq<Entry>, i: nat)
    requires Indexes(items, nodes, Keys(s)) && i < |s|
    ensures Indexes(items, [nodes[i]] + WithoutAt(nodes, i), Keys([s[i]] + WithoutAt(s, i)))
  {
    hide Indexes;
    var k := s[i].key;
    IndexesAt(items, nodes, Keys(s), i);
    KeysWithoutAt(s, i);
    IndexesWithFront(items - {k}, WithoutAt(nodes, i), WithoutAt(Keys(s), i), k, nodes[i]);
    DropAndPutBack(items, k);
    assert Keys([s[i]] + WithoutAt(s, i)) == [k] + WithoutAt(Keys(s), i);
  }

  lemma DropAndPutBack(items: map<string, Element>, k: string)
    requires k in items
    ensures (items - {k})[k := items[k]] == items
  {
  }

  /** Looking a key up in the index finds the element at that key's position in the list. */
  lemma {:induction false} IndexFinds(items: map<string, Element>, nodes: seq<Element>, keys: seq<string>, k: string)
    requires Indexes(items, nodes, keys)
    ensures Distinct(keys)
    ensures k in items <==> IndexOf(keys, k) < |keys|
    ensures k in items ==> items[k] == nodes[IndexOf(keys, k)]
  {
    if keys != [] {
      IndexFinds(items - {keys[0]}, nodes[1..], keys[1..], k);
      IndexFinds(items - {keys[0]}, nodes[1..], keys[1..], keys[0]);
      assert IndexOf(keys[1..], keys[0]) == |keys| - 1;
      forall i, j | 0 <= i < j < |keys|
        ensures keys[i] != keys[j]
      {
        assert keys[j] == keys[1..][j - 1];
        if i > 0 {
          assert keys[i] == keys[1..][i - 1];
        }
      }
    }
  }

  ghost predicate Carries(n: Element, e: Entry, owned: set<object>)
    reads owned
  {
    n.value != null && n.value.Footprint() <= owned && Represents(n.value, e)
  }

  ghost predicate Represents(entry: CacheEntry, e: Entry)
    reads entry.Footprint()
  {
    entry.Value() == e && entry.size == |e.body|
  }

  /** Every list element holds the entry at its position, in arrays that are `owned`. */
  ghost predicate Holds(nodes: seq<Element>, s: seq<Entry>, owned: set<object>)
    reads owned
  {
    && |nodes| == |s|
    && (nodes != [] ==> Carries(nodes[0], s[0], owned) && Holds(nodes[1..], s[1..], owned))
  }

  lemma {:induction false} HoldsAt(nodes: seq<Element>, s: seq<Entry>, owned: set<object>, k: nat)
    requires Holds(nodes, s, owned) && k < |s|
    ensures Carries(nodes[k], s[k], owned)
    ensures Holds(WithoutAt(nodes, k), WithoutAt(s, k), owned)
  {
    if k == 0 {
      assert WithoutAt(nodes, 0) == nodes[1..] && WithoutAt(s, 0) == s[1..];
    } else {
      HoldsAt(nodes[1..], s[1..], owned, k - 1);
      assert WithoutAt(nodes, k)[1..] == WithoutAt(nodes[1..], k - 1);
      assert WithoutAt(s, k)[1..] == WithoutAt(s[1..], k - 1);
    }
  }

  lemma HoldsWithFront(n: Element, nodes: seq<Element>, e: Entry, s: seq<Entry>, owned: set<object>)
    requires Holds(nodes, s, owned) && Carries(n, e, owned)
    ensures Holds([n] + nodes, [e] + s, owned)
  {
  }

  lemma {:induction false} HoldsInMore(nodes: seq<Element>, s: seq<Entry>, owned: set<object>, more: set<object>)
    requires Holds(nodes, s, owned) && owned <= more
    ensures Holds(nodes, s, more)
  {
    if nodes != [] {
      HoldsInMore(nodes[1..], s[1..], owned, more);
    }
  }

  class ResponseCache {
    const cfg: Config
    const ll: RecencyList
    var bytes: int
    var items: map<string, Element>
    ghost var contents: seq<Entry>
    ghost var owned: set<object>
    ghost var Repr: set<object>

    /** List, index and counter describe one and the same recency sequence `contents`. */
    ghost predicate Consistent()
      reads this, Repr
    {
      && this in Repr && ll in Repr && ll.Repr <= Repr && owned <= Repr
      && this !in ll.Repr && this !in owned && owned !! ll.Repr
      && ll.Valid()
      && Holds(ll.nodes, contents, owned)
      && Indexes(items, ll.nodes, Keys(contents))
      && bytes == Total(contents)
    }

    ghost predicate Valid()
      reads this, Repr
    {
      && Consistent()
      && (cfg.Enabled() ==> bytes <= cfg.maxBytes)
      && (!cfg.Enabled() ==> contents == [])
    }

    constructor (cfg: Config)
      ensures Valid() && fresh(Repr) && this.cfg == cfg && contents == []
    {
      this.cfg := cfg;
      ll := new RecencyList();
      items, bytes, contents := map[], 0, [];
      new;
      owned := {};
      Repr := {this} + ll.Repr;
    }

    /** Unlink an element; what the remaining elements hold is untouched. */
    method Unlink(elem: Element, ghost k: nat, ghost s: seq<Entry>)
      requires ll.Valid() && owned !! ll.Repr && this !in ll.Repr
      requires Holds(ll.nodes, s, owned)
      requires k < |s| && ll.nodes[k] == elem
      modifies ll.Repr
      ensures ll.Valid() && ll.Repr == old(ll.Repr)
      ensures ll.nodes == WithoutAt(old(ll.nodes), k)
      ensures Holds(ll.nodes, WithoutAt(s, k), owned)
    {
      HoldsAt(ll.nodes, s, owned, k);
      ll.Remove(elem, k);
    }

    /** Take an entry that is no longer linked out of the index and the byte count. */
    method Forget(entry: CacheEntry, ghost k: nat)
      requires k < |contents| == |ll.nodes|
      requires entry.key == contents[k].key && entry.size == |contents[k].body|
      requires bytes == Total(contents)
      requires Indexes(items - {entry.key}, WithoutAt(ll.nodes, k), WithoutAt(Keys(contents), k))
      modifies this`items, this`bytes, this`contents
      ensures Indexes(items, WithoutAt(ll.nodes, k), Keys(contents))
      ensures bytes == Total(contents) <= old(bytes)
      ensures contents == WithoutAt(old(contents), k)
    {
      KeysWithoutAt(contents, k);
      TotalWithoutAt(contents, k);
      items := items - {entry.key};
      bytes := bytes - entry.size;
      contents := WithoutAt(contents, k);
    }

    method RemoveElement(elem: Element?, ghost k: nat)
      requires Consistent()
      requires elem != null ==> k < |contents| && ll.nodes[k] == elem
      modifies this, ll.Repr
      ensures Consistent() && Repr == old(Repr) && owned == old(owned) && ll.Repr == old(ll.Repr)
      ensures bytes <= old(bytes)
      ensures contents == if elem == null then old(contents) else WithoutAt(old(contents), k)
    {
      hide Holds, Indexes, Total, Keys;
      if elem == null {
        return;
      }
      var entry := elem.value;
      HoldsAt(ll.nodes, contents, owned, k);
      IndexesAt(items, ll.nodes, Keys(contents), k);
      Forget(entry, k);
      Unlink(elem, k, old(contents));
    }

    /** Move a live element to the front of the list. */
    method Promote(elem: Element, ghost k: nat)
      requires Consistent()
      requires k < |contents| && ll.nodes[k] == elem
      modifies this`contents, ll.Repr
      ensures Consistent() && Repr == old(Repr) && owned == old(owned)
      ensures contents == [old(contents[k])] + WithoutAt(old(contents), k) && bytes == old(bytes)
    {
      hide Holds, Indexes;
      ghost var nodes, s := ll.nodes, contents;
      HoldsAt(nodes, s, owned, k);
      HoldsWithFront(elem, WithoutAt(nodes, k), s[k], WithoutAt(s, k), owned);
      IndexesMoved(items, nodes, s, k);
      TotalWithoutAt(s, k);
      TotalConcat([s[k]], WithoutAt(s, k));
      contents := [s[k]] + WithoutAt(s, k);
      ll.MoveToFront(elem, k);
    }

    /** The cache is on, the request is a GET or a HEAD, and there is an entry for it that has not expired. */
    ghost predicate IsAnswered(s: seq<Entry>, r: Request, now: int) {
      && cfg.ttl > 0 && cfg.maxBytes > 0 && cfg.maxObjectBytes > 0
      && (r.verb == "GET" || r.verb == "HEAD") && HoldsLive(s, CacheKey(r), now)
    }

    lemma KeysAreDistinct()
      requires Consistent()
      ensures Distinct(Keys(contents))
    {
      IndexFinds(items, ll.nodes, Keys(contents), "");
    }

    /** Look a request up.  A hit is handed out as a copy in arrays of its own. */
    method Get(r: Request, now: int) returns (hit: CacheEntry?)
      requires Valid()
      modifies Repr
      ensures Valid() && Repr == old(Repr)
      ensures contents == AfterLookup(old(contents), cfg, r, now)
      ensures hit != null <==> IsAnswered(old(contents), r, now)
      ensures hit != null ==> r.verb == "GET" || r.verb == "HEAD"
      ensures hit != null ==> AnswerTo(old(contents), cfg, r, now).Some?
      ensures hit != null ==>
                && fresh(hit) && fresh(hit.Footprint())
                && hit.Value() == AnswerTo(old(contents), cfg, r, now).value.(key := "")
    {
      KeysAreDistinct();
      AnswerIffLive(contents, cfg, r, now);
      if !cfg.Enabled() || (r.verb != "GET" && r.verb != "HEAD") {
        return null;
      }
      var key := CacheKey(r);
      IndexFinds(items, ll.nodes, Keys(contents), key);
      if key !in items {
        return null;
      }
      var elem := items[key];
      ghost var k := IndexOf(Keys(contents), key);
      HoldsAt(ll.nodes, contents, owned, k);
      var entry := elem.value;
      if now > entry.expiresAt {
        RemoveElement(elem, k);
        return null;
      }
      hit := Hand(elem, k);
    }

    /** Promote a live element and copy what it holds. */
    method Hand(elem: Element, ghost k: nat) returns (hit: CacheEntry)
      requires Consistent()
      requires k < |contents| && ll.nodes[k] == elem
      modifies this`contents, ll.Repr
      ensures Consistent() && Repr == old(Repr) && owned == old(owned) && bytes == old(bytes)
      ensures contents == [old(contents[k])] + WithoutAt(old(contents), k)
      ensures fresh(hit) && fresh(hit.Footprint()) && hit.Value() == old(contents[k]).(key := "")
    {
      hide Indexes, Total, Keys;
      HoldsAt(ll.nodes, contents, owned, k);
      var entry := elem.value;
      Promote(elem, k);
      HoldsAt(ll.nodes, contents, owned, 0);
      hit := entry.Clone();
    }

    /** Push a new list element for `entry`, whose arrays the cache now owns. */
    method Attach(entry: CacheEntry, ghost e: Entry, ghost s: seq<Entry>) returns (elem: Element)
      requires ll.Valid() && ll.Repr <= Repr && owned <= Repr && this in Repr
      requires this !in ll.Repr && this !in owned && owned !! ll.Repr
      requires Holds(ll.nodes, s, owned) && Represents(entry, e) && entry.Footprint() !! Repr
      modifies ll.Repr, this`owned, this`Repr
      ensures ll.Valid() && ll.Repr <= Repr && owned <= Repr && this in Repr && ll in Repr
      ensures this !in ll.Repr && this !in owned && owned !! ll.Repr
      ensures fresh(Repr - old(Repr) - entry.Footprint()) && fresh(ll.Repr - old(ll.Repr))
      ensures ll.nodes == [elem] + old(ll.nodes) && Holds(ll.nodes, [e] + s, owned)
    {
      hide Represents, Holds, ArraysOf;
      HoldsInMore(ll.nodes, s, owned, owned + entry.Footprint());
      owned := owned + entry.Footprint();
      elem := Push(entry, e, s);
      Repr := Repr + ll.Repr + owned;
    }

    method Push(entry: CacheEntry, ghost e: Entry, ghost s: seq<Entry>) returns (elem: Element)
      requires ll.Valid() && this !in ll.Repr && owned !! ll.Repr
      requires Holds(ll.nodes, s, owned) && Represents(entry, e) && entry.Footprint() <= owned
      modifies ll.Repr
      ensures ll.Valid() && fresh(ll.Repr - old(ll.Repr))
      ensures ll.nodes == [elem] + old(ll.nodes) && Holds(ll.nodes, [e] + s, owned)
    {
      ghost var nodes, arrays := ll.nodes, owned;
      elem := ll.PushFront(entry);
      HoldsWithFront(elem, nodes, e, s, arrays);
    }

    /** Put a new entry in front; its key must not be in the index. */
    method Link(entry: CacheEntry, ghost e: Entry)
      requires Consistent() && e.key !in items
      requires Represents(entry, e) && entry.Footprint() !! Repr
      modifies Repr
      ensures Consistent() && fresh(Repr - old(Repr) - entry.Footprint()) && fresh(ll.Repr - old(ll.Repr))
      ensures contents == [e] + old(contents)
    {
      hide Holds, Indexes, Total, Keys;
      ghost var nodes := ll.nodes;
      var elem := Attach(entry, e, contents);
      Enter(entry, elem, e, nodes);
    }

    /** Put a linked entry into the index and the byte count. */
    method Enter(entry: CacheEntry, elem: Element, ghost e: Entry, ghost nodes: seq<Element>)
      requires entry.key == e.key && entry.size == |e.body|
      requires Indexes(items, nodes, Keys(contents)) && e.key !in items
      requires bytes == Total(contents)
      modifies this`items, this`bytes, this`contents
      ensures contents == [e] + old(contents)
      ensures Indexes(items, [elem] + nodes, Keys(contents))
      ensures bytes == Total(contents)
    {
      TotalConcat([e], contents);
      IndexesWithFront(items, nodes, Keys(contents), e.key, elem);
      assert Keys([e] + contents) == [e.key] + Keys(contents);
      items := items[entry.key := elem];
      bytes := bytes + entry.size;
      contents := [e] + contents;
    }

    /** Evict from the back until the byte bound holds.  The list is never empty before that, so
        the element taken from the back is never null. */
    method Trim()
      requires Consistent() && cfg.maxBytes >= 0
      modifies this, ll.Repr
      ensures Consistent() && Repr == old(Repr) && owned == old(owned)
      ensures contents == Evict(old(contents), cfg.maxBytes) && bytes <= cfg.maxBytes
    {
      while bytes > cfg.maxBytes
        invariant Consistent() && Repr == old(Repr) && owned == old(owned) && ll.Repr == old(ll.Repr)
        invariant Evict(contents, cfg.maxBytes) == Evict(old(contents), cfg.maxBytes)
        decreases |contents|
      {
        var back := ll.Back();
        assert back != null;
        ghost var k := |contents| - 1;
        assert WithoutAt(contents, k) == contents[..k];
        RemoveElement(back, k);
      }
    }

    /** Replace whatever is cached under the entry's key, then make room. */
    method Insert(entry: CacheEntry, ghost e: Entry)
      requires Valid() && cfg.Enabled()
      requires Represents(entry, e) && entry.Footprint() !! Repr
      modifies Repr
      ensures Valid() && fresh(Repr - old(Repr) - entry.Footprint())
      ensures contents == AfterStore(old(contents), e, cfg.maxBytes)
    {
      hide Evict, Replacing, Holds, Indexes, Total, Keys;
      Discard(entry.key);
      Link(entry, e);
      Trim();
    }

    /** Remove what is cached under `key`, if anything is. */
    method Discard(key: string)
      requires Consistent()
      modifies this, ll.Repr
      ensures Consistent() && Repr == old(Repr) && ll.Repr == old(ll.Repr)
      ensures contents == Replacing(old(contents), key) && key !in items
    {
      IndexFinds(items, ll.nodes, Keys(contents), key);
      DroppingFacts(Keys(contents), key);
      KeysOfReplacing(contents, key);
      if key in items {
        RemoveElement(items[key], IndexOf(Keys(contents), key));
      }
      IndexFinds(items, ll.nodes, Keys(contents), key);
    }

    /** Offer a reply to the cache.  The reply is read and its body replaced by what was read; the
        cache keeps copies, so the reply and the cache share no array. */
    method Store(r: Request, resp: Response, now: int) returns (failed: bool)
      requires Valid() && resp !in Repr && resp.Arrays() !! Repr
      modifies Repr, resp
      ensures Valid() && fresh(Repr - old(Repr))
      ensures contents == AfterOffer(old(contents), cfg, r, old(resp.AsReply()), now)
      ensures !cfg.Enabled() || old(resp.body) == null ==> !failed && unchanged(resp)
      ensures cfg.Enabled() ==> resp.Bytes() == Passed(cfg, old(resp.Bytes()))
      ensures cfg.Enabled() && old(resp.body) != null ==>
                && failed == ReadFails(cfg, old(resp.AsReply()))
                && resp.body != null && fresh(resp.body)
                && View(resp.header) == WithLength(old(View(resp.header)), resp.body.Length)
                && resp.contentLength == resp.body.Length
      ensures resp !in Repr && resp.Arrays() !! Repr
      ensures forall a :: a in resp.Arrays() ==> a in old(resp.Arrays()) || fresh(a)
    {
      if !cfg.Enabled() || resp.body == null {
        return false;
      }
      ghost var reply := resp.AsReply();
      assert reply.body == Some(resp.body[..]);
      failed := resp.Drain(cfg);
      assert resp.body[..] == Taken(cfg, reply.body.value);
      if failed || resp.body.Length > cfg.maxObjectBytes {
        return;
      }
      Admit(CacheKey(r), resp, now, EntryFor(cfg, r, reply, now));
    }

    /** Cache a copy of a reply that has been read. */
    method Admit(key: string, resp: Response, now: int, ghost e: Entry)
      requires Valid() && cfg.Enabled() && resp !in Repr && resp.Arrays() !! Repr
      requires resp.body != null
      requires e == Entry(key, resp.status, View(resp.header), resp.body[..], now,
                          now + cfg.policy.lifetime(View(resp.header), cfg.ttl))
      modifies Repr
      ensures Valid() && fresh(Repr - old(Repr)) && resp !in Repr && resp.Arrays() !! Repr
      ensures contents == AfterStore(old(contents), e, cfg.maxBytes)
      ensures View(resp.header) == old(View(resp.header)) && resp.body[..] == old(resp.body[..])
    {
      hide AfterStore, Consistent, CacheKey;
      var entry := resp.MakeEntry(key, cfg, now);
      Insert(entry, e);
    }

    /** The handler: answer from the cache, or pass the origin's reply on and offer it.  If it fails, the visitor gets an
        error instead of the reply. */
    method Serve(r: Request, origin: Response, asked: int, answered: int) returns (hit: CacheEntry?, failed: bool)
      requires Valid() && origin !in Repr && origin.Arrays() !! Repr
      modifies Repr, origin
      ensures Valid() && fresh(Repr - old(Repr)) && origin !in Repr && origin.Arrays() !! Repr
      ensures contents == AfterExchange(old(contents), cfg, Exchange(r, old(origin.AsReply()), asked, answered))
      ensures hit != null <==> IsAnswered(old(contents), r, asked)
      ensures hit != null ==> r.verb == "GET" || r.verb == "HEAD"
      ensures hit != null ==> AnswerTo(old(contents), cfg, r, asked).Some?
      ensures hit != null ==>
                && fresh(hit) && fresh(hit.Footprint()) && unchanged(origin) && !failed
                && hit.Value() == AnswerTo(old(contents), cfg, r, asked).value.(key := "")
      ensures hit == null ==>
                && failed == Fails(cfg, cfg.Sent(r), old(origin.AsReply()))
                && (failed <==>
                      && IsOffered(cfg.Sent(r), old(origin.AsReply()))
                      && old(origin.body) != null && origin.broken && old(origin.body).Length <= cfg.maxObjectBytes)
                && (!failed && origin.Bytes() == old(origin.Bytes()) <==>
                      PassesWhole(cfg, cfg.Sent(r), old(origin.AsReply())))
                && (failed || PassesWhole(cfg, cfg.Sent(r), old(origin.AsReply()))
                    || CutOff(origin, old(origin.AsReply()).body))
    {
      hide AfterExchange, AfterLookup, AfterReply, AnswerTo, Fails, PassesWhole, CacheKey, HoldsLive;
      failed := false;
      ghost var reply, s := origin.AsReply(), contents;
      ExchangeIs(s, cfg, r, reply, asked, answered);
      KeysAreDistinct();
      AnswerIffLive(s, cfg, r, asked);
      hit := Get(r, asked);
      if hit != null {
        return;
      }
      assert origin.AsReply() == reply;
      failed := ModifyResponse(cfg.Sent(r), origin, answered);
    }

    /** What is left of a body that is too long: its first bytes, one more than an object may have, and their number
        as its length. */
    ghost predicate CutOff(origin: Response, sent: Option<seq<Byte>>)
      reads this, origin, origin.Arrays()
    {
      && cfg.Enabled() && sent.Some? && cfg.maxObjectBytes + 1 < |sent.value|
      && origin.Bytes() == Some(sent.value[..cfg.maxObjectBytes + 1])
      && origin.contentLength == cfg.maxObjectBytes + 1
      && Says(View(origin.header), "Content-Length", Decimal(cfg.maxObjectBytes + 1))
    }

    /** Tell the visitor that the reply did not come from the cache. */
    method MarkMiss(origin: Response)
      requires Valid() && origin !in Repr && origin.Arrays() !! Repr
      modifies origin`header
      ensures Valid() && origin.Arrays() !! Repr
      ensures View(origin.header) == old(View(origin.header))["X-Memecdn-Cache" := ["MISS"]]
      ensures origin.Bytes() == old(origin.Bytes())
    {
      origin.SetHeader("X-Memecdn-Cache", "MISS");
    }

    /** The cache is on, and its rules let it keep the reply. */
    ghost predicate IsOffered(r: Request, reply: Reply) {
      && cfg.ttl > 0 && cfg.maxBytes > 0 && cfg.maxObjectBytes > 0
      && cfg.policy.cacheable(r, reply.status, reply.header)
    }

    /** What happens to the reply to an outgoing request on its way back: if the rules allow it, offer it to the cache. */
    method ModifyResponse(r: Request, origin: Response, now: int) returns (failed: bool)
      requires Valid() && origin !in Repr && origin.Arrays() !! Repr
      modifies Repr, origin
      ensures Valid() && fresh(Repr - old(Repr)) && origin !in Repr && origin.Arrays() !! Repr
      ensures contents == AfterReply(old(contents), cfg, r, old(origin.AsReply()), now)
      ensures failed <==>
                && IsOffered(r, old(origin.AsReply()))
                && old(origin.body) != null && origin.broken && old(origin.body).Length <= cfg.maxObjectBytes
      ensures failed == Fails(cfg, r, old(origin.AsReply()))
      ensures !failed && origin.Bytes() == old(origin.Bytes()) <==> PassesWhole(cfg, r, old(origin.AsReply()))
      ensures failed || PassesWhole(cfg, r, old(origin.AsReply())) || CutOff(origin, old(origin.AsReply()).body)
      ensures IsOffered(r, old(origin.AsReply())) ==>
                && View(origin.header) == Marked(old(View(origin.header)), origin.Bytes(), failed)
                && (!failed ==> Says(View(origin.header), "X-Memecdn-Cache", "MISS"))
                && (origin.body != null ==> Says(View(origin.header), "Content-Length", Decimal(origin.body.Length)))
      ensures !IsOffered(r, old(origin.AsReply())) ==> unchanged(origin)
    {
      failed := false;
      if cfg.Enabled() && cfg.policy.cacheable(r, origin.status, View(origin.header)) {
        PassedWholeIff(cfg, r, origin.AsReply());
        failed := Offer(r, origin, now);
      }
    }

    method Offer(r: Request, origin: Response, now: int) returns (failed: bool)
      requires Valid() && origin !in Repr && origin.Arrays() !! Repr && cfg.Enabled()
      modifies Repr, origin
      ensures Valid() && fresh(Repr - old(Repr)) && origin !in Repr && origin.Arrays() !! Repr
      ensures contents == AfterOffer(old(contents), cfg, r, old(origin.AsReply()), now)
      ensures failed == (old(origin.body) != null && ReadFails(cfg, old(origin.AsReply())))
      ensures origin.Bytes() == Passed(cfg, old(origin.Bytes()))
      ensures origin.body != null ==> origin.contentLength == origin.body.Length
      ensures View(origin.header) == Marked(old(View(origin.header)), origin.Bytes(), failed)
    {
      hide AfterOffer, ReadFails, Passed, Consistent;
      failed := Store(r, origin, now);
      if !failed {
        MarkMiss(origin);
      }
    }
  }
}
