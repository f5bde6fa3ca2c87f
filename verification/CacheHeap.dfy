/** The heap the response cache lives in: entries that own their arrays, and a doubly linked
    list closed into a ring by a sentinel, as Go's container/list keeps it. */
module CacheHeap {
  import opened Recency

  type Header = map<string, array<string>>

  ghost function ArraysOf(header: Header): (r: set<object>)
    ensures forall k :: k in header ==> header[k] in r
  {
    set k | k in header :: header[k] as object
  }

  function View(header: Header): HeaderView
    reads ArraysOf(header)
  {
    map k | k in header :: header[k][..]
  }

  method CopyOf<T>(a: array<T>) returns (b: array<T>)
    ensures fresh(b) && b[..] == a[..]
  {
    b := new T[a.Length](i requires 0 <= i < a.Length reads a => a[i]);
    assert b[..] == a[..];
  }

  /** A new map with a new array for every value list. */
  method CloneHeader(header: Header) returns (next: Header)
    ensures fresh(ArraysOf(next))
    ensures View(next) == View(header)
  {
    next := map[];
    var todo := header.Keys;
    while todo != {}
      invariant todo <= header.Keys && next.Keys == header.Keys - todo
      invariant forall k :: k in next ==> fresh(next[k]) && next[k][..] == header[k][..]
      decreases |todo|
    {
      var k :| k in todo;
      var values := CopyOf(header[k]);
      next := next[k := values];
      todo := todo - {k};
    }
  }

  class CacheEntry {
    const key: string
    const status: int
    const header: Header
    const body: array<Byte>
    const storedAt: int
    const expiresAt: int
    const size: int

    constructor (key: string, status: int, header: Header, body: array<Byte>, storedAt: int, expiresAt: int,
                 size: int)
      ensures this.key == key && this.status == status && this.header == header && this.body == body
      ensures this.storedAt == storedAt && this.expiresAt == expiresAt && this.size == size
    {
      this.key, this.status, this.header, this.body := key, status, header, body;
      this.storedAt, this.expiresAt, this.size := storedAt, expiresAt, size;
    }

    ghost function Footprint(): set<object> {
      {body} + ArraysOf(header)
    }

    ghost function Value(): Entry
      reads Footprint()
    {
      Entry(key, status, View(header), body[..], storedAt, expiresAt)
    }

    /** A copy that shares no array with the original; the copy carries no key. */
    method Clone() returns (copy: CacheEntry)
      ensures fresh(copy) && fresh(copy.Footprint())
      ensures copy.Value() == Value().(key := "") && copy.size == size
    {
      var h := CloneHeader(header);
      var b := CopyOf(body);
      copy := new CacheEntry("", status, h, b, storedAt, expiresAt, size);
    }
  }

  class Element {
    var prev: Element?
    var next: Element?
    const value: CacheEntry?

    constructor (value: CacheEntry?)
      ensures this.value == value
    {
      this.value := value;
    }
  }

  class RecencyList {
    const root: Element
    ghost var nodes: seq<Element>
    ghost var Repr: set<object>

    /** The links spell out `nodes` in both directions, and the sentinel closes the ring. */
    ghost predicate Valid()
      reads this, Repr
      ensures Valid() ==> this in Repr
    {
      && this in Repr && root in Repr && (forall i :: 0 <= i < |nodes| ==> nodes[i] in Repr)
      && root !in nodes
      && Distinct(nodes)
      && Spells(nodes)
    }

    ghost predicate Spells(ns: seq<Element>)
      reads this, root, ns
    {
      var n := |ns|;
      && root.next == (if n == 0 then root else ns[0])
      && root.prev == (if n == 0 then root else ns[n - 1])
      && (forall i {:trigger ns[i].prev} :: 0 <= i < n ==> ns[i].prev == if i == 0 then root else ns[i - 1])
      && (forall i {:trigger ns[i].next} :: 0 <= i < n ==> ns[i].next == if i == n - 1 then root else ns[i + 1])
    }

    constructor ()
      ensures Valid() && nodes == [] && fresh(Repr)
    {
      root := new Element(null);
      nodes := [];
      new;
      Repr := {this, root};
      root.next, root.prev := root, root;
    }

    method PushFront(value: CacheEntry) returns (e: Element)
      requires Valid()
      modifies Repr
      ensures Valid() && fresh(Repr - old(Repr)) && fresh(e) && e.value == value
      ensures nodes == [e] + old(nodes)
    {
      e := new Element(value);
      InsertFront(e);
    }

    method InsertFront(e: Element)
      requires Valid() && e != root && e !in nodes
      modifies Repr, e
      ensures Valid() && Repr == old(Repr) + {e}
      ensures nodes == [e] + old(nodes)
    {
      var first := root.next;
      e.prev, e.next := root, first;
      root.next := e;
      first.prev := e;
      nodes := [e] + nodes;
      Repr := Repr + {e};
    }

    method Remove(e: Element, ghost k: nat)
      requires Valid() && k < |nodes| && nodes[k] == e
      modifies Repr
      ensures Valid() && Repr == old(Repr)
      ensures nodes == WithoutAt(old(nodes), k)
    {
      DistinctWithoutAt(nodes, k);
      Bypass(e, k);
      e.next, e.prev := null, null;
      nodes := WithoutAt(nodes, k);
    }

    /** Link the neighbours of an element with each other. */
    method Bypass(e: Element, ghost k: nat)
      requires Valid() && k < |nodes| && nodes[k] == e
      modifies Repr
      ensures nodes == old(nodes) && Repr == old(Repr)
      ensures Spells(WithoutAt(nodes, k))
    {
      ghost var before := if k == 0 then root else nodes[k - 1];
      ghost var after := if k == |nodes| - 1 then root else nodes[k + 1];
      assert nodes[k].prev == before && nodes[k].next == after;
      e.prev.next := e.next;
      e.next.prev := e.prev;
    }

    method MoveToFront(e: Element, ghost k: nat)
      requires Valid() && k < |nodes| && nodes[k] == e
      modifies Repr
      ensures Valid() && Repr == old(Repr)
      ensures nodes == [e] + WithoutAt(old(nodes), k)
    {
      DistinctWithoutAt(nodes, k);
      Remove(e, k);
      InsertFront(e);
    }

    /** The least recently used element, or null when the list is empty. */
    method Back() returns (e: Element?)
      requires Valid()
      ensures e == if nodes == [] then null else nodes[|nodes| - 1]
    {
      if root.prev == root {
        e := null;
      } else {
        e := root.prev;
      }
    }
  }
}
