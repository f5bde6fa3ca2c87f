/** The response cache of the edge, seen as a sequence of entries with the most
    recently used entry first.  Everything here is a pure function of such sequences;
    the class in ResponseCache.dfy is proved to compute these functions in place. */
module Recency {
  import opened Options

  type Byte = b: int | 0 <= b < 256

  type HeaderView = map<string, seq<string>>

  datatype Entry = Entry(key: string, status: int, header: HeaderView, body: seq<Byte>,
                         storedAt: int, expiresAt: int)

  // ---------------------------------------------------------------- sequences

  function WithoutAt<T>(s: seq<T>, i: nat): (r: seq<T>)
    requires i < |s|
    ensures |r| == |s| - 1
  {
    s[..i] + s[i + 1..]
  }

  /** The first position of `k` in `s`, or `|s|` when `k` does not occur. */
  function IndexOf(s: seq<string>, k: string): (i: nat)
    ensures i <= |s|
    ensures i < |s| ==> s[i] == k
    ensures forall j :: 0 <= j < i ==> s[j] != k
  {
    if s == [] then 0 else if s[0] == k then 0 else IndexOf(s[1..], k) + 1
  }

  function Dropping(s: seq<string>, k: string): seq<string> {
    var i := IndexOf(s, k);
    if i == |s| then s else WithoutAt(s, i)
  }

  ghost predicate Distinct<T>(s: seq<T>) {
    forall i, j :: 0 <= i < j < |s| ==> s[i] != s[j]
  }

  // ------------------------------------------------------- cache transitions

  function Keys(s: seq<Entry>): (ks: seq<string>)
    ensures |ks| == |s|
    ensures forall i :: 0 <= i < |s| ==> ks[i] == s[i].key
  {
    seq(|s|, i requires 0 <= i < |s| => s[i].key)
  }

  function Total(s: seq<Entry>): nat {
    if s == [] then 0 else |s[0].body| + Total(s[1..])
  }

  /** Evict from the least recently used end until the byte bound is met. */
  function Evict(s: seq<Entry>, cap: int): seq<Entry> {
    if s == [] || Total(s) <= cap then s else Evict(s[..|s| - 1], cap)
  }

  /** What a lookup answers: the entry, unless there is none or it has expired. */
  function Answer(s: seq<Entry>, k: string, now: int): Option<Entry> {
    var i := IndexOf(Keys(s), k);
    if i == |s| || now > s[i].expiresAt then None else Some(s[i])
  }

  /** What a lookup leaves behind: an expired entry is dropped, a live one moves to the front. */
  function AfterGet(s: seq<Entry>, k: string, now: int): seq<Entry> {
    var i := IndexOf(Keys(s), k);
    if i == |s| then s
    else if now > s[i].expiresAt then WithoutAt(s, i)
    else [s[i]] + WithoutAt(s, i)
  }

  function Replacing(s: seq<Entry>, k: string): seq<Entry> {
    var i := IndexOf(Keys(s), k);
    if i == |s| then s else WithoutAt(s, i)
  }

  function AfterStore(s: seq<Entry>, e: Entry, cap: int): seq<Entry> {
    Evict([e] + Replacing(s, e.key), cap)
  }

  // ------------------------------------------------------------ totals and eviction

  lemma {:induction false} TotalConcat(a: seq<Entry>, b: seq<Entry>)
    ensures Total(a + b) == Total(a) + Total(b)
  {
    if a == [] {
      assert a + b == b;
    } else {
      assert (a + b)[1..] == a[1..] + b;
      TotalConcat(a[1..], b);
    }
  }

  lemma TotalWithoutAt(s: seq<Entry>, i: nat)
    requires i < |s|
    ensures Total(WithoutAt(s, i)) == Total(s) - |s[i].body|
  {
    TotalConcat(s[..i], s[i + 1..]);
    TotalConcat(s[..i], [s[i]] + s[i + 1..]);
    assert s == s[..i] + ([s[i]] + s[i + 1..]);
    assert ([s[i]] + s[i + 1..])[1..] == s[i + 1..];
  }

  lemma TotalOfPrefix(s: seq<Entry>, m: nat, n: nat)
    requires m <= n <= |s|
    ensures Total(s[..m]) <= Total(s[..n])
  {
    TotalConcat(s[..m], s[m..n]);
    assert s[..n] == s[..m] + s[m..n];
  }

  /** Eviction keeps exactly the longest most-recent prefix that fits: what is dropped is the
      shortest least-recent suffix whose removal restores the bound. */
  lemma {:induction false} EvictionIsMinimal(s: seq<Entry>, cap: nat)
    ensures Evict(s, cap) <= s
    ensures Total(Evict(s, cap)) <= cap
    ensures forall n :: |Evict(s, cap)| < n <= |s| ==> Total(s[..n]) > cap
  {
    if s != [] && Total(s) > cap {
      var t := s[..|s| - 1];
      EvictionIsMinimal(t, cap);
      forall n | |Evict(s, cap)| < n <= |s|
        ensures Total(s[..n]) > cap
      {
        if n == |s| {
          assert s[..n] == s;
        } else {
          assert s[..n] == t[..n];
        }
      }
    }
  }

  /** The entry just stored is still there afterwards exactly when it fits on its own. */
  lemma NewEntrySurvivesIffItFits(s: seq<Entry>, e: Entry, cap: nat)
    ensures e.key in Keys(AfterStore(s, e, cap)) <==> |e.body| <= cap
    ensures |e.body| <= cap ==> AfterStore(s, e, cap) != [] && AfterStore(s, e, cap)[0] == e
    ensures |e.body| > cap ==> AfterStore(s, e, cap) == []
  {
    var full := [e] + Replacing(s, e.key);
    var kept := AfterStore(s, e, cap);
    EvictionIsMinimal(full, cap);
    assert full[..1] == [e] && Total([e]) == |e.body|;
    forall n | 1 <= n <= |full|
      ensures Total(full[..n]) >= |e.body|
    {
      TotalOfPrefix(full, 1, n);
    }
    assert kept == full[..|kept|];
    if |e.body| <= cap {
      assert Keys(kept)[0] == e.key;
    }
  }

  // --------------------------------------------------------- one-step invariants

  lemma DistinctWithoutAt<T>(s: seq<T>, i: nat)
    requires i < |s| && Distinct(s)
    ensures Distinct(WithoutAt(s, i))
    ensures s[i] !in WithoutAt(s, i)
    ensures forall x :: x in WithoutAt(s, i) ==> x in s && x != s[i]
    ensures forall x :: x in s && x != s[i] ==> x in WithoutAt(s, i)
  {
  }

  lemma KeysWithoutAt(s: seq<Entry>, i: nat)
    requires i < |s|
    ensures Keys(WithoutAt(s, i)) == WithoutAt(Keys(s), i)
  {
  }

  lemma KeysOfReplacing(s: seq<Entry>, k: string)
    ensures Keys(Replacing(s, k)) == Dropping(Keys(s), k)
  {
  }

  lemma DroppingFacts(s: seq<string>, k: string)
    requires Distinct(s)
    ensures Distinct(Dropping(s, k)) && Distinct([k] + Dropping(s, k))
    ensures forall x :: x in Dropping(s, k) <==> x in s && x != k
  {
  }

  /** The invariant of the recency sequence: keys are unique and the bytes fit. */
  ghost predicate Bounded(s: seq<Entry>, cap: nat) {
    Distinct(Keys(s)) && Total(s) <= cap
  }

  lemma GetKeepsBounded(s: seq<Entry>, k: string, now: int, cap: nat)
    requires Bounded(s, cap)
    ensures Bounded(AfterGet(s, k, now), cap)
  {
    var i := IndexOf(Keys(s), k);
    if i < |s| {
      BoundedWithoutAt(s, i, cap);
    }
  }

  lemma BoundedWithoutAt(s: seq<Entry>, i: nat, cap: nat)
    requires Bounded(s, cap) && i < |s|
    ensures Bounded(WithoutAt(s, i), cap) && Bounded([s[i]] + WithoutAt(s, i), cap)
  {
    hide Total, WithoutAt;
    var r := WithoutAt(s, i);
    TotalWithoutAt(s, i);
    TotalConcat([s[i]], r);
    TotalOfOne(s[i]);
    KeysWithoutAt(s, i);
    DistinctInFront(Keys(s), i);
    assert Keys([s[i]] + r) == [Keys(s)[i]] + Keys(r);
  }

  lemma TotalOfOne(e: Entry)
    ensures Total([e]) == |e.body|
  {
    assert [e][1..] == [];
  }

  lemma DistinctInFront<T>(s: seq<T>, i: nat)
    requires i < |s| && Distinct(s)
    ensures Distinct(WithoutAt(s, i)) && Distinct([s[i]] + WithoutAt(s, i))
  {
    DistinctWithoutAt(s, i);
  }

  lemma StoreKeepsBounded(s: seq<Entry>, e: Entry, cap: nat)
    requires Distinct(Keys(s))
    ensures Bounded(AfterStore(s, e, cap), cap)
  {
    var full := [e] + Replacing(s, e.key);
    DroppingFacts(Keys(s), e.key);
    assert Keys(full) == [e.key] + Dropping(Keys(s), e.key);
    EvictionIsMinimal(full, cap);
    assert Keys(Evict(full, cap)) <= Keys(full);
  }
}
