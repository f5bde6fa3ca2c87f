/** Whole runs of the response cache.  A run of read-through requests is compared with the
    ideal recency stack of its keys, which never forgets anything; a run of arbitrary lookups
    and stores is compared with a plain map from each key to the latest entry stored for it. */
module LruStack {
  import opened Options
  import opened Recency

  // ------------------------------------------------------- the ideal recency stack

  /** The keys of a run, most recently requested first, each once. */
  function Stack(run: seq<string>): seq<string> {
    if run == [] then []
    else
      var k := run[|run| - 1];
      [k] + Dropping(Stack(run[..|run| - 1]), k)
  }

  function Weight(ks: seq<string>, size: string -> nat): nat {
    if ks == [] then 0 else size(ks[0]) + Weight(ks[1..], size)
  }

  /** The longest prefix of `ks` whose sizes sum to at most `cap`. */
  function Fitting(ks: seq<string>, size: string -> nat, cap: nat): seq<string> {
    if Weight(ks, size) <= cap then ks
    else if ks == [] then []
    else Fitting(ks[..|ks| - 1], size, cap)
  }

  lemma {:induction false} WeightConcat(a: seq<string>, b: seq<string>, size: string -> nat)
    ensures Weight(a + b, size) == Weight(a, size) + Weight(b, size)
  {
    if a == [] {
      assert a + b == b;
    } else {
      assert (a + b)[1..] == a[1..] + b;
      WeightConcat(a[1..], b, size);
    }
  }

  lemma WeightOfPrefix(s: seq<string>, m: nat, n: nat, size: string -> nat)
    requires m <= n <= |s|
    ensures Weight(s[..m], size) <= Weight(s[..n], size)
  {
    WeightConcat(s[..m], s[m..n], size);
    assert s[..n] == s[..m] + s[m..n];
  }

  lemma WeightWithoutAt(s: seq<string>, i: nat, size: string -> nat)
    requires i < |s|
    ensures Weight([s[i]] + WithoutAt(s, i), size) == Weight(s, size)
  {
    var a, b, c := s[..i], [s[i]], s[i + 1..];
    assert s == a + (b + c);
    assert WithoutAt(s, i) == a + c;
    WeightConcat(a, b + c, size);
    WeightConcat(b, c, size);
    WeightConcat(a, c, size);
    WeightConcat(b, a + c, size);
  }

  /** `Fitting` is a prefix, it fits, and one key more would not. */
  lemma {:induction false} FittingIsLongest(s: seq<string>, size: string -> nat, cap: nat)
    ensures Fitting(s, size, cap) <= s
    ensures Weight(Fitting(s, size, cap), size) <= cap
    ensures forall n :: |Fitting(s, size, cap)| < n <= |s| ==> Weight(s[..n], size) > cap
  {
    if Weight(s, size) > cap {
      var t := s[..|s| - 1];
      FittingIsLongest(t, size, cap);
      forall n | |Fitting(s, size, cap)| < n <= |s|
        ensures Weight(s[..n], size) > cap
      {
        if n == |s| {
          assert s[..n] == s;
        } else {
          assert s[..n] == t[..n];
        }
      }
    }
  }

  /** ... and nothing else has that property. */
  lemma FittingIsUnique(s: seq<string>, n: nat, size: string -> nat, cap: nat)
    requires n <= |s| && Weight(s[..n], size) <= cap
    requires n < |s| ==> Weight(s[..n + 1], size) > cap
    ensures Fitting(s, size, cap) == s[..n]
  {
    FittingIsLongest(s, size, cap);
    var f := Fitting(s, size, cap);
    assert f == s[..|f|];
    if n < |f| {
      WeightOfPrefix(s, n + 1, |f|, size);
    }
  }

  /** Truncating first and truncating the prefix agree once the prefix holds all that can fit. */
  lemma FittingOfPrefix(q: seq<string>, s: seq<string>, size: string -> nat, cap: nat)
    requires q <= s
    requires q == s || Weight(s[..|q| + 1], size) > cap
    ensures Fitting(q, size, cap) == Fitting(s, size, cap)
  {
    if q != s {
      FittingIsLongest(q, size, cap);
      var f := Fitting(q, size, cap);
      var n := |f|;
      assert f == q[..n];
      PrefixOfPrefix(q, s, n);
      if n < |q| {
        PrefixOfPrefix(q, s, n + 1);
        assert Weight(q[..n + 1], size) > cap;
      }
      FittingIsUnique(s, n, size, cap);
    }
  }

  lemma PrefixOfPrefix(q: seq<string>, s: seq<string>, m: nat)
    requires q <= s && m <= |q|
    ensures q[..m] == s[..m]
  {
  }

  /** The heart of the stack theorem: moving a key to the front and truncating commute, whether
      the key was in the truncated part, beyond it, or nowhere. */
  lemma PromoteCommutesWithFitting(r: seq<string>, k: string, size: string -> nat, cap: nat)
    requires Distinct(r)
    ensures Fitting([k] + Dropping(Fitting(r, size, cap), k), size, cap)
         == Fitting([k] + Dropping(r, k), size, cap)
  {
    FittingIsLongest(r, size, cap);
    var n := |Fitting(r, size, cap)|;
    var i := IndexOf(r, k);
    assert Fitting(r, size, cap) == r[..n];
    IndexInPrefix(r, n, k);
    if n == |r| {
      assert r[..n] == r;
    } else if i < n {
      PromoteInside(r, k, n, size, cap);
    } else if i == n {
      PromoteAtEdge(r, k, n, size, cap);
    } else {
      PromoteBeyond(r, k, n, size, cap);
    }
  }

  lemma PrefixWithoutAt(r: seq<string>, i: nat, n: nat, k: string)
    requires i < n <= |r|
    ensures [k] + WithoutAt(r[..n], i) == ([k] + WithoutAt(r, i))[..n]
  {
    var a, b := [k] + WithoutAt(r[..n], i), ([k] + WithoutAt(r, i))[..n];
    assert forall j :: 0 <= j < n ==> a[j] == b[j];
  }

  lemma PromoteInside(r: seq<string>, k: string, n: nat, size: string -> nat, cap: nat)
    requires n < |r| && Weight(r[..n + 1], size) > cap
    requires IndexOf(r, k) == IndexOf(r[..n], k) < n
    ensures Fitting([k] + Dropping(r[..n], k), size, cap) == Fitting([k] + Dropping(r, k), size, cap)
  {
    var i := IndexOf(r, k);
    var q, s := [k] + WithoutAt(r[..n], i), [k] + WithoutAt(r, i);
    PrefixWithoutAt(r, i, n, k);
    PrefixWithoutAt(r, i, n + 1, k);
    WeightWithoutAt(r[..n + 1], i, size);
    FittingOfPrefix(q, s, size, cap);
  }

  lemma CutAt(r: seq<string>, n: nat)
    requires n < |r|
    ensures WithoutAt(r, n)[..n] == r[..n] == WithoutAt(r[..n + 1], n)
  {
    assert forall j :: 0 <= j < n ==> WithoutAt(r, n)[j] == r[j] == WithoutAt(r[..n + 1], n)[j];
  }

  lemma PromoteAtEdge(r: seq<string>, k: string, n: nat, size: string -> nat, cap: nat)
    requires n < |r| && Weight(r[..n + 1], size) > cap
    requires IndexOf(r, k) == IndexOf(r[..n], k) == n
    ensures Fitting([k] + Dropping(r[..n], k), size, cap) == Fitting([k] + Dropping(r, k), size, cap)
  {
    var q, s := [k] + r[..n], [k] + WithoutAt(r, n);
    CutAt(r, n);
    assert q == s[..n + 1];
    WeightWithoutAt(r[..n + 1], n, size);
    FittingBelow(q, s, size, cap);
  }

  lemma PromoteBeyond(r: seq<string>, k: string, n: nat, size: string -> nat, cap: nat)
    requires n < |r| && Weight(r[..n + 1], size) > cap
    requires IndexOf(r, k) > n && IndexOf(r[..n], k) == n
    ensures Fitting([k] + Dropping(r[..n], k), size, cap) == Fitting([k] + Dropping(r, k), size, cap)
  {
    var q, s := [k] + r[..n], [k] + Dropping(r, k);
    assert Dropping(r, k)[..n + 1] == r[..n + 1];
    assert s[..n + 2] == [k] + r[..n + 1];
    assert q == s[..n + 1];
    WeightConcat([k], r[..n + 1], size);
    FittingOfPrefix(q, s, size, cap);
  }

  lemma IndexInPrefix(r: seq<string>, n: nat, k: string)
    requires n <= |r|
    ensures IndexOf(r[..n], k) == if IndexOf(r, k) < n then IndexOf(r, k) else n
  {
  }

  lemma FittingBelow(q: seq<string>, s: seq<string>, size: string -> nat, cap: nat)
    requires q <= s && Weight(q, size) > cap
    ensures Fitting(q, size, cap) == Fitting(s, size, cap)
  {
    FittingIsLongest(q, size, cap);
    var f := Fitting(q, size, cap);
    var n := |f|;
    assert f == q[..n] && f != q;
    PrefixOfPrefix(q, s, n);
    PrefixOfPrefix(q, s, n + 1);
    FittingIsUnique(s, n, size, cap);
  }

  /** Later requested keys stand before earlier requested ones. */
  ghost predicate InOrder(run: seq<string>, s: seq<string>) {
    forall i, j :: 0 <= i < j < |s| ==> LastRequest(run, s[i]) > LastRequest(run, s[j])
  }

  /** What the stack means, independently of how it is built: it lists exactly the requested
      keys, once each, and orders them by their last request. */
  lemma {:induction false} StackOrdersByLastRequest(run: seq<string>)
    ensures Distinct(Stack(run))
    ensures forall k :: k in Stack(run) <==> k in run
    ensures InOrder(run, Stack(run))
  {
    if run != [] {
      var before, k := run[..|run| - 1], run[|run| - 1];
      StackOrdersByLastRequest(before);
      assert run == before + [k];
      DroppingFacts(Stack(before), k);
      PromotionKeepsOrder(before, k, Stack(before));
    }
  }

  lemma PromotionKeepsOrder(before: seq<string>, k: string, s: seq<string>)
    requires Distinct(s) && InOrder(before, s)
    ensures InOrder(before + [k], [k] + Dropping(s, k))
  {
    hide LastRequest, IndexOf, Dropping;
    var t := [k] + Dropping(s, k);
    forall i, j | 0 <= i < j < |t|
      ensures LastRequest(before + [k], t[i]) > LastRequest(before + [k], t[j])
    {
      var b := PositionBefore(s, k, j - 1);
      if i > 0 {
        var a := PositionBefore(s, k, i - 1);
        Ordered(before, s, a, b);
      }
      PairStaysInOrder(before, k, t[i], t[j]);
    }
  }

  lemma Ordered(run: seq<string>, s: seq<string>, i: nat, j: nat)
    requires InOrder(run, s) && i < j < |s|
    ensures LastRequest(run, s[i]) > LastRequest(run, s[j])
  {
  }

  lemma PairStaysInOrder(before: seq<string>, k: string, x: string, y: string)
    requires y != k && (x == k || LastRequest(before, x) > LastRequest(before, y))
    ensures LastRequest(before + [k], x) > LastRequest(before + [k], y)
  {
    LastAfterOneMore(before, k, x);
    LastAfterOneMore(before, k, y);
  }

  /** Where an element of the shortened sequence stood before. */
  lemma PositionBefore(s: seq<string>, k: string, i: nat) returns (a: nat)
    requires Distinct(s) && i < |Dropping(s, k)|
    ensures a == if i < IndexOf(s, k) then i else i + 1
    ensures a < |s| && s[a] == Dropping(s, k)[i] && s[a] != k
  {
    a := if i < IndexOf(s, k) then i else i + 1;
    assert IndexOf(s, k) < |s| ==> s[IndexOf(s, k)] == k;
  }

  lemma LastAfterOneMore(before: seq<string>, k: string, x: string)
    ensures LastRequest(before + [k], x) == if x == k then |before| else LastRequest(before, x)
  {
    assert (before + [k])[..|before|] == before;
  }

  /** The position of the last request for `k`, or -1. */
  function LastRequest(run: seq<string>, k: string): (i: int)
    ensures -1 <= i < |run|
    ensures i >= 0 ==> run[i] == k
    ensures forall j :: i < j < |run| ==> run[j] != k
  {
    if run == [] then -1
    else if run[|run| - 1] == k then |run| - 1
    else LastRequest(run[..|run| - 1], k)
  }

  // ------------------------------------------------------------- read-through runs

  /** One read-through request: `fetched` is what the origin would answer if it were asked. */
  datatype Visit = Visit(key: string, now: int, fetched: Entry)

  function AfterVisit(s: seq<Entry>, v: Visit, cap: int): seq<Entry> {
    var t := AfterGet(s, v.key, v.now);
    if Answer(s, v.key, v.now).Some? then t else AfterStore(t, v.fetched, cap)
  }

  function Browse(vs: seq<Visit>, cap: int): seq<Entry> {
    if vs == [] then []
    else AfterVisit(Browse(vs[..|vs| - 1], cap), vs[|vs| - 1], cap)
  }

  function Requested(vs: seq<Visit>): (ks: seq<string>)
    ensures |ks| == |vs|
    ensures forall i :: 0 <= i < |vs| ==> ks[i] == vs[i].key
  {
    seq(|vs|, i requires 0 <= i < |vs| => vs[i].key)
  }

  /** Every key always has the same size, and nothing expires while the run lasts. */
  ghost predicate Steady(vs: seq<Visit>, size: string -> nat) {
    && (forall v :: v in vs ==> v.fetched.key == v.key && |v.fetched.body| == size(v.key))
    && (forall i, j :: 0 <= i < j < |vs| ==> vs[j].now <= vs[i].fetched.expiresAt)
  }

  ghost predicate FetchedIn(vs: seq<Visit>, e: Entry) {
    exists i :: 0 <= i < |vs| && vs[i].fetched == e
  }

  lemma {:induction false} EntriesWereFetched(vs: seq<Visit>, cap: nat)
    ensures forall e :: e in Browse(vs, cap) ==> FetchedIn(vs, e)
  {
    if vs != [] {
      var before, v := vs[..|vs| - 1], vs[|vs| - 1];
      EntriesWereFetched(before, cap);
      VisitKeepsOrFetches(Browse(before, cap), v, cap);
      forall e | e in Browse(vs, cap)
        ensures FetchedIn(vs, e)
      {
        if e == v.fetched {
          assert vs[|vs| - 1].fetched == e;
        } else {
          assert FetchedIn(before, e);
          var i :| 0 <= i < |before| && before[i].fetched == e;
          assert vs[i].fetched == e;
        }
      }
    }
  }

  lemma VisitKeepsOrFetches(s: seq<Entry>, v: Visit, cap: nat)
    ensures forall e :: e in AfterVisit(s, v, cap) ==> e in s || e == v.fetched
  {
    var t := AfterGet(s, v.key, v.now);
    assert forall e :: e in t ==> e in s;
    var full := [v.fetched] + Replacing(t, v.fetched.key);
    assert forall e :: e in full ==> e in t || e == v.fetched;
    EvictionIsMinimal(full, cap);
    assert forall e :: e in Evict(full, cap) ==> e in full;
  }

  lemma {:induction false} WeightIsTotal(s: seq<Entry>, size: string -> nat)
    requires forall e :: e in s ==> |e.body| == size(e.key)
    ensures Weight(Keys(s), size) == Total(s)
  {
    if s != [] {
      assert Keys(s)[1..] == Keys(s[1..]);
      WeightIsTotal(s[1..], size);
    }
  }

  lemma {:induction false} EvictIsFitting(s: seq<Entry>, size: string -> nat, cap: nat)
    requires forall e :: e in s ==> |e.body| == size(e.key)
    ensures Keys(Evict(s, cap)) == Fitting(Keys(s), size, cap)
  {
    WeightIsTotal(s, size);
    if s != [] && Total(s) > cap {
      assert Keys(s)[..|s| - 1] == Keys(s[..|s| - 1]);
      EvictIsFitting(s[..|s| - 1], size, cap);
    }
  }

  /** One visit, on keys alone: a hit and a miss both promote the key and truncate. */
  lemma VisitPromotes(s: seq<Entry>, v: Visit, size: string -> nat, cap: nat)
    requires Bounded(s, cap)
    requires forall e :: e in s ==> |e.body| == size(e.key) && v.now <= e.expiresAt
    requires v.fetched.key == v.key && |v.fetched.body| == size(v.key)
    ensures Keys(AfterVisit(s, v, cap)) == Fitting([v.key] + Dropping(Keys(s), v.key), size, cap)
  {
    var i := IndexOf(Keys(s), v.key);
    if i < |s| {
      var t := AfterGet(s, v.key, v.now);
      HitPromotes(s, v, i);
      GetKeepsBounded(s, v.key, v.now, cap);
      WeightIsTotal(t, size);
    } else {
      var full := [v.fetched] + s;
      assert Keys(full) == [v.key] + Keys(s);
      EvictIsFitting(full, size, cap);
    }
  }

  lemma HitPromotes(s: seq<Entry>, v: Visit, i: nat)
    requires i == IndexOf(Keys(s), v.key) < |s| && v.now <= s[i].expiresAt
    ensures var t := AfterGet(s, v.key, v.now);
            && Answer(s, v.key, v.now).Some? && Keys(t) == [v.key] + Dropping(Keys(s), v.key)
            && forall e :: e in t ==> e in s
  {
  }

  lemma {:induction false} BrowseIsBounded(vs: seq<Visit>, cap: nat)
    ensures Bounded(Browse(vs, cap), cap)
  {
    if vs != [] {
      var before, v := vs[..|vs| - 1], vs[|vs| - 1];
      BrowseIsBounded(before, cap);
      GetKeepsBounded(Browse(before, cap), v.key, v.now, cap);
      StoreKeepsBounded(AfterGet(Browse(before, cap), v.key, v.now), v.fetched, cap);
    }
  }

  /** The stack theorem.  After every steady run the cache holds exactly the longest prefix of
      the ideal recency stack that fits into its bound. */
  lemma {:induction false} StackTheorem(vs: seq<Visit>, size: string -> nat, cap: nat)
    requires Steady(vs, size)
    ensures Keys(Browse(vs, cap)) == Fitting(Stack(Requested(vs)), size, cap)
  {
    if vs != [] {
      var n := |vs| - 1;
      var before, v := vs[..n], vs[n];
      SteadyPrefix(vs, size);
      StackTheorem(before, size, cap);
      LastVisitPromotes(vs, size, cap);
      var stack := Stack(Requested(before));
      assert Requested(vs)[..n] == Requested(before);
      assert Stack(Requested(vs)) == [v.key] + Dropping(stack, v.key);
      StackOrdersByLastRequest(Requested(before));
      PromoteCommutesWithFitting(stack, v.key, size, cap);
    }
  }

  lemma SteadyPrefix(vs: seq<Visit>, size: string -> nat)
    requires Steady(vs, size) && vs != []
    ensures Steady(vs[..|vs| - 1], size)
  {
  }

  lemma LastVisitPromotes(vs: seq<Visit>, size: string -> nat, cap: nat)
    requires Steady(vs, size) && vs != []
    ensures var s, k := Browse(vs[..|vs| - 1], cap), vs[|vs| - 1].key;
            Keys(Browse(vs, cap)) == Fitting([k] + Dropping(Keys(s), k), size, cap)
  {
    var before, v := vs[..|vs| - 1], vs[|vs| - 1];
    assert v in vs;
    BrowseIsBounded(before, cap);
    LiveEntries(vs, size, cap);
    VisitPromotes(Browse(before, cap), v, size, cap);
  }

  /** In a steady run what is cached before the last visit has its key's size and is not expired. */
  lemma LiveEntries(vs: seq<Visit>, size: string -> nat, cap: nat)
    requires Steady(vs, size) && vs != []
    ensures forall e :: e in Browse(vs[..|vs| - 1], cap) ==>
              |e.body| == size(e.key) && vs[|vs| - 1].now <= e.expiresAt
  {
    var before, v := vs[..|vs| - 1], vs[|vs| - 1];
    EntriesWereFetched(before, cap);
    forall e | e in Browse(before, cap)
      ensures |e.body| == size(e.key) && v.now <= e.expiresAt
    {
      assert FetchedIn(before, e);
      var i :| 0 <= i < |before| && before[i].fetched == e;
      assert vs[i] in vs && vs[i].fetched == e;
    }
  }

  ghost predicate Hit(vs: seq<Visit>, cap: nat)
    requires vs != []
  {
    Answer(Browse(vs[..|vs| - 1], cap), vs[|vs| - 1].key, vs[|vs| - 1].now).Some?
  }

  /** A visit is a hit exactly when the key was requested before and the keys requested since
      then, together with the key itself, fit into the bound. */
  lemma HitIffReuseFits(vs: seq<Visit>, size: string -> nat, cap: nat)
    requires Steady(vs, size) && vs != []
    ensures var stack := Stack(Requested(vs[..|vs| - 1]));
            var i := IndexOf(stack, vs[|vs| - 1].key);
            Hit(vs, cap) <==> i < |stack| && Weight(stack[..i + 1], size) <= cap
  {
    var n := |vs| - 1;
    var before, v := vs[..n], vs[n];
    SteadyPrefix(vs, size);
    StackTheorem(before, size, cap);
    LiveEntries(vs, size, cap);
    var stack := Stack(Requested(before));
    var s := Browse(before, cap);
    var j := IndexOf(Keys(s), v.key);
    assert Hit(vs, cap) <==> j < |s| by {
      if j < |s| {
        assert s[j] in s;
      }
    }
    InFittingIff(stack, v.key, size, cap);
  }

  lemma InFittingIff(s: seq<string>, k: string, size: string -> nat, cap: nat)
    ensures var i := IndexOf(s, k);
            IndexOf(Fitting(s, size, cap), k) < |Fitting(s, size, cap)|
            <==> i < |s| && Weight(s[..i + 1], size) <= cap
  {
    FittingIsLongest(s, size, cap);
    var n := |Fitting(s, size, cap)|;
    assert Fitting(s, size, cap) == s[..n];
    IndexInPrefix(s, n, k);
    if IndexOf(s, k) < n {
      WeightOfPrefix(s, IndexOf(s, k) + 1, n, size);
    }
  }

  /** No Belady anomaly: a larger bound never turns a hit of any steady run into a miss, and the
      smaller cache always holds a most-recent part of what the larger one holds. */
  lemma LargerCacheKeepsHits(vs: seq<Visit>, size: string -> nat, small: nat, large: nat)
    requires Steady(vs, size) && small <= large
    ensures Keys(Browse(vs, small)) <= Keys(Browse(vs, large))
    ensures vs != [] && Hit(vs, small) ==> Hit(vs, large)
  {
    StackTheorem(vs, size, small);
    StackTheorem(vs, size, large);
    FittingGrows(Stack(Requested(vs)), size, small, large);
    if vs != [] {
      HitIffReuseFits(vs, size, small);
      HitIffReuseFits(vs, size, large);
    }
  }

  lemma FittingGrows(s: seq<string>, size: string -> nat, small: nat, large: nat)
    requires small <= large
    ensures Fitting(s, size, small) <= Fitting(s, size, large)
  {
    FittingIsLongest(s, size, small);
    FittingIsLongest(s, size, large);
    var m, n := |Fitting(s, size, small)|, |Fitting(s, size, large)|;
    assert Fitting(s, size, small) == s[..m] && Fitting(s, size, large) == s[..n];
    assert !(n < m);
  }

  // ------------------------------------------------------ arbitrary runs: a timed map

  datatype Action = Lookup(key: string, now: int) | Keep(entry: Entry)

  function Do(s: seq<Entry>, a: Action, cap: int): seq<Entry> {
    match a
    case Lookup(k, now) => AfterGet(s, k, now)
    case Keep(e) => AfterStore(s, e, cap)
  }

  function DoAll(actions: seq<Action>, cap: int): seq<Entry> {
    if actions == [] then []
    else Do(DoAll(actions[..|actions| - 1], cap), actions[|actions| - 1], cap)
  }

  /** The specification: the entry most recently kept for `k`, if any ever was. */
  function Latest(actions: seq<Action>, k: string): Option<Entry> {
    if actions == [] then None
    else
      var a := actions[|actions| - 1];
      if a.Keep? && a.entry.key == k then Some(a.entry) else Latest(actions[..|actions| - 1], k)
  }

  lemma {:induction false} CacheHoldsLatest(actions: seq<Action>, cap: nat)
    ensures Bounded(DoAll(actions, cap), cap)
    ensures forall e :: e in DoAll(actions, cap) ==> Latest(actions, e.key) == Some(e)
  {
    if actions == [] {
      assert Keys([]) == [];
    } else {
      hide AfterGet, AfterStore, Bounded;
      var before, a := actions[..|actions| - 1], actions[|actions| - 1];
      CacheHoldsLatest(before, cap);
      var s := DoAll(before, cap);
      match a {
        case Lookup(k, now) =>
          GetKeepsBounded(s, k, now, cap);
          GetAddsNothing(s, k, now);
        case Keep(e) =>
          KeptOrNew(s, e, cap);
      }
    }
  }

  /** A lookup adds nothing to the cache. */
  lemma GetAddsNothing(s: seq<Entry>, k: string, now: int)
    ensures forall e :: e in AfterGet(s, k, now) ==> e in s
  {
  }

  /** After a store every entry is the new one, or was there before under another key. */
  lemma KeptOrNew(s: seq<Entry>, e: Entry, cap: nat)
    requires Bounded(s, cap)
    ensures Bounded(AfterStore(s, e, cap), cap)
    ensures forall x :: x in AfterStore(s, e, cap) ==> x == e || (x in s && x.key != e.key)
  {
    hide Evict, Replacing;
    var full := [e] + Replacing(s, e.key);
    StoreKeepsBounded(s, e, cap);
    EvictionIsMinimal(full, cap);
    ReplacingDropsKey(s, e.key);
  }

  lemma ReplacingDropsKey(s: seq<Entry>, k: string)
    requires Distinct(Keys(s))
    ensures forall e :: e in Replacing(s, k) ==> e in s && e.key != k
  {
  }

  /** Over every run of lookups and stores, in any order and at any times, a hit returns the
      entry of the latest store for that key, and never after that entry's expiry. */
  lemma HitsServeLatestStore(actions: seq<Action>, k: string, now: int, cap: nat)
    ensures var answer := Answer(DoAll(actions, cap), k, now);
            answer.Some? ==> answer == Latest(actions, k) && now <= answer.value.expiresAt
  {
    CacheHoldsLatest(actions, cap);
  }

  // ------------------------------------------------------ arbitrary runs: the recency stack

  /** The keys in the order in which they were touched: looked up and found, or stored. */
  function Touches(actions: seq<Action>, cap: int): seq<string> {
    if actions == [] then []
    else
      var before, a := actions[..|actions| - 1], actions[|actions| - 1];
      Touches(before, cap) +
      match a
      case Lookup(k, now) => if Answer(DoAll(before, cap), k, now).Some? then [k] else []
      case Keep(e) => [e.key]
  }

  /** Every key always has the same size, and nothing that was stored expires before a later lookup. */
  ghost predicate Calm(actions: seq<Action>, size: string -> nat) {
    && (forall a :: a in actions && a.Keep? ==> |a.entry.body| == size(a.entry.key))
    && (forall i, j :: 0 <= i < j < |actions| && actions[i].Keep? && actions[j].Lookup? ==>
          actions[j].now <= actions[i].entry.expiresAt)
  }

  lemma {:induction false} EntriesWereKept(actions: seq<Action>, cap: nat)
    ensures forall e :: e in DoAll(actions, cap) ==> Keep(e) in actions
  {
    if actions != [] {
      var before, a := actions[..|actions| - 1], actions[|actions| - 1];
      EntriesWereKept(before, cap);
      DoKeepsOrAdds(DoAll(before, cap), a, cap);
      assert a in actions && forall x :: x in before ==> x in actions;
    }
  }

  lemma DoKeepsOrAdds(s: seq<Entry>, a: Action, cap: nat)
    ensures forall e :: e in Do(s, a, cap) ==> e in s || a == Keep(e)
  {
    hide Evict;
    match a {
      case Lookup(k, now) =>
      case Keep(e) =>
        EvictionIsMinimal([e] + Replacing(s, e.key), cap);
    }
  }

  /** What is cached has its key's size, and is alive for a lookup that comes next. */
  lemma KeptEntriesAreLive(actions: seq<Action>, size: string -> nat, cap: nat)
    requires actions != [] && Calm(actions, size)
    ensures forall e :: e in DoAll(actions[..|actions| - 1], cap) ==>
              |e.body| == size(e.key) && (actions[|actions| - 1].Lookup? ==> actions[|actions| - 1].now <= e.expiresAt)
  {
    var before := actions[..|actions| - 1];
    EntriesWereKept(before, cap);
    forall e | e in DoAll(before, cap)
      ensures |e.body| == size(e.key) && (actions[|actions| - 1].Lookup? ==> actions[|actions| - 1].now <= e.expiresAt)
    {
      assert Keep(e) in before;
      var i :| 0 <= i < |before| && before[i] == Keep(e);
      assert actions[i] in actions;
    }
  }

  lemma StorePromotes(s: seq<Entry>, e: Entry, size: string -> nat, cap: nat)
    requires |e.body| == size(e.key) && forall x :: x in s ==> |x.body| == size(x.key)
    ensures Keys(AfterStore(s, e, cap)) == Fitting([e.key] + Dropping(Keys(s), e.key), size, cap)
  {
    var full := [e] + Replacing(s, e.key);
    KeysOfReplacing(s, e.key);
    assert Keys(full) == [e.key] + Dropping(Keys(s), e.key);
    EvictIsFitting(full, size, cap);
  }

  lemma LookupPromotes(s: seq<Entry>, k: string, now: int, size: string -> nat, cap: nat)
    requires Bounded(s, cap) && Answer(s, k, now).Some?
    requires forall x :: x in s ==> |x.body| == size(x.key)
    ensures Keys(AfterGet(s, k, now)) == Fitting([k] + Dropping(Keys(s), k), size, cap)
  {
    var i := IndexOf(Keys(s), k);
    HitPromotes(s, Visit(k, now, s[i]), i);
    GetKeepsBounded(s, k, now, cap);
    WeightIsTotal(AfterGet(s, k, now), size);
  }

  lemma MissChangesNothing(s: seq<Entry>, k: string, now: int)
    requires Answer(s, k, now).None? && forall e :: e in s ==> now <= e.expiresAt
    ensures AfterGet(s, k, now) == s
  {
  }

  /** The stack theorem for lookups and stores in any order, such as those of overlapping requests: as long as sizes
      are fixed and nothing expires, the cache holds exactly the longest fitting prefix of the stack of
      the keys that were touched. */
  lemma {:induction false} TouchedStackTheorem(actions: seq<Action>, size: string -> nat, cap: nat)
    requires Calm(actions, size)
    ensures Keys(DoAll(actions, cap)) == Fitting(Stack(Touches(actions, cap)), size, cap)
  {
    if actions != [] {
      var before, a := actions[..|actions| - 1], actions[|actions| - 1];
      var s, touched := DoAll(before, cap), Touches(before, cap);
      CalmPrefix(actions, size);
      TouchedStackTheorem(before, size, cap);
      KeptEntriesAreLive(actions, size, cap);
      CacheHoldsLatest(before, cap);
      match a {
        case Lookup(k, now) =>
          if Answer(s, k, now).Some? {
            LookupPromotes(s, k, now, size, cap);
            TouchOnStack(touched, k, size, cap);
          } else {
            MissChangesNothing(s, k, now);
            assert touched + [] == touched;
          }
        case Keep(e) =>
          assert a in actions;
          StorePromotes(s, e, size, cap);
          TouchOnStack(touched, e.key, size, cap);
      }
    }
  }

  lemma CalmPrefix(actions: seq<Action>, size: string -> nat)
    requires actions != [] && Calm(actions, size)
    ensures Calm(actions[..|actions| - 1], size)
  {
  }

  lemma TouchOnStack(run: seq<string>, k: string, size: string -> nat, cap: nat)
    ensures Fitting([k] + Dropping(Fitting(Stack(run), size, cap), k), size, cap) == Fitting(Stack(run + [k]), size, cap)
  {
    assert (run + [k])[..|run|] == run;
    StackOrdersByLastRequest(run);
    PromoteCommutesWithFitting(Stack(run), k, size, cap);
  }
}
